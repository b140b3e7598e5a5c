/**
 Where the scanner of c_lexical.rs and ISO/IEC 14882:2020 part ways on literals. The
 reference automaton adds to the scanner's rules what the standard says about the start
 of a raw string (section 5.13.5 [lex.string]): its prefix is a token of its own, so it
 cannot be the tail of an identifier, of a number (5.9 [lex.ppnumber]) or of a literal's
 suffix (5.13.8 [lex.ext]); its delimiter consists of basic source characters; and an
 apostrophe inside a number separates digits.
 */
module CppLiterals {
  import opened Basics
  import opened Lexical

  const PLUS: Byte := 43
  const MINUS: Byte := 45
  const DOT: Byte := 46

  // ---------------------------------------------------------------- the reference automaton

  predicate Digit(b: Byte) { 48 <= b <= 57 }

  predicate IdentifierByte(b: Byte) {
    Digit(b) || 65 <= b <= 90 || 97 <= b <= 122 || b == 95 || b >= 128
  }

  /** A d-char: a graphic character of the basic source character set other than `(`, `)` and the backslash. */
  predicate DChar(b: Byte) {
    33 <= b <= 126 && b !in {36, 64, 96} && b !in {OPEN, CLOSE, BACKSLASH}
  }

  /** What the bytes right before belong to, in code mode. */
  datatype Token =
    | Between
    | Word(spelling: seq<Byte>)
    | Number(exponent: bool)      // whether a sign may follow
    | Suffix                      // glued to the end of a literal

  /** `u8`, `u`, `U` and `L`. */
  predicate EncodingPrefix(spelling: seq<Byte>) {
    spelling == [117, 56] || spelling == [117] || spelling == [85] || spelling == [76]
  }

  predicate RawMayStart(token: Token) {
    token.Between? || (token.Word? && EncodingPrefix(token.spelling))
  }

  /** An apostrophe between digits, in front of a digit or nondigit. */
  predicate Separates(token: Token, next: Option<Byte>) {
    token.Number? && next.Some? && IdentifierByte(next.value) && next.value < 128
  }

  function StartToken(b: Byte, next: Option<Byte>): Token {
    if Digit(b) || (b == DOT && next.Some? && Digit(next.value)) then Number(false)
    else if IdentifierByte(b) then Word([b])
    else Between
  }

  function StepToken(token: Token, b: Byte, next: Option<Byte>): Token {
    match token
    case Between => StartToken(b, next)
    case Word(spelling) => if IdentifierByte(b) then Word(spelling + [b]) else StartToken(b, next)
    case Suffix => if IdentifierByte(b) then Suffix else StartToken(b, next)
    case Number(exponent) =>
      if IdentifierByte(b) then Number(b in {69, 101, 80, 112})
      else if b == DOT || (exponent && (b == PLUS || b == MINUS)) || (b == APOSTROPHE && Separates(token, next)) then
        Number(false)
      else StartToken(b, next)
  }

  /** A raw string that the scanner opens here is none. */
  predicate NoRawString(token: Token, b: Byte, next: Option<Byte>) {
    b == UPPER_R && next == Some(QUOTE) && !RawMayStart(token)
  }

  function StandardStep(mode: Mode, token: Token, b: Byte, next: Option<Byte>, isCpp: bool): Mode {
    match mode
    case Code =>
      if isCpp && (NoRawString(token, b, next) || (b == APOSTROPHE && Separates(token, next))) then Code
      else StepCode(b, next, isCpp)
    case RawDelimiter(_) => if DelimiterByte(b) && !DChar(b) then Unterminated else Step(mode, b, next, isCpp)
    case _ => Step(mode, b, next, isCpp)
  }

  function TokenAfter(mode: Mode, after: Mode, token: Token, b: Byte, next: Option<Byte>): Token {
    if after != Code then Between
    else if mode == Code then StepToken(token, b, next)
    else if mode.Quoted? || mode.RawBody? then Suffix
    else Between
  }

  /** Mode and token in front of byte `i`. */
  function StandardAt(bytes: seq<Byte>, isCpp: bool, i: nat): (Mode, Token)
    requires i <= |bytes|
  {
    if i == 0 then (Code, Between)
    else
      var (mode, token) := StandardAt(bytes, isCpp, i - 1);
      var b, next := bytes[i - 1], Peek(bytes, i);
      var after := StandardStep(mode, token, b, next, isCpp);
      (after, TokenAfter(mode, after, token, b, next))
  }

  predicate StandardCode(bytes: seq<Byte>, isCpp: bool, i: nat)
    requires i < |bytes|
  {
    StandardAt(bytes, isCpp, i).0 == Code && StandardAt(bytes, isCpp, i + 1).0 == Code
  }

  // ---------------------------------------------------------------- where they part

  /**
   Byte `i` is an `R` in front of a quote that continues a token other than an encoding
   prefix, or an apostrophe inside a number, or a byte of a raw-string delimiter that the
   scanner admits and the standard does not.
   */
  predicate Departs(bytes: seq<Byte>, isCpp: bool, i: nat)
    requires i < |bytes|
  {
    var (mode, token) := StandardAt(bytes, isCpp, i);
    var b, next := bytes[i], Peek(bytes, i + 1);
    (isCpp && mode == Code && (NoRawString(token, b, next) || (b == APOSTROPHE && Separates(token, next))))
    || (mode.RawDelimiter? && |mode.delimiter| < MAX_RAW_DELIMITER && DelimiterByte(b) && !DChar(b))
  }

  /** Scanner and standard are in the same mode in front of byte `k`. */
  predicate Together(bytes: seq<Byte>, isCpp: bool, k: nat)
    requires k <= |bytes|
  {
    ModeAt(bytes, isCpp, k) == StandardAt(bytes, isCpp, k).0
  }

  lemma PartsIff(bytes: seq<Byte>, isCpp: bool, i: nat)
    requires i < |bytes| && Together(bytes, isCpp, i)
    ensures Together(bytes, isCpp, i + 1) <==> !Departs(bytes, isCpp, i)
  {
  }

  /** They are together in front of every byte up to `n` if and only if no earlier byte departs. */
  lemma {:induction false} AgreesIff(bytes: seq<Byte>, isCpp: bool, n: nat)
    requires n <= |bytes|
    ensures (forall k: nat :: k <= n ==> Together(bytes, isCpp, k))
      <==> (forall i: nat :: i < n ==> !Departs(bytes, isCpp, i))
    decreases n
  {
    if n == 0 {
      assert Together(bytes, isCpp, 0);
    } else {
      AgreesIff(bytes, isCpp, n - 1);
      if Together(bytes, isCpp, n - 1) {
        PartsIff(bytes, isCpp, n - 1);
      }
    }
  }

  /** C has none of this: without C++ rules both always agree. */
  lemma {:induction false} NoRawStringsInC(bytes: seq<Byte>, n: nat)
    requires n <= |bytes|
    ensures !StandardAt(bytes, false, n).0.RawDelimiter? && StandardAt(bytes, false, n).0 != Skip(RawDelimiter([]))
    ensures forall i: nat :: i < n ==> !Departs(bytes, false, i)
    decreases n
  {
    if n > 0 {
      NoRawStringsInC(bytes, n - 1);
      SkipsAreFlat(bytes, false, n - 1);
    }
  }

  /** A skipped second byte leads to a comment, out of one, on in a literal, or to a delimiter. */
  lemma {:induction false} SkipsAreFlat(bytes: seq<Byte>, isCpp: bool, n: nat)
    requires n <= |bytes|
    ensures var mode := StandardAt(bytes, isCpp, n).0;
      (mode.Quoted? ==> mode.quote in {QUOTE, APOSTROPHE})
      && (mode.Skip? ==>
        mode.next == LineComment(false) || mode.next == BlockComment
        || (mode.next.Quoted? && mode.next.quote in {QUOTE, APOSTROPHE})
        || (mode.next == Code && n < |bytes| && bytes[n] == SLASH && n > 0 && bytes[n - 1] == STAR)
        || (mode.next == RawDelimiter([]) && isCpp && n < |bytes| && bytes[n] == QUOTE
            && n > 0 && bytes[n - 1] == UPPER_R))
    decreases n
  {
    if n > 0 {
      SkipsAreFlat(bytes, isCpp, n - 1);
    }
  }

  // ---------------------------------------------------------------- three inputs

  /** `xR"a";`: an identifier and an ordinary string. The scanner loses the semicolon. */
  lemma TailOfAnIdentifier()
    ensures var text := [120, UPPER_R, QUOTE, 97, QUOTE, 59];
      !LexicallyCode(text, true, 5) && StandardCode(text, true, 5) && Departs(text, true, 1)
  {
    var text: seq<Byte> := [120, UPPER_R, QUOTE, 97, QUOTE, 59];
    assert StandardAt(text, true, 1) == (Code, Word([120]));
    assert StandardAt(text, true, 2).0 == Code && StandardAt(text, true, 3).0 == Quoted(QUOTE);
    assert StandardAt(text, true, 4).0 == Quoted(QUOTE) && StandardAt(text, true, 5) == (Code, Suffix);
    assert ModeAt(text, true, 1) == Code && ModeAt(text, true, 2) == Skip(RawDelimiter([]));
    assert ModeAt(text, true, 3) == RawDelimiter([]) && ModeAt(text, true, 4) == RawDelimiter([97]);
    assert ModeAt(text, true, 5) == RawDelimiter([97, QUOTE]);
  }

  /** `1'0;`: a number with a digit separator. The scanner takes the rest for a character literal. */
  lemma DigitSeparator()
    ensures var text := [49, APOSTROPHE, 48, 59];
      !LexicallyCode(text, true, 3) && StandardCode(text, true, 3) && Departs(text, true, 1)
  {
    var text: seq<Byte> := [49, APOSTROPHE, 48, 59];
    assert StandardAt(text, true, 1) == (Code, Number(false)) && StandardAt(text, true, 2) == (Code, Number(false));
    assert StandardAt(text, true, 3) == (Code, Number(false));
    assert ModeAt(text, true, 1) == Code && ModeAt(text, true, 2) == Quoted(APOSTROPHE);
    assert ModeAt(text, true, 3) == Quoted(APOSTROPHE);
  }

  const VERTICAL_TAB_LITERAL: seq<Byte> := [UPPER_R, QUOTE, 11, OPEN, CLOSE, 11, QUOTE, 59]

  /** `R"` with a vertical tab as its delimiter: the scanner accepts it, the standard has no such literal. */
  lemma VerticalTabDelimiter()
    ensures var text := VERTICAL_TAB_LITERAL;
      LexicallyCode(text, true, 7) && !StandardCode(text, true, 7) && Departs(text, true, 2)
  {
    ScannerTakesVerticalTab();
    var text := VERTICAL_TAB_LITERAL;
    assert StandardAt(text, true, 1).0 == Skip(RawDelimiter([])) && StandardAt(text, true, 2).0 == RawDelimiter([]);
    assert StandardAt(text, true, 3).0 == Unterminated;
    NeverTerminates(text, true, 3, 7);
  }

  lemma ScannerTakesVerticalTab()
    ensures LexicallyCode(VERTICAL_TAB_LITERAL, true, 7)
  {
    var text := VERTICAL_TAB_LITERAL;
    assert ModeAt(text, true, 1) == Skip(RawDelimiter([])) && ModeAt(text, true, 2) == RawDelimiter([]);
    assert ModeAt(text, true, 3) == RawDelimiter([11]) && ModeAt(text, true, 4) == RawBody([11], None);
    assert ModeAt(text, true, 5) == RawBody([11], Some(0)) && ModeAt(text, true, 6) == RawBody([11], Some(1));
    assert ModeAt(text, true, 7) == Code;
  }

  lemma {:induction false} NeverTerminates(bytes: seq<Byte>, isCpp: bool, i: nat, n: nat)
    requires i <= n <= |bytes| && StandardAt(bytes, isCpp, i).0 == Unterminated
    ensures StandardAt(bytes, isCpp, n).0 == Unterminated
    decreases n
  {
    if i < n {
      NeverTerminates(bytes, isCpp, i, n - 1);
    }
  }

  // ---------------------------------------------------------------- read off the bytes

  /** No token goes on over this byte, and no literal ends with it. */
  predicate Separator(b: Byte) {
    !IdentifierByte(b) && b !in {DOT, PLUS, MINUS, QUOTE, APOSTROPHE}
  }

  predicate FreshAt(bytes: seq<Byte>, j: nat) {
    j == 0 || (j <= |bytes| && Separator(bytes[j - 1]))
  }

  /** `[j, i)` is a run of identifier bytes behind a separator. */
  predicate RunAt(bytes: seq<Byte>, j: nat, i: nat) {
    j <= i <= |bytes| && FreshAt(bytes, j) && forall k :: j <= k < i ==> IdentifierByte(bytes[k])
  }

  lemma FreshIsBetween(bytes: seq<Byte>, isCpp: bool, j: nat)
    requires j <= |bytes| && StandardAt(bytes, isCpp, j).0 == Code && FreshAt(bytes, j)
    ensures StandardAt(bytes, isCpp, j).1 == Between
  {
    if j > 0 {
      SkipsAreFlat(bytes, isCpp, j - 1);
    }
  }

  lemma CodeBehind(bytes: seq<Byte>, isCpp: bool, i: nat)
    requires 0 < i <= |bytes| && StandardAt(bytes, isCpp, i).0 == Code && IdentifierByte(bytes[i - 1])
    ensures StandardAt(bytes, isCpp, i - 1).0 == Code
  {
    SkipsAreFlat(bytes, isCpp, i - 1);
  }

  /** The token in front of a byte can be read off the run before it. */
  lemma {:induction false} RunReadsBack(bytes: seq<Byte>, isCpp: bool, j: nat, i: nat)
    requires RunAt(bytes, j, i) && StandardAt(bytes, isCpp, i).0 == Code
    ensures var token := StandardAt(bytes, isCpp, i).1;
      if j == i then token == Between
      else if Digit(bytes[j]) then token.Number?
      else token == Word(bytes[j..i])
    decreases i
  {
    if j == i {
      FreshIsBetween(bytes, isCpp, i);
    } else {
      CodeBehind(bytes, isCpp, i);
      RunReadsBack(bytes, isCpp, j, i - 1);
      assert bytes[j..i] == bytes[j..i - 1] + [bytes[i - 1]];
    }
  }

  /** A delimiter in progress lies right behind `R"`. */
  lemma {:induction false} DelimiterReadsBack(bytes: seq<Byte>, isCpp: bool, i: nat)
    requires i <= |bytes| && StandardAt(bytes, isCpp, i).0.RawDelimiter?
    ensures var n := |StandardAt(bytes, isCpp, i).0.delimiter|;
      n + 2 <= i && isCpp && bytes[i - n - 2] == UPPER_R && bytes[i - n - 1] == QUOTE
      && forall k :: i - n <= k < i ==> bytes[k] != OPEN
    decreases i
  {
    SkipsAreFlat(bytes, isCpp, i - 1);
    if StandardAt(bytes, isCpp, i - 1).0.RawDelimiter? {
      DelimiterReadsBack(bytes, isCpp, i - 1);
    }
  }

  predicate RawPrefixAt(bytes: seq<Byte>, i: nat) { i + 1 < |bytes| && bytes[i] == UPPER_R && bytes[i + 1] == QUOTE }

  /** Every `R"` stands behind a separator, with at most an encoding prefix in between. */
  predicate PrefixesStandAlone(bytes: seq<Byte>) {
    forall i :: 0 <= i < |bytes| && RawPrefixAt(bytes, i) ==>
      exists j :: 0 <= j <= i && RunAt(bytes, j, i) && (j == i || EncodingPrefix(bytes[j..i]))
  }

  /** No apostrophe follows a number. */
  predicate NoSeparators(bytes: seq<Byte>) {
    forall i :: 0 <= i < |bytes| && bytes[i] == APOSTROPHE ==>
      exists j :: 0 <= j <= i && RunAt(bytes, j, i) && (j == i || !Digit(bytes[j]))
  }

  /** What stands between `R"` and the next parenthesis, as far as a delimiter may reach, is white space or basic. */
  predicate BasicDelimiters(bytes: seq<Byte>) {
    forall i, k :: 0 <= i && RawPrefixAt(bytes, i) && i + 2 <= k < |bytes| && k < i + 2 + MAX_RAW_DELIMITER ==>
      OPEN in bytes[i + 2..k] || !DelimiterByte(bytes[k]) || DChar(bytes[k])
  }

  lemma PlainByteStays(bytes: seq<Byte>, isCpp: bool, i: nat)
    requires PrefixesStandAlone(bytes) && NoSeparators(bytes) && BasicDelimiters(bytes) && i < |bytes|
    ensures !Departs(bytes, isCpp, i)
  {
    var mode := StandardAt(bytes, isCpp, i).0;
    if mode == Code && RawPrefixAt(bytes, i) {
      var j :| 0 <= j <= i && RunAt(bytes, j, i) && (j == i || EncodingPrefix(bytes[j..i]));
      RunReadsBack(bytes, isCpp, j, i);
      assert j < i ==> bytes[j] == bytes[j..i][0];
    } else if mode == Code && bytes[i] == APOSTROPHE {
      var j :| 0 <= j <= i && RunAt(bytes, j, i) && (j == i || !Digit(bytes[j]));
      RunReadsBack(bytes, isCpp, j, i);
    } else if mode.RawDelimiter? {
      DelimiterReadsBack(bytes, isCpp, i);
      var start := i - |mode.delimiter| - 2;
      assert RawPrefixAt(bytes, start) && OPEN !in bytes[start + 2..i];
    }
  }

  /**
   A check on the text alone that suffices for literals and comments: when every `R"` stands
   alone, no apostrophe follows a number and delimiters are basic, the scanner is in code
   exactly where the standard is.
   */
  lemma PlainLiteralsAgree(bytes: seq<Byte>, isCpp: bool)
    requires PrefixesStandAlone(bytes) && NoSeparators(bytes) && BasicDelimiters(bytes)
    ensures forall i: nat :: i < |bytes| ==> LexicallyCode(bytes, isCpp, i) == StandardCode(bytes, isCpp, i)
  {
    forall i: nat | i < |bytes| ensures !Departs(bytes, isCpp, i) {
      PlainByteStays(bytes, isCpp, i);
    }
    AgreesIff(bytes, isCpp, |bytes|);
    forall i: nat | i < |bytes| ensures LexicallyCode(bytes, isCpp, i) == StandardCode(bytes, isCpp, i) {
      assert Together(bytes, isCpp, i) && Together(bytes, isCpp, i + 1);
    }
  }
}
