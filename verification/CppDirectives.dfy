/**
 Preprocessing directives by ISO/IEC 14882:2020 (sections 5.2 [lex.phases] and 15.1
 [cpp.pre]) against the line scanner of c_lexical.rs. By the standard a directive starts at
 a `#` that is the first token of its line, after lines are spliced and comments replaced
 by space, and it ends with that line. The scanner looks at physical lines and at the first
 byte of each that is not white space.
 */
module CppDirectives {
  import opened Basics
  import opened Lexical
  import opened CppLiterals

  const VERTICAL_TAB: Byte := 11

  // ---------------------------------------------------------------- the reference automaton

  /** What there is on the logical line so far: nothing but white space and comments, a directive, or other text. */
  datatype Line = Blank | InDirective | OtherText

  /** The next byte that is not a carriage return is a newline. */
  predicate NewlineFollows(bytes: seq<Byte>, i: nat)
    decreases |bytes| - i
  {
    i < |bytes| && (bytes[i] == NEWLINE || (bytes[i] == RETURN && NewlineFollows(bytes, i + 1)))
  }

  /** The newline at `i` is spliced: the last byte before it that is not a carriage return is a backslash. */
  predicate Spliced(bytes: seq<Byte>, i: nat)
    requires i <= |bytes|
  {
    LastNonReturn(bytes, i) == Some(BACKSLASH)
  }

  /** A newline in this mode is part of a comment or of a raw string; ordinary literals cannot contain one. */
  predicate HoldsLine(mode: Mode) { mode.BlockComment? || mode.RawBody? }

  predicate Comment(mode: Mode) { mode.LineComment? || mode.BlockComment? }

  /** The byte between these two modes belongs to a comment. */
  predicate InComment(mode: Mode, after: Mode) {
    Comment(mode) || (mode.Skip? && (Comment(mode.next) || mode.next == Code))
    || (mode == Code && after.Skip? && Comment(after.next))
  }

  predicate WhiteSpace(bytes: seq<Byte>, i: nat)
    requires i < |bytes|
  {
    IsSpace(bytes[i]) || bytes[i] == VERTICAL_TAB || (bytes[i] == BACKSLASH && NewlineFollows(bytes, i + 1))
  }

  function LineAfter(line: Line, bytes: seq<Byte>, isCpp: bool, i: nat): Line
    requires i < |bytes|
  {
    var mode, after := StandardAt(bytes, isCpp, i).0, StandardAt(bytes, isCpp, i + 1).0;
    if bytes[i] == NEWLINE then
      (if HoldsLine(mode) || Spliced(bytes, i) then line else Blank)
    else if line != Blank || InComment(mode, after) then line
    else if mode != Code then OtherText
    else if WhiteSpace(bytes, i) then Blank
    else if bytes[i] == HASH then InDirective
    else OtherText
  }

  /** The logical line in front of byte `i`. */
  function LineAt(bytes: seq<Byte>, isCpp: bool, i: nat): Line
    requires i <= |bytes|
  {
    if i == 0 then Blank else LineAfter(LineAt(bytes, isCpp, i - 1), bytes, isCpp, i - 1)
  }

  /** Byte `i`, not white space, is code by the standard and on no directive. */
  predicate StandardCodeByte(bytes: seq<Byte>, isCpp: bool, i: nat)
    requires i < |bytes|
  {
    StandardCode(bytes, isCpp, i) && LineAt(bytes, isCpp, i + 1) != InDirective
  }

  // ---------------------------------------------------------------- the scanner's lines, read off the bytes

  /** Only white space stands between the start of the physical line and `i`. */
  predicate StartsLine(bytes: seq<Byte>, i: nat)
    requires i <= |bytes|
  {
    i == 0 || bytes[i - 1] == NEWLINE || (IsSpace(bytes[i - 1]) && StartsLine(bytes, i - 1))
  }

  /** The last byte of the physical line before `i` that is not white space is a backslash. */
  predicate BackslashBefore(bytes: seq<Byte>, i: nat)
    requires i <= |bytes|
  {
    i > 0 && bytes[i - 1] != NEWLINE
    && (bytes[i - 1] == BACKSLASH || (IsSpace(bytes[i - 1]) && BackslashBefore(bytes, i - 1)))
  }

  lemma {:induction false} ScannerLine(bytes: seq<Byte>, i: nat)
    requires i <= |bytes|
    ensures var state := LineStateAt(bytes, i);
      if state.Directive? then state.escaped == BackslashBefore(bytes, i)
      else state == LineStart <==> StartsLine(bytes, i)
    decreases i
  {
    if i > 0 {
      ScannerLine(bytes, i - 1);
    }
  }

  lemma {:induction false} DirectiveToLineEnd(bytes: seq<Byte>, i: nat)
    requires i <= |bytes| && LineStateAt(bytes, i) != LineStart
    ensures LineStateAt(bytes, LineEnd(bytes, i)).Directive? == LineStateAt(bytes, i).Directive?
    decreases |bytes| - i
  {
    if i < |bytes| && bytes[i] != NEWLINE {
      DirectiveToLineEnd(bytes, i + 1);
    }
  }

  /** For a byte that is not white space, whether it lies on a directive is settled right behind it. */
  lemma SettledBehind(bytes: seq<Byte>, i: nat)
    requires i < |bytes| && !IsSpace(bytes[i])
    ensures OnDirectiveLine(bytes, i) <==> LineStateAt(bytes, i + 1).Directive?
  {
    DirectiveToLineEnd(bytes, i + 1);
  }

  // ---------------------------------------------------------------- where they part

  predicate LinesTogether(bytes: seq<Byte>, isCpp: bool, k: nat)
    requires k <= |bytes|
  {
    LineStateAt(bytes, k).Directive? == (LineAt(bytes, isCpp, k) == InDirective)
  }

  /**
   Outside of a directive: a `#` that is first on its physical line and not the first token of
   its logical one, or the other way round. Inside: a newline that ends the directive for one
   of the two only.
   */
  predicate LineDeparts(bytes: seq<Byte>, isCpp: bool, i: nat)
    requires i < |bytes|
  {
    var mode, line := StandardAt(bytes, isCpp, i).0, LineAt(bytes, isCpp, i);
    if line == InDirective then
      bytes[i] == NEWLINE && BackslashBefore(bytes, i) != (HoldsLine(mode) || Spliced(bytes, i))
    else
      bytes[i] == HASH && StartsLine(bytes, i) != (line == Blank && mode == Code)
  }

  lemma LinesPartIff(bytes: seq<Byte>, isCpp: bool, i: nat)
    requires i < |bytes| && LinesTogether(bytes, isCpp, i)
    ensures LinesTogether(bytes, isCpp, i + 1) <==> !LineDeparts(bytes, isCpp, i)
  {
    ScannerLine(bytes, i);
  }

  /** Everything the map is computed from is as the standard has it in front of byte `k`: the mode and the directive. */
  predicate MapTogether(bytes: seq<Byte>, isCpp: bool, k: nat)
    requires k <= |bytes|
  {
    Together(bytes, isCpp, k) && LinesTogether(bytes, isCpp, k)
  }

  predicate MapDeparts(bytes: seq<Byte>, isCpp: bool, i: nat)
    requires i < |bytes|
  {
    Departs(bytes, isCpp, i) || LineDeparts(bytes, isCpp, i)
  }

  lemma MapPartsIff(bytes: seq<Byte>, isCpp: bool, i: nat)
    requires i < |bytes| && MapTogether(bytes, isCpp, i)
    ensures MapTogether(bytes, isCpp, i + 1) <==> !MapDeparts(bytes, isCpp, i)
  {
    PartsIff(bytes, isCpp, i);
    LinesPartIff(bytes, isCpp, i);
  }

  /** Scanner and standard agree on mode and directive up to `n` if and only if no earlier byte departs. */
  lemma {:induction false} MapAgreesIff(bytes: seq<Byte>, isCpp: bool, n: nat)
    requires n <= |bytes|
    ensures (forall k: nat :: k <= n ==> MapTogether(bytes, isCpp, k))
      <==> (forall i: nat :: i < n ==> !MapDeparts(bytes, isCpp, i))
    decreases n
  {
    if n == 0 {
      assert MapTogether(bytes, isCpp, 0);
    } else {
      MapAgreesIff(bytes, isCpp, n - 1);
      if MapTogether(bytes, isCpp, n - 1) {
        MapPartsIff(bytes, isCpp, n - 1);
      }
    }
  }

  /** Agreement in front of a byte and behind it makes the map right about it. */
  lemma TogetherIsCode(bytes: seq<Byte>, isCpp: bool, i: nat)
    requires i < |bytes| && !IsSpace(bytes[i])
    requires MapTogether(bytes, isCpp, i) && MapTogether(bytes, isCpp, i + 1)
    ensures IsCodeByte(bytes, isCpp, i) == StandardCodeByte(bytes, isCpp, i)
  {
    SettledBehind(bytes, i);
  }

  /**
   Met in code outside of a directive, with scanner and standard agreed so far, a byte other
   than white space is marked as the standard has it if and only if it does not depart.
   */
  lemma CodeByteIff(bytes: seq<Byte>, isCpp: bool, i: nat)
    requires i < |bytes| && !IsSpace(bytes[i]) && MapTogether(bytes, isCpp, i)
    requires StandardAt(bytes, isCpp, i).0 == Code && LineAt(bytes, isCpp, i) != InDirective
    ensures IsCodeByte(bytes, isCpp, i) == StandardCodeByte(bytes, isCpp, i) <==> !MapDeparts(bytes, isCpp, i)
  {
    SettledBehind(bytes, i);
    PartsIff(bytes, isCpp, i);
    LinesPartIff(bytes, isCpp, i);
  }

  /** Without a departing byte before `n`, the map is right about every byte before `n` that is not white space. */
  lemma MapIsRight(bytes: seq<Byte>, isCpp: bool, n: nat)
    requires n <= |bytes| && forall i: nat :: i < n ==> !MapDeparts(bytes, isCpp, i)
    ensures forall i: nat :: i < n && !IsSpace(bytes[i]) ==>
      IsCodeByte(bytes, isCpp, i) == StandardCodeByte(bytes, isCpp, i)
  {
    MapAgreesIff(bytes, isCpp, n);
    forall i: nat | i < n && !IsSpace(bytes[i])
      ensures IsCodeByte(bytes, isCpp, i) == StandardCodeByte(bytes, isCpp, i)
    {
      TogetherIsCode(bytes, isCpp, i);
    }
  }

  // ---------------------------------------------------------------- inputs on which they part

  const HASH_IN_COMMENT: seq<Byte> := [SLASH, STAR, NEWLINE, HASH, STAR, SLASH, 120]
  const COMMENT_IN_DIRECTIVE: seq<Byte> := [HASH, SLASH, STAR, NEWLINE, STAR, SLASH, 120]
  const HASH_BEHIND_COMMENT: seq<Byte> := [SLASH, STAR, STAR, SLASH, HASH, 120]
  const HASH_BEHIND_SPLICE: seq<Byte> := [97, BACKSLASH, NEWLINE, HASH, 120]

  /** A `#` at the start of a line inside a comment: the scanner loses the code behind the comment. */
  lemma HashInComment()
    ensures var text := HASH_IN_COMMENT;
      StandardCodeByte(text, false, 6) && !IsCodeByte(text, false, 6) && LineDeparts(text, false, 3)
  {
    var text := HASH_IN_COMMENT;
    assert StandardAt(text, false, 1).0 == Skip(BlockComment) && StandardAt(text, false, 2).0 == BlockComment;
    assert StandardAt(text, false, 3).0 == BlockComment && StandardAt(text, false, 4).0 == BlockComment;
    assert StandardAt(text, false, 5).0 == Skip(Code) && StandardAt(text, false, 6).0 == Code;
    assert LineAt(text, false, 1) == Blank && LineAt(text, false, 2) == Blank && LineAt(text, false, 3) == Blank;
    assert LineAt(text, false, 4) == Blank && LineAt(text, false, 5) == Blank && LineAt(text, false, 6) == Blank;
    assert LineStateAt(text, 1) == Ordinary && LineStateAt(text, 2) == Ordinary && LineStateAt(text, 3) == LineStart;
    assert LineStateAt(text, 4) == Directive(false) && LineStateAt(text, 5) == Directive(false);
    assert LineStateAt(text, 6) == Directive(false) && LineStateAt(text, 7) == Directive(false);
    SettledBehind(text, 6);
  }

  /** A directive that goes on through a comment of two lines: the scanner takes its second line for code. */
  lemma CommentInDirective()
    ensures var text := COMMENT_IN_DIRECTIVE;
      !StandardCodeByte(text, false, 6) && IsCodeByte(text, false, 6) && LineDeparts(text, false, 3)
  {
    var text := COMMENT_IN_DIRECTIVE;
    assert StandardAt(text, false, 1).0 == Code && StandardAt(text, false, 2).0 == Skip(BlockComment);
    assert StandardAt(text, false, 3).0 == BlockComment && StandardAt(text, false, 4).0 == BlockComment;
    assert LineAt(text, false, 1) == InDirective && LineAt(text, false, 2) == InDirective;
    assert LineAt(text, false, 3) == InDirective && LineAt(text, false, 4) == InDirective;
    assert LineAt(text, false, 5) == InDirective && LineAt(text, false, 6) == InDirective;
    assert ModeAt(text, false, 1) == Code && ModeAt(text, false, 2) == Skip(BlockComment);
    assert ModeAt(text, false, 3) == BlockComment && ModeAt(text, false, 4) == BlockComment;
    assert ModeAt(text, false, 5) == Skip(Code) && ModeAt(text, false, 6) == Code;
    assert LineStateAt(text, 1) == Directive(false) && LineStateAt(text, 2) == Directive(false);
    assert LineStateAt(text, 3) == Directive(false) && LineStateAt(text, 4) == LineStart;
    assert LineStateAt(text, 5) == Ordinary && LineStateAt(text, 6) == Ordinary;
    SettledBehind(text, 6);
  }

  /** A directive behind a comment on the same line: the scanner takes it for code. */
  lemma HashBehindComment()
    ensures var text := HASH_BEHIND_COMMENT;
      !StandardCodeByte(text, false, 5) && IsCodeByte(text, false, 5) && LineDeparts(text, false, 4)
  {
    var text := HASH_BEHIND_COMMENT;
    assert StandardAt(text, false, 1).0 == Skip(BlockComment) && StandardAt(text, false, 2).0 == BlockComment;
    assert StandardAt(text, false, 3).0 == Skip(Code) && StandardAt(text, false, 4).0 == Code;
    assert LineAt(text, false, 1) == Blank && LineAt(text, false, 2) == Blank && LineAt(text, false, 3) == Blank;
    assert LineAt(text, false, 4) == Blank && LineAt(text, false, 5) == InDirective;
    assert LineAt(text, false, 6) == InDirective;
    assert ModeAt(text, false, 1) == Skip(BlockComment) && ModeAt(text, false, 2) == BlockComment;
    assert ModeAt(text, false, 3) == Skip(Code) && ModeAt(text, false, 4) == Code && ModeAt(text, false, 5) == Code;
    assert LineStateAt(text, 1) == Ordinary && LineStateAt(text, 3) == Ordinary && LineStateAt(text, 5) == Ordinary;
    SettledBehind(text, 5);
  }

  /** A `#` first on the second half of a spliced line: the scanner takes code for a directive. */
  lemma HashBehindSplice()
    ensures var text := HASH_BEHIND_SPLICE;
      StandardCodeByte(text, false, 4) && !IsCodeByte(text, false, 4) && LineDeparts(text, false, 3)
  {
    var text := HASH_BEHIND_SPLICE;
    assert StandardAt(text, false, 1).0 == Code && StandardAt(text, false, 2).0 == Code;
    assert StandardAt(text, false, 3).0 == Code && StandardAt(text, false, 4).0 == Code;
    assert StandardAt(text, false, 5).0 == Code;
    assert LineAt(text, false, 1) == OtherText && LineAt(text, false, 2) == OtherText;
    assert LineAt(text, false, 3) == OtherText && LineAt(text, false, 4) == OtherText;
    assert LineAt(text, false, 5) == OtherText;
    assert LineStateAt(text, 1) == Ordinary && LineStateAt(text, 2) == Ordinary && LineStateAt(text, 3) == LineStart;
    assert LineStateAt(text, 4) == Directive(false) && LineStateAt(text, 5) == Directive(false);
    SettledBehind(text, 4);
  }

  // ---------------------------------------------------------------- a check that suffices

  /** White space of one physical line fills `[j, i)`. */
  predicate SpacesOnly(bytes: seq<Byte>, j: nat, i: nat) {
    j <= i <= |bytes| && forall k :: j <= k < i ==> IsSpace(bytes[k]) && bytes[k] != NEWLINE
  }

  /** A new line that is not the second half of a spliced one starts at `j`. */
  predicate LineBreak(bytes: seq<Byte>, j: nat) {
    j == 0 || (j <= |bytes| && bytes[j - 1] == NEWLINE && !Spliced(bytes, j - 1))
  }

  /** Byte `q` is neither white space nor the end of a comment. */
  predicate Substantial(bytes: seq<Byte>, q: nat) {
    q < |bytes| && !IsSpace(bytes[q]) && bytes[q] != VERTICAL_TAB
    && !(bytes[q] == SLASH && q > 0 && bytes[q - 1] == STAR)
  }

  /**
   Every `#` that the scanner does not meet on a directive stands in code at the start of an
   unspliced line, or behind something on its line that is not just a comment.
   */
  predicate HashesInPlace(bytes: seq<Byte>, isCpp: bool) {
    forall i :: 0 <= i < |bytes| && bytes[i] == HASH && !LineStateAt(bytes, i).Directive? ==>
      (ModeAt(bytes, isCpp, i) == Code && exists j :: 0 <= j <= i && LineBreak(bytes, j) && SpacesOnly(bytes, j, i))
      || exists q :: 0 <= q < i && Substantial(bytes, q) && SpacesOnly(bytes, q + 1, i)
  }

  /**
   Where the scanner meets the end of a line of a directive, the last byte that is not white
   space is a backslash exactly if the newline is spliced or part of a comment or raw string.
   */
  predicate DirectivesEndPlainly(bytes: seq<Byte>, isCpp: bool) {
    forall i :: 0 <= i < |bytes| && bytes[i] == NEWLINE && LineStateAt(bytes, i).Directive? ==>
      BackslashBefore(bytes, i) == (HoldsLine(ModeAt(bytes, isCpp, i)) || Spliced(bytes, i))
  }

  lemma {:induction false} HeldStays(bytes: seq<Byte>, isCpp: bool, e: nat, i: nat)
    requires e <= i <= |bytes| && HoldsLine(StandardAt(bytes, isCpp, e).0)
    requires forall k :: e <= k < i ==> IsSpace(bytes[k])
    ensures HoldsLine(StandardAt(bytes, isCpp, i).0)
    decreases i
  {
    if e < i {
      HeldStays(bytes, isCpp, e, i - 1);
    }
  }

  /** Code behind white space was code before it. */
  lemma {:induction false} CodeBehindSpaces(bytes: seq<Byte>, isCpp: bool, j: nat, i: nat)
    requires SpacesOnly(bytes, j, i) && StandardAt(bytes, isCpp, i).0 == Code
    ensures forall k :: j <= k <= i ==> StandardAt(bytes, isCpp, k).0 == Code
    decreases i
  {
    if j < i {
      SkipsAreFlat(bytes, isCpp, i - 1);
      CodeBehindSpaces(bytes, isCpp, j, i - 1);
    }
  }

  lemma {:induction false} SpacesKeepLine(bytes: seq<Byte>, isCpp: bool, j: nat, i: nat)
    requires SpacesOnly(bytes, j, i) && StandardAt(bytes, isCpp, i).0 == Code
    ensures LineAt(bytes, isCpp, i) == LineAt(bytes, isCpp, j)
    decreases i
  {
    CodeBehindSpaces(bytes, isCpp, j, i);
    if j < i {
      SpacesKeepLine(bytes, isCpp, j, i - 1);
    }
  }

  lemma BreakIsBlank(bytes: seq<Byte>, isCpp: bool, j: nat, i: nat)
    requires LineBreak(bytes, j) && SpacesOnly(bytes, j, i) && StandardAt(bytes, isCpp, i).0 == Code
    ensures LineAt(bytes, isCpp, i) == Blank
  {
    SpacesKeepLine(bytes, isCpp, j, i);
    if j > 0 && HoldsLine(StandardAt(bytes, isCpp, j - 1).0) {
      HeldStays(bytes, isCpp, j - 1, i);
    }
  }

  lemma {:induction false} NoNewlineAhead(bytes: seq<Byte>, j: nat, i: nat)
    requires SpacesOnly(bytes, j, i) && i < |bytes| && bytes[i] == HASH
    ensures !NewlineFollows(bytes, j)
    decreases i - j
  {
    if j < i {
      NoNewlineAhead(bytes, j + 1, i);
    }
  }

  lemma SubstantialFills(bytes: seq<Byte>, isCpp: bool, q: nat, i: nat)
    requires Substantial(bytes, q) && q < i && SpacesOnly(bytes, q + 1, i) && i < |bytes| && bytes[i] == HASH
    requires StandardAt(bytes, isCpp, i).0 == Code
    ensures LineAt(bytes, isCpp, i) != Blank
  {
    CodeBehindSpaces(bytes, isCpp, q + 1, i);
    SpacesKeepLine(bytes, isCpp, q + 1, i);
    NoNewlineAhead(bytes, q + 1, i);
    SkipsAreFlat(bytes, isCpp, q);
  }

  lemma {:induction false} FirstOnLine(bytes: seq<Byte>, j: nat, i: nat)
    requires SpacesOnly(bytes, j, i)
    ensures StartsLine(bytes, i) <==> StartsLine(bytes, j)
    decreases i
  {
    if j < i {
      FirstOnLine(bytes, j, i - 1);
    }
  }

  lemma HashStays(bytes: seq<Byte>, isCpp: bool, i: nat)
    requires HashesInPlace(bytes, isCpp) && i < |bytes| && bytes[i] == HASH
    requires MapTogether(bytes, isCpp, i) && LineAt(bytes, isCpp, i) != InDirective
    ensures !LineDeparts(bytes, isCpp, i)
  {
    if j :| 0 <= j <= i && LineBreak(bytes, j) && SpacesOnly(bytes, j, i) && ModeAt(bytes, isCpp, i) == Code {
      BreakIsBlank(bytes, isCpp, j, i);
      FirstOnLine(bytes, j, i);
    } else {
      var q :| 0 <= q < i && Substantial(bytes, q) && SpacesOnly(bytes, q + 1, i);
      FirstOnLine(bytes, q + 1, i);
      if StandardAt(bytes, isCpp, i).0 == Code {
        SubstantialFills(bytes, isCpp, q, i);
      }
    }
  }

  lemma PlainLineStays(bytes: seq<Byte>, isCpp: bool, i: nat)
    requires HashesInPlace(bytes, isCpp) && DirectivesEndPlainly(bytes, isCpp)
    requires i < |bytes| && MapTogether(bytes, isCpp, i)
    ensures !LineDeparts(bytes, isCpp, i)
  {
    if LineAt(bytes, isCpp, i) != InDirective && bytes[i] == HASH {
      HashStays(bytes, isCpp, i);
    }
  }

  lemma {:induction false} StaysTogether(bytes: seq<Byte>, isCpp: bool, n: nat)
    requires n <= |bytes| && forall i: nat :: i < n && MapTogether(bytes, isCpp, i) ==> !MapDeparts(bytes, isCpp, i)
    ensures MapTogether(bytes, isCpp, n) && forall i: nat :: i < n ==> !MapDeparts(bytes, isCpp, i)
    decreases n
  {
    if n > 0 {
      StaysTogether(bytes, isCpp, n - 1);
      MapPartsIff(bytes, isCpp, n - 1);
    }
  }

  /**
   A check made on the text and on the scanner's own states that suffices: when literals are
   plain, every `#` is in its place and directives end plainly, the map marks a byte that is
   not white space as code exactly when it is code by the standard and on no directive.
   */
  lemma PlainTextAgrees(bytes: seq<Byte>, isCpp: bool)
    requires PrefixesStandAlone(bytes) && NoSeparators(bytes) && BasicDelimiters(bytes)
    requires HashesInPlace(bytes, isCpp) && DirectivesEndPlainly(bytes, isCpp)
    ensures forall i: nat :: i < |bytes| && !IsSpace(bytes[i]) ==>
      IsCodeByte(bytes, isCpp, i) == StandardCodeByte(bytes, isCpp, i)
  {
    forall i: nat | i < |bytes| && MapTogether(bytes, isCpp, i) ensures !MapDeparts(bytes, isCpp, i) {
      PlainByteStays(bytes, isCpp, i);
      PlainLineStays(bytes, isCpp, i);
    }
    StaysTogether(bytes, isCpp, |bytes|);
    MapIsRight(bytes, isCpp, |bytes|);
  }
}
