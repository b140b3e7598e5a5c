/**
 What the automaton of `Lexical` does with each construct of the language, told from
 the bytes alone: where a literal or a comment that starts in code ends, and that none
 of its bytes is code. With `PlainByteIsCode` for every other byte this settles each
 byte of every text.
 */
module LexicalFacts {
  import opened Basics
  import opened Lexical

  /** From `i` on, the bytes up to and including `last` are skipped and code resumes behind them. */
  ghost predicate SkipsThrough(bytes: seq<Byte>, isCpp: bool, i: nat, last: nat)
    requires last < |bytes|
  {
    ModeAt(bytes, isCpp, last + 1) == Code
    && forall k :: i <= k <= last ==> !LexicallyCode(bytes, isCpp, k)
  }

  ghost predicate SkipsTheRest(bytes: seq<Byte>, isCpp: bool, i: nat) {
    forall k :: i <= k < |bytes| ==> !LexicallyCode(bytes, isCpp, k)
  }

  // ---------------------------------------------------------------- ordinary bytes

  /** A byte met in code that opens nothing is code, and so is what comes next. */
  lemma PlainByteIsCode(bytes: seq<Byte>, isCpp: bool, i: nat)
    requires i < |bytes| && ModeAt(bytes, isCpp, i) == Code
    requires bytes[i] != 34 && bytes[i] != 39
    requires bytes[i] == 47 && i + 1 < |bytes| ==> bytes[i + 1] != 47 && bytes[i + 1] != 42
    requires bytes[i] == 82 && i + 1 < |bytes| ==> !isCpp || bytes[i + 1] != 34
    ensures LexicallyCode(bytes, isCpp, i)
    ensures ModeAt(bytes, isCpp, i + 1) == Code
  {
  }

  // ---------------------------------------------------------------- quoted literals

  /** How many backslashes stand right before `e`, counting back to `from`. */
  function BackslashesBefore(bytes: seq<Byte>, from: nat, e: nat): nat
    requires from <= e <= |bytes|
  {
    if e > from && bytes[e - 1] == 92 then BackslashesBefore(bytes, from, e - 1) + 1 else 0
  }

  /** The delimiter at `i` stands at `e` again, not escaped. */
  predicate ClosesQuote(bytes: seq<Byte>, i: nat, e: nat) {
    i < e < |bytes| && bytes[e] == bytes[i] && BackslashesBefore(bytes, i + 1, e) % 2 == 0
  }

  /** As long as the literal is open, an odd run of backslashes escapes the next byte. */
  lemma {:induction false} QuoteScan(bytes: seq<Byte>, isCpp: bool, i: nat, k: nat)
    requires i < k <= |bytes| && (bytes[i] == 34 || bytes[i] == 39)
    requires ModeAt(bytes, isCpp, i) == Code
    requires forall e :: i < e < k ==> !ClosesQuote(bytes, i, e)
    ensures ModeAt(bytes, isCpp, k)
         == (if BackslashesBefore(bytes, i + 1, k) % 2 == 1 then Skip(Quoted(bytes[i])) else Quoted(bytes[i]))
    decreases k
  {
    if i + 1 < k {
      QuoteScan(bytes, isCpp, i, k - 1);
      assert !ClosesQuote(bytes, i, k - 1);
    }
  }

  /** A literal ends at the first delimiter that an even number of backslashes precedes. */
  lemma QuoteEnds(bytes: seq<Byte>, isCpp: bool, i: nat, e: nat)
    requires i < |bytes| && (bytes[i] == 34 || bytes[i] == 39)
    requires ModeAt(bytes, isCpp, i) == Code
    requires ClosesQuote(bytes, i, e)
    requires forall j :: i < j < e ==> !ClosesQuote(bytes, i, j)
    ensures SkipsThrough(bytes, isCpp, i, e)
  {
    forall k | i < k <= e ensures ModeAt(bytes, isCpp, k) != Code {
      QuoteScan(bytes, isCpp, i, k);
    }
    QuoteScan(bytes, isCpp, i, e);
  }

  lemma QuoteNeverEnds(bytes: seq<Byte>, isCpp: bool, i: nat)
    requires i < |bytes| && (bytes[i] == 34 || bytes[i] == 39)
    requires ModeAt(bytes, isCpp, i) == Code
    requires forall e :: i < e ==> !ClosesQuote(bytes, i, e)
    ensures SkipsTheRest(bytes, isCpp, i)
  {
    forall k | i < k <= |bytes| ensures ModeAt(bytes, isCpp, k) != Code {
      QuoteScan(bytes, isCpp, i, k);
    }
  }

  /** `"\"";`: the escaped quote does not end the literal, and the semicolon is code. */
  lemma EscapedQuote()
    ensures var bytes := [34, 92, 34, 34, 59];
            forall i :: 0 <= i < 5 ==> (LexicallyCode(bytes, false, i) <==> i == 4)
  {
    var bytes: seq<Byte> := [34, 92, 34, 34, 59];
    assert ModeAt(bytes, false, 0) == Code;
    assert BackslashesBefore(bytes, 1, 1) == 0;
    assert BackslashesBefore(bytes, 1, 2) == 1;
    assert BackslashesBefore(bytes, 1, 3) == 0;
    QuoteEnds(bytes, false, 0, 3);
    PlainByteIsCode(bytes, false, 4);
  }

  // ---------------------------------------------------------------- block comments

  predicate ClosesBlock(bytes: seq<Byte>, e: nat) {
    e + 1 < |bytes| && bytes[e] == 42 && bytes[e + 1] == 47
  }

  lemma {:induction false} BlockScan(bytes: seq<Byte>, isCpp: bool, i: nat, k: nat)
    requires i + 2 <= k <= |bytes| && bytes[i] == 47 && bytes[i + 1] == 42
    requires ModeAt(bytes, isCpp, i) == Code
    requires forall e :: i + 2 <= e < k ==> !ClosesBlock(bytes, e)
    ensures ModeAt(bytes, isCpp, i + 1) == Skip(BlockComment)
    ensures ModeAt(bytes, isCpp, k) == BlockComment
    decreases k
  {
    if i + 2 < k {
      BlockScan(bytes, isCpp, i, k - 1);
      assert !ClosesBlock(bytes, k - 1);
    }
  }

  /** A block comment ends with the first star and slash behind its opening, whatever stands between. */
  lemma BlockEnds(bytes: seq<Byte>, isCpp: bool, i: nat, e: nat)
    requires i + 2 <= e && ClosesBlock(bytes, e) && bytes[i] == 47 && bytes[i + 1] == 42
    requires ModeAt(bytes, isCpp, i) == Code
    requires forall j :: i + 2 <= j < e ==> !ClosesBlock(bytes, j)
    ensures SkipsThrough(bytes, isCpp, i, e + 1)
  {
    forall k | i + 2 <= k <= e ensures ModeAt(bytes, isCpp, k) == BlockComment {
      BlockScan(bytes, isCpp, i, k);
    }
    BlockScan(bytes, isCpp, i, e);
    assert ModeAt(bytes, isCpp, e + 1) == Skip(Code);
  }

  lemma BlockNeverEnds(bytes: seq<Byte>, isCpp: bool, i: nat)
    requires i + 2 <= |bytes| && bytes[i] == 47 && bytes[i + 1] == 42
    requires ModeAt(bytes, isCpp, i) == Code
    requires forall e :: i + 2 <= e ==> !ClosesBlock(bytes, e)
    ensures SkipsTheRest(bytes, isCpp, i)
  {
    BlockScan(bytes, isCpp, i, i + 2);
    forall k | i + 2 <= k <= |bytes| ensures ModeAt(bytes, isCpp, k) == BlockComment {
      BlockScan(bytes, isCpp, i, k);
    }
  }

  // ---------------------------------------------------------------- line comments

  /** A backslash stands before `e` with nothing but carriage returns between. */
  ghost predicate Spliced(bytes: seq<Byte>, e: nat) {
    exists b: nat :: b < |bytes| && b < e && bytes[b] == 92 && forall j :: b < j < e && j < |bytes| ==> bytes[j] == 13
  }

  ghost predicate ClosesLine(bytes: seq<Byte>, e: nat) {
    e < |bytes| && bytes[e] == 10 && !Spliced(bytes, e)
  }

  lemma SplicedStep(bytes: seq<Byte>, e: nat)
    requires e < |bytes|
    ensures Spliced(bytes, e + 1) <==> bytes[e] == 92 || (bytes[e] == 13 && Spliced(bytes, e))
  {
    if bytes[e] == 92 {
      assert Spliced(bytes, e + 1);
    } else if bytes[e] == 13 && Spliced(bytes, e) {
      var b: nat :| b < |bytes| && b < e && bytes[b] == 92
               && forall j :: b < j < e && j < |bytes| ==> bytes[j] == 13;
      assert b < e + 1 && forall j :: b < j < e + 1 && j < |bytes| ==> bytes[j] == 13;
    }
  }

  lemma {:induction false} LineCommentScan(bytes: seq<Byte>, isCpp: bool, i: nat, k: nat)
    requires i + 2 <= k <= |bytes| && bytes[i] == 47 && bytes[i + 1] == 47
    requires ModeAt(bytes, isCpp, i) == Code
    requires forall e :: i + 2 <= e < k ==> !ClosesLine(bytes, e)
    ensures ModeAt(bytes, isCpp, i + 1) == Skip(LineComment(false))
    ensures ModeAt(bytes, isCpp, k) == LineComment(Spliced(bytes, k))
    decreases k
  {
    SplicedStep(bytes, k - 1);
    if i + 2 < k {
      LineCommentScan(bytes, isCpp, i, k - 1);
      assert !ClosesLine(bytes, k - 1);
    }
  }

  /** A line comment ends with the first newline that no backslash joins to the next line. */
  lemma LineCommentEnds(bytes: seq<Byte>, isCpp: bool, i: nat, e: nat)
    requires i + 2 <= e && ClosesLine(bytes, e) && bytes[i] == 47 && bytes[i + 1] == 47
    requires ModeAt(bytes, isCpp, i) == Code
    requires forall j :: i + 2 <= j < e ==> !ClosesLine(bytes, j)
    ensures SkipsThrough(bytes, isCpp, i, e)
  {
    forall k | i + 2 <= k <= e ensures ModeAt(bytes, isCpp, k) == LineComment(Spliced(bytes, k)) {
      LineCommentScan(bytes, isCpp, i, k);
    }
    LineCommentScan(bytes, isCpp, i, e);
  }

  lemma LineCommentNeverEnds(bytes: seq<Byte>, isCpp: bool, i: nat)
    requires i + 2 <= |bytes| && bytes[i] == 47 && bytes[i + 1] == 47
    requires ModeAt(bytes, isCpp, i) == Code
    requires forall e :: i + 2 <= e ==> !ClosesLine(bytes, e)
    ensures SkipsTheRest(bytes, isCpp, i)
  {
    LineCommentScan(bytes, isCpp, i, i + 2);
    forall k | i + 2 <= k <= |bytes| ensures ModeAt(bytes, isCpp, k) == LineComment(Spliced(bytes, k)) {
      LineCommentScan(bytes, isCpp, i, k);
    }
  }

  // ---------------------------------------------------------------- raw literals

  /** The bytes that may not stand in a raw delimiter. */
  const DELIMITER_STOPS: set<Byte> := {32, 9, 10, 12, 13, 40, 41, 92}

  /** Between `R"` at `i` and the parenthesis at `open` stands a delimiter a raw literal may use. */
  predicate OpensRaw(bytes: seq<Byte>, i: nat, open: nat) {
    i + 2 <= open < |bytes| && bytes[open] == 40 && open - (i + 2) <= 16
    && forall j :: i + 2 <= j < open ==> bytes[j] !in DELIMITER_STOPS
  }

  /** At `p` stand a parenthesis, the delimiter between `i + 2` and `open`, and a quote ending at `last`. */
  predicate ClosesRaw(bytes: seq<Byte>, i: nat, open: nat, p: nat, last: nat)
    requires i + 2 <= open < |bytes|
  {
    open < p && last == p + 1 + (open - (i + 2)) < |bytes|
    && bytes[p] == 41 && bytes[last] == 34 && bytes[p + 1..last] == bytes[i + 2..open]
  }

  lemma RawBodyStarts(bytes: seq<Byte>, i: nat, open: nat)
    requires OpensRaw(bytes, i, open) && bytes[i] == 82 && bytes[i + 1] == 34
    requires ModeAt(bytes, true, i) == Code
    ensures GoodDelimiter(bytes[i + 2..open])
    ensures ModeAt(bytes, true, open + 1) == RawBody(bytes[i + 2..open], None)
    ensures forall k :: i <= k <= open ==> !LexicallyCode(bytes, true, k)
  {
    var delimiter := bytes[i + 2..open];
    forall j | 0 <= j < |delimiter| ensures DelimiterByte(delimiter[j]) {
      assert bytes[i + 2 + j] !in DELIMITER_STOPS;
    }
    RawOpening(bytes, i, open);
  }

  /** A raw literal ends with the first parenthesis, delimiter and quote; nothing in it is escaped. */
  lemma RawEnds(bytes: seq<Byte>, i: nat, open: nat, p: nat, last: nat)
    requires OpensRaw(bytes, i, open) && bytes[i] == 82 && bytes[i + 1] == 34
    requires ModeAt(bytes, true, i) == Code
    requires ClosesRaw(bytes, i, open, p, last)
    requires forall q, l :: open < q < p ==> !ClosesRaw(bytes, i, open, q, l)
    ensures SkipsThrough(bytes, true, i, last)
  {
    var delimiter := bytes[i + 2..open];
    RawBodyStarts(bytes, i, open);
    forall q | open + 1 <= q < p ensures !ClosesAt(bytes, delimiter, q) {
      assert !ClosesRaw(bytes, i, open, q, q + 1 + |delimiter|);
    }
    BodyEnds(bytes, true, delimiter, open + 1, p);
  }

  lemma RawNeverEnds(bytes: seq<Byte>, i: nat, open: nat)
    requires OpensRaw(bytes, i, open) && bytes[i] == 82 && bytes[i + 1] == 34
    requires ModeAt(bytes, true, i) == Code
    requires forall p, l :: !ClosesRaw(bytes, i, open, p, l)
    ensures SkipsTheRest(bytes, true, i)
  {
    var delimiter := bytes[i + 2..open];
    RawBodyStarts(bytes, i, open);
    forall q: nat | open + 1 <= q ensures !ClosesAt(bytes, delimiter, q) {
      assert !ClosesRaw(bytes, i, open, q, q + 1 + |delimiter|);
    }
    BodyNeverEnds(bytes, true, delimiter, open + 1);
  }

  /** Without a usable delimiter nothing from `R"` on is code. */
  lemma RawNeverOpens(bytes: seq<Byte>, i: nat)
    requires i + 2 <= |bytes| && bytes[i] == 82 && bytes[i + 1] == 34
    requires ModeAt(bytes, true, i) == Code
    requires forall open :: !OpensRaw(bytes, i, open)
    ensures SkipsTheRest(bytes, true, i)
  {
    var found := FindByte(bytes, i + 2, OPEN);
    if found.None? {
      RawOpeningFails(bytes, i, |bytes|);
    } else {
      var open := found.value;
      assert !OpensRaw(bytes, i, open);
      if GoodDelimiter(bytes[i + 2..open]) {
        forall j | i + 2 <= j < open ensures bytes[j] !in DELIMITER_STOPS {
          assert bytes[j] == bytes[i + 2..open][j - (i + 2)];
        }
      }
      RawOpeningFails(bytes, i, open);
    }
  }

  // ---------------------------------------------------------------- preprocessor lines

  predicate Blank(b: Byte) {
    b in {32, 9, 12, 13}
  }

  /** On the physical line that starts at `s`, white space alone stands before `e`. */
  predicate BlankUpTo(bytes: seq<Byte>, s: nat, e: nat) {
    s <= e <= |bytes| && (s == 0 || bytes[s - 1] == 10) && forall j :: s <= j < e ==> Blank(bytes[j])
  }

  /** The last byte before `n` on its physical line, white space aside, is a backslash. */
  ghost predicate Continues(bytes: seq<Byte>, n: nat) {
    exists b: nat :: b < |bytes| && b < n && bytes[b] == 92 && forall j :: b < j < n && j < |bytes| ==> Blank(bytes[j])
  }

  /** A hash opens the line at `s`, and every newline from there up to `e` is continued. */
  ghost predicate DirectiveReaches(bytes: seq<Byte>, s: nat, hash: nat, e: nat) {
    BlankUpTo(bytes, s, hash) && hash < |bytes| && bytes[hash] == 35
    && forall n :: s <= n < e && n < |bytes| && bytes[n] == 10 ==> Continues(bytes, n)
  }

  lemma ContinuesStep(bytes: seq<Byte>, e: nat)
    requires e < |bytes|
    ensures Continues(bytes, e + 1) <==> bytes[e] == 92 || (Blank(bytes[e]) && Continues(bytes, e))
  {
    if bytes[e] == 92 {
      assert Continues(bytes, e + 1);
    } else if Blank(bytes[e]) && Continues(bytes, e) {
      var b: nat :| b < |bytes| && b < e && bytes[b] == 92
               && forall j :: b < j < e && j < |bytes| ==> Blank(bytes[j]);
      assert b < e + 1 && forall j :: b < j < e + 1 && j < |bytes| ==> Blank(bytes[j]);
    }
  }

  /** Nothing but white space stands before `e` on its physical line. */
  ghost predicate AtLineStart(bytes: seq<Byte>, e: nat) {
    exists s: nat :: BlankUpTo(bytes, s, e)
  }

  /** The text before `e` ends in a directive. */
  ghost predicate InDirective(bytes: seq<Byte>, e: nat) {
    exists s: nat, h: nat :: h < e && DirectiveReaches(bytes, s, h, e)
  }

  lemma AtLineStartStep(bytes: seq<Byte>, e: nat)
    requires e < |bytes|
    ensures AtLineStart(bytes, e + 1) <==> bytes[e] == 10 || (Blank(bytes[e]) && AtLineStart(bytes, e))
  {
    var n := e + 1;
    if bytes[e] == 10 {
      assert BlankUpTo(bytes, n, n);
    } else if s: nat :| BlankUpTo(bytes, s, n) {
      assert BlankUpTo(bytes, s, e);
    } else if s: nat :| BlankUpTo(bytes, s, e) {
      assert !BlankUpTo(bytes, s, n);
    }
  }

  lemma InDirectiveStep(bytes: seq<Byte>, e: nat)
    requires e < |bytes|
    ensures InDirective(bytes, e + 1)
       <==> (InDirective(bytes, e) && (bytes[e] == 10 ==> Continues(bytes, e)))
            || (bytes[e] == 35 && AtLineStart(bytes, e))
  {
    var n := e + 1;
    if s: nat, h: nat :| h < n && DirectiveReaches(bytes, s, h, n) {
      if h == e {
        assert BlankUpTo(bytes, s, e);
      } else {
        assert DirectiveReaches(bytes, s, h, e);
      }
    }
    if InDirective(bytes, e) && (bytes[e] == 10 ==> Continues(bytes, e)) {
      var s: nat, h: nat :| h < e && DirectiveReaches(bytes, s, h, e);
      assert DirectiveReaches(bytes, s, h, n);
    }
    if bytes[e] == 35 && AtLineStart(bytes, e) {
      var s: nat :| BlankUpTo(bytes, s, e);
      assert DirectiveReaches(bytes, s, e, n);
    }
  }

  /** What the state of the line automaton says about the bytes read. */
  ghost predicate Told(bytes: seq<Byte>, e: nat, state: LineState) {
    (state.Directive? <==> InDirective(bytes, e))
    && (state.Directive? ==> state.escaped == Continues(bytes, e))
    && (!state.Directive? ==> (state.LineStart? <==> AtLineStart(bytes, e)))
  }

  lemma {:induction false} LineStateTold(bytes: seq<Byte>, e: nat)
    requires e <= |bytes|
    ensures Told(bytes, e, LineStateAt(bytes, e))
    decreases e
  {
    if e == 0 {
      assert BlankUpTo(bytes, 0, 0);
    } else {
      LineStateTold(bytes, e - 1);
      ContinuesStep(bytes, e - 1);
      AtLineStartStep(bytes, e - 1);
      InDirectiveStep(bytes, e - 1);
    }
  }

  /** A byte is on a directive when a hash opened a line at or before it and every newline between is continued. */
  lemma DirectiveLines(bytes: seq<Byte>, i: nat)
    requires i < |bytes|
    ensures OnDirectiveLine(bytes, i)
       <==> bytes[i] != 10 && exists s: nat, h: nat :: s <= i && DirectiveReaches(bytes, s, h, i)
  {
    if bytes[i] != 10 {
      var end := LineEnd(bytes, i);
      LineStateTold(bytes, end);
      if s: nat, h: nat :| h < end && DirectiveReaches(bytes, s, h, end) {
        assert s <= i;
        assert DirectiveReaches(bytes, s, h, i);
      }
      if s: nat, h: nat :| s <= i && DirectiveReaches(bytes, s, h, i) {
        assert h < end;
        assert DirectiveReaches(bytes, s, h, end);
      }
    }
  }
}
