/**
 The C-family lexical map (c_lexical.rs). `NewLexicalMap` and its helpers jump
 from construct to construct as the source does; `ModeAt` and `LineStateAt` are
 automata that read one byte at a time. The method is proved to mark exactly the
 bytes the automata mark.
 */
module Lexical {
  import opened Basics

  newtype Byte = x: int | 0 <= x < 256

  const NEWLINE: Byte := 10
  const RETURN: Byte := 13
  const QUOTE: Byte := 34
  const HASH: Byte := 35
  const APOSTROPHE: Byte := 39
  const OPEN: Byte := 40
  const CLOSE: Byte := 41
  const STAR: Byte := 42
  const SLASH: Byte := 47
  const UPPER_R: Byte := 82
  const BACKSLASH: Byte := 92

  const MAX_RAW_DELIMITER := 16

  /** `u8::is_ascii_whitespace`, which leaves out the vertical tab. */
  predicate IsSpace(b: Byte) {
    b == 32 || b == 9 || b == 10 || b == 12 || b == 13
  }

  // ---------------------------------------------------------------- the byte automata

  datatype Mode =
    | Code
    | Skip(next: Mode)                                        // second byte of a pair
    | LineComment(escaped: bool)                              // last byte other than CR is a backslash
    | BlockComment
    | Quoted(quote: Byte)
    | RawDelimiter(delimiter: seq<Byte>)
    | RawBody(delimiter: seq<Byte>, matched: Option<nat>)     // `)` and that many delimiter bytes seen
    | Unterminated

  function Peek(bytes: seq<Byte>, i: nat): Option<Byte> {
    if i < |bytes| then Some(bytes[i]) else None
  }

  predicate DelimiterByte(b: Byte) {
    !IsSpace(b) && b != OPEN && b != CLOSE && b != BACKSLASH
  }

  function StepCode(b: Byte, next: Option<Byte>, isCpp: bool): Mode {
    if b == SLASH && next == Some(SLASH) then Skip(LineComment(false))
    else if b == SLASH && next == Some(STAR) then Skip(BlockComment)
    else if isCpp && b == UPPER_R && next == Some(QUOTE) then Skip(RawDelimiter([]))
    else if b == QUOTE || b == APOSTROPHE then Quoted(b)
    else Code
  }

  function StepRawBody(delimiter: seq<Byte>, matched: Option<nat>, b: Byte): Mode {
    if matched.Some? && matched.value < |delimiter| && b == delimiter[matched.value] then
      RawBody(delimiter, Some(matched.value + 1))
    else if matched == Some(|delimiter|) && b == QUOTE then
      Code
    else
      RawBody(delimiter, if b == CLOSE then Some(0) else None)
  }

  function Step(mode: Mode, b: Byte, next: Option<Byte>, isCpp: bool): Mode {
    match mode
    case Code => StepCode(b, next, isCpp)
    case Skip(after) => after
    case LineComment(escaped) =>
      if b == NEWLINE then (if escaped then LineComment(false) else Code)
      else if b == RETURN then mode
      else LineComment(b == BACKSLASH)
    case BlockComment => if b == STAR && next == Some(SLASH) then Skip(Code) else mode
    case Quoted(quote) =>
      if b == BACKSLASH then Skip(mode) else if b == quote then Code else mode
    case RawDelimiter(delimiter) =>
      if b == OPEN then RawBody(delimiter, None)
      else if |delimiter| < MAX_RAW_DELIMITER && DelimiterByte(b) then RawDelimiter(delimiter + [b])
      else Unterminated
    case RawBody(delimiter, matched) => StepRawBody(delimiter, matched, b)
    case Unterminated => mode
  }

  /** The mode in front of byte `i`. */
  function ModeAt(bytes: seq<Byte>, isCpp: bool, i: nat): Mode
    requires i <= |bytes|
  {
    if i == 0 then Code
    else Step(ModeAt(bytes, isCpp, i - 1), bytes[i - 1], Peek(bytes, i), isCpp)
  }

  /** Byte `i` is code: the automaton is in its code mode and the byte does not leave it. */
  predicate LexicallyCode(bytes: seq<Byte>, isCpp: bool, i: nat)
    requires i < |bytes|
  {
    ModeAt(bytes, isCpp, i) == Code && ModeAt(bytes, isCpp, i + 1) == Code
  }

  datatype LineState = LineStart | Directive(escaped: bool) | Ordinary

  function StepLine(state: LineState, b: Byte): LineState {
    if b == NEWLINE then
      (if state == Directive(true) then Directive(false) else LineStart)
    else if IsSpace(b) then state
    else
      match state
      case LineStart => if b == HASH then Directive(false) else Ordinary
      case Directive(_) => Directive(b == BACKSLASH)
      case Ordinary => Ordinary
  }

  function LineStateAt(bytes: seq<Byte>, i: nat): LineState
    requires i <= |bytes|
  {
    if i == 0 then LineStart else StepLine(LineStateAt(bytes, i - 1), bytes[i - 1])
  }

  /** The first newline at or after `i`, or the end of the text. */
  function LineEnd(bytes: seq<Byte>, i: nat): (end: nat)
    requires i <= |bytes|
    ensures i <= end <= |bytes|
    ensures forall j :: i <= j < end ==> bytes[j] != NEWLINE
    ensures end < |bytes| ==> bytes[end] == NEWLINE
    decreases |bytes| - i
  {
    if i == |bytes| || bytes[i] == NEWLINE then i else LineEnd(bytes, i + 1)
  }

  /** Byte `i` lies on a preprocessor logical line: its physical line ends in a directive. */
  predicate OnDirectiveLine(bytes: seq<Byte>, i: nat)
    requires i < |bytes|
  {
    bytes[i] != NEWLINE && LineStateAt(bytes, LineEnd(bytes, i)).Directive?
  }

  predicate IsCodeByte(bytes: seq<Byte>, isCpp: bool, i: nat)
    requires i < |bytes|
  {
    LexicallyCode(bytes, isCpp, i) && !OnDirectiveLine(bytes, i)
  }

  // ---------------------------------------------------------------- preprocessor lines

  function FirstNonSpace(bytes: seq<Byte>, from: nat, until: nat): Option<nat>
    requires from <= until <= |bytes|
    decreases |bytes| - from
  {
    if from == until then None
    else if !IsSpace(bytes[from]) then Some(from)
    else FirstNonSpace(bytes, from + 1, until)
  }

  function LastNonSpace(bytes: seq<Byte>, from: nat, until: nat): Option<nat>
    requires from <= until <= |bytes|
    decreases until
  {
    if from == until then None
    else if !IsSpace(bytes[until - 1]) then Some(until - 1)
    else LastNonSpace(bytes, from, until - 1)
  }

  predicate FoundByte(bytes: seq<Byte>, at: Option<nat>, b: Byte) {
    at.Some? && at.value < |bytes| && bytes[at.value] == b
  }

  lemma {:induction false} FirstNonSpaceExtends(bytes: seq<Byte>, from: nat, until: nat)
    requires from <= until < |bytes|
    ensures
      var shorter := FirstNonSpace(bytes, from, until);
      FirstNonSpace(bytes, from, until + 1)
      == (if shorter.Some? then shorter else if IsSpace(bytes[until]) then None else Some(until))
    decreases |bytes| - from
  {
    if from < until && IsSpace(bytes[from]) {
      FirstNonSpaceExtends(bytes, from + 1, until);
    }
  }

  lemma {:induction false} FirstAndLastTogether(bytes: seq<Byte>, from: nat, until: nat)
    requires from <= until <= |bytes|
    ensures FirstNonSpace(bytes, from, until).Some? <==> LastNonSpace(bytes, from, until).Some?
    ensures FirstNonSpace(bytes, from, until).Some? ==> from <= FirstNonSpace(bytes, from, until).value < until
    ensures LastNonSpace(bytes, from, until).Some? ==> from <= LastNonSpace(bytes, from, until).value < until
    decreases until
  {
    if from < until {
      FirstAndLastTogether(bytes, from, until - 1);
      FirstNonSpaceExtends(bytes, from, until - 1);
    }
  }

  /** The state of the line automaton after part of one physical line. */
  lemma {:induction false} LineScan(bytes: seq<Byte>, start: nat, end: nat, continuation: bool)
    requires start <= end <= |bytes|
    requires LineStateAt(bytes, start) == if continuation then Directive(false) else LineStart
    requires forall j :: start <= j < end ==> bytes[j] != NEWLINE
    ensures
      var first, last := FirstNonSpace(bytes, start, end), LastNonSpace(bytes, start, end);
      LineStateAt(bytes, end) ==
        (if continuation || FoundByte(bytes, first, HASH) then Directive(FoundByte(bytes, last, BACKSLASH))
         else if first.None? then LineStart
         else Ordinary)
    decreases end
  {
    if start < end {
      LineScan(bytes, start, end - 1, continuation);
      FirstNonSpaceExtends(bytes, start, end - 1);
      FirstAndLastTogether(bytes, start, end - 1);
    }
  }

  lemma {:induction false} LineEndShared(bytes: seq<Byte>, start: nat, i: nat)
    requires start <= |bytes| && start <= i <= LineEnd(bytes, start)
    ensures LineEnd(bytes, i) == LineEnd(bytes, start)
    decreases |bytes| - start
  {
    if start < i {
      LineEndShared(bytes, start + 1, i);
    }
  }

  method MarkPreprocessorLogicalLines(bytes: seq<Byte>, output: array<bool>)
    requires output.Length == |bytes|
    requires forall i :: 0 <= i < output.Length ==> !output[i]
    modifies output
    ensures forall i :: 0 <= i < |bytes| ==> output[i] == OnDirectiveLine(bytes, i)
  {
    var start := 0;
    var continuation := false;
    while start < |bytes|
      invariant start <= |bytes|
      invariant start < |bytes| ==>
                  LineStateAt(bytes, start) == if continuation then Directive(false) else LineStart
      invariant forall i :: 0 <= i < start ==> output[i] == OnDirectiveLine(bytes, i)
      invariant forall i :: start <= i < |bytes| ==> !output[i]
    {
      var contentEnd := LineEnd(bytes, start);
      var newline := if contentEnd < |bytes| then contentEnd + 1 else contentEnd;
      var first := FirstNonSpace(bytes, start, contentEnd);
      var isPreprocessor := continuation || FoundByte(bytes, first, HASH);
      LineScan(bytes, start, contentEnd, continuation);
      FirstAndLastTogether(bytes, start, contentEnd);
      forall i | start <= i < contentEnd ensures OnDirectiveLine(bytes, i) == isPreprocessor {
        LineEndShared(bytes, start, i);
      }
      if isPreprocessor {
        forall i | start <= i < contentEnd {
          output[i] := true;
        }
      }
      var last := LastNonSpace(bytes, start, contentEnd);
      continuation := isPreprocessor && FoundByte(bytes, last, BACKSLASH);
      start := newline;
    }
  }

  // ---------------------------------------------------------------- scanning one construct

  /** No byte of `[from, until)` is code, and the automaton is in `mode` at `until`. */
  ghost predicate Scanned(bytes: seq<Byte>, isCpp: bool, from: nat, until: nat, mode: Mode) {
    from <= until <= |bytes|
    && ModeAt(bytes, isCpp, until) == mode
    && forall i :: from <= i < until ==> !LexicallyCode(bytes, isCpp, i)
  }

  /** The last byte before `index` that is not a carriage return. */
  function LastNonReturn(bytes: seq<Byte>, index: nat): Option<Byte>
    requires index <= |bytes|
  {
    if index == 0 then None
    else if bytes[index - 1] != RETURN then Some(bytes[index - 1])
    else LastNonReturn(bytes, index - 1)
  }

  method LineCommentEnd(bytes: seq<Byte>, start: nat, isCpp: bool) returns (index: nat)
    requires start + 2 <= |bytes| && bytes[start] == SLASH && bytes[start + 1] == SLASH
    requires ModeAt(bytes, isCpp, start) == Code
    ensures start < index <= |bytes|
    ensures index < |bytes| ==> ModeAt(bytes, isCpp, index) == Code
    ensures forall i :: start <= i < index ==> !LexicallyCode(bytes, isCpp, i)
  {
    index := start + 2;
    assert ModeAt(bytes, isCpp, start + 1) == Skip(LineComment(false));
    while true
      invariant start + 2 <= index <= |bytes|
      invariant Scanned(bytes, isCpp, start, index, LineComment(LastNonReturn(bytes, index) == Some(BACKSLASH)))
      decreases |bytes| - index
    {
      ghost var before := index;
      while index < |bytes| && bytes[index] != NEWLINE
        invariant before <= index <= |bytes|
        invariant Scanned(bytes, isCpp, start, index, LineComment(LastNonReturn(bytes, index) == Some(BACKSLASH)))
      {
        index := index + 1;
      }
      var continued := LastNonReturn(bytes, index) == Some(BACKSLASH);
      if index < |bytes| {
        index := index + 1;
      }
      if !continued || index >= |bytes| {
        break;
      }
    }
  }

  method BlockCommentEnd(bytes: seq<Byte>, start: nat, isCpp: bool) returns (index: nat)
    requires start + 2 <= |bytes| && bytes[start] == SLASH && bytes[start + 1] == STAR
    requires ModeAt(bytes, isCpp, start) == Code
    ensures start < index <= |bytes|
    ensures index < |bytes| ==> ModeAt(bytes, isCpp, index) == Code
    ensures forall i :: start <= i < index ==> !LexicallyCode(bytes, isCpp, i)
  {
    index := start + 2;
    assert ModeAt(bytes, isCpp, start + 1) == Skip(BlockComment);
    while index + 1 < |bytes| && !(bytes[index] == STAR && bytes[index + 1] == SLASH)
      invariant start + 2 <= index <= |bytes|
      invariant Scanned(bytes, isCpp, start, index, BlockComment)
    {
      index := index + 1;
    }
    if index + 1 < |bytes| {
      assert ModeAt(bytes, isCpp, index + 1) == Skip(Code);
      index := index + 2;
    } else {
      index := |bytes|;
    }
  }

  method SkipQuotedBytes(bytes: seq<Byte>, start: nat, isCpp: bool) returns (index: nat)
    requires start < |bytes| && (bytes[start] == QUOTE || bytes[start] == APOSTROPHE)
    requires ModeAt(bytes, isCpp, start) == Code
    ensures start < index <= |bytes|
    ensures index < |bytes| ==> ModeAt(bytes, isCpp, index) == Code
    ensures forall i :: start <= i < index ==> !LexicallyCode(bytes, isCpp, i)
  {
    var quote := bytes[start];
    index := start + 1;
    while index < |bytes|
      invariant start + 1 <= index <= |bytes|
      invariant forall i :: start <= i < index ==> !LexicallyCode(bytes, isCpp, i)
      invariant index < |bytes| ==> ModeAt(bytes, isCpp, index) == Quoted(quote)
    {
      if bytes[index] == BACKSLASH {
        assert ModeAt(bytes, isCpp, index + 1) == Skip(Quoted(quote));
        index := if index + 2 <= |bytes| then index + 2 else |bytes|;
      } else if bytes[index] == quote {
        return index + 1;
      } else {
        index := index + 1;
      }
    }
    index := |bytes|;
  }

  // ---------------------------------------------------------------- raw strings

  ghost predicate GoodDelimiter(delimiter: seq<Byte>) {
    |delimiter| <= MAX_RAW_DELIMITER && forall i :: 0 <= i < |delimiter| ==> DelimiterByte(delimiter[i])
  }

  predicate ClosesAt(bytes: seq<Byte>, delimiter: seq<Byte>, p: nat) {
    p + 1 + |delimiter| < |bytes|
    && bytes[p] == CLOSE
    && bytes[p + 1..p + 1 + |delimiter|] == delimiter
    && bytes[p + 1 + |delimiter|] == QUOTE
  }

  /** The automaton between `R"` and the opening parenthesis. */
  lemma {:induction false} DelimiterScan(bytes: seq<Byte>, isCpp: bool, from: nat, j: nat)
    requires from <= j <= |bytes|
    requires ModeAt(bytes, isCpp, from) == RawDelimiter([])
    requires forall i :: from <= i < j ==> bytes[i] != OPEN
    ensures ModeAt(bytes, isCpp, j)
         == (if GoodDelimiter(bytes[from..j]) then RawDelimiter(bytes[from..j]) else Unterminated)
    decreases j
  {
    if from < j {
      DelimiterScan(bytes, isCpp, from, j - 1);
      assert bytes[from..j] == bytes[from..j - 1] + [bytes[j - 1]];
      if GoodDelimiter(bytes[from..j - 1]) {
        if DelimiterByte(bytes[j - 1]) && |bytes[from..j - 1]| < MAX_RAW_DELIMITER {
          assert GoodDelimiter(bytes[from..j]);
        } else {
          assert !GoodDelimiter(bytes[from..j]) by {
            assert bytes[from..j][|bytes[from..j]| - 1] == bytes[j - 1];
          }
        }
      } else {
        assert bytes[from..j - 1] == bytes[from..j][..j - 1 - from];
      }
    }
  }

  lemma {:induction false} UnterminatedStays(bytes: seq<Byte>, isCpp: bool, from: nat, j: nat)
    requires from <= j <= |bytes|
    requires ModeAt(bytes, isCpp, from) == Unterminated
    ensures ModeAt(bytes, isCpp, j) == Unterminated
    decreases j
  {
    if from < j {
      UnterminatedStays(bytes, isCpp, from, j - 1);
    }
  }

  /** `)` and the first `k` delimiter bytes stand right in front of `j`. */
  ghost predicate Partial(bytes: seq<Byte>, delimiter: seq<Byte>, body: nat, j: nat, k: nat) {
    k <= |delimiter| && body + k + 1 <= j <= |bytes|
    && bytes[j - 1 - k] == CLOSE
    && bytes[j - k..j] == delimiter[..k]
  }

  ghost predicate Tracks(bytes: seq<Byte>, delimiter: seq<Byte>, body: nat, j: nat, matched: Option<nat>) {
    (matched.Some? ==> Partial(bytes, delimiter, body, j, matched.value))
    && forall k: nat :: Partial(bytes, delimiter, body, j, k) ==> matched == Some(k)
  }

  lemma PartialStep(bytes: seq<Byte>, delimiter: seq<Byte>, body: nat, j: nat, k: nat)
    requires body <= j < |bytes|
    ensures Partial(bytes, delimiter, body, j + 1, k)
       <==> (if k == 0 then bytes[j] == CLOSE
             else Partial(bytes, delimiter, body, j, k - 1) && k <= |delimiter| && bytes[j] == delimiter[k - 1])
  {
    if k == 0 {
      assert bytes[j + 1..j + 1] == delimiter[..0];
    } else if k <= |delimiter| && body + k + 1 <= j + 1 {
      assert bytes[j + 1 - k..j + 1] == bytes[j - (k - 1)..j] + [bytes[j]];
      assert delimiter[..k] == delimiter[..k - 1] + [delimiter[k - 1]];
      if bytes[j + 1 - k..j + 1] == delimiter[..k] {
        assert bytes[j + 1 - k..j + 1][k - 1] == delimiter[..k][k - 1];
        assert bytes[j - (k - 1)..j] == bytes[j + 1 - k..j + 1][..k - 1];
        assert delimiter[..k - 1] == delimiter[..k][..k - 1];
      }
    }
  }

  /** One step of the body automaton keeps track of the only partial match. */
  lemma TrackStep(bytes: seq<Byte>, delimiter: seq<Byte>, body: nat, j: nat, matched: Option<nat>)
    requires body <= j < |bytes| && GoodDelimiter(delimiter)
    requires Tracks(bytes, delimiter, body, j, matched)
    requires !(matched == Some(|delimiter|) && bytes[j] == QUOTE)
    ensures StepRawBody(delimiter, matched, bytes[j]).RawBody?
    ensures Tracks(bytes, delimiter, body, j + 1, StepRawBody(delimiter, matched, bytes[j]).matched)
  {
    var after := StepRawBody(delimiter, matched, bytes[j]).matched;
    forall k: nat ensures Partial(bytes, delimiter, body, j + 1, k) <==> after == Some(k) {
      PartialStep(bytes, delimiter, body, j, k);
      if matched.Some? {
        assert Partial(bytes, delimiter, body, j, matched.value);
        assert matched.value < |delimiter| ==> DelimiterByte(delimiter[matched.value]);
      }
      if 0 < k <= |delimiter| {
        assert Partial(bytes, delimiter, body, j, k - 1) <==> matched == Some(k - 1);
        assert DelimiterByte(delimiter[k - 1]);
      }
    }
  }

  /** A full match followed by a quote is a closing sequence. */
  lemma StillOpen(bytes: seq<Byte>, delimiter: seq<Byte>, body: nat, j: nat, matched: Option<nat>)
    requires body < j <= |bytes| && Tracks(bytes, delimiter, body, j - 1, matched)
    requires forall p :: body <= p && p + |delimiter| + 2 <= j ==> !ClosesAt(bytes, delimiter, p)
    ensures !(matched == Some(|delimiter|) && bytes[j - 1] == QUOTE)
  {
    if matched == Some(|delimiter|) {
      var p := j - 2 - |delimiter|;
      assert bytes[p + 1..p + 1 + |delimiter|] == delimiter[..|delimiter|] == delimiter;
      assert !ClosesAt(bytes, delimiter, p);
    }
  }

  /** Inside the body, as long as no closing sequence has been read completely. */
  lemma {:induction false} BodyScan(bytes: seq<Byte>, isCpp: bool, delimiter: seq<Byte>, body: nat, j: nat)
    returns (matched: Option<nat>)
    requires body <= j <= |bytes| && GoodDelimiter(delimiter)
    requires ModeAt(bytes, isCpp, body) == RawBody(delimiter, None)
    requires forall p :: body <= p && p + |delimiter| + 2 <= j ==> !ClosesAt(bytes, delimiter, p)
    ensures ModeAt(bytes, isCpp, j) == RawBody(delimiter, matched)
    ensures Tracks(bytes, delimiter, body, j, matched)
    decreases j
  {
    if body == j {
      matched := None;
    } else {
      var earlier := BodyScan(bytes, isCpp, delimiter, body, j - 1);
      StillOpen(bytes, delimiter, body, j, earlier);
      TrackStep(bytes, delimiter, body, j - 1, earlier);
      matched := StepRawBody(delimiter, earlier, bytes[j - 1]).matched;
    }
  }

  /** The first closing sequence ends the literal. */
  lemma BodyEnds(bytes: seq<Byte>, isCpp: bool, delimiter: seq<Byte>, body: nat, p: nat)
    requires body <= p && GoodDelimiter(delimiter) && ClosesAt(bytes, delimiter, p)
    requires ModeAt(bytes, isCpp, body) == RawBody(delimiter, None)
    requires forall q :: body <= q < p ==> !ClosesAt(bytes, delimiter, q)
    ensures Scanned(bytes, isCpp, body, p + |delimiter| + 2, Code)
  {
    var last := p + 1 + |delimiter|;
    forall j | body <= j <= last ensures ModeAt(bytes, isCpp, j).RawBody? {
      var _ := BodyScan(bytes, isCpp, delimiter, body, j);
    }
    var matched := BodyScan(bytes, isCpp, delimiter, body, last);
    assert bytes[last - |delimiter|..last] == delimiter == delimiter[..|delimiter|];
    assert Partial(bytes, delimiter, body, last, |delimiter|);
    assert matched == Some(|delimiter|);
  }

  lemma BodyNeverEnds(bytes: seq<Byte>, isCpp: bool, delimiter: seq<Byte>, body: nat)
    requires body <= |bytes| && GoodDelimiter(delimiter)
    requires ModeAt(bytes, isCpp, body) == RawBody(delimiter, None)
    requires forall q :: body <= q ==> !ClosesAt(bytes, delimiter, q)
    ensures forall i :: body <= i < |bytes| ==> !LexicallyCode(bytes, isCpp, i)
  {
    forall i | body <= i < |bytes| ensures !LexicallyCode(bytes, isCpp, i) {
      var _ := BodyScan(bytes, isCpp, delimiter, body, i);
    }
  }

  function FindByte(bytes: seq<Byte>, from: nat, b: Byte): (at: Option<nat>)
    requires from <= |bytes|
    ensures at.None? ==> forall j :: from <= j < |bytes| ==> bytes[j] != b
    ensures at.Some? ==> from <= at.value < |bytes| && bytes[at.value] == b
    ensures at.Some? ==> forall j :: from <= j < at.value ==> bytes[j] != b
    decreases |bytes| - from
  {
    if from == |bytes| then None else if bytes[from] == b then Some(from) else FindByte(bytes, from + 1, b)
  }

  /** The prefix `R"` up to and including the opening parenthesis, or the lack of one. */
  lemma RawOpening(bytes: seq<Byte>, start: nat, until: nat)
    requires start + 2 <= until <= |bytes| && bytes[start] == UPPER_R && bytes[start + 1] == QUOTE
    requires ModeAt(bytes, true, start) == Code
    requires forall i :: start + 2 <= i < until ==> bytes[i] != OPEN
    ensures forall i :: start <= i < until ==> !LexicallyCode(bytes, true, i)
    ensures ModeAt(bytes, true, until)
         == (if GoodDelimiter(bytes[start + 2..until]) then RawDelimiter(bytes[start + 2..until]) else Unterminated)
  {
    assert ModeAt(bytes, true, start + 1) == Skip(RawDelimiter([]));
    assert ModeAt(bytes, true, start + 2) == RawDelimiter([]);
    forall j | start + 2 <= j <= until ensures ModeAt(bytes, true, j) != Code {
      DelimiterScan(bytes, true, start + 2, j);
    }
    DelimiterScan(bytes, true, start + 2, until);
  }

  /** Without a usable delimiter nothing after `R"` is code again. */
  lemma RawOpeningFails(bytes: seq<Byte>, start: nat, until: nat)
    requires start + 2 <= until <= |bytes| && bytes[start] == UPPER_R && bytes[start + 1] == QUOTE
    requires ModeAt(bytes, true, start) == Code
    requires forall i :: start + 2 <= i < until ==> bytes[i] != OPEN
    requires until == |bytes| || !GoodDelimiter(bytes[start + 2..until])
    ensures forall i :: start <= i < |bytes| ==> !LexicallyCode(bytes, true, i)
  {
    RawOpening(bytes, start, until);
    forall i | until <= i < |bytes| ensures !LexicallyCode(bytes, true, i) {
      UnterminatedStays(bytes, true, until, i);
    }
  }

  method RawStringEnd(bytes: seq<Byte>, start: nat) returns (end: Option<nat>)
    requires start + 2 <= |bytes| && bytes[start] == UPPER_R && bytes[start + 1] == QUOTE
    requires ModeAt(bytes, true, start) == Code
    ensures end.Some? ==> start < end.value && Scanned(bytes, true, start, end.value, Code)
    ensures end.None? ==> forall i :: start <= i < |bytes| ==> !LexicallyCode(bytes, true, i)
  {
    var delimiterStart := start + 2;
    var found := FindByte(bytes, delimiterStart, OPEN);
    if found.None? {
      RawOpeningFails(bytes, start, |bytes|);
      return None;
    }
    var open := found.value;
    var delimiter := bytes[delimiterStart..open];
    if open - delimiterStart > MAX_RAW_DELIMITER {
      RawOpeningFails(bytes, start, open);
      return None;
    }
    if exists i :: 0 <= i < |delimiter| && !DelimiterByte(delimiter[i]) {
      RawOpeningFails(bytes, start, open);
      return None;
    }
    RawOpening(bytes, start, open);
    var closing := FindClosing(bytes, delimiter, open + 1);
    if closing.None? {
      BodyNeverEnds(bytes, true, delimiter, open + 1);
      return None;
    }
    BodyEnds(bytes, true, delimiter, open + 1, closing.value);
    end := Some(closing.value + |delimiter| + 2);
  }

  /** The first closing sequence at or after `from`. */
  method FindClosing(bytes: seq<Byte>, delimiter: seq<Byte>, from: nat) returns (at: Option<nat>)
    requires from <= |bytes|
    ensures at.Some? ==> from <= at.value && ClosesAt(bytes, delimiter, at.value)
    ensures at.Some? ==> forall q :: from <= q < at.value ==> !ClosesAt(bytes, delimiter, q)
    ensures at.None? ==> forall q :: from <= q ==> !ClosesAt(bytes, delimiter, q)
  {
    var index := from;
    while index < |bytes|
      invariant from <= index <= |bytes|
      invariant forall q :: from <= q < index ==> !ClosesAt(bytes, delimiter, q)
    {
      if ClosesAt(bytes, delimiter, index) {
        return Some(index);
      }
      index := index + 1;
    }
    at := None;
  }

  // ---------------------------------------------------------------- the map

  method Fill(marks: array<bool>, from: nat, until: nat)
    requires from <= until <= marks.Length
    modifies marks
    ensures forall i :: 0 <= i < marks.Length ==> marks[i] == (old(marks[i]) && !(from <= i < until))
  {
    forall i | from <= i < until {
      marks[i] := false;
    }
  }

  /** `LexicalMap::new`: every byte is marked as the automata mark it. */
  method NewLexicalMap(bytes: seq<Byte>, isCpp: bool) returns (code: array<bool>, preprocessor: array<bool>)
    ensures code.Length == preprocessor.Length == |bytes|
    ensures fresh(code) && fresh(preprocessor)
    ensures forall i :: 0 <= i < |bytes| ==> code[i] == IsCodeByte(bytes, isCpp, i)
    ensures forall i :: 0 <= i < |bytes| ==> preprocessor[i] == OnDirectiveLine(bytes, i)
  {
    code := new bool[|bytes|](_ => true);
    preprocessor := new bool[|bytes|](_ => false);
    MarkPreprocessorLogicalLines(bytes, preprocessor);
    var index := 0;
    while index < |bytes|
      invariant index <= |bytes|
      invariant index < |bytes| ==> ModeAt(bytes, isCpp, index) == Code
      invariant forall i :: 0 <= i < index ==> code[i] == LexicallyCode(bytes, isCpp, i)
      invariant forall i :: index <= i < |bytes| ==> code[i]
      invariant forall i :: 0 <= i < |bytes| ==> preprocessor[i] == OnDirectiveLine(bytes, i)
    {
      var start := index;
      if bytes[index] == SLASH && Peek(bytes, index + 1) == Some(SLASH) {
        index := LineCommentEnd(bytes, start, isCpp);
        Fill(code, start, index);
      } else if bytes[index] == SLASH && Peek(bytes, index + 1) == Some(STAR) {
        index := BlockCommentEnd(bytes, start, isCpp);
        Fill(code, start, index);
      } else if isCpp && bytes[index] == UPPER_R && Peek(bytes, index + 1) == Some(QUOTE) {
        var end := RawStringEnd(bytes, start);
        if end.None? {
          Fill(code, start, |bytes|);
          index := |bytes|;
          break;
        }
        index := end.value;
        Fill(code, start, index);
      } else if bytes[index] == QUOTE || bytes[index] == APOSTROPHE {
        index := SkipQuotedBytes(bytes, start, isCpp);
        Fill(code, start, index);
      } else {
        index := index + 1;
      }
    }
    for i := 0 to |bytes|
      invariant forall j :: 0 <= j < i ==> code[j] == IsCodeByte(bytes, isCpp, j)
      invariant forall j :: i <= j < |bytes| ==> code[j] == LexicallyCode(bytes, isCpp, j)
      invariant forall j :: 0 <= j < |bytes| ==> preprocessor[j] == OnDirectiveLine(bytes, j)
    {
      if preprocessor[i] {
        code[i] := false;
      }
    }
  }
}
