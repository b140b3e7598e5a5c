/**
 The completion accept log (completion_history.rs): a bounded newest-first log
 that is re-sorted and truncated on every accept, the counts derived from it,
 and the hexadecimal candidate keys stored in it.
 */
module History {
  import opened Basics
  import opened Ordering

  const MAX_HISTORY_ENTRIES := 4096

  datatype AcceptEvent = AcceptEvent(
    workspaceHash: string,
    candidateHash: string,
    kind: string,
    intent: string,
    prefixBucket: string,
    acceptedAt: int)

  /** The key of the newest-first order. */
  function NewestFirst(e: AcceptEvent): Key {
    [Num(-e.acceptedAt)]
  }

  function Record(log: seq<AcceptEvent>, e: AcceptEvent, cap: nat): seq<AcceptEvent> {
    Truncate(StableSort(log + [e], NewestFirst), cap)
  }

  function WithoutWorkspace(log: seq<AcceptEvent>, workspace: string): seq<AcceptEvent> {
    if log == [] then []
    else (if log[0].workspaceHash != workspace then [log[0]] else []) + WithoutWorkspace(log[1..], workspace)
  }

  class CompletionHistoryStore {
    var entries: seq<AcceptEvent>

    constructor Empty()
      ensures entries == []
    {
      entries := [];
    }

    method RecordAccept(event: AcceptEvent)
      modifies this
      ensures entries == Record(old(entries), event, MAX_HISTORY_ENTRIES)
      ensures |entries| <= MAX_HISTORY_ENTRIES
    {
      entries := entries + [event];
      entries := StableSort(entries, NewestFirst);
      if |entries| > MAX_HISTORY_ENTRIES {
        entries := entries[..MAX_HISTORY_ENTRIES];
      }
    }

    method ClearAll() returns (removed: nat)
      modifies this
      ensures entries == [] && removed == |old(entries)|
    {
      removed := |entries|;
      entries := [];
    }

    method ClearWorkspace(workspace: string) returns (removed: nat)
      modifies this
      ensures entries == WithoutWorkspace(old(entries), workspace)
      ensures removed == |old(entries)| - |entries|
    {
      var kept: seq<AcceptEvent> := [];
      for i := 0 to |entries|
        invariant kept + WithoutWorkspace(entries[i..], workspace) == WithoutWorkspace(entries, workspace)
        invariant |kept| <= i
      {
        assert entries[i..][1..] == entries[i + 1..];
        if entries[i].workspaceHash != workspace {
          kept := kept + [entries[i]];
        }
      }
      assert entries[|entries|..] == [];
      removed := |entries| - |kept|;
      entries := kept;
    }
  }

  // ---------------------------------------------------------------- the bounded log

  datatype Operation = Accept(event: AcceptEvent) | Clear

  /** The log after a run that starts from `log`. */
  function Replay(log: seq<AcceptEvent>, run: seq<Operation>, cap: nat): seq<AcceptEvent>
    decreases |run|
  {
    if run == [] then log
    else
      var before := Replay(log, run[..|run| - 1], cap);
      match run[|run| - 1]
      case Accept(e) => Record(before, e, cap)
      case Clear => []
  }

  /** Every event accepted since the last clear, in order of acceptance. */
  function AcceptedSinceClear(run: seq<Operation>): seq<AcceptEvent>
    decreases |run|
  {
    if run == [] then []
    else
      match run[|run| - 1]
      case Accept(e) => AcceptedSinceClear(run[..|run| - 1]) + [e]
      case Clear => []
  }

  /** Put `x` in front of the first element that is strictly greater. */
  ghost function InsertLast<T>(x: T, t: seq<T>, key: T -> Key): seq<T> {
    if t == [] || !KeyLe(key(t[0]), key(x)) then [x] + t else [t[0]] + InsertLast(x, t[1..], key)
  }

  lemma {:induction false} InsertLastMembers<T>(x: T, t: seq<T>, key: T -> Key)
    ensures forall y :: y in InsertLast(x, t, key) ==> y == x || y in t
    ensures |InsertLast(x, t, key)| == |t| + 1
  {
    if t != [] && KeyLe(key(t[0]), key(x)) {
      InsertLastMembers(x, t[1..], key);
    }
  }

  lemma {:induction false} InsertLastSorted<T>(x: T, t: seq<T>, key: T -> Key)
    requires Sorted(t, key)
    ensures Sorted(InsertLast(x, t, key), key)
  {
    if t == [] {
    } else if KeyLe(key(t[0]), key(x)) {
      InsertLastSorted(x, t[1..], key);
      InsertLastMembers(x, t[1..], key);
      var rest := InsertLast(x, t[1..], key);
      forall j | 0 <= j < |rest| ensures KeyLe(key(t[0]), key(rest[j])) {
        assert rest[j] == x || rest[j] in t[1..];
      }
    } else {
      KeyLeTotal(key(t[0]), key(x));
      forall j | 0 <= j < |t| ensures KeyLe(key(x), key(t[j])) {
        if j > 0 {
          KeyLeTransitive(key(x), key(t[0]), key(t[j]));
        }
      }
    }
  }

  lemma {:induction false} InsertLastRuns<T>(x: T, t: seq<T>, key: T -> Key, k: Key)
    requires Sorted(t, key)
    ensures Select(InsertLast(x, t, key), key, k) == Select(t + [x], key, k)
  {
    SelectConcat(t, [x], key, k);
    if t == [] {
    } else if KeyLe(key(t[0]), key(x)) {
      InsertLastRuns(x, t[1..], key, k);
      SelectConcat(t[1..], [x], key, k);
    } else {
      assert ([x] + t)[1..] == t;
      if k == key(x) {
        NothingSmaller(t, key, k);
      }
    }
  }

  lemma {:induction false} NothingSmaller<T>(t: seq<T>, key: T -> Key, k: Key)
    requires Sorted(t, key) && t != [] && !KeyLe(key(t[0]), k)
    ensures Select(t, key, k) == []
  {
    KeyLeTotal(key(t[0]), k);
    if |t| > 1 {
      if KeyLe(key(t[1]), k) {
        KeyLeTransitive(key(t[0]), key(t[1]), k);
      }
      NothingSmaller(t[1..], key, k);
    }
  }

  /** Sorting after a push places the pushed element behind its equals. */
  lemma SortAfterPush<T>(s: seq<T>, x: T, key: T -> Key)
    ensures StableSort(s + [x], key) == InsertLast(x, StableSort(s, key), key)
  {
    var sorted := StableSort(s, key);
    StableSortFacts(s, key);
    InsertLastSorted(x, sorted, key);
    forall k ensures Select(InsertLast(x, sorted, key), key, k) == Select(s + [x], key, k) {
      InsertLastRuns(x, sorted, key, k);
      SelectConcat(sorted, [x], key, k);
      SelectConcat(s, [x], key, k);
    }
    SameRunsSameSort(InsertLast(x, sorted, key), s + [x], key);
    SortedIsFixed(InsertLast(x, sorted, key), key);
  }

  lemma {:induction false} TruncateThenInsert<T>(x: T, t: seq<T>, key: T -> Key, cap: nat)
    requires Sorted(t, key)
    ensures Truncate(InsertLast(x, Truncate(t, cap), key), cap) == Truncate(InsertLast(x, t, key), cap)
  {
    InsertLastMembers(x, t, key);
    if |t| > cap {
      if cap == 0 {
      } else if KeyLe(key(t[0]), key(x)) {
        TruncateThenInsert(x, t[1..], key, cap - 1);
        InsertLastMembers(x, t[1..], key);
        assert t[..cap][1..] == t[1..][..cap - 1];
        var small := InsertLast(x, t[1..][..cap - 1], key);
        InsertLastMembers(x, t[1..][..cap - 1], key);
        assert ([t[0]] + small)[..cap] == [t[0]] + small[..cap - 1];
        assert ([t[0]] + InsertLast(x, t[1..], key))[..cap] == [t[0]] + InsertLast(x, t[1..], key)[..cap - 1];
      } else {
        assert ([x] + t[..cap])[..cap] == ([x] + t)[..cap];
      }
    }
  }

  /** One accept on a truncated log gives what it would give on the full log. */
  lemma RecordSeesOnlyTheTop(history: seq<AcceptEvent>, e: AcceptEvent, cap: nat)
    ensures Record(Truncate(StableSort(history, NewestFirst), cap), e, cap)
         == Truncate(StableSort(history + [e], NewestFirst), cap)
  {
    var sorted := StableSort(history, NewestFirst);
    StableSortFacts(history, NewestFirst);
    SortAfterPush(history, e, NewestFirst);
    var top := Truncate(sorted, cap);
    SortAfterPush(top, e, NewestFirst);
    SortedIsFixed(top, NewestFirst);
    TruncateThenInsert(e, sorted, NewestFirst, cap);
  }

  /**
   Starting empty, the stored log is always the first `cap` events of the stable
   newest-first order of everything accepted since the last clear.
   */
  lemma {:induction false} StreamingTopK(run: seq<Operation>, cap: nat)
    ensures Replay([], run, cap) == Truncate(StableSort(AcceptedSinceClear(run), NewestFirst), cap)
    decreases |run|
  {
    if run != [] {
      var prefix := run[..|run| - 1];
      StreamingTopK(prefix, cap);
      match run[|run| - 1] {
        case Accept(e) => RecordSeesOnlyTheTop(AcceptedSinceClear(prefix), e, cap);
        case Clear =>
      }
    }
  }

  lemma NewestFirstOrder(d: AcceptEvent, e: AcceptEvent)
    ensures KeyLe(NewestFirst(d), NewestFirst(e)) <==> d.acceptedAt >= e.acceptedAt
    ensures NewestFirst(d) == NewestFirst(e) <==> d.acceptedAt == e.acceptedAt
  {
    assert NewestFirst(d)[1..] == [] && NewestFirst(e)[1..] == [];
    assert NewestFirst(d)[0] == Num(-d.acceptedAt) && NewestFirst(e)[0] == Num(-e.acceptedAt);
  }

  /** The event at `p` goes before the one at `q`: it is newer, or as new and accepted earlier. */
  predicate Outranks(accepted: seq<AcceptEvent>, p: nat, q: nat)
    requires p < |accepted| && q < |accepted|
  {
    accepted[p].acceptedAt > accepted[q].acceptedAt || (accepted[p].acceptedAt == accepted[q].acceptedAt && p < q)
  }

  /**
   The accepted events can be ranked, newest first and ties in the order of acceptance; the
   log is the first `cap` of that ranking.
   */
  lemma LogIsTheNewest(run: seq<Operation>, cap: nat) returns (rank: seq<nat>)
    ensures var accepted, log := AcceptedSinceClear(run), Replay([], run, cap);
      |rank| == |accepted| && |log| == Min(cap, |accepted|)
      && (forall i :: 0 <= i < |rank| ==> rank[i] < |accepted|)
      && (forall i, j :: 0 <= i < j < |rank| ==> Outranks(accepted, rank[i], rank[j]))
      && (forall i :: 0 <= i < |log| ==> log[i] == accepted[rank[i]])
  {
    var accepted := AcceptedSinceClear(run);
    StreamingTopK(run, cap);
    StableSortFacts(accepted, NewestFirst);
    rank := StableSortArranges(accepted, NewestFirst);
    var sorted := StableSort(accepted, NewestFirst);
    forall i, j | 0 <= i < j < |rank| ensures Outranks(accepted, rank[i], rank[j]) {
      assert KeyLe(NewestFirst(sorted[i]), NewestFirst(sorted[j]));
      NewestFirstOrder(accepted[rank[i]], accepted[rank[j]]);
    }
  }

  /** From any opened file, sorted or not, the same holds once one event was accepted. */
  lemma {:induction false} TopKFromAnyFile(file: seq<AcceptEvent>, events: seq<AcceptEvent>, cap: nat)
    requires events != []
    ensures Replay(file, seq(|events|, i requires 0 <= i < |events| => Accept(events[i])), cap)
         == Truncate(StableSort(file + events, NewestFirst), cap)
    decreases |events|
  {
    var run := seq(|events|, i requires 0 <= i < |events| => Accept(events[i]));
    var n := |events| - 1;
    var shorter := events[..n];
    var last := events[n];
    assert run[..n] == seq(n, i requires 0 <= i < n => Accept(shorter[i]));
    assert events == shorter + [last];
    assert file + events == (file + shorter) + [last];
    if n > 0 {
      TopKFromAnyFile(file, shorter, cap);
      RecordSeesOnlyTheTop(file + shorter, last, cap);
    } else {
      assert run[..n] == [];
      assert file + shorter == file;
    }
  }

  // ---------------------------------------------------------------- clearing one workspace

  lemma {:induction false} WithoutWorkspaceConcat(a: seq<AcceptEvent>, b: seq<AcceptEvent>, workspace: string)
    ensures WithoutWorkspace(a + b, workspace) == WithoutWorkspace(a, workspace) + WithoutWorkspace(b, workspace)
  {
    if a == [] {
      assert a + b == b;
    } else {
      assert (a + b)[1..] == a[1..] + b;
      WithoutWorkspaceConcat(a[1..], b, workspace);
    }
  }

  lemma {:induction false} WithoutWorkspaceSize(a: seq<AcceptEvent>, workspace: string)
    ensures |WithoutWorkspace(a, workspace)| <= |a|
    ensures |WithoutWorkspace(a, workspace)| == |a| <==> forall i :: 0 <= i < |a| ==> a[i].workspaceHash != workspace
    ensures WithoutWorkspace(a, workspace) == [] <==> forall i :: 0 <= i < |a| ==> a[i].workspaceHash == workspace
  {
    if a != [] {
      WithoutWorkspaceSize(a[1..], workspace);
      assert a == [a[0]] + a[1..];
    }
  }

  /**
   Clearing one workspace does not bring evicted events of other workspaces
   back: the result is the top of the remaining events exactly when the log held
   nothing of that workspace or only its events had been evicted.
   */
  lemma ClearWorkspaceExact(sorted: seq<AcceptEvent>, workspace: string, cap: nat)
    requires |sorted| > cap
    ensures WithoutWorkspace(Truncate(sorted, cap), workspace) == Truncate(WithoutWorkspace(sorted, workspace), cap)
            <==> ((forall i :: 0 <= i < cap ==> sorted[i].workspaceHash != workspace)
                  || (forall i :: cap <= i < |sorted| ==> sorted[i].workspaceHash == workspace))
  {
    var kept, evicted := sorted[..cap], sorted[cap..];
    SplitAt(sorted, cap);
    WithoutWorkspaceConcat(kept, evicted, workspace);
    WithoutWorkspaceSize(kept, workspace);
    WithoutWorkspaceSize(evicted, workspace);
    TruncateSum(WithoutWorkspace(kept, workspace), WithoutWorkspace(evicted, workspace), cap);
  }

  lemma SplitAt(s: seq<AcceptEvent>, cap: nat)
    requires cap <= |s|
    ensures s == s[..cap] + s[cap..]
    ensures forall i :: 0 <= i < cap ==> s[..cap][i] == s[i]
    ensures forall i :: cap <= i < |s| ==> s[cap..][i - cap] == s[i]
  {
  }

  lemma TruncateSum<T>(a: seq<T>, b: seq<T>, cap: nat)
    requires |a| <= cap
    ensures Truncate(a + b, cap) == a <==> |a| == cap || b == []
  {
    if |a| == cap {
      assert Truncate(a + b, cap) == a;
    } else if b == [] {
      assert a + b == a;
    } else {
      assert |Truncate(a + b, cap)| > |a|;
    }
  }

  // ---------------------------------------------------------------- candidate keys in hexadecimal

  const U64_RANGE: nat := 0x1_0000_0000_0000_0000

  function HexDigit(d: nat): char
    requires d < 16
  {
    "0123456789abcdef"[d]
  }

  function HexValue(c: char): Option<nat> {
    if '0' <= c <= '9' then Some(c as int - '0' as int)
    else if 'a' <= c <= 'f' then Some(c as int - 'a' as int + 10)
    else if 'A' <= c <= 'F' then Some(c as int - 'A' as int + 10)
    else None
  }

  /** `format!("{key:016x}")` writes the sixteen digits of a 64-bit key. */
  function HexPadded(key: nat, digits: nat): (s: string)
    ensures |s| == digits
  {
    if digits == 0 then "" else HexPadded(key / 16, digits - 1) + [HexDigit(key % 16)]
  }

  function HexFromKey(key: nat): string {
    HexPadded(key, 16)
  }

  function ParseHex(s: string): Option<nat> {
    if s == "" then Some(0)
    else
      var high, low := ParseHex(s[..|s| - 1]), HexValue(s[|s| - 1]);
      if high.Some? && low.Some? then Some(high.value * 16 + low.value) else None
  }

  function KeyFromHex(hash: string): Option<nat> {
    if |hash| != 16 then None else ParseHex(hash)
  }

  function LowerHex(c: char): char {
    if 'A' <= c <= 'F' then (c as int + 32) as char else c
  }

  lemma HexDigitRoundTrip(d: nat)
    requires d < 16
    ensures HexValue(HexDigit(d)) == Some(d)
  {
  }

  lemma HexValueRoundTrip(c: char)
    requires HexValue(c).Some?
    ensures HexValue(c).value < 16 && HexDigit(HexValue(c).value) == LowerHex(c)
  {
  }

  function Power16(digits: nat): nat {
    if digits == 0 then 1 else 16 * Power16(digits - 1)
  }

  lemma {:induction false} ParsePrinted(key: nat, digits: nat)
    requires key < Power16(digits)
    ensures ParseHex(HexPadded(key, digits)) == Some(key)
  {
    if digits > 0 {
      var front, last := HexPadded(key / 16, digits - 1), HexDigit(key % 16);
      ParsePrinted(key / 16, digits - 1);
      ParseSnoc(front, last);
      HexDigitRoundTrip(key % 16);
    }
  }

  lemma ParseSnoc(front: string, last: char)
    requires ParseHex(front).Some? && HexValue(last).Some?
    ensures ParseHex(front + [last]) == Some(ParseHex(front).value * 16 + HexValue(last).value)
  {
    var s := front + [last];
    assert s[..|s| - 1] == front && s[|s| - 1] == last;
  }

  lemma {:induction false} PrintParsed(s: string)
    requires ParseHex(s).Some?
    ensures ParseHex(s).value < Power16(|s|)
    ensures HexPadded(ParseHex(s).value, |s|) == seq(|s|, i requires 0 <= i < |s| => LowerHex(s[i]))
  {
    if s != "" {
      var front := s[..|s| - 1];
      PrintParsed(front);
      HexValueRoundTrip(s[|s| - 1]);
      assert (ParseHex(front).value * 16 + HexValue(s[|s| - 1]).value) / 16 == ParseHex(front).value;
    }
  }

  /** Every 64-bit key survives printing and parsing. */
  lemma KeyRoundTrip(key: nat)
    requires key < U64_RANGE
    ensures KeyFromHex(HexFromKey(key)) == Some(key)
  {
    assert Power16(16) == U64_RANGE by {
      assert Power16(8) == 0x1_0000_0000;
      assert Power16(12) == 0x1_0000_0000_0000;
    }
    ParsePrinted(key, 16);
  }

  /** A stored hash is accepted exactly when it is the key's spelling up to letter case. */
  lemma HashIdentifiesKey(hash: string, key: nat)
    requires key < U64_RANGE
    ensures KeyFromHex(hash) == Some(key)
       <==> |hash| == 16 && (forall i :: 0 <= i < 16 ==> LowerHex(hash[i]) == HexFromKey(key)[i])
  {
    KeyRoundTrip(key);
    assert Power16(16) == U64_RANGE by {
      assert Power16(8) == 0x1_0000_0000;
      assert Power16(12) == 0x1_0000_0000_0000;
    }
    ParsePrinted(key, 16);
    if KeyFromHex(hash) == Some(key) {
      PrintParsed(hash);
    } else if |hash| == 16 && forall i :: 0 <= i < 16 ==> LowerHex(hash[i]) == HexFromKey(key)[i] {
      SameSpellingSameValue(hash, HexFromKey(key));
    }
  }

  lemma {:induction false} SameSpellingSameValue(s: string, t: string)
    requires |s| == |t|
    requires forall i :: 0 <= i < |s| ==> LowerHex(s[i]) == t[i]
    ensures ParseHex(s) == ParseHex(t)
  {
    if s != "" {
      SameSpellingSameValue(s[..|s| - 1], t[..|t| - 1]);
      assert HexValue(s[|s| - 1]) == HexValue(t[|t| - 1]);
    }
  }

  // ---------------------------------------------------------------- accept counts

  type CountKey = (nat, string, string, string)

  function CountKeyOf(e: AcceptEvent): Option<CountKey> {
    match KeyFromHex(e.candidateHash)
    case Some(key) => Some((key, e.kind, e.intent, e.prefixBucket))
    case None => None
  }

  function Occurrences(entries: seq<AcceptEvent>, key: CountKey): nat {
    if entries == [] then 0
    else (if CountKeyOf(entries[0]) == Some(key) then 1 else 0) + Occurrences(entries[1..], key)
  }

  function Countable(entries: seq<AcceptEvent>): nat {
    if entries == [] then 0
    else (if CountKeyOf(entries[0]).Some? then 1 else 0) + Countable(entries[1..])
  }

  lemma {:induction false} OccurrencesPush(entries: seq<AcceptEvent>, e: AcceptEvent, key: CountKey)
    ensures Occurrences(entries + [e], key) == Occurrences(entries, key) + if CountKeyOf(e) == Some(key) then 1 else 0
    ensures Countable(entries + [e]) == Countable(entries) + if CountKeyOf(e).Some? then 1 else 0
  {
    if entries == [] {
      assert entries + [e] == [e];
    } else {
      assert (entries + [e])[1..] == entries[1..] + [e];
      OccurrencesPush(entries[1..], e, key);
    }
  }

  /** A hash is well formed when it is sixteen hexadecimal digits of either case. */
  lemma HashParsesIff(hash: string)
    ensures KeyFromHex(hash).Some?
       <==> |hash| == 16 && forall i :: 0 <= i < 16 ==> IsHexDigit(hash[i])
  {
    ParsesIff(hash);
  }

  predicate IsHexDigit(c: char) { '0' <= c <= '9' || 'a' <= c <= 'f' || 'A' <= c <= 'F' }

  lemma {:induction false} ParsesIff(s: string)
    ensures ParseHex(s).Some? <==> forall i :: 0 <= i < |s| ==> IsHexDigit(s[i])
  {
    if s != "" {
      ParsesIff(s[..|s| - 1]);
      assert forall i :: 0 <= i < |s| - 1 ==> s[i] == s[..|s| - 1][i];
    }
  }

  /** The entry counts for that key: its hash spells the number, and the other parts are its own. */
  predicate CountsFor(e: AcceptEvent, key: CountKey) {
    KeyFromHex(e.candidateHash) == Some(key.0) && e.kind == key.1 && e.intent == key.2 && e.prefixBucket == key.3
  }

  function PositionsFor(entries: seq<AcceptEvent>, key: CountKey): set<nat> {
    set i: nat | i < |entries| && CountsFor(entries[i], key)
  }

  /** A key's count is the number of entries that count for it. */
  lemma {:induction false} OccurrencesAre(entries: seq<AcceptEvent>, key: CountKey)
    ensures Occurrences(entries, key) == |PositionsFor(entries, key)|
    decreases |entries|
  {
    if entries == [] {
      assert PositionsFor(entries, key) == {};
    } else {
      var n := |entries| - 1;
      var front, last := entries[..n], entries[n];
      assert entries == front + [last];
      OccurrencesAre(front, key);
      OccurrencesPush(front, last, key);
      assert PositionsFor(entries, key) == PositionsFor(front, key) + if CountsFor(last, key) then {n} else {};
    }
  }

  function WellFormedPositions(entries: seq<AcceptEvent>): set<nat> {
    set i: nat | i < |entries| && KeyFromHex(entries[i].candidateHash).Some?
  }

  lemma {:induction false} CountableAre(entries: seq<AcceptEvent>)
    ensures Countable(entries) == |WellFormedPositions(entries)|
    decreases |entries|
  {
    if entries == [] {
      assert WellFormedPositions(entries) == {};
    } else {
      var n := |entries| - 1;
      var front, last := entries[..n], entries[n];
      assert entries == front + [last];
      CountableAre(front);
      OccurrencesPush(front, last, (0, "", "", ""));
      assert WellFormedPositions(entries)
          == WellFormedPositions(front) + if KeyFromHex(last.candidateHash).Some? then {n} else {};
    }
  }

  /** `CompletionHistorySnapshot::from_entries`: entries with a malformed hash are skipped. */
  method FromEntries(entries: seq<AcceptEvent>) returns (counts: map<CountKey, nat>, total: nat)
    ensures forall key :: (if key in counts then counts[key] else 0) == Occurrences(entries, key)
    ensures forall key :: key in counts ==> counts[key] > 0
    ensures total == Countable(entries)
  {
    counts, total := map[], 0;
    for i := 0 to |entries|
      invariant forall key :: (if key in counts then counts[key] else 0) == Occurrences(entries[..i], key)
      invariant forall key :: key in counts ==> counts[key] > 0
      invariant total == Countable(entries[..i])
    {
      assert entries[..i + 1] == entries[..i] + [entries[i]];
      forall key ensures Occurrences(entries[..i + 1], key)
          == Occurrences(entries[..i], key) + if CountKeyOf(entries[i]) == Some(key) then 1 else 0
      {
        OccurrencesPush(entries[..i], entries[i], key);
      }
      OccurrencesPush(entries[..i], entries[i], (0, "", "", ""));
      match CountKeyOf(entries[i]) {
        case None =>
        case Some(key) =>
          counts := counts[key := (if key in counts then counts[key] else 0) + 1];
          total := total + 1;
      }
    }
    assert entries[..|entries|] == entries;
  }
}
