/**
 The bounded member lookup by prefix (candidate_service.rs 893-923): binary search for
 the first name not below the prefix, then a scan that stops at the limit.
 */
module PrefixLookup {
  import opened Basics
  import opened Ordering
  import opened Overlay

  /** The name an entry is searched under. */
  function LowerName(m: At<Member>): string { AsciiLower(m.fact.name) }

  /** Names ascend along the index. */
  ghost predicate NamesAscend(index: seq<At<Member>>) {
    forall i, j :: 0 <= i < j < |index| ==> StringLe(LowerName(index[i]), LowerName(index[j]))
  }

  predicate Below(s: string, t: string) { StringLe(s, t) && s != t }

  lemma SortedNamesAscend(index: seq<At<Member>>)
    requires Sorted(index, MemberPrefixKey)
    ensures NamesAscend(index)
  {
    forall i, j | 0 <= i < j < |index| ensures StringLe(LowerName(index[i]), LowerName(index[j])) {
      assert KeyLe(MemberPrefixKey(index[i]), MemberPrefixKey(index[j]));
      StringLeReflexive(LowerName(index[i]));
    }
  }

  // ---------------------------------------------------------------- prefixes in the order of strings

  /** A string starts with a prefix only from the prefix on. */
  lemma {:induction false} PrefixIsBelow(s: string, prefix: string)
    requires StartsWith(s, prefix)
    ensures StringLe(prefix, s)
  {
    if prefix != "" {
      assert s[0] == s[..|prefix|][0] == prefix[0];
      assert s[1..][..|prefix| - 1] == s[..|prefix|][1..] == prefix[1..];
      PrefixIsBelow(s[1..], prefix[1..]);
    }
  }

  /** Between a prefix and a string that has it, every string has it. */
  lemma {:induction false} BetweenHasPrefix(prefix: string, s: string, t: string)
    requires StringLe(prefix, s) && StringLe(s, t) && StartsWith(t, prefix)
    ensures StartsWith(s, prefix)
  {
    if prefix != "" {
      assert t[0] == t[..|prefix|][0] == prefix[0];
      assert t[1..][..|prefix| - 1] == t[..|prefix|][1..] == prefix[1..];
      BetweenHasPrefix(prefix[1..], s[1..], t[1..]);
      assert s[..|prefix|] == [s[0]] + s[1..][..|prefix| - 1];
      assert prefix == [prefix[0]] + prefix[1..];
    }
  }

  // ---------------------------------------------------------------- the full linear filter

  function Matching(index: seq<At<Member>>, needle: string): seq<At<Member>> {
    if index == [] then []
    else (if StartsWith(LowerName(index[0]), needle) then [index[0]] else []) + Matching(index[1..], needle)
  }

  predicate InFamily(m: At<Member>, families: map<string, Family>, family: Family) {
    m.path in families && families[m.path] == family
  }

  function OfFamily(entries: seq<At<Member>>, families: map<string, Family>, family: Family): seq<At<Member>> {
    if entries == [] then []
    else
      (if InFamily(entries[0], families, family) then [entries[0]] else []) + OfFamily(entries[1..], families, family)
  }

  lemma {:induction false} MatchingNone(index: seq<At<Member>>, needle: string)
    requires forall i :: 0 <= i < |index| ==> !StartsWith(LowerName(index[i]), needle)
    ensures Matching(index, needle) == []
  {
    if index != [] {
      MatchingNone(index[1..], needle);
    }
  }

  lemma {:induction false} MatchingAll(index: seq<At<Member>>, needle: string)
    requires forall i :: 0 <= i < |index| ==> StartsWith(LowerName(index[i]), needle)
    ensures Matching(index, needle) == index
  {
    if index != [] {
      MatchingAll(index[1..], needle);
    }
  }

  lemma {:induction false} MatchingConcat(a: seq<At<Member>>, b: seq<At<Member>>, needle: string)
    ensures Matching(a + b, needle) == Matching(a, needle) + Matching(b, needle)
  {
    if a == [] {
      assert a + b == b;
    } else {
      assert (a + b)[0] == a[0] && (a + b)[1..] == a[1..] + b;
      MatchingConcat(a[1..], b, needle);
    }
  }

  lemma {:induction false} OfFamilySnoc(entries: seq<At<Member>>, last: At<Member>, families: map<string, Family>,
                                        family: Family)
    ensures OfFamily(entries + [last], families, family)
         == OfFamily(entries, families, family)
          + if InFamily(last, families, family) then [last] else []
  {
    if entries == [] {
      assert entries + [last] == [last] && [last][1..] == [];
    } else {
      assert (entries + [last])[0] == entries[0] && (entries + [last])[1..] == entries[1..] + [last];
      OfFamilySnoc(entries[1..], last, families, family);
      var tail := if InFamily(last, families, family) then [last] else [];
      var head := if InFamily(entries[0], families, family) then [entries[0]] else [];
      assert OfFamily(entries + [last], families, family) == head + (OfFamily(entries[1..], families, family) + tail);
      assert head + (OfFamily(entries[1..], families, family) + tail)
          == (head + OfFamily(entries[1..], families, family)) + tail;
    }
  }

  lemma MatchingBlock(before: seq<At<Member>>, block: seq<At<Member>>, after: seq<At<Member>>, needle: string)
    requires forall i :: 0 <= i < |before| ==> !StartsWith(LowerName(before[i]), needle)
    requires forall i :: 0 <= i < |block| ==> StartsWith(LowerName(block[i]), needle)
    requires forall i :: 0 <= i < |after| ==> !StartsWith(LowerName(after[i]), needle)
    ensures Matching(before + (block + after), needle) == block
  {
    MatchingNone(before, needle);
    MatchingAll(block, needle);
    MatchingNone(after, needle);
    MatchingConcat(before, block + after, needle);
    MatchingConcat(block, after, needle);
  }

  lemma CutInThree<T>(s: seq<T>, i: nat, j: nat)
    requires i <= j <= |s|
    ensures s == s[..i] + (s[i..j] + s[j..])
  {
  }

  ghost predicate PartitionedAt(index: seq<At<Member>>, needle: string, start: nat) {
    start <= |index|
    && (forall i :: 0 <= i < start ==> Below(LowerName(index[i]), needle))
    && (forall i :: start <= i < |index| ==> !Below(LowerName(index[i]), needle))
  }

  ghost predicate AllMatch(index: seq<At<Member>>, needle: string, start: nat, end: nat) {
    start <= end <= |index| && forall i :: start <= i < end ==> StartsWith(LowerName(index[i]), needle)
  }

  /** In an ascending index the entries with the prefix are one block that starts at the partition point. */
  lemma MatchesAreABlock(index: seq<At<Member>>, needle: string, start: nat, end: nat)
    requires NamesAscend(index) && PartitionedAt(index, needle, start) && AllMatch(index, needle, start, end)
    requires end < |index| ==> !StartsWith(LowerName(index[end]), needle)
    ensures Matching(index, needle) == index[start..end]
  {
    forall i | 0 <= i < start ensures !StartsWith(LowerName(index[..start][i]), needle) {
      BelowHasNoPrefix(LowerName(index[i]), needle);
    }
    forall i | 0 <= i < |index| - end ensures !StartsWith(LowerName(index[end..][i]), needle) {
      NothingAfter(index, needle, end, end + i);
    }
    MatchingBlock(index[..start], index[start..end], index[end..], needle);
    CutInThree(index, start, end);
  }

  /** What a scan that stopped at `stop` has seen of all the matches. */
  lemma ScanIsAPrefix(index: seq<At<Member>>, needle: string, start: nat, stop: nat)
    requires NamesAscend(index) && PartitionedAt(index, needle, start) && AllMatch(index, needle, start, stop)
    ensures var all := Matching(index, needle);
      stop - start <= |all| && all[..stop - start] == index[start..stop]
      && (|all| > stop - start <==> stop < |index| && StartsWith(LowerName(index[stop]), needle))
  {
    var end := BlockEnd(index, needle, stop);
    MatchesAreABlock(index, needle, start, end);
    assert index[start..end][..stop - start] == index[start..stop];
  }

  lemma BelowHasNoPrefix(s: string, needle: string)
    requires Below(s, needle)
    ensures !StartsWith(s, needle)
  {
    if StartsWith(s, needle) {
      PrefixIsBelow(s, needle);
      StringLeTotal(s, needle);
    }
  }

  lemma NothingAfter(index: seq<At<Member>>, needle: string, end: nat, i: nat)
    requires NamesAscend(index) && end <= i < |index|
    requires !Below(LowerName(index[end]), needle) && !StartsWith(LowerName(index[end]), needle)
    ensures !StartsWith(LowerName(index[i]), needle)
  {
    if StartsWith(LowerName(index[i]), needle) && i > end {
      StringLeTotal(needle, LowerName(index[end]));
      StringLeReflexive(needle);
      BetweenHasPrefix(needle, LowerName(index[end]), LowerName(index[i]));
    }
  }

  // ---------------------------------------------------------------- what the filter keeps

  /** `pick` lists, in order, the positions that satisfy `p`, and `kept` what stands there. */
  ghost predicate Kept(entries: seq<At<Member>>, p: At<Member> -> bool, pick: seq<nat>, kept: seq<At<Member>>) {
    |pick| == |kept|
    && (forall i :: 0 <= i < |pick| ==> pick[i] < |entries| && kept[i] == entries[pick[i]])
    && (forall i, j :: 0 <= i < j < |pick| ==> pick[i] < pick[j])
    && forall q: nat :: q in pick <==> q < |entries| && p(entries[q])
  }

  lemma KeptSnoc(entries: seq<At<Member>>, last: At<Member>, p: At<Member> -> bool, pick: seq<nat>,
                 kept: seq<At<Member>>)
    requires Kept(entries, p, pick, kept)
    ensures p(last) ==> Kept(entries + [last], p, pick + [|entries|], kept + [last])
    ensures !p(last) ==> Kept(entries + [last], p, pick, kept)
  {
    var all := entries + [last];
    assert forall q :: 0 <= q < |entries| ==> all[q] == entries[q];
    assert all[|entries|] == last;
    forall q: nat ensures q in pick + [|entries|] <==> q in pick || q == |entries| {
    }
  }

  /** The entries of a family are those whose file is known to be of it. */
  lemma {:induction false} OfFamilyKeeps(entries: seq<At<Member>>, families: map<string, Family>, family: Family)
    returns (pick: seq<nat>)
    ensures Kept(entries, (m: At<Member>) => m.path in families && families[m.path] == family, pick,
                 OfFamily(entries, families, family))
    decreases |entries|
  {
    pick := [];
    if entries != [] {
      var n := |entries| - 1;
      var front, last := entries[..n], entries[n];
      assert entries == front + [last];
      pick := OfFamilyKeeps(front, families, family);
      OfFamilySnoc(front, last, families, family);
      KeptSnoc(front, last, (m: At<Member>) => m.path in families && families[m.path] == family, pick,
               OfFamily(front, families, family));
      if InFamily(last, families, family) {
        pick := pick + [n];
      } else {
        assert OfFamily(front, families, family) + [] == OfFamily(front, families, family);
      }
    }
  }

  /** The matches are the entries whose lower-case name starts with the needle. */
  lemma {:induction false} MatchingKeeps(index: seq<At<Member>>, needle: string) returns (pick: seq<nat>)
    ensures Kept(index, (m: At<Member>) => StartsWith(AsciiLower(m.fact.name), needle), pick, Matching(index, needle))
    decreases |index|
  {
    pick := [];
    if index != [] {
      var n := |index| - 1;
      var front, last := index[..n], index[n];
      assert index == front + [last] && [last][1..] == [];
      pick := MatchingKeeps(front, needle);
      MatchingConcat(front, [last], needle);
      KeptSnoc(front, last, (m: At<Member>) => StartsWith(AsciiLower(m.fact.name), needle), pick,
               Matching(front, needle));
      if StartsWith(LowerName(last), needle) {
        assert Matching([last], needle) == [last];
        pick := pick + [n];
      } else {
        assert Matching([last], needle) == [];
        assert Matching(front, needle) + [] == Matching(front, needle);
      }
    }
  }

  // ---------------------------------------------------------------- the lookup

  /** `partition_point`: the first entry whose name is not below the needle. */
  method PartitionPoint(index: seq<At<Member>>, needle: string) returns (start: nat)
    requires NamesAscend(index)
    ensures PartitionedAt(index, needle, start)
  {
    var low, high := 0, |index|;
    while low < high
      invariant low <= high <= |index|
      invariant forall i :: 0 <= i < low ==> Below(LowerName(index[i]), needle)
      invariant forall i :: high <= i < |index| ==> !Below(LowerName(index[i]), needle)
    {
      var middle := low + (high - low) / 2;
      if Below(LowerName(index[middle]), needle) {
        BelowBefore(index, needle, middle);
        low := middle + 1;
      } else {
        NotBelowAfter(index, needle, middle);
        high := middle;
      }
    }
    start := low;
  }

  lemma BelowBefore(index: seq<At<Member>>, needle: string, middle: nat)
    requires NamesAscend(index) && middle < |index| && Below(LowerName(index[middle]), needle)
    ensures forall i :: 0 <= i <= middle ==> Below(LowerName(index[i]), needle)
  {
    forall i | 0 <= i < middle ensures Below(LowerName(index[i]), needle) {
      StringLeTransitive(LowerName(index[i]), LowerName(index[middle]), needle);
      StringLeTotal(LowerName(index[middle]), needle);
    }
  }

  lemma NotBelowAfter(index: seq<At<Member>>, needle: string, middle: nat)
    requires NamesAscend(index) && middle < |index| && !Below(LowerName(index[middle]), needle)
    ensures forall i :: middle <= i < |index| ==> !Below(LowerName(index[i]), needle)
  {
    forall i | middle <= i < |index| ensures !Below(LowerName(index[i]), needle) {
      if i > middle && Below(LowerName(index[i]), needle) {
        StringLeTransitive(LowerName(index[middle]), LowerName(index[i]), needle);
        StringLeTotal(LowerName(index[i]), needle);
      }
    }
  }

  /** The scan from the partition point on: it stops at the limit or at the first name without the prefix. */
  method ScanFrom(index: seq<At<Member>>, families: map<string, Family>, needle: string, family: Family, limit: nat,
                  start: nat)
    returns (matches: seq<At<Member>>, truncated: bool, scanned: nat)
    requires start <= |index|
    ensures scanned <= limit && AllMatch(index, needle, start, start + scanned)
    ensures matches == OfFamily(index[start..start + scanned], families, family)
    ensures truncated <==> start + scanned < |index| && StartsWith(LowerName(index[start + scanned]), needle)
    ensures truncated ==> scanned == limit
  {
    matches, truncated, scanned := [], false, 0;
    var i := start;
    while i < |index| && StartsWith(LowerName(index[i]), needle)
      invariant AllMatch(index, needle, start, i) && scanned == i - start <= limit
      invariant matches == OfFamily(index[start..i], families, family)
    {
      if scanned >= limit {
        return matches, true, scanned;
      }
      OneMoreScanned(index, start, i);
      OfFamilySnoc(index[start..i], index[i], families, family);
      scanned := scanned + 1;
      if InFamily(index[i], families, family) {
        matches := matches + [index[i]];
      }
      i := i + 1;
    }
  }

  /**
   The lookup scans the first `limit` entries with the prefix, reports truncation exactly
   when there are more, and returns those of the family in order; untruncated, that is
   what filtering the whole index would give. With limit 0 it reports truncation.
   */
  method MembersByPrefix(index: seq<At<Member>>, families: map<string, Family>, prefix: string, family: Family,
                         limit: nat)
    returns (matches: seq<At<Member>>, truncated: bool, scanned: nat)
    requires NamesAscend(index)
    ensures var all := Matching(index, AsciiLower(prefix));
      scanned == Min(limit, |all|)
      && matches == OfFamily(all[..scanned], families, family)
      && (limit > 0 ==> (truncated <==> |all| > limit)
                        && (!truncated ==> matches == OfFamily(all, families, family)))
      && (limit == 0 ==> truncated)
  {
    if limit == 0 {
      return [], true, 0;
    }
    var needle := AsciiLower(prefix);
    var start := PartitionPoint(index, needle);
    matches, truncated, scanned := ScanFrom(index, families, needle, family, limit, start);
    ScanIsAPrefix(index, needle, start, start + scanned);
    ghost var all := Matching(index, needle);
    assert all[..|all|] == all;
  }

  lemma OneMoreScanned<T>(s: seq<T>, from: nat, until: nat)
    requires from <= until < |s|
    ensures s[from..until + 1] == s[from..until] + [s[until]]
  {
  }

  /** The end of the run of entries with the prefix that starts at `from`. */
  ghost function BlockEnd(index: seq<At<Member>>, needle: string, from: nat): (end: nat)
    requires from <= |index|
    ensures from <= end <= |index|
    ensures forall i :: from <= i < end ==> StartsWith(LowerName(index[i]), needle)
    ensures end < |index| ==> !StartsWith(LowerName(index[end]), needle)
    ensures end > from <==> from < |index| && StartsWith(LowerName(index[from]), needle)
    decreases |index| - from
  {
    if from < |index| && StartsWith(LowerName(index[from]), needle) then BlockEnd(index, needle, from + 1) else from
  }

  /** Names ascend along the snapshot's own index, so the lookup applies to it. */
  lemma SnapshotIndexAscends(snapshot: CandidateOverlaySnapshot, files: seq<File>)
    requires snapshot.SnapshotOf(files)
    ensures NamesAscend(snapshot.memberPrefixIndex)
  {
    StableSortFacts(ValuesOf(AllPairs(files, MemberFacts), 0), MemberPrefixKey);
    SortedNamesAscend(snapshot.memberPrefixIndex);
  }
}
