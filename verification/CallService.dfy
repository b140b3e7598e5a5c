/**
 What bounds a relation query before its index is built (call_service.rs 473-497,
 568-602, 646-668), and how those bounds carry over to the index.
 */
module CallService {
  import opened Basics
  import opened Ordering
  import opened Calls
  import opened Relations
  import opened RelationIndex
  import opened CandidateFacts

  // ---------------------------------------------------------------- collecting anchors

  type Identity = (string, string, nat)

  function IdentityOf(a: Anchor): Identity { (a.path, a.fingerprint, a.nameRange.0) }

  function Identities(s: seq<Anchor>): set<Identity> { set a | a in s :: IdentityOf(a) }

  ghost predicate DistinctIdentities(s: seq<Anchor>) {
    forall i, j :: 0 <= i < j < |s| ==> IdentityOf(s[i]) != IdentityOf(s[j])
  }

  /** Append what is new while there is room. */
  function Extended(output: seq<Anchor>, anchors: seq<Anchor>, limit: nat): seq<Anchor>
    decreases |anchors|
  {
    if anchors == [] then output
    else if IdentityOf(anchors[0]) in Identities(output) || |output| >= limit then Extended(output, anchors[1..], limit)
    else Extended(output + [anchors[0]], anchors[1..], limit)
  }

  lemma {:induction false} ExtendedFacts(output: seq<Anchor>, anchors: seq<Anchor>, limit: nat)
    requires DistinctIdentities(output)
    ensures var r := Extended(output, anchors, limit);
      output <= r && DistinctIdentities(r)
      && (|output| <= limit ==> |r| <= limit)
      && (|r| < limit ==> forall i :: 0 <= i < |anchors| ==> IdentityOf(anchors[i]) in Identities(r))
      && Identities(r) <= Identities(output) + Identities(anchors)
    decreases |anchors|
  {
    if anchors != [] {
      var a := anchors[0];
      assert anchors == [a] + anchors[1..];
      if IdentityOf(a) in Identities(output) || |output| >= limit {
        ExtendedFacts(output, anchors[1..], limit);
      } else {
        DistinctPush(output, a);
        ExtendedFacts(output + [a], anchors[1..], limit);
        assert a in output + [a];
      }
    }
  }

  lemma DistinctPush(output: seq<Anchor>, a: Anchor)
    requires DistinctIdentities(output) && IdentityOf(a) !in Identities(output)
    ensures DistinctIdentities(output + [a]) && Identities(output + [a]) == Identities(output) + {IdentityOf(a)}
  {
    forall i | 0 <= i < |output| ensures IdentityOf(output[i]) != IdentityOf(a) {
      assert output[i] in output;
    }
    assert forall x :: x in output + [a] <==> x in output || x == a;
  }

  /** Several bounded collections in a row are one bounded collection of everything. */
  lemma {:induction false} ExtendedInTwo(output: seq<Anchor>, first: seq<Anchor>, second: seq<Anchor>, limit: nat)
    ensures Extended(Extended(output, first, limit), second, limit) == Extended(output, first + second, limit)
    decreases |first|
  {
    if first == [] {
      assert first + second == second;
    } else {
      assert (first + second)[0] == first[0] && (first + second)[1..] == first[1..] + second;
      if IdentityOf(first[0]) in Identities(output) || |output| >= limit {
        ExtendedInTwo(output, first[1..], second, limit);
      } else {
        ExtendedInTwo(output + [first[0]], first[1..], second, limit);
      }
    }
  }

  lemma {:induction false} FullStays(output: seq<Anchor>, anchors: seq<Anchor>, limit: nat)
    requires |output| >= limit
    ensures Extended(output, anchors, limit) == output
    decreases |anchors|
  {
    if anchors != [] {
      FullStays(output, anchors[1..], limit);
    }
  }

  /** The first anchor of its identity, and one that `output` does not hold. */
  ghost predicate IsNew(output: seq<Anchor>, anchors: seq<Anchor>, p: nat)
    requires p < |anchors|
  {
    (forall a :: a in output ==> IdentityOf(a) != IdentityOf(anchors[p]))
    && forall q :: 0 <= q < p ==> IdentityOf(anchors[q]) != IdentityOf(anchors[p])
  }

  /** `r` is `output` and then the picked anchors, all of them new, in their order. */
  ghost predicate PicksNew(output: seq<Anchor>, anchors: seq<Anchor>, pick: seq<nat>, r: seq<Anchor>) {
    |r| == |output| + |pick| && output <= r
    && (forall i :: 0 <= i < |pick| ==>
          pick[i] < |anchors| && IsNew(output, anchors, pick[i]) && r[|output| + i] == anchors[pick[i]])
    && forall i, j :: 0 <= i < j < |pick| ==> pick[i] < pick[j]
  }

  /** A new anchor is left out only behind all that are picked, and only when there is no more room. */
  ghost predicate PicksWhileRoom(output: seq<Anchor>, anchors: seq<Anchor>, pick: seq<nat>, full: bool) {
    forall p :: 0 <= p < |anchors| && IsNew(output, anchors, p) && p !in pick ==>
      full && forall q :: q in pick ==> q < p
  }

  lemma NewBehindKnown(output: seq<Anchor>, anchors: seq<Anchor>, p: nat)
    requires 0 < p < |anchors| && IdentityOf(anchors[0]) in Identities(output)
    ensures IsNew(output, anchors, p) <==> IsNew(output, anchors[1..], p - 1)
  {
    assert forall q :: 0 < q < |anchors| ==> anchors[q] == anchors[1..][q - 1];
    var a :| a in output && IdentityOf(a) == IdentityOf(anchors[0]);
  }

  lemma NewBehindAdded(output: seq<Anchor>, anchors: seq<Anchor>, p: nat)
    requires 0 < p < |anchors|
    ensures IsNew(output, anchors, p) <==> IsNew(output + [anchors[0]], anchors[1..], p - 1)
  {
    assert forall q :: 0 < q < |anchors| ==> anchors[q] == anchors[1..][q - 1];
    assert forall a :: a in output + [anchors[0]] <==> a in output || a == anchors[0];
  }

  function Behind(pick: seq<nat>): (r: seq<nat>) {
    seq(|pick|, i requires 0 <= i < |pick| => pick[i] + 1)
  }

  lemma BehindMembers(pick: seq<nat>, p: nat)
    ensures p in Behind(pick) <==> p > 0 && p - 1 in pick
  {
    if p in Behind(pick) {
      var i :| 0 <= i < |pick| && Behind(pick)[i] == p;
      assert pick[i] == p - 1;
    }
    if p > 0 && p - 1 in pick {
      var i :| 0 <= i < |pick| && pick[i] == p - 1;
      assert Behind(pick)[i] == p;
    }
  }

  lemma PicksPastKnown(output: seq<Anchor>, anchors: seq<Anchor>, full: bool, pick: seq<nat>, r: seq<Anchor>)
    requires anchors != [] && IdentityOf(anchors[0]) in Identities(output)
    requires PicksNew(output, anchors[1..], pick, r) && PicksWhileRoom(output, anchors[1..], pick, full)
    ensures PicksNew(output, anchors, Behind(pick), r) && PicksWhileRoom(output, anchors, Behind(pick), full)
  {
    forall p: nat | 0 < p < |anchors| ensures IsNew(output, anchors, p) <==> IsNew(output, anchors[1..], p - 1) {
      NewBehindKnown(output, anchors, p);
    }
    forall p: nat ensures p in Behind(pick) <==> p > 0 && p - 1 in pick {
      BehindMembers(pick, p);
    }
    var a :| a in output && IdentityOf(a) == IdentityOf(anchors[0]);
    assert !IsNew(output, anchors, 0);
  }

  lemma AddedIsNew(output: seq<Anchor>, anchors: seq<Anchor>, pick: seq<nat>, r: seq<Anchor>)
    requires anchors != [] && IdentityOf(anchors[0]) !in Identities(output)
    requires PicksNew(output + [anchors[0]], anchors[1..], pick, r)
    ensures PicksNew(output, anchors, [0] + Behind(pick), r)
  {
    var all, grown := [0] + Behind(pick), output + [anchors[0]];
    assert IsNew(output, anchors, 0);
    assert r[|output|] == grown[|output|] && output <= grown;
    forall i | 0 < i < |all|
      ensures all[i] == pick[i - 1] + 1 && IsNew(output, anchors, all[i]) && r[|output| + i] == anchors[all[i]]
    {
      assert all[i] == Behind(pick)[i - 1];
      NewBehindAdded(output, anchors, all[i]);
      assert r[|grown| + (i - 1)] == anchors[1..][pick[i - 1]];
    }
  }

  lemma AddedWhileRoom(output: seq<Anchor>, anchors: seq<Anchor>, full: bool, pick: seq<nat>)
    requires anchors != []
    requires PicksWhileRoom(output + [anchors[0]], anchors[1..], pick, full)
    ensures PicksWhileRoom(output, anchors, [0] + Behind(pick), full)
  {
    var all := [0] + Behind(pick);
    assert all[0] == 0;
    forall p: nat ensures p in all <==> p == 0 || p - 1 in pick {
      BehindMembers(pick, p);
    }
    forall p | 0 <= p < |anchors| && IsNew(output, anchors, p) && p !in all
      ensures full && forall q :: q in all ==> q < p
    {
      NewBehindAdded(output, anchors, p);
      assert p - 1 !in pick;
    }
  }

  /**
   What is appended are the first anchors of identities not there before, in their order;
   one of them is left out only when the limit is reached and all that are in come before it.
   */
  lemma {:induction false} ExtendedPicks(output: seq<Anchor>, anchors: seq<Anchor>, limit: nat)
    returns (pick: seq<nat>)
    ensures var r := Extended(output, anchors, limit);
      PicksNew(output, anchors, pick, r) && PicksWhileRoom(output, anchors, pick, |r| >= limit)
    decreases |anchors|
  {
    pick := [];
    if |output| >= limit {
      FullStays(output, anchors, limit);
    } else if anchors != [] {
      var full := |Extended(output, anchors, limit)| >= limit;
      if IdentityOf(anchors[0]) in Identities(output) {
        var rest := ExtendedPicks(output, anchors[1..], limit);
        PicksPastKnown(output, anchors, full, rest, Extended(output, anchors, limit));
        pick := Behind(rest);
      } else {
        var rest := ExtendedPicks(output + [anchors[0]], anchors[1..], limit);
        AddedIsNew(output, anchors, rest, Extended(output, anchors, limit));
        AddedWhileRoom(output, anchors, full, rest);
        pick := [0] + Behind(rest);
      }
    }
  }

  /**
   Collect anchors not seen before until the limit; `limited` says whether one of
   them did not fit.
   */
  method AppendAnchorsBounded(before: seq<Anchor>, known: set<Identity>, anchors: seq<Anchor>, limit: nat)
    returns (output: seq<Anchor>, seen: set<Identity>, limited: bool)
    requires DistinctIdentities(before) && known == Identities(before) && |before| <= limit
    ensures output == Extended(before, anchors, limit) && seen == Identities(output)
    ensures before <= output && DistinctIdentities(output) && |output| <= limit
    ensures limited <==> exists i :: 0 <= i < |anchors| && IdentityOf(anchors[i]) !in seen
  {
    output, seen, limited := before, known, false;
    ExtendedFacts(before, anchors, limit);
    var i := 0;
    while i < |anchors|
      invariant i <= |anchors| && seen == Identities(output) && |output| <= limit
      invariant output == Extended(before, anchors[..i], limit) && AllSeen(anchors, i, seen)
    {
      ExtendedFacts(before, anchors[..i], limit);
      ExtendedSnoc(before, anchors, i, limit);
      ghost var was := seen;
      output, seen, limited := AppendOne(output, seen, anchors[i], limit);
      if limited {
        ExtendedRest(before, anchors, i, limit);
        return;
      }
      AllSeenNext(anchors, i, was, seen);
      i := i + 1;
    }
    assert anchors[..i] == anchors;
  }

  method AppendOne(before: seq<Anchor>, known: set<Identity>, a: Anchor, limit: nat)
    returns (output: seq<Anchor>, seen: set<Identity>, full: bool)
    requires DistinctIdentities(before) && known == Identities(before) && |before| <= limit
    ensures full <==> IdentityOf(a) !in known && |before| >= limit
    ensures output == if IdentityOf(a) in Identities(before) || |before| >= limit then before else before + [a]
    ensures seen == Identities(output) && known <= seen && (full <==> IdentityOf(a) !in seen) && |output| <= limit
  {
    output, seen, full := before, known, false;
    if IdentityOf(a) !in known {
      if |before| >= limit {
        return before, known, true;
      }
      DistinctPush(before, a);
      output, seen := before + [a], known + {IdentityOf(a)};
    }
  }

  ghost predicate AllSeen(anchors: seq<Anchor>, n: nat, seen: set<Identity>)
    requires n <= |anchors|
  {
    forall j :: 0 <= j < n ==> IdentityOf(anchors[j]) in seen
  }

  lemma AllSeenNext(anchors: seq<Anchor>, i: nat, was: set<Identity>, seen: set<Identity>)
    requires i < |anchors| && AllSeen(anchors, i, was) && was <= seen && IdentityOf(anchors[i]) in seen
    ensures AllSeen(anchors, i + 1, seen)
  {
  }

  lemma ExtendedSnoc(before: seq<Anchor>, anchors: seq<Anchor>, i: nat, limit: nat)
    requires i < |anchors|
    ensures var done := Extended(before, anchors[..i], limit);
      Extended(before, anchors[..i + 1], limit)
      == if IdentityOf(anchors[i]) in Identities(done) || |done| >= limit then done else done + [anchors[i]]
  {
    var done := Extended(before, anchors[..i], limit);
    TakeOneMore(anchors, i);
    ExtendedInTwo(before, anchors[..i], [anchors[i]], limit);
    assert [anchors[i]][1..] == [];
    assert Extended(done, [], limit) == done && Extended(done + [anchors[i]], [], limit) == done + [anchors[i]];
  }

  lemma ExtendedRest(before: seq<Anchor>, anchors: seq<Anchor>, i: nat, limit: nat)
    requires i <= |anchors| && |Extended(before, anchors[..i], limit)| >= limit
    ensures Extended(before, anchors, limit) == Extended(before, anchors[..i], limit)
  {
    assert anchors == anchors[..i] + anchors[i..];
    ExtendedInTwo(before, anchors[..i], anchors[i..], limit);
    FullStays(Extended(before, anchors[..i], limit), anchors[i..], limit);
  }

  // ---------------------------------------------------------------- the expansion budget

  /** The distinct anchors of that name. */
  function NamedIdentities(anchors: seq<Anchor>, name: string): set<Identity> {
    set a | a in anchors && a.name == name :: IdentityOf(a)
  }

  function CostOf(anchors: seq<Anchor>, call: Call): (c: nat)
    ensures c >= 1
  {
    if call.calleeName.None? then 1
    else
      var n := |NamedIdentities(anchors, call.calleeName.value)|;
      if n >= 1 then n else 1
  }

  function TotalCost(anchors: seq<Anchor>, calls: seq<Call>): nat {
    if calls == [] then 0 else TotalCost(anchors, calls[..|calls| - 1]) + CostOf(anchors, calls[|calls| - 1])
  }

  method CountCandidates(anchors: seq<Anchor>) returns (candidates: map<string, set<Identity>>)
    ensures forall n :: NamedIdentities(anchors, n) == if n in candidates then candidates[n] else {}
  {
    candidates := map[];
    var i := 0;
    while i < |anchors|
      invariant i <= |anchors|
      invariant forall n :: NamedIdentities(anchors[..i], n) == if n in candidates then candidates[n] else {}
    {
      TakeOneMore(anchors, i);
      var name := anchors[i].name;
      NamedPush(anchors[..i], anchors[i]);
      candidates := candidates[name :=
        (if name in candidates then candidates[name] else {}) + {IdentityOf(anchors[i])}];
      i := i + 1;
    }
    assert anchors[..i] == anchors;
  }

  lemma NamedPush(anchors: seq<Anchor>, a: Anchor)
    ensures forall n :: NamedIdentities(anchors + [a], n)
                     == NamedIdentities(anchors, n) + if a.name == n then {IdentityOf(a)} else {}
  {
    assert forall x :: x in anchors + [a] <==> x in anchors || x == a;
  }

  /**
   Keep the longest prefix of the calls whose summed cost fits. With the largest
   limit the saturating sum never exceeds it and every call stays.
   */
  method ApplyCandidateExpansionBudget(calls: seq<Call>, anchors: seq<Anchor>, limit: nat)
    returns (kept: seq<Call>, limited: bool)
    requires limit <= USIZE_MAX
    ensures kept <= calls && (limited <==> |kept| < |calls|)
    ensures limit < USIZE_MAX ==> TotalCost(anchors, kept) <= limit
    ensures limit < USIZE_MAX && limited ==> TotalCost(anchors, calls[..|kept| + 1]) > limit
    ensures limit == USIZE_MAX ==> !limited
  {
    var candidates := CountCandidates(anchors);
    var expansions: nat, keep := 0, 0;
    while keep < |calls|
      invariant keep <= |calls| && expansions <= limit
      invariant limit < USIZE_MAX ==> expansions == TotalCost(anchors, calls[..keep])
    {
      TakeOneMore(calls, keep);
      var name := calls[keep].calleeName;
      var n := if name.Some? && name.value in candidates then |candidates[name.value]| else 1;
      var cost := if n >= 1 then n else 1;
      assert cost == CostOf(anchors, calls[keep]);
      if SatAdd(expansions, cost) > limit {
        break;
      }
      expansions := SatAdd(expansions, cost);
      keep := keep + 1;
    }
    limited := keep < |calls|;
    kept := calls[..keep];
  }

  // ---------------------------------------------------------------- the bound on the index

  /** Grouping: non-empty groups of one name each, made of the anchors without using any twice. */
  ghost predicate Partitions(groups: seq<seq<Anchor>>, anchors: seq<Anchor>) {
    (forall g :: 0 <= g < |groups| ==>
       groups[g] != [] && forall i :: 0 <= i < |groups[g]| ==> groups[g][i].name == groups[g][0].name)
    && multiset(Joined(groups)) <= multiset(anchors)
  }

  function EntitiesOf(groups: seq<seq<Anchor>>, keyOf: seq<Anchor> -> string): seq<Entity>
    requires forall g :: 0 <= g < |groups| ==> groups[g] != []
  {
    seq(|groups|, g requires 0 <= g < |groups| => EntityOf(groups[g], keyOf(groups[g])))
  }

  function CountNamed(anchors: seq<Anchor>, name: string): nat {
    if anchors == [] then 0 else (if anchors[0].name == name then 1 else 0) + CountNamed(anchors[1..], name)
  }

  lemma {:induction false} CountNamedConcat(a: seq<Anchor>, b: seq<Anchor>, name: string)
    ensures CountNamed(a + b, name) == CountNamed(a, name) + CountNamed(b, name)
  {
    if a == [] {
      assert a + b == b;
    } else {
      assert (a + b)[0] == a[0] && (a + b)[1..] == a[1..] + b;
      CountNamedConcat(a[1..], b, name);
    }
  }

  lemma TakeOut<T>(s: seq<T>, i: nat)
    requires i < |s|
    ensures multiset(s) == multiset(s[..i] + s[i + 1..]) + multiset{s[i]}
  {
    assert s == s[..i] + [s[i]] + s[i + 1..];
  }

  lemma CancelOne<T>(m: multiset<T>, n: multiset<T>, x: T)
    requires m + multiset{x} <= n + multiset{x}
    ensures m <= n
  {
    forall y ensures m[y] <= n[y] {
      assert (m + multiset{x})[y] <= (n + multiset{x})[y];
    }
  }

  lemma {:induction false} CountNamedOfFewer(some: seq<Anchor>, all: seq<Anchor>, name: string)
    requires multiset(some) <= multiset(all)
    ensures CountNamed(some, name) <= CountNamed(all, name)
  {
    if some != [] {
      var a, rest := some[0], some[1..];
      assert some == [a] + rest;
      assert a in multiset(some) && a in multiset(all);
      var i :| 0 <= i < |all| && all[i] == a;
      var others := all[..i] + all[i + 1..];
      assert all == all[..i] + [a] + all[i + 1..];
      TakeOut(all, i);
      CancelOne(multiset(rest), multiset(others), a);
      CountNamedOfFewer(rest, others, name);
      CountNamedConcat(all[..i] + [a], all[i + 1..], name);
      CountNamedConcat(all[..i], [a], name);
      CountNamedConcat(all[..i], all[i + 1..], name);
      assert [a][1..] == [];
    }
  }

  lemma {:induction false} CountNamedIsCost(anchors: seq<Anchor>, name: string)
    requires DistinctIdentities(anchors)
    ensures CountNamed(anchors, name) == |NamedIdentities(anchors, name)|
    decreases |anchors|
  {
    if anchors != [] {
      var last := |anchors| - 1;
      var front, a := anchors[..last], anchors[last];
      assert anchors == front + [a];
      CountNamedIsCost(front, name);
      CountNamedConcat(front, [a], name);
      assert [a][1..] == [];
      NamedPush(front, a);
      assert forall i :: 0 <= i < last ==> front[i] == anchors[i] && IdentityOf(front[i]) != IdentityOf(a);
    }
  }

  lemma PrimaryHasTheName(group: seq<Anchor>, key: string)
    requires group != [] && forall i :: 0 <= i < |group| ==> group[i].name == group[0].name
    ensures EntityOf(group, key).primary.name == group[0].name
  {
    EntityStandsForGroup(group, key);
  }

  /** Distinct groups of that name need distinct anchors of that name. */
  lemma {:induction false} GroupsNeedAnchors(groups: seq<seq<Anchor>>, ids: seq<nat>, n: nat, name: string)
    requires n <= |groups|
    requires forall i :: 0 <= i < |ids| ==> ids[i] < n && groups[ids[i]] != [] && groups[ids[i]][0].name == name
    requires forall i, j :: 0 <= i < j < |ids| ==> ids[i] < ids[j]
    ensures |ids| <= CountNamed(Joined(groups[..n]), name)
    decreases n
  {
    if n > 0 {
      assert groups[..n][..n - 1] == groups[..n - 1];
      CountNamedConcat(Joined(groups[..n - 1]), groups[n - 1], name);
      if ids != [] && ids[|ids| - 1] == n - 1 {
        GroupsNeedAnchors(groups, ids[..|ids| - 1], n - 1, name);
      } else {
        GroupsNeedAnchors(groups, ids, n - 1, name);
      }
    }
  }

  /** A name has no more entities than distinct anchors. */
  lemma EntitiesWithinCost(groups: seq<seq<Anchor>>, keyOf: seq<Anchor> -> string, anchors: seq<Anchor>, name: string)
    requires Partitions(groups, anchors) && DistinctIdentities(anchors)
    ensures |Named(EntitiesOf(groups, keyOf), name)| <= |NamedIdentities(anchors, name)|
  {
    var entities := EntitiesOf(groups, keyOf);
    var ids := Named(entities, name);
    forall i | 0 <= i < |ids| ensures groups[ids[i]][0].name == name {
      PrimaryHasTheName(groups[ids[i]], keyOf(groups[ids[i]]));
    }
    GroupsNeedAnchors(groups, ids, |groups|, name);
    assert groups[..|groups|] == groups;
    CountNamedOfFewer(Joined(groups), anchors, name);
    CountNamedIsCost(anchors, name);
  }

  lemma JoinsWithinCost(groups: seq<seq<Anchor>>, keyOf: seq<Anchor> -> string, anchors: seq<Anchor>, call: Call)
    requires Partitions(groups, anchors) && DistinctIdentities(anchors)
    ensures Joins(EntitiesOf(groups, keyOf), call) <= CostOf(anchors, call)
  {
    CandidatesFacts(EntitiesOf(groups, keyOf), call);
    if call.calleeName.Some? {
      EntitiesWithinCost(groups, keyOf, anchors, call.calleeName.value);
    }
  }

  lemma {:induction false} TotalWithinCost(groups: seq<seq<Anchor>>, keyOf: seq<Anchor> -> string, anchors: seq<Anchor>,
                                           calls: seq<Call>)
    requires Partitions(groups, anchors) && DistinctIdentities(anchors)
    ensures TotalJoins(EntitiesOf(groups, keyOf), calls) <= TotalCost(anchors, calls)
  {
    if calls != [] {
      TotalWithinCost(groups, keyOf, anchors, calls[..|calls| - 1]);
      JoinsWithinCost(groups, keyOf, anchors, calls[|calls| - 1]);
    }
  }

  /**
   The cross-module bound: with deduplicated anchors, however they are grouped, the index
   built from the calls that fit the budget holds no more call-site references, and no
   more relations, than the limit.
   */
  lemma IndexWithinLimit(groups: seq<seq<Anchor>>, keyOf: seq<Anchor> -> string, anchors: seq<Anchor>,
                         kept: seq<Call>, limit: nat)
    requires Partitions(groups, anchors) && DistinctIdentities(anchors) && TotalCost(anchors, kept) <= limit
    ensures var index := RelationGroups(EntitiesOf(groups, keyOf), kept);
      |Refs(index)| <= limit && |index| <= limit
  {
    TotalWithinCost(groups, keyOf, anchors, kept);
    ReferencesAreTheJoins(EntitiesOf(groups, keyOf), kept);
  }

  ghost predicate AreEntitiesOf(entities: seq<Entity>, groups: seq<seq<Anchor>>, keyOf: seq<Anchor> -> string) {
    |entities| == |groups|
    && forall g :: 0 <= g < |groups| ==> groups[g] != [] && entities[g] == EntityOf(groups[g], keyOf(groups[g]))
  }

  /** Some anchor's identity was not collected. */
  ghost predicate Misses(anchors: seq<Anchor>, collected: seq<Anchor>) {
    exists a :: a in anchors && IdentityOf(a) !in Identities(collected)
  }

  lemma OneMoreSource(done: seq<Anchor>, source: seq<Anchor>, before: seq<Anchor>, limit: nat)
    requires before == Extended([], done, limit)
    ensures Extended(before, source, limit) == Extended([], done + source, limit)
    ensures var after := Extended(before, source, limit);
      Misses(done + source, after) <==> Misses(done, before) || Misses(source, after)
  {
    var after := Extended(before, source, limit);
    ExtendedInTwo([], done, source, limit);
    ExtendedFacts([], done, limit);
    ExtendedFacts(before, source, limit);
    if Misses(done, before) {
      FullStays(before, source, limit);
    }
    forall a | a in done + source ensures a in done || a in source {
    }
    if a :| a in done && IdentityOf(a) !in Identities(before) {
      assert a in done + source;
    }
    if a :| a in source && IdentityOf(a) !in Identities(after) {
      assert a in done + source;
    }
    assert Identities(before) <= Identities(after);
  }

  /** Over anchors without repeats a call costs as many expansions as anchors carry its callee's name, at least one. */
  lemma CostCountsAnchors(anchors: seq<Anchor>, call: Call)
    requires DistinctIdentities(anchors)
    ensures CostOf(anchors, call)
         == Max(1, if call.calleeName.Some? then CountNamed(anchors, call.calleeName.value) else 0)
  {
    if call.calleeName.Some? {
      CountNamedIsCost(anchors, call.calleeName.value);
    }
  }

  /** The anchors of all sources, source by source, up to the limit. */
  method CollectBounded(sources: seq<seq<Anchor>>, limit: nat) returns (anchors: seq<Anchor>, recallLimited: bool)
    ensures anchors == Extended([], Joined(sources), limit) && DistinctIdentities(anchors) && |anchors| <= limit
    ensures recallLimited <==> Misses(Joined(sources), anchors)
  {
    var seen;
    anchors, seen, recallLimited := [], {}, false;
    var i := 0;
    while i < |sources|
      invariant i <= |sources| && DistinctIdentities(anchors) && seen == Identities(anchors) && |anchors| <= limit
      invariant anchors == Extended([], Joined(sources[..i]), limit)
      invariant recallLimited <==> Misses(Joined(sources[..i]), anchors)
    {
      var limited;
      ghost var before := anchors;
      anchors, seen, limited := AppendAnchorsBounded(anchors, seen, sources[i], limit);
      assert sources[..i + 1][..i] == sources[..i];
      OneMoreSource(Joined(sources[..i]), sources[i], before, limit);
      recallLimited := recallLimited || limited;
      i := i + 1;
    }
    assert sources[..i] == sources;
  }

  /** The whole path of one query: collect, truncate, build. */
  method BuildBounded(sources: seq<seq<Anchor>>, calls: seq<Call>, limit: nat,
                      group: seq<Anchor> -> seq<seq<Anchor>>, keyOf: seq<Anchor> -> string)
    returns (index: RelationQueryIndex, recallLimited: bool, expansionLimited: bool)
    requires limit < USIZE_MAX
    requires forall s :: DistinctIdentities(s) ==> Partitions(group(s), s)
    ensures fresh(index) && index.Valid() && |index.refs| <= limit && |index.relations| <= limit
    ensures index.calls <= calls && (expansionLimited <==> |index.calls| < |calls|)
    ensures var collected := Extended([], Joined(sources), limit);
      AreEntitiesOf(index.entities, group(collected), keyOf)
      && (recallLimited <==> Misses(Joined(sources), collected))
      && TotalCost(collected, index.calls) <= limit
      && (expansionLimited ==> TotalCost(collected, calls[..|index.calls| + 1]) > limit)
  {
    var anchors;
    anchors, recallLimited := CollectBounded(sources, limit);
    var kept;
    kept, expansionLimited := ApplyCandidateExpansionBudget(calls, anchors, limit);
    assert Partitions(group(anchors), anchors);
    var entities := EntitiesOf(group(anchors), keyOf);
    IndexWithinLimit(group(anchors), keyOf, anchors, kept, limit);
    index := new RelationQueryIndex(entities, kept);
  }

  // ---------------------------------------------------------------- without deduplication

  /** A name-form call may mean this entity. */
  predicate Answers(e: Entity, call: Call) {
    IsNameForm(call.form) && call.calleeName == Some(e.primary.name)
    && EligibleFreeFunction(e) && CandidateEvidence(call, e).Some?
  }

  /**
   The bound needs the deduplication: any two anchors of one identity, grouped apart, that a
   call may both mean cost one expansion and give two references.
   */
  lemma DuplicatesBreakTheBound(a: Anchor, b: Anchor, keyOf: seq<Anchor> -> string, call: Call)
    requires IdentityOf(a) == IdentityOf(b)
    requires Answers(Entity(keyOf([a]), a, [a]), call) && Answers(Entity(keyOf([b]), b, [b]), call)
    requires ResolveCaller(EntitiesOf([[a], [b]], keyOf), call).Some?
    ensures Partitions([[a], [b]], [a, b]) && TotalCost([a, b], [call]) == 1
    ensures |Refs(RelationGroups(EntitiesOf([[a], [b]], keyOf), [call]))| == 2
  {
    PairPartitions(a, b);
    PairCost(a, b, call);
    OneVariantEach(a, b, keyOf);
    BothAreCandidates(EntitiesOf([[a], [b]], keyOf), call);
    ReferencesAreTheJoins(EntitiesOf([[a], [b]], keyOf), [call]);
    assert [call][..0] == [];
  }

  lemma PairPartitions(a: Anchor, b: Anchor)
    ensures Partitions([[a], [b]], [a, b])
  {
    assert [[a]][..0] == [] && [[a], [b]][..1] == [[a]];
    assert Joined([[a]]) == [a];
  }

  lemma PairCost(a: Anchor, b: Anchor, call: Call)
    requires IdentityOf(a) == IdentityOf(b) && call.calleeName == Some(a.name) == Some(b.name)
    ensures TotalCost([a, b], [call]) == 1
  {
    assert NamedIdentities([a, b], a.name) == {IdentityOf(a)};
    assert [call][..0] == [];
  }

  lemma OneVariantEach(a: Anchor, b: Anchor, keyOf: seq<Anchor> -> string)
    ensures var entities := EntitiesOf([[a], [b]], keyOf);
      |entities| == 2 && entities[0] == Entity(keyOf([a]), a, [a]) && entities[1] == Entity(keyOf([b]), b, [b])
  {
    var groups := [[a], [b]];
    assert groups[0] == [a] && groups[1] == [b] && [a][1..] == [] && [b][1..] == [];
    assert StableSort([a], PrimaryKey) == [a] && StableSort([b], PrimaryKey) == [b];
  }

  lemma TwoNamed(entities: seq<Entity>, name: string)
    requires |entities| == 2 && EligibleFreeFunction(entities[0]) && EligibleFreeFunction(entities[1])
    requires entities[0].primary.name == entities[1].primary.name == name
    ensures |Named(entities, name)| == 2
  {
    var ids := IdsWhere(entities, e => EligibleFreeFunction(e) && e.primary.name == name, 0);
    assert 0 in ids && 1 in ids;
    AtLeastIndex(ids, |ids| - 1);
  }

  lemma BothAreCandidates(entities: seq<Entity>, call: Call)
    requires |entities| == 2 && Answers(entities[0], call) && Answers(entities[1], call)
    ensures |Candidates(entities, call)| == 2
  {
    var name := entities[0].primary.name;
    TwoNamed(entities, name);
    ByNameLength(entities, name);
    forall e: nat | e < |entities| ensures CandidateEvidence(call, entities[e]).Some? {
      assert e == 0 || e == 1;
    }
    AllAreCandidates(entities, call, ByName(entities, name));
  }

  lemma {:induction false} AtLeastIndex(ids: seq<nat>, i: nat)
    requires i < |ids| && forall j, k :: 0 <= j < k < |ids| ==> ids[j] < ids[k]
    ensures ids[i] >= i
  {
    if i > 0 {
      AtLeastIndex(ids, i - 1);
    }
  }

  lemma {:induction false} AllAreCandidates(entities: seq<Entity>, call: Call, ids: seq<EntityId>)
    requires Within(ids, |entities|) && forall e: nat :: e < |entities| ==> CandidateEvidence(call, entities[e]).Some?
    ensures |CandidatesAmong(entities, call, ids)| == |ids|
  {
    if ids != [] {
      AllAreCandidates(entities, call, ids[1..]);
    }
  }

  // ---------------------------------------------------------------- overlay and durable calls

  /** An open file: its calls replace the stored ones of its path. */
  datatype Overlay = Overlay(path: string, family: string, calls: seq<Call>)

  predicate IsShadowed(overlays: seq<Overlay>, path: string) {
    exists o :: o in overlays && o.path == path
  }

  function CallsWhere(calls: seq<Call>, p: Call -> bool): (r: seq<Call>)
    ensures forall i :: 0 <= i < |r| ==> p(r[i]) && r[i] in calls
    ensures forall c :: c in calls && p(c) ==> c in r
  {
    if calls == [] then [] else (if p(calls[0]) then [calls[0]] else []) + CallsWhere(calls[1..], p)
  }

  function OverlayCalls(overlays: seq<Overlay>, family: string, wanted: Call -> bool): seq<Call> {
    if overlays == [] then []
    else (if overlays[0].family == family then CallsWhere(overlays[0].calls, wanted) else [])
         + OverlayCalls(overlays[1..], family, wanted)
  }

  /** Everything the query is about: open files first, then the stored calls of all other files. */
  function MergedCalls(stored: seq<Call>, overlays: seq<Overlay>, family: string, wanted: Call -> bool): seq<Call> {
    OverlayCalls(overlays, family, wanted) + CallsWhere(stored, (c: Call) => !IsShadowed(overlays, c.path))
  }

  /**
   The two truncations, of the overlay calls and of the merged list, amount to one: the
   result is the first calls of the merged list, and it is limited exactly when the
   merged list is longer than the limit or the stored scan was limited.
   */
  method MergeCalls(stored: seq<Call>, storedLimited: bool, overlays: seq<Overlay>, family: string,
                    wanted: Call -> bool, limit: nat)
    returns (calls: seq<Call>, limited: bool)
    ensures var merged := MergedCalls(stored, overlays, family, wanted);
      calls == merged[..Min(|merged|, limit)] && (limited <==> storedLimited || |merged| > limit)
  {
    limited := storedLimited;
    calls := CallsWhere(stored, (c: Call) => !IsShadowed(overlays, c.path));
    var matching := OverlayCalls(overlays, family, wanted);
    ghost var merged := matching + calls;
    var overlayCalls := matching[..Min(|matching|, limit + 1)];
    if |overlayCalls| > limit {
      limited := true;
      overlayCalls := overlayCalls[..limit];
    }
    calls := overlayCalls + calls;
    if |calls| > limit {
      limited := true;
      calls := calls[..limit];
    }
    assert calls == merged[..Min(|merged|, limit)];
  }

  /** No stored call of an open file survives the merge. */
  lemma StoredCallsAreShadowed(stored: seq<Call>, overlays: seq<Overlay>, family: string, wanted: Call -> bool, i: nat)
    requires var merged := MergedCalls(stored, overlays, family, wanted); i < |merged|
    ensures var merged := MergedCalls(stored, overlays, family, wanted);
      if i < |OverlayCalls(overlays, family, wanted)| then wanted(merged[i])
      else merged[i] in stored && !IsShadowed(overlays, merged[i].path)
  {
    var own := OverlayCalls(overlays, family, wanted);
    if i < |own| {
      OverlayCallsWanted(overlays, family, wanted);
    }
  }

  lemma {:induction false} OverlayCallsWanted(overlays: seq<Overlay>, family: string, wanted: Call -> bool)
    ensures forall i :: 0 <= i < |OverlayCalls(overlays, family, wanted)| ==>
      wanted(OverlayCalls(overlays, family, wanted)[i])
  {
    if overlays != [] {
      OverlayCallsWanted(overlays[1..], family, wanted);
    }
  }

  /**
   In the merged list are the wanted calls of the open files of the family, and the stored
   calls whose file is not open in any family.
   */
  lemma MergedIff(stored: seq<Call>, overlays: seq<Overlay>, family: string, wanted: Call -> bool, c: Call)
    ensures c in MergedCalls(stored, overlays, family, wanted) <==>
      (exists o :: o in overlays && o.family == family && c in o.calls && wanted(c))
      || (c in stored && forall o :: o in overlays ==> o.path != c.path)
  {
    OverlayCallIff(overlays, family, wanted, c);
  }

  lemma {:induction false} OverlayCallIff(overlays: seq<Overlay>, family: string, wanted: Call -> bool, c: Call)
    ensures c in OverlayCalls(overlays, family, wanted)
       <==> exists o :: o in overlays && o.family == family && c in o.calls && wanted(c)
  {
    if overlays != [] {
      OverlayCallIff(overlays[1..], family, wanted, c);
      assert overlays == [overlays[0]] + overlays[1..];
    }
  }
}
