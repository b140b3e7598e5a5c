/**
 The call relations (call_catalog.rs 272-364, 687-733): every call site is joined
 to its candidates, equal joins are grouped into one relation, and the relations are
 flattened into one array of call-site references and listed in both directions.
 */
module Relations {
  import opened Basics
  import opened Ordering
  import opened Calls

  datatype RelationKey = RelationKey(
    caller: EntityId, callee: Option<EntityId>, confidence: Confidence, ambiguitySite: Option<CallId>)

  /** One call site joined to one candidate, or to none. */
  datatype Use = Use(key: RelationKey, site: CallId, evidence: Evidence)

  datatype Builder = Builder(key: RelationKey, sites: seq<CallId>, evidence: Evidence)

  datatype Relation = Relation(key: RelationKey, start: nat, len: nat, evidence: Evidence)

  // ---------------------------------------------------------------- the uses of the calls

  function UseOf(caller: EntityId, site: CallId, candidate: (EntityId, Evidence), ambiguous: bool): Use {
    Use(RelationKey(caller, Some(candidate.0),
                    if ambiguous then Ambiguous else ConfidenceOf(candidate.1),
                    if ambiguous then Some(site) else None),
        site, candidate.1)
  }

  function UsesFor(caller: EntityId, site: CallId, call: Call, candidates: seq<(EntityId, Evidence)>): (r: seq<Use>)
    ensures |r| == if candidates == [] then 1 else |candidates|
    ensures forall i :: 0 <= i < |r| ==> r[i].site == site && r[i].key.caller == caller
  {
    if candidates == [] then
      [Use(RelationKey(caller, None, Unresolved, None), site, UnresolvedEvidence(call))]
    else
      seq(|candidates|, i requires 0 <= i < |candidates| => UseOf(caller, site, candidates[i], |candidates| > 1))
  }

  /** What one call site contributes: nothing without a caller, else one use per candidate, at least one. */
  function UsesOf(entities: seq<Entity>, call: Call, site: CallId): (r: seq<Use>)
    ensures forall i :: 0 <= i < |r| ==> r[i].site == site
  {
    var caller := ResolveCaller(entities, call);
    if caller.None? then [] else UsesFor(caller.value, site, call, Candidates(entities, call))
  }

  /** The uses of every call, call by call. */
  function UseLists(entities: seq<Entity>, calls: seq<Call>): seq<seq<Use>> {
    seq(|calls|, site requires 0 <= site < |calls| => UsesOf(entities, calls[site], site))
  }

  function Joined<T>(lists: seq<seq<T>>): seq<T> {
    if lists == [] then [] else Joined(lists[..|lists| - 1]) + lists[|lists| - 1]
  }

  // ---------------------------------------------------------------- grouping by key

  /** The position of the builder with that key, or the number of builders. */
  function IndexOf(builders: seq<Builder>, key: RelationKey): (i: nat)
    ensures i <= |builders| && (i < |builders| ==> builders[i].key == key)
    ensures forall j :: 0 <= j < i ==> builders[j].key != key
  {
    if builders == [] || builders[0].key == key then 0 else 1 + IndexOf(builders[1..], key)
  }

  /** `record_relation`: extend the builder of the key, or start one. */
  function Recorded(builders: seq<Builder>, use: Use): seq<Builder> {
    var i := IndexOf(builders, use.key);
    if i < |builders| then
      builders[i := Builder(use.key, builders[i].sites + [use.site], Merge(builders[i].evidence, use.evidence))]
    else builders + [Builder(use.key, [use.site], use.evidence)]
  }

  function RecordAll(builders: seq<Builder>, uses: seq<Use>): seq<Builder>
    decreases |uses|
  {
    if uses == [] then builders else RecordAll(Recorded(builders, uses[0]), uses[1..])
  }

  function Grouped(uses: seq<Use>): seq<Builder> { RecordAll([], uses) }

  /** The sites of the uses with that key, in order. */
  function SitesOf(uses: seq<Use>, key: RelationKey): seq<CallId> {
    if uses == [] then [] else (if uses[0].key == key then [uses[0].site] else []) + SitesOf(uses[1..], key)
  }

  function EvidenceFor(uses: seq<Use>, key: RelationKey): Evidence {
    if uses == [] then NO_EVIDENCE
    else if uses[0].key == key then Merge(uses[0].evidence, EvidenceFor(uses[1..], key))
    else EvidenceFor(uses[1..], key)
  }

  /** The builders are the groups of the uses: one per key, with exactly its sites and evidence. */
  ghost predicate GroupsOf(builders: seq<Builder>, uses: seq<Use>) {
    (forall i, j :: 0 <= i < j < |builders| ==> builders[i].key != builders[j].key)
    && (forall i :: 0 <= i < |builders| ==>
          builders[i].sites == SitesOf(uses, builders[i].key) && builders[i].sites != []
          && builders[i].evidence == EvidenceFor(uses, builders[i].key))
    && (forall u :: 0 <= u < |uses| ==> IndexOf(builders, uses[u].key) < |builders|)
  }

  lemma {:induction false} SitesOfConcat(a: seq<Use>, b: seq<Use>, key: RelationKey)
    ensures SitesOf(a + b, key) == SitesOf(a, key) + SitesOf(b, key)
  {
    if a == [] {
      assert a + b == b;
    } else {
      SitesOfConcat(a[1..], b, key);
      assert (a + b)[0] == a[0] && (a + b)[1..] == a[1..] + b;
    }
  }

  lemma MergeLaws(a: Evidence, b: Evidence, c: Evidence)
    ensures Merge(Merge(a, b), c) == Merge(a, Merge(b, c))
    ensures Merge(NO_EVIDENCE, a) == a && Merge(a, NO_EVIDENCE) == a
  {
  }

  lemma {:induction false} EvidenceForConcat(a: seq<Use>, b: seq<Use>, key: RelationKey)
    ensures EvidenceFor(a + b, key) == Merge(EvidenceFor(a, key), EvidenceFor(b, key))
  {
    if a == [] {
      assert a + b == b;
      MergeLaws(EvidenceFor(b, key), NO_EVIDENCE, NO_EVIDENCE);
    } else {
      EvidenceForConcat(a[1..], b, key);
      MergeLaws(a[0].evidence, EvidenceFor(a[1..], key), EvidenceFor(b, key));
      assert (a + b)[0] == a[0] && (a + b)[1..] == a[1..] + b;
    }
  }

  lemma OneUse(use: Use, key: RelationKey)
    ensures SitesOf([use], key) == if use.key == key then [use.site] else []
    ensures EvidenceFor([use], key) == if use.key == key then use.evidence else NO_EVIDENCE
  {
    MergeLaws(use.evidence, NO_EVIDENCE, NO_EVIDENCE);
    assert [use][1..] == [];
  }

  lemma {:induction false} KeyAt(builders: seq<Builder>, key: RelationKey, i: nat)
    requires i < |builders| && builders[i].key == key
    ensures IndexOf(builders, key) <= i
  {
    if i > 0 && builders[0].key != key {
      KeyAt(builders[1..], key, i - 1);
    }
  }

  lemma {:induction false} NoUseNoSite(uses: seq<Use>, key: RelationKey)
    requires forall u :: 0 <= u < |uses| ==> uses[u].key != key
    ensures SitesOf(uses, key) == [] && EvidenceFor(uses, key) == NO_EVIDENCE
  {
    if uses != [] {
      NoUseNoSite(uses[1..], key);
    }
  }

  /** What one more use does to the groups of a key. */
  lemma OneMoreUse(uses: seq<Use>, use: Use, key: RelationKey)
    ensures SitesOf(uses + [use], key) == SitesOf(uses, key) + if use.key == key then [use.site] else []
    ensures EvidenceFor(uses + [use], key)
         == if use.key == key then Merge(EvidenceFor(uses, key), use.evidence) else EvidenceFor(uses, key)
  {
    SitesOfConcat(uses, [use], key);
    EvidenceForConcat(uses, [use], key);
    OneUse(use, key);
    MergeLaws(EvidenceFor(uses, key), NO_EVIDENCE, NO_EVIDENCE);
  }

  lemma RecordKeepsGroups(builders: seq<Builder>, uses: seq<Use>, use: Use)
    requires GroupsOf(builders, uses)
    ensures GroupsOf(Recorded(builders, use), uses + [use])
  {
    var after := Recorded(builders, use);
    var at := IndexOf(builders, use.key);
    forall i | 0 <= i < |after|
      ensures after[i].sites == SitesOf(uses + [use], after[i].key) && after[i].sites != []
      ensures after[i].evidence == EvidenceFor(uses + [use], after[i].key)
    {
      OneMoreUse(uses, use, after[i].key);
      if i == |builders| {
        FreshKey(builders, uses, use.key);
        MergeLaws(use.evidence, NO_EVIDENCE, NO_EVIDENCE);
      }
    }
    forall u | 0 <= u < |uses + [use]| ensures IndexOf(after, (uses + [use])[u].key) < |after| {
      var key := (uses + [use])[u].key;
      var i := if u < |uses| then IndexOf(builders, key) else at;
      assert after[i].key == key;
      KeyAt(after, key, i);
    }
  }

  lemma FreshKey(builders: seq<Builder>, uses: seq<Use>, key: RelationKey)
    requires GroupsOf(builders, uses) && IndexOf(builders, key) == |builders|
    ensures SitesOf(uses, key) == [] && EvidenceFor(uses, key) == NO_EVIDENCE
  {
    forall u | 0 <= u < |uses| ensures uses[u].key != key {
      assert IndexOf(builders, uses[u].key) < |builders|;
    }
    NoUseNoSite(uses, key);
  }

  lemma {:induction false} RecordAllKeepsGroups(builders: seq<Builder>, done: seq<Use>, uses: seq<Use>)
    requires GroupsOf(builders, done)
    ensures GroupsOf(RecordAll(builders, uses), done + uses)
    decreases |uses|
  {
    MoveOver(done, uses);
    if uses != [] {
      RecordKeepsGroups(builders, done, uses[0]);
      RecordAllKeepsGroups(Recorded(builders, uses[0]), done + [uses[0]], uses[1..]);
    }
  }

  lemma MoveOver<T>(done: seq<T>, rest: seq<T>)
    ensures rest == [] ==> done + rest == done
    ensures rest != [] ==> done + rest == (done + [rest[0]]) + rest[1..]
  {
  }

  /** The relations of a sequence of uses are its groups by key. */
  lemma GroupingIsByKey(uses: seq<Use>)
    ensures GroupsOf(Grouped(uses), uses)
  {
    RecordAllKeepsGroups([], [], uses);
    assert [] + uses == uses;
  }

  lemma {:induction false} RecordAllInTwo(builders: seq<Builder>, first: seq<Use>, second: seq<Use>)
    ensures RecordAll(builders, first + second) == RecordAll(RecordAll(builders, first), second)
    decreases |first|
  {
    if first == [] {
      assert first + second == second;
    } else {
      assert (first + second)[0] == first[0] && (first + second)[1..] == first[1..] + second;
      RecordAllInTwo(Recorded(builders, first[0]), first[1..], second);
    }
  }

  // ---------------------------------------------------------------- conservation

  function Count(sites: seq<CallId>, site: CallId): nat {
    if sites == [] then 0 else (if sites[0] == site then 1 else 0) + Count(sites[1..], site)
  }

  lemma {:induction false} CountConcat(a: seq<CallId>, b: seq<CallId>, site: CallId)
    ensures Count(a + b, site) == Count(a, site) + Count(b, site)
  {
    if a == [] {
      assert a + b == b;
    } else {
      CountConcat(a[1..], b, site);
      assert (a + b)[0] == a[0] && (a + b)[1..] == a[1..] + b;
    }
  }

  lemma {:induction false} CountNone(sites: seq<CallId>, site: CallId)
    requires site !in sites
    ensures Count(sites, site) == 0
  {
    if sites != [] {
      CountNone(sites[1..], site);
    }
  }

  lemma {:induction false} SitesComeFromUses(uses: seq<Use>, key: RelationKey, site: CallId)
    requires forall u :: 0 <= u < |uses| ==> uses[u].site != site
    ensures site !in SitesOf(uses, key)
  {
    if uses != [] {
      SitesComeFromUses(uses[1..], key, site);
    }
  }

  /** The keys under which one call is recorded. */
  ghost predicate HasKey(uses: seq<Use>, key: RelationKey) {
    exists u :: 0 <= u < |uses| && uses[u].key == key
  }

  ghost predicate DistinctKeys(uses: seq<Use>) {
    forall i, j :: 0 <= i < j < |uses| ==> uses[i].key != uses[j].key
  }

  ghost predicate AllAt(uses: seq<Use>, site: CallId) {
    forall u :: 0 <= u < |uses| ==> uses[u].site == site
  }

  ghost predicate AmbiguousHere(uses: seq<Use>, site: CallId) {
    forall u :: 0 <= u < |uses| && uses[u].key.ambiguitySite.Some? ==> uses[u].key.ambiguitySite.value == site
  }

  /** Each list holds the uses of its own call, under distinct keys that no other call shares when ambiguous. */
  ghost predicate Owned(lists: seq<seq<Use>>) {
    forall site :: 0 <= site < |lists| ==>
      AllAt(lists[site], site) && DistinctKeys(lists[site]) && AmbiguousHere(lists[site], site)
  }

  lemma HasKeyTail(uses: seq<Use>, key: RelationKey)
    requires uses != []
    ensures HasKey(uses, key) <==> uses[0].key == key || HasKey(uses[1..], key)
  {
    if u :| 0 <= u < |uses| && uses[u].key == key {
      assert u > 0 ==> uses[1..][u - 1].key == key;
    }
    if u :| 0 <= u < |uses[1..]| && uses[1..][u].key == key {
      assert uses[u + 1].key == key;
    }
  }

  /** Uses of one site with distinct keys: each key has that site once, or not at all. */
  lemma {:induction false} OwnUsesCountOnce(uses: seq<Use>, key: RelationKey, site: CallId)
    requires DistinctKeys(uses) && AllAt(uses, site)
    ensures Count(SitesOf(uses, key), site) == if HasKey(uses, key) then 1 else 0
  {
    if uses != [] {
      OwnUsesCountOnce(uses[1..], key, site);
      HasKeyTail(uses, key);
      if uses[0].key == key {
        NoUseNoSite(uses[1..], key);
        assert SitesOf(uses, key) == [site] && [site][1..] == [];
      } else {
        assert SitesOf(uses, key) == SitesOf(uses[1..], key);
      }
    }
  }

  /** Over all calls, a site is counted under a key exactly when one of its own uses has that key. */
  lemma {:induction false} SiteCount(lists: seq<seq<Use>>, site: CallId, key: RelationKey)
    requires Owned(lists)
    ensures Count(SitesOf(Joined(lists), key), site)
         == if site < |lists| && HasKey(lists[site], key) then 1 else 0
  {
    if lists != [] {
      var last := |lists| - 1;
      var before, own := lists[..last], lists[last];
      SiteCount(before, site, key);
      SitesOfConcat(Joined(before), own, key);
      CountConcat(SitesOf(Joined(before), key), SitesOf(own, key), site);
      if site == last {
        OwnUsesCountOnce(own, key, site);
      } else {
        SitesComeFromUses(own, key, site);
        CountNone(SitesOf(own, key), site);
      }
    }
  }

  lemma {:induction false} JoinedHas<T>(lists: seq<seq<T>>, i: nat, u: nat)
    requires i < |lists| && u < |lists[i]|
    ensures lists[i][u] in Joined(lists)
  {
    if i < |lists| - 1 {
      JoinedHas(lists[..|lists| - 1], i, u);
    }
  }

  /** The relations of one call: where each of its uses went. */
  function RelationsFor(builders: seq<Builder>, own: seq<Use>): seq<nat> {
    seq(|own|, u requires 0 <= u < |own| => IndexOf(builders, own[u].key))
  }

  lemma UseHasRelation(lists: seq<seq<Use>>, site: CallId, u: nat)
    requires site < |lists| && u < |lists[site]|
    ensures var groups := Grouped(Joined(lists));
      var r := IndexOf(groups, lists[site][u].key);
      r < |groups| && groups[r].key == lists[site][u].key
  {
    var uses := Joined(lists);
    GroupingIsByKey(uses);
    JoinedHas(lists, site, u);
    var v :| 0 <= v < |uses| && uses[v] == lists[site][u];
    assert IndexOf(Grouped(uses), uses[v].key) < |Grouped(uses)|;
  }

  lemma RelationOfKey(lists: seq<seq<Use>>, site: CallId, r: nat)
    requires site < |lists| && r < |Grouped(Joined(lists))|
    requires HasKey(lists[site], Grouped(Joined(lists))[r].key)
    ensures r in RelationsFor(Grouped(Joined(lists)), lists[site])
  {
    var groups, own := Grouped(Joined(lists)), lists[site];
    var u :| 0 <= u < |own| && own[u].key == groups[r].key;
    GroupingIsByKey(Joined(lists));
    KeyAt(groups, groups[r].key, r);
    assert RelationsFor(groups, own)[u] == r;
  }

  lemma SiteInRelation(lists: seq<seq<Use>>, site: CallId, r: nat)
    requires Owned(lists) && site < |lists| && r < |Grouped(Joined(lists))|
    ensures var groups := Grouped(Joined(lists));
      Count(groups[r].sites, site) == if r in RelationsFor(groups, lists[site]) then 1 else 0
  {
    var groups, own := Grouped(Joined(lists)), lists[site];
    GroupingIsByKey(Joined(lists));
    SiteCount(lists, site, groups[r].key);
    if r in RelationsFor(groups, own) {
      var u :| 0 <= u < |own| && RelationsFor(groups, own)[u] == r;
      UseHasRelation(lists, site, u);
      assert own[u].key == groups[r].key;
    } else if HasKey(own, groups[r].key) {
      RelationOfKey(lists, site, r);
    }
  }

  lemma OwnRelations(lists: seq<seq<Use>>, site: CallId)
    requires Owned(lists) && site < |lists|
    ensures var groups := Grouped(Joined(lists));
      var mine := RelationsFor(groups, lists[site]);
      Distinct(mine) && Within(mine, |groups|)
      && forall u :: 0 <= u < |mine| ==> groups[mine[u]].key == lists[site][u].key
  {
    var groups, own := Grouped(Joined(lists)), lists[site];
    var mine := RelationsFor(groups, own);
    forall u | 0 <= u < |own| ensures mine[u] < |groups| && groups[mine[u]].key == own[u].key {
      UseHasRelation(lists, site, u);
    }
    forall i, j | 0 <= i < j < |mine| ensures mine[i] != mine[j] {
      assert own[i].key != own[j].key;
    }
  }

  function RelationGroups(entities: seq<Entity>, calls: seq<Call>): seq<Builder> {
    Grouped(Joined(UseLists(entities, calls)))
  }

  lemma UsesForFacts(caller: EntityId, site: CallId, call: Call, candidates: seq<(EntityId, Evidence)>)
    requires DistinctIds(candidates)
    ensures var uses := UsesFor(caller, site, call, candidates);
      AllAt(uses, site) && DistinctKeys(uses) && AmbiguousHere(uses, site)
  {
    var uses := UsesFor(caller, site, call, candidates);
    if candidates != [] {
      forall i, j | 0 <= i < j < |uses| ensures uses[i].key != uses[j].key {
        assert uses[i].key.callee == Some(candidates[i].0) && uses[j].key.callee == Some(candidates[j].0);
      }
    }
  }

  lemma UsesOfFacts(entities: seq<Entity>, call: Call, site: CallId)
    ensures var uses := UsesOf(entities, call, site);
      AllAt(uses, site) && DistinctKeys(uses) && AmbiguousHere(uses, site)
  {
    CandidatesFacts(entities, call);
    var caller := ResolveCaller(entities, call);
    if caller.Some? {
      UsesForFacts(caller.value, site, call, Candidates(entities, call));
    }
  }

  lemma ListsAreOwned(entities: seq<Entity>, calls: seq<Call>)
    ensures Owned(UseLists(entities, calls))
  {
    var lists := UseLists(entities, calls);
    forall site | 0 <= site < |lists|
      ensures AllAt(lists[site], site) && DistinctKeys(lists[site]) && AmbiguousHere(lists[site], site)
    {
      UsesOfFacts(entities, calls[site], site);
    }
  }

  function RelationsOfCall(entities: seq<Entity>, calls: seq<Call>, site: CallId): seq<nat>
    requires site < |calls|
  {
    RelationsFor(RelationGroups(entities, calls), UsesOf(entities, calls[site], site))
  }

  /** How many relations a call site takes part in. */
  function Joins(entities: seq<Entity>, call: Call): nat {
    if ResolveCaller(entities, call).None? then 0
    else if Candidates(entities, call) == [] then 1
    else |Candidates(entities, call)|
  }

  /**
   Conservation: a call site with a resolved caller and k candidates occurs in exactly
   max(1, k) relations, once in each; a call site without a caller occurs in none.
   */
  lemma EachCallJoinsOnce(entities: seq<Entity>, calls: seq<Call>, site: CallId)
    requires site < |calls|
    ensures var groups := RelationGroups(entities, calls);
      var mine := RelationsOfCall(entities, calls, site);
      |mine| == Joins(entities, calls[site]) && Distinct(mine) && Within(mine, |groups|)
      && forall r: nat :: r < |groups| ==> Count(groups[r].sites, site) == if r in mine then 1 else 0
  {
    var lists := UseLists(entities, calls);
    ListsAreOwned(entities, calls);
    OwnRelations(lists, site);
    assert lists[site] == UsesOf(entities, calls[site], site);
    forall r: nat | r < |Grouped(Joined(lists))|
      ensures Count(Grouped(Joined(lists))[r].sites, site)
           == if r in RelationsFor(Grouped(Joined(lists)), lists[site]) then 1 else 0
    {
      SiteInRelation(lists, site, r);
    }
  }

  // ---------------------------------------------------------------- ambiguity

  lemma {:induction false} KeyWithSiteIsOwn(lists: seq<seq<Use>>, site: CallId, key: RelationKey)
    requires Owned(lists) && site < |lists| && key.ambiguitySite == Some(site)
    ensures SitesOf(Joined(lists), key) == SitesOf(lists[site], key)
  {
    var last := |lists| - 1;
    var before, own := lists[..last], lists[last];
    SitesOfConcat(Joined(before), own, key);
    if site < last {
      KeyWithSiteIsOwn(before, site, key);
      OthersLackKey(own, last, site, key);
      assert before[site] == lists[site];
    } else {
      ForeignKey(before, site, key);
    }
  }

  lemma OthersLackKey(own: seq<Use>, at: CallId, site: CallId, key: RelationKey)
    requires AmbiguousHere(own, at) && at != site && key.ambiguitySite == Some(site)
    ensures SitesOf(own, key) == []
  {
    NoUseNoSite(own, key);
  }

  lemma {:induction false} ForeignKey(lists: seq<seq<Use>>, site: CallId, key: RelationKey)
    requires Owned(lists) && |lists| <= site && key.ambiguitySite == Some(site)
    ensures SitesOf(Joined(lists), key) == []
  {
    if lists != [] {
      var last := |lists| - 1;
      ForeignKey(lists[..last], site, key);
      SitesOfConcat(Joined(lists[..last]), lists[last], key);
      OthersLackKey(lists[last], last, site, key);
    }
  }

  lemma {:induction false} OwnKeySite(uses: seq<Use>, u: nat, site: CallId)
    requires DistinctKeys(uses) && AllAt(uses, site) && u < |uses|
    ensures SitesOf(uses, uses[u].key) == [site]
  {
    if u == 0 {
      NoUseNoSite(uses[1..], uses[0].key);
    } else {
      OwnKeySite(uses[1..], u - 1, site);
    }
  }

  /**
   A call with k > 1 candidates has k relations of its own: each holds this call only, is
   marked ambiguous with this call as the common ambiguity site, and they lead to the k
   candidates in order.
   */
  lemma AmbiguousCallStandsAlone(entities: seq<Entity>, calls: seq<Call>, site: CallId)
    requires site < |calls| && ResolveCaller(entities, calls[site]).Some?
    requires |Candidates(entities, calls[site])| > 1
    ensures var groups := RelationGroups(entities, calls);
      var mine := RelationsOfCall(entities, calls, site);
      var candidates := Candidates(entities, calls[site]);
      |mine| == |candidates| && Within(mine, |groups|)
      && forall u :: 0 <= u < |mine| ==>
           groups[mine[u]].sites == [site]
           && groups[mine[u]].key
              == RelationKey(ResolveCaller(entities, calls[site]).value, Some(candidates[u].0), Ambiguous, Some(site))
  {
    var lists := UseLists(entities, calls);
    var groups := Grouped(Joined(lists));
    var own := UsesOf(entities, calls[site], site);
    ListsAreOwned(entities, calls);
    OwnRelations(lists, site);
    assert lists[site] == own;
    GroupingIsByKey(Joined(lists));
    forall u | 0 <= u < |own| ensures groups[RelationsFor(groups, own)[u]].sites == [site] {
      KeyWithSiteIsOwn(lists, site, own[u].key);
      OwnKeySite(own, u, site);
    }
    AmbiguousKeys(entities, calls[site], site);
  }

  lemma AmbiguousKeys(entities: seq<Entity>, call: Call, site: CallId)
    requires ResolveCaller(entities, call).Some? && |Candidates(entities, call)| > 1
    ensures var own, candidates := UsesOf(entities, call, site), Candidates(entities, call);
      |own| == |candidates|
      && forall u :: 0 <= u < |own| ==>
           own[u].key == RelationKey(ResolveCaller(entities, call).value, Some(candidates[u].0), Ambiguous, Some(site))
  {
  }
}
