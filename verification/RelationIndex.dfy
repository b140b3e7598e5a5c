/**
 The relation index as it is built and queried (call_catalog.rs 272-364, 442-489,
 565-600, 602-676, 687-733): grouping through a hash map, flattening into slices, and the
 two sorted directions.
 */
module RelationIndex {
  import opened Basics
  import opened Ordering
  import opened Calls
  import opened Relations

  // ---------------------------------------------------------------- record_relation

  lemma {:induction false} IndexOfAppend(builders: seq<Builder>, last: Builder, key: RelationKey)
    ensures IndexOf(builders + [last], key)
         == if IndexOf(builders, key) < |builders| then IndexOf(builders, key)
            else if last.key == key then |builders| else |builders| + 1
  {
    if builders == [] {
      assert builders + [last] == [last] && [last][1..] == [];
    } else {
      assert (builders + [last])[0] == builders[0] && (builders + [last])[1..] == builders[1..] + [last];
      IndexOfAppend(builders[1..], last, key);
    }
  }

  lemma {:induction false} IndexOfSameKeys(a: seq<Builder>, b: seq<Builder>, key: RelationKey)
    requires |a| == |b| && forall i :: 0 <= i < |a| ==> a[i].key == b[i].key
    ensures IndexOf(a, key) == IndexOf(b, key)
  {
    if a != [] {
      IndexOfSameKeys(a[1..], b[1..], key);
    }
  }

  lemma RecordedIndex(builders: seq<Builder>, use: Use, key: RelationKey)
    ensures IndexOf(builders, use.key) < |builders| ==>
      |Recorded(builders, use)| == |builders| && IndexOf(Recorded(builders, use), key) == IndexOf(builders, key)
    ensures IndexOf(builders, use.key) == |builders| ==>
      |Recorded(builders, use)| == |builders| + 1
      && IndexOf(Recorded(builders, use), key)
         == if key == use.key then |builders|
            else if IndexOf(builders, key) < |builders| then IndexOf(builders, key) else |builders| + 1
  {
    var i := IndexOf(builders, use.key);
    if i < |builders| {
      IndexOfSameKeys(Recorded(builders, use), builders, key);
    } else {
      IndexOfAppend(builders, Builder(use.key, [use.site], use.evidence), key);
    }
  }

  class RelationTable {
    var relationByKey: map<RelationKey, nat>
    var builders: seq<Builder>

    ghost predicate Valid()
      reads this
    {
      forall k :: (k in relationByKey <==> IndexOf(builders, k) < |builders|)
               && (k in relationByKey ==> relationByKey[k] == IndexOf(builders, k))
    }

    constructor ()
      ensures Valid() && builders == []
    {
      relationByKey, builders := map[], [];
    }

    method RecordRelation(key: RelationKey, site: CallId, evidence: Evidence)
      requires Valid()
      modifies this
      ensures Valid() && builders == Recorded(old(builders), Use(key, site, evidence))
    {
      forall k {
        RecordedIndex(builders, Use(key, site, evidence), k);
      }
      if key in relationByKey {
        var i := relationByKey[key];
        var current := builders[i];
        builders := builders[i := Builder(key, current.sites + [site], Merge(current.evidence, evidence))];
      } else {
        relationByKey := relationByKey[key := |builders|];
        builders := builders + [Builder(key, [site], evidence)];
      }
    }
  }

  // ---------------------------------------------------------------- flattening

  function SiteLists(builders: seq<Builder>): seq<seq<CallId>> {
    seq(|builders|, i requires 0 <= i < |builders| => builders[i].sites)
  }

  /** The shared array of call-site references. */
  function Refs(builders: seq<Builder>): seq<CallId> { Joined(SiteLists(builders)) }

  /** Relation `i` and the slice it owns. */
  function FlatRelation(builders: seq<Builder>, i: nat): Relation
    requires i < |builders|
  {
    Relation(builders[i].key, |Refs(builders[..i])|, |builders[i].sites|, builders[i].evidence)
  }

  function FlatRelations(builders: seq<Builder>): seq<Relation> {
    seq(|builders|, i requires 0 <= i < |builders| => FlatRelation(builders, i))
  }

  lemma RefsSnoc(builders: seq<Builder>, i: nat)
    requires i < |builders|
    ensures Refs(builders[..i + 1]) == Refs(builders[..i]) + builders[i].sites
  {
    var lists := SiteLists(builders[..i + 1]);
    assert lists[..i] == SiteLists(builders[..i]);
  }

  lemma {:induction false} RefsPrefix(builders: seq<Builder>, i: nat, n: nat)
    requires i <= n <= |builders|
    ensures |Refs(builders[..i])| <= |Refs(builders[..n])|
    ensures Refs(builders[..n])[..|Refs(builders[..i])|] == Refs(builders[..i])
    decreases n
  {
    if i < n {
      RefsSnoc(builders, n - 1);
      RefsPrefix(builders, i, n - 1);
    }
  }

  function Slice(refs: seq<CallId>, r: Relation): seq<CallId>
    requires r.start + r.len <= |refs|
  {
    refs[r.start..r.start + r.len]
  }

  /**
   The slices partition the array: the first starts at 0, each next one starts where the
   one before ends, the last ends with the array, and each is its relation's sites.
   */
  lemma SlicesPartition(builders: seq<Builder>, i: nat)
    requires i < |builders|
    ensures var refs, relations := Refs(builders), FlatRelations(builders);
      relations[i].start + relations[i].len <= |refs|
      && Slice(refs, relations[i]) == builders[i].sites
      && (i == 0 ==> relations[i].start == 0)
      && (i + 1 < |builders| ==> relations[i + 1].start == relations[i].start + relations[i].len)
      && (i + 1 == |builders| ==> relations[i].start + relations[i].len == |refs|)
  {
    assert builders[..|builders|] == builders;
    RefsSnoc(builders, i);
    RefsPrefix(builders, i + 1, |builders|);
    assert builders[..0] == [];
    var start, len := |Refs(builders[..i])|, |builders[i].sites|;
    assert Refs(builders)[..start + len] == Refs(builders[..i]) + builders[i].sites;
    assert Refs(builders)[start..start + len] == Refs(builders)[..start + len][start..];
  }

  /** Recording adds exactly one reference. */
  lemma RecordedAddsOne(builders: seq<Builder>, use: Use)
    ensures |Refs(Recorded(builders, use))| == |Refs(builders)| + 1
  {
    var i := IndexOf(builders, use.key);
    var after := Recorded(builders, use);
    if i < |builders| {
      OneLonger(builders, after, i, |builders|);
      assert builders[..|builders|] == builders && after[..|after|] == after;
    } else {
      RefsSnoc(after, |builders|);
      assert after[..|builders| + 1] == after && after[..|builders|] == builders;
    }
  }

  lemma {:induction false} OneLonger(a: seq<Builder>, b: seq<Builder>, i: nat, n: nat)
    requires i < n <= |a| == |b| && |b[i].sites| == |a[i].sites| + 1
    requires forall j :: 0 <= j < |a| && j != i ==> b[j] == a[j]
    ensures |Refs(b[..n])| == |Refs(a[..n])| + 1
    decreases n
  {
    RefsSnoc(a, n - 1);
    RefsSnoc(b, n - 1);
    if i < n - 1 {
      OneLonger(a, b, i, n - 1);
    } else {
      assert a[..i] == b[..i];
    }
  }

  lemma {:induction false} RecordAllAddsEach(builders: seq<Builder>, uses: seq<Use>)
    ensures |Refs(RecordAll(builders, uses))| == |Refs(builders)| + |uses|
    decreases |uses|
  {
    if uses != [] {
      RecordedAddsOne(builders, uses[0]);
      RecordAllAddsEach(Recorded(builders, uses[0]), uses[1..]);
    }
  }

  function TotalJoins(entities: seq<Entity>, calls: seq<Call>): nat {
    if calls == [] then 0 else TotalJoins(entities, calls[..|calls| - 1]) + Joins(entities, calls[|calls| - 1])
  }

  lemma {:induction false} JoinedLength(entities: seq<Entity>, calls: seq<Call>)
    ensures |Joined(UseLists(entities, calls))| == TotalJoins(entities, calls)
  {
    if calls != [] {
      var last := |calls| - 1;
      JoinedLength(entities, calls[..last]);
      assert UseLists(entities, calls)[..last] == UseLists(entities, calls[..last]);
    }
  }

  /** The index holds one reference per join: max(1, k) for each call with a caller. */
  lemma ReferencesAreTheJoins(entities: seq<Entity>, calls: seq<Call>)
    ensures |Refs(RelationGroups(entities, calls))| == TotalJoins(entities, calls)
    ensures |RelationGroups(entities, calls)| <= TotalJoins(entities, calls)
  {
    var uses := Joined(UseLists(entities, calls));
    RecordAllAddsEach([], uses);
    JoinedLength(entities, calls);
    GroupingIsByKey(uses);
    AtLeastOneEach(Grouped(uses), |Grouped(uses)|);
    assert Grouped(uses)[..|Grouped(uses)|] == Grouped(uses);
  }

  lemma {:induction false} AtLeastOneEach(builders: seq<Builder>, n: nat)
    requires n <= |builders| && forall i :: 0 <= i < |builders| ==> builders[i].sites != []
    ensures n <= |Refs(builders[..n])|
    decreases n
  {
    if n > 0 {
      AtLeastOneEach(builders, n - 1);
      RefsSnoc(builders, n - 1);
    }
  }

  // ---------------------------------------------------------------- the two directions

  /** The relations whose key satisfies `p`, by id, below `n`. */
  function IdsBelow(relations: seq<Relation>, p: RelationKey -> bool, n: nat): (ids: seq<nat>)
    requires n <= |relations|
    ensures forall i :: 0 <= i < |ids| ==> ids[i] < n && p(relations[ids[i]].key)
    ensures forall i, j :: 0 <= i < j < |ids| ==> ids[i] < ids[j]
    ensures forall r: nat :: r < n && p(relations[r].key) ==> r in ids
  {
    if n == 0 then []
    else IdsBelow(relations, p, n - 1) + if p(relations[n - 1].key) then [n - 1] else []
  }

  function QualifiedName(entities: seq<Entity>, id: EntityId): string {
    if id < |entities| then entities[id].primary.qualifiedName else ""
  }

  /** Callee name (none first), caller name, ambiguity site (none first). */
  function OrderKey(entities: seq<Entity>, key: RelationKey): Key {
    [Num(if key.callee.Some? then 1 else 0),
     Text(if key.callee.Some? then QualifiedName(entities, key.callee.value) else ""),
     Text(QualifiedName(entities, key.caller)),
     Num(if key.ambiguitySite.Some? then key.ambiguitySite.value + 1 else 0)]
  }

  function RelationOrder(entities: seq<Entity>, relations: seq<Relation>): nat -> Key {
    (r: nat) => if r < |relations| then OrderKey(entities, relations[r].key) else []
  }

  function Direction(entities: seq<Entity>, relations: seq<Relation>, p: RelationKey -> bool): seq<nat> {
    StableSort(IdsBelow(relations, p, |relations|), RelationOrder(entities, relations))
  }

  function CalledBy(caller: EntityId): RelationKey -> bool { (k: RelationKey) => k.caller == caller }

  function Calling(callee: EntityId): RelationKey -> bool { (k: RelationKey) => k.callee == Some(callee) }

  lemma DirectionFacts(entities: seq<Entity>, relations: seq<Relation>, p: RelationKey -> bool)
    ensures var ids := Direction(entities, relations, p);
      Distinct(ids) && Sorted(ids, RelationOrder(entities, relations))
      && forall r: nat :: r in ids <==> r < |relations| && p(relations[r].key)
  {
    var found := IdsBelow(relations, p, |relations|);
    var ids := Direction(entities, relations, p);
    StableSortFacts(found, RelationOrder(entities, relations));
    SameElementsDistinct(found, ids);
    assert forall r: nat :: r in ids <==> r in multiset(ids);
    assert forall r: nat :: r in found <==> r in multiset(found);
  }

  /** A missing one first, then by name. */
  predicate NameFirst(a: Option<string>, b: Option<string>) {
    b.Some? && (a.None? || StringLt(a.value, b.value))
  }

  predicate SiteFirst(a: Option<CallId>, b: Option<CallId>) {
    b.Some? && (a.None? || a.value < b.value)
  }

  function CalleeName(entities: seq<Entity>, key: RelationKey): Option<string> {
    if key.callee.Some? && key.callee.value < |entities| then Some(entities[key.callee.value].primary.qualifiedName)
    else None
  }

  /** The relation points at entities there are. */
  predicate PointsInside(entities: seq<Entity>, key: RelationKey) {
    key.caller < |entities| && (key.callee.Some? ==> key.callee.value < |entities|)
  }

  /** By the callee's qualified name, then the caller's, then the ambiguity site, then the place in the array. */
  predicate GoesFirst(entities: seq<Entity>, relations: seq<Relation>, r: nat, s: nat) {
    r < |relations| && s < |relations|
    && PointsInside(entities, relations[r].key) && PointsInside(entities, relations[s].key)
    && var a, b := relations[r].key, relations[s].key;
       var c, d := entities[a.caller].primary.qualifiedName, entities[b.caller].primary.qualifiedName;
       if CalleeName(entities, a) != CalleeName(entities, b) then
         NameFirst(CalleeName(entities, a), CalleeName(entities, b))
       else if c != d then StringLt(c, d)
       else if a.ambiguitySite != b.ambiguitySite then SiteFirst(a.ambiguitySite, b.ambiguitySite)
       else r < s
  }

  lemma KeyByKey(a: Key, b: Key)
    requires a != [] && b != []
    ensures KeyLe(a, b) <==> AtomLt(a[0], b[0]) || (a[0] == b[0] && KeyLe(a[1..], b[1..]))
  {
  }

  lemma OrderKeyTail(entities: seq<Entity>, a: RelationKey, b: RelationKey)
    ensures var s, t := OrderKey(entities, a), OrderKey(entities, b);
      KeyLe(s, t) <==>
        AtomLt(s[0], t[0])
        || (s[0] == t[0]
            && (AtomLt(s[1], t[1])
                || (s[1] == t[1] && (AtomLt(s[2], t[2]) || (s[2] == t[2] && (AtomLt(s[3], t[3]) || s[3] == t[3]))))))
  {
    var s, t := OrderKey(entities, a), OrderKey(entities, b);
    KeyByKey(s, t);
    KeyByKey(s[1..], t[1..]);
    KeyByKey(s[2..], t[2..]);
    KeyByKey(s[3..], t[3..]);
    assert s[1..][1..] == s[2..] && s[2..][1..] == s[3..] && s[3..][1..] == [];
    assert t[1..][1..] == t[2..] && t[2..][1..] == t[3..] && t[3..][1..] == [];
  }

  lemma OrderedPair(entities: seq<Entity>, relations: seq<Relation>, r: nat, s: nat)
    requires r < |relations| && s < |relations|
    requires PointsInside(entities, relations[r].key) && PointsInside(entities, relations[s].key)
    requires var order := RelationOrder(entities, relations);
      KeyLe(order(r), order(s)) && (order(r) == order(s) ==> r < s)
    ensures GoesFirst(entities, relations, r, s)
  {
    OrderKeyTail(entities, relations[r].key, relations[s].key);
    StringLeTotal(QualifiedName(entities, relations[r].key.caller), QualifiedName(entities, relations[s].key.caller));
  }

  /** Each direction lists its relations in that order. */
  lemma DirectionOrder(entities: seq<Entity>, relations: seq<Relation>, p: RelationKey -> bool, i: nat, j: nat)
    requires i < j < |Direction(entities, relations, p)|
    requires forall r :: 0 <= r < |relations| ==> PointsInside(entities, relations[r].key)
    ensures var ids := Direction(entities, relations, p); GoesFirst(entities, relations, ids[i], ids[j])
  {
    var found, order := IdsBelow(relations, p, |relations|), RelationOrder(entities, relations);
    DirectionFacts(entities, relations, p);
    StableSortFacts(found, order);
    var pick := StableSortArranges(found, order);
    var ids := Direction(entities, relations, p);
    assert ids[i] in ids && ids[j] in ids;
    assert order(found[pick[i]]) == order(found[pick[j]]) ==> pick[i] < pick[j];
    OrderedPair(entities, relations, ids[i], ids[j]);
  }

  lemma {:induction false} UsesPointInside(entities: seq<Entity>, calls: seq<Call>)
    ensures forall u :: u in Joined(UseLists(entities, calls)) ==> PointsInside(entities, u.key)
  {
    if calls != [] {
      var last := |calls| - 1;
      UsesPointInside(entities, calls[..last]);
      assert UseLists(entities, calls)[..last] == UseLists(entities, calls[..last]);
      OwnUsesPointInside(entities, calls[last], last);
    }
  }

  lemma UsesForPointInside(entities: seq<Entity>, caller: EntityId, site: CallId, call: Call,
                           candidates: seq<(EntityId, Evidence)>)
    requires caller < |entities| && forall i :: 0 <= i < |candidates| ==> candidates[i].0 < |entities|
    ensures forall u :: u in UsesFor(caller, site, call, candidates) ==> PointsInside(entities, u.key)
  {
    var uses := UsesFor(caller, site, call, candidates);
    forall u | u in uses ensures PointsInside(entities, u.key) {
      var i :| 0 <= i < |uses| && uses[i] == u;
      assert candidates != [] ==> u == UseOf(caller, site, candidates[i], |candidates| > 1);
    }
  }

  lemma OwnUsesPointInside(entities: seq<Entity>, call: Call, site: CallId)
    ensures forall u :: u in UsesOf(entities, call, site) ==> PointsInside(entities, u.key)
  {
    if ResolveCaller(entities, call).Some? {
      UsesForPointInside(entities, ResolveCaller(entities, call).value, site, call, Candidates(entities, call));
    }
  }

  /** Every relation of an index points at entities of that index, so its directions are in the order told. */
  lemma RelationsPointInside(entities: seq<Entity>, calls: seq<Call>, r: nat)
    requires r < |RelationGroups(entities, calls)|
    ensures PointsInside(entities, FlatRelations(RelationGroups(entities, calls))[r].key)
  {
    var uses := Joined(UseLists(entities, calls));
    var key := RelationGroups(entities, calls)[r].key;
    UsesPointInside(entities, calls);
    GroupingIsByKey(uses);
    if forall u :: 0 <= u < |uses| ==> uses[u].key != key {
      NoUseNoSite(uses, key);
    }
  }

  /**
   A relation is listed under the outgoing relations of its caller and of nobody else, and
   under the incoming ones of its callee, when it has one, and of nobody else; once each.
   */
  lemma ListedWhereItBelongs(entities: seq<Entity>, relations: seq<Relation>, e: EntityId, r: nat)
    requires r < |relations|
    ensures var outgoing := Direction(entities, relations, CalledBy(e));
      var incoming := Direction(entities, relations, Calling(e));
      (r in outgoing <==> relations[r].key.caller == e)
      && (r in incoming <==> relations[r].key.callee == Some(e))
      && Distinct(outgoing) && Distinct(incoming)
  {
    DirectionFacts(entities, relations, CalledBy(e));
    DirectionFacts(entities, relations, Calling(e));
  }

  // ---------------------------------------------------------------- building the index

  /** The candidates of a call, tested one by one in the order of the name index. */
  method ResolveCallInto(entities: seq<Entity>, call: Call) returns (output: seq<(EntityId, Evidence)>)
    ensures output == Candidates(entities, call)
  {
    if !IsNameForm(call.form) || call.calleeName.None? {
      return [];
    }
    output := JudgeAll(entities, call, ByName(entities, call.calleeName.value));
  }

  lemma {:induction false} CandidatesSnoc(entities: seq<Entity>, call: Call, ids: seq<EntityId>, last: EntityId)
    requires Within(ids, |entities|) && last < |entities|
    ensures var evidence := CandidateEvidence(call, entities[last]);
      CandidatesAmong(entities, call, ids + [last])
      == CandidatesAmong(entities, call, ids) + if evidence.Some? then [(last, evidence.value)] else []
  {
    if ids == [] {
      assert ids + [last] == [last] && [last][1..] == [];
    } else {
      assert (ids + [last])[0] == ids[0] && (ids + [last])[1..] == ids[1..] + [last];
      CandidatesSnoc(entities, call, ids[1..], last);
    }
  }

  method JudgeAll(entities: seq<Entity>, call: Call, ids: seq<EntityId>) returns (output: seq<(EntityId, Evidence)>)
    requires Within(ids, |entities|)
    ensures output == CandidatesAmong(entities, call, ids)
  {
    output := [];
    var i := 0;
    while i < |ids|
      invariant i <= |ids| && output == CandidatesAmong(entities, call, ids[..i])
    {
      TakeOneMore(ids, i);
      CandidatesSnoc(entities, call, ids[..i], ids[i]);
      var evidence := JudgeCandidate(call, entities[ids[i]]);
      if evidence.Some? {
        output := output + [(ids[i], evidence.value)];
      }
      i := i + 1;
    }
    assert ids[..i] == ids;
  }

  /** The loop body of `resolve_call_into`, check by check. */
  method JudgeCandidate(call: Call, candidate: Entity) returns (r: Option<Evidence>)
    ensures r == CandidateEvidence(call, candidate)
  {
    if call.form != CallForm.QualifiedName && candidate.primary.ownerKind == Some(Record) {
      return None;
    }
    var evidence := NO_EVIDENCE;
    if call.qualifiedName.Some? {
      if call.qualifiedName.value != candidate.primary.qualifiedName {
        return None;
      }
      evidence := Support(evidence, ExplicitQualifier);
    }
    if candidate.primary.path == call.path {
      evidence := Support(evidence, SameFile);
    }
    if candidate.primary.linkage.Internal? {
      if candidate.primary.linkage.path != call.path {
        return None;
      }
      evidence := Support(evidence, InternalLinkage);
    }
    if call.argumentCount.Some? {
      var accepts := AcceptsArity(candidate.primary.signature, call.argumentCount.value);
      if accepts == Some(false) {
        return None;
      }
      evidence := if accepts.Some? then Support(evidence, CompatibleArity) else Doubt(evidence, CompatibleArity);
    }
    if call.syntaxErrorOverlap {
      evidence := Doubt(evidence, SyntaxErrorOverlap);
    }
    if IsAbsolute(candidate.primary.path) && Bodyless(candidate) {
      evidence := Doubt(evidence, ExternalBodyUnavailable);
    }
    if evidence.supports == {} {
      evidence := Support(evidence, NameOnly);
    }
    r := Some(evidence);
  }

  lemma TakeOneMore<T>(s: seq<T>, i: nat)
    requires i < |s|
    ensures s[..i + 1] == s[..i] + [s[i]]
  {
  }

  /** Record every use of one call. */
  method RecordCall(table: RelationTable, entities: seq<Entity>, call: Call, site: CallId)
    requires table.Valid()
    modifies table
    ensures table.Valid() && table.builders == RecordAll(old(table.builders), UsesOf(entities, call, site))
  {
    var caller := ResolveCaller(entities, call);
    if caller.Some? {
      var candidates := ResolveCallInto(entities, call);
      if candidates == [] {
        RecordOneMore(table.builders, UsesOf(entities, call, site), 0);
        assert UsesOf(entities, call, site)[..1] == UsesOf(entities, call, site);
        table.RecordRelation(RelationKey(caller.value, None, Unresolved, None), site, UnresolvedEvidence(call));
      } else {
        RecordCandidates(table, caller.value, site, call, candidates);
      }
    }
  }

  method RecordCandidates(table: RelationTable, caller: EntityId, site: CallId, call: Call,
                          candidates: seq<(EntityId, Evidence)>)
    requires table.Valid() && candidates != []
    modifies table
    ensures table.Valid()
    ensures table.builders == RecordAll(old(table.builders), UsesFor(caller, site, call, candidates))
  {
    RecordUses(table, UsesFor(caller, site, call, candidates));
  }

  method RecordUses(table: RelationTable, uses: seq<Use>)
    requires table.Valid()
    modifies table
    ensures table.Valid() && table.builders == RecordAll(old(table.builders), uses)
  {
    ghost var before := table.builders;
    var i := 0;
    assert uses[..0] == [];
    while i < |uses|
      invariant i <= |uses| && table.Valid()
      invariant table.builders == RecordAll(before, uses[..i])
    {
      RecordOneMore(before, uses, i);
      table.RecordRelation(uses[i].key, uses[i].site, uses[i].evidence);
      i := i + 1;
    }
    assert uses[..i] == uses;
  }

  lemma RecordOneMore(before: seq<Builder>, uses: seq<Use>, i: nat)
    requires i < |uses|
    ensures RecordAll(before, uses[..i + 1]) == Recorded(RecordAll(before, uses[..i]), uses[i])
  {
    TakeOneMore(uses, i);
    RecordAllInTwo(before, uses[..i], [uses[i]]);
    assert [uses[i]][1..] == [];
    assert RecordAll(Recorded(RecordAll(before, uses[..i]), uses[i]), [])
        == Recorded(RecordAll(before, uses[..i]), uses[i]);
  }

  method RecordCalls(entities: seq<Entity>, calls: seq<Call>) returns (builders: seq<Builder>)
    ensures builders == RelationGroups(entities, calls)
  {
    var table := new RelationTable();
    ghost var lists := UseLists(entities, calls);
    var site := 0;
    assert lists[..0] == [];
    while site < |calls|
      invariant site <= |calls| && fresh(table) && table.Valid()
      invariant table.builders == Grouped(Joined(lists[..site]))
    {
      GroupOneMore(lists, site);
      RecordCall(table, entities, calls[site], site);
      site := site + 1;
    }
    assert lists[..site] == lists;
    builders := table.builders;
  }

  lemma GroupOneMore(lists: seq<seq<Use>>, i: nat)
    requires i < |lists|
    ensures Grouped(Joined(lists[..i + 1])) == RecordAll(Grouped(Joined(lists[..i])), lists[i])
  {
    assert lists[..i + 1][..i] == lists[..i];
    RecordAllInTwo([], Joined(lists[..i]), lists[i]);
  }

  method Flatten(builders: seq<Builder>) returns (relations: seq<Relation>, refs: seq<CallId>)
    ensures relations == FlatRelations(builders) && refs == Refs(builders)
  {
    relations, refs := [], [];
    var i := 0;
    assert builders[..0] == [];
    while i < |builders|
      invariant i <= |builders|
      invariant refs == Refs(builders[..i])
      invariant |relations| == i && forall r: nat :: r < i ==> relations[r] == FlatRelation(builders, r)
    {
      RefsSnoc(builders, i);
      relations := relations + [Relation(builders[i].key, |refs|, |builders[i].sites|, builders[i].evidence)];
      refs := refs + builders[i].sites;
      i := i + 1;
    }
    assert builders[..i] == builders;
  }

  function Under(listing: map<EntityId, seq<nat>>, e: EntityId): seq<nat> {
    if e in listing then listing[e] else []
  }

  function Push(listing: map<EntityId, seq<nat>>, e: EntityId, r: nat): map<EntityId, seq<nat>> {
    listing[e := Under(listing, e) + [r]]
  }

  /** Every list of the listing holds the relations below `n` that its entity's test selects. */
  ghost predicate ListsBelow(listing: map<EntityId, seq<nat>>, relations: seq<Relation>,
                             test: EntityId -> RelationKey -> bool, n: nat)
    requires n <= |relations|
  {
    forall e: EntityId :: Under(listing, e) == IdsBelow(relations, test(e), n)
  }

  /** Relation `n` goes under `e` when `e` is the only one it is for. */
  lemma PushKeeps(listing: map<EntityId, seq<nat>>, relations: seq<Relation>, test: EntityId -> RelationKey -> bool,
                  n: nat, e: EntityId)
    requires n < |relations| && ListsBelow(listing, relations, test, n)
    requires forall x: EntityId :: test(x)(relations[n].key) <==> x == e
    ensures ListsBelow(Push(listing, e, n), relations, test, n + 1)
  {
    forall x: EntityId ensures Under(Push(listing, e, n), x) == IdsBelow(relations, test(x), n + 1) {
      assert Under(listing, x) == IdsBelow(relations, test(x), n);
      assert test(x)(relations[n].key) <==> x == e;
    }
  }

  lemma SkipKeeps(listing: map<EntityId, seq<nat>>, relations: seq<Relation>, test: EntityId -> RelationKey -> bool,
                  n: nat)
    requires n < |relations| && ListsBelow(listing, relations, test, n)
    requires forall x: EntityId :: !test(x)(relations[n].key)
    ensures ListsBelow(listing, relations, test, n + 1)
  {
    forall x: EntityId ensures Under(listing, x) == IdsBelow(relations, test(x), n + 1) {
      assert Under(listing, x) == IdsBelow(relations, test(x), n);
      assert !test(x)(relations[n].key);
    }
  }

  ghost predicate OutgoingBelow(listing: map<EntityId, seq<nat>>, relations: seq<Relation>, n: nat)
    requires n <= |relations|
  {
    ListsBelow(listing, relations, CalledBy, n)
  }

  ghost predicate IncomingBelow(listing: map<EntityId, seq<nat>>, relations: seq<Relation>, n: nat)
    requires n <= |relations|
  {
    ListsBelow(listing, relations, Calling, n)
  }

  function PushCallee(listing: map<EntityId, seq<nat>>, callee: Option<EntityId>, r: nat): map<EntityId, seq<nat>> {
    if callee.Some? then Push(listing, callee.value, r) else listing
  }

  lemma OutgoingStep(listing: map<EntityId, seq<nat>>, relations: seq<Relation>, n: nat)
    requires n < |relations| && OutgoingBelow(listing, relations, n)
    ensures OutgoingBelow(Push(listing, relations[n].key.caller, n), relations, n + 1)
  {
    PushKeeps(listing, relations, CalledBy, n, relations[n].key.caller);
  }

  lemma IncomingStep(listing: map<EntityId, seq<nat>>, relations: seq<Relation>, n: nat)
    requires n < |relations| && IncomingBelow(listing, relations, n)
    ensures IncomingBelow(PushCallee(listing, relations[n].key.callee, n), relations, n + 1)
  {
    if relations[n].key.callee.Some? {
      PushKeeps(listing, relations, Calling, n, relations[n].key.callee.value);
    } else {
      SkipKeeps(listing, relations, Calling, n);
    }
  }

  method ListDirections(relations: seq<Relation>)
    returns (outgoing: map<EntityId, seq<nat>>, incoming: map<EntityId, seq<nat>>)
    ensures OutgoingBelow(outgoing, relations, |relations|) && IncomingBelow(incoming, relations, |relations|)
  {
    outgoing, incoming := map[], map[];
    var r := 0;
    while r < |relations|
      invariant r <= |relations|
      invariant OutgoingBelow(outgoing, relations, r) && IncomingBelow(incoming, relations, r)
    {
      OutgoingStep(outgoing, relations, r);
      IncomingStep(incoming, relations, r);
      outgoing := Push(outgoing, relations[r].key.caller, r);
      incoming := PushCallee(incoming, relations[r].key.callee, r);
      r := r + 1;
    }
  }

  method SortLists(listing: map<EntityId, seq<nat>>, order: nat -> Key) returns (sorted: map<EntityId, seq<nat>>)
    ensures forall e: EntityId :: Under(sorted, e) == StableSort(Under(listing, e), order)
  {
    sorted := listing;
    var rest := listing.Keys;
    while rest != {}
      invariant sorted.Keys == listing.Keys && rest <= listing.Keys
      invariant forall e :: e in listing ==>
        sorted[e] == if e in rest then listing[e] else StableSort(listing[e], order)
      decreases rest
    {
      var e :| e in rest;
      sorted := sorted[e := StableSort(sorted[e], order)];
      rest := rest - {e};
    }
  }

  method Materialize(relations: seq<Relation>, refs: seq<CallId>, id: nat, siteLimit: nat, ghost groups: seq<Builder>)
    returns (entry: (RelationKey, seq<CallId>), limited: bool)
    requires relations == FlatRelations(groups) && refs == Refs(groups) && id < |relations|
    ensures entry == Entry(groups, id, siteLimit) && (limited <==> HasMore(groups, id, siteLimit))
  {
    var relation := relations[id];
    SlicesPartition(groups, id);
    var take := Min(relation.len, siteLimit);
    entry := (relation.key, refs[relation.start..relation.start + relation.len][..take]);
    limited := relation.len > take;
  }

  method MaterializeAll(relations: seq<Relation>, refs: seq<CallId>, wanted: seq<nat>, siteLimit: nat,
                        ghost groups: seq<Builder>)
    returns (page: seq<(RelationKey, seq<CallId>)>, limited: bool)
    requires relations == FlatRelations(groups) && refs == Refs(groups) && Within(wanted, |groups|)
    ensures PageOf(groups, wanted, siteLimit, page, limited)
  {
    limited, page := false, [];
    var i := 0;
    while i < |wanted|
      invariant i <= |wanted| && |page| == i
      invariant forall j :: 0 <= j < i ==> page[j] == Entry(groups, wanted[j], siteLimit)
      invariant limited <==> exists j :: 0 <= j < i && HasMore(groups, wanted[j], siteLimit)
    {
      var entry, more := Materialize(relations, refs, wanted[i], siteLimit, groups);
      page, limited := page + [entry], limited || more;
      i := i + 1;
    }
  }

  /** Under every entity stand its relations in each direction. */
  ghost predicate Directed(entities: seq<Entity>, relations: seq<Relation>, outgoing: map<EntityId, seq<nat>>,
                           incoming: map<EntityId, seq<nat>>)
  {
    forall e: EntityId ::
      Under(outgoing, e) == Direction(entities, relations, CalledBy(e))
      && Under(incoming, e) == Direction(entities, relations, Calling(e))
  }

  lemma SortedAreDirected(entities: seq<Entity>, relations: seq<Relation>, called: map<EntityId, seq<nat>>,
                          calling: map<EntityId, seq<nat>>, outgoing: map<EntityId, seq<nat>>,
                          incoming: map<EntityId, seq<nat>>)
    requires OutgoingBelow(called, relations, |relations|) && IncomingBelow(calling, relations, |relations|)
    requires var order := RelationOrder(entities, relations);
      forall e: EntityId ::
        Under(outgoing, e) == StableSort(Under(called, e), order)
        && Under(incoming, e) == StableSort(Under(calling, e), order)
    ensures Directed(entities, relations, outgoing, incoming)
  {
    forall e: EntityId
      ensures Under(outgoing, e) == Direction(entities, relations, CalledBy(e))
              && Under(incoming, e) == Direction(entities, relations, Calling(e))
    {
      assert Under(called, e) == IdsBelow(relations, CalledBy(e), |relations|);
      assert Under(calling, e) == IdsBelow(relations, Calling(e), |relations|);
    }
  }

  class RelationQueryIndex {
    const entities: seq<Entity>
    const calls: seq<Call>
    var relations: seq<Relation>
    var refs: seq<CallId>
    var outgoing: map<EntityId, seq<nat>>
    var incoming: map<EntityId, seq<nat>>

    ghost predicate Valid()
      reads this
    {
      relations == FlatRelations(RelationGroups(entities, calls)) && refs == Refs(RelationGroups(entities, calls))
      && Directed(entities, relations, outgoing, incoming)
    }

    constructor (entities: seq<Entity>, calls: seq<Call>)
      ensures Valid() && this.entities == entities && this.calls == calls
    {
      this.entities, this.calls := entities, calls;
      var builders := RecordCalls(entities, calls);
      var flat, sites := Flatten(builders);
      var called, calling := ListDirections(flat);
      var order := RelationOrder(entities, flat);
      var sortedCalled := SortLists(called, order);
      var sortedCalling := SortLists(calling, order);
      SortedAreDirected(entities, flat, called, calling, sortedCalled, sortedCalling);
      relations, refs, outgoing, incoming := flat, sites, sortedCalled, sortedCalling;
    }

    /**
     One page of an entity's relations in one direction: for each, at most `siteLimit` of its
     call sites. `limited` says whether some relation of the page has more.
     */
    method RelationPage(forward: bool, e: EntityId, cursor: nat, relationLimit: nat, siteLimit: nat)
      returns (page: seq<(RelationKey, seq<CallId>)>, total: nat, limited: bool)
      requires Valid()
      ensures var ids := Direction(entities, relations, if forward then CalledBy(e) else Calling(e));
        var wanted := SkipTake(ids, cursor, relationLimit);
        var groups := RelationGroups(entities, calls);
        total == |ids| && PageOf(groups, wanted, siteLimit, page, limited)
    {
      var ids := if forward then Under(outgoing, e) else Under(incoming, e);
      total := |ids|;
      var wanted := SkipTake(ids, cursor, relationLimit);
      WantedAreRelations(entities, relations, if forward then CalledBy(e) else Calling(e), cursor, relationLimit);
      page, limited := MaterializeAll(relations, refs, wanted, siteLimit, RelationGroups(entities, calls));
    }
  }

  lemma WantedAreRelations(entities: seq<Entity>, relations: seq<Relation>, p: RelationKey -> bool, skip: nat,
                           take: nat)
    ensures Within(SkipTake(Direction(entities, relations, p), skip, take), |relations|)
  {
    DirectionFacts(entities, relations, p);
    var ids := Direction(entities, relations, p);
    forall i | 0 <= i < |ids| ensures ids[i] < |relations| {
      assert ids[i] in ids;
    }
    var wanted := SkipTake(ids, skip, take);
    assert forall i :: 0 <= i < |wanted| ==> wanted[i] == ids[Min(skip, |ids|) + i];
  }

  /** `skip` and `take` on an iterator. */
  function SkipTake<T>(s: seq<T>, skip: nat, take: nat): seq<T> {
    var from := Min(skip, |s|);
    s[from..from + Min(take, |s| - from)]
  }

  /** A page is the stretch of the list from the cursor on, as long as it goes. */
  lemma PageIsAStretch<T>(s: seq<T>, skip: nat, take: nat)
    ensures var page := SkipTake(s, skip, take);
      |page| == (if skip >= |s| then 0 else if |s| - skip <= take then |s| - skip else take)
      && forall i :: 0 <= i < |page| ==> page[i] == s[skip + i]
  {
  }

  /** A relation's key and the first of its sites. */
  function Entry(groups: seq<Builder>, id: nat, siteLimit: nat): (RelationKey, seq<CallId>)
    requires id < |groups|
  {
    (groups[id].key, groups[id].sites[..Min(|groups[id].sites|, siteLimit)])
  }

  predicate HasMore(groups: seq<Builder>, id: nat, siteLimit: nat)
    requires id < |groups|
  {
    |groups[id].sites| > siteLimit
  }

  /** The wanted relations in order, each with its first sites; `limited` when some relation has more. */
  ghost predicate PageOf(groups: seq<Builder>, wanted: seq<nat>, siteLimit: nat,
                         page: seq<(RelationKey, seq<CallId>)>, limited: bool)
  {
    Within(wanted, |groups|) && |page| == |wanted|
    && (forall i :: 0 <= i < |page| ==> page[i] == Entry(groups, wanted[i], siteLimit))
    && (limited <==> exists i :: 0 <= i < |wanted| && HasMore(groups, wanted[i], siteLimit))
  }
}
