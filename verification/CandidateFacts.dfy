/**
 What a call may mean, told from the facts about the call and the entities
 (call_catalog.rs 536-563, 602-676, 735-779; call_model.rs 159-169): which entities are
 its candidates, on which evidence, and which joins it contributes.
 */
module CandidateFacts {
  import opened Basics
  import opened Ordering
  import opened Calls
  import opened Relations

  // ---------------------------------------------------------------- candidates

  /** The argument count, when it is known, is neither below the minimum nor above the maximum. */
  predicate Fits(call: Call, signature: Signature) {
    call.argumentCount.Some? && signature.minArity.Some? ==>
      signature.minArity.value <= call.argumentCount.value
      && (signature.maxArity.Some? ==> call.argumentCount.value <= signature.maxArity.value)
  }

  predicate MayMean(call: Call, e: Entity) {
    var p := e.primary;
    call.form in {DirectName, QualifiedName, ParenthesizedName}
    && call.calleeName == Some(p.name)
    && p.kind == Function && !(p.hasOwner && p.ownerKind == Some(UnknownOwner))
    && (p.ownerKind == Some(Record) ==> call.form == QualifiedName)
    && (call.qualifiedName.Some? ==> call.qualifiedName.value == p.qualifiedName)
    && (p.linkage.Internal? ==> p.linkage.path == call.path)
    && Fits(call, p.signature)
  }

  lemma JudgedIff(call: Call, e: Entity)
    requires IsNameForm(call.form) && EligibleFreeFunction(e) && call.calleeName == Some(e.primary.name)
    ensures CandidateEvidence(call, e).Some? <==> MayMean(call, e)
  {
  }

  ghost predicate IsCandidate(r: seq<(EntityId, Evidence)>, id: EntityId) {
    exists i :: 0 <= i < |r| && r[i].0 == id
  }

  lemma CandidateOfBoth(a: seq<(EntityId, Evidence)>, b: seq<(EntityId, Evidence)>, id: EntityId)
    ensures IsCandidate(a + b, id) <==> IsCandidate(a, id) || IsCandidate(b, id)
  {
    if i :| 0 <= i < |a| && a[i].0 == id {
      assert (a + b)[i].0 == id;
    }
    if i :| 0 <= i < |b| && b[i].0 == id {
      assert (a + b)[i + |a|].0 == id;
    }
    if i :| 0 <= i < |a + b| && (a + b)[i].0 == id {
      assert i < |a| ==> a[i].0 == id;
      assert i >= |a| ==> b[i - |a|].0 == id;
    }
  }

  lemma {:induction false} AmongIff(entities: seq<Entity>, call: Call, ids: seq<EntityId>, id: EntityId)
    requires Within(ids, |entities|)
    ensures IsCandidate(CandidatesAmong(entities, call, ids), id)
       <==> id in ids && CandidateEvidence(call, entities[id]).Some?
  {
    if ids != [] {
      var evidence := CandidateEvidence(call, entities[ids[0]]);
      var first := if evidence.Some? then [(ids[0], evidence.value)] else [];
      AmongIff(entities, call, ids[1..], id);
      CandidateOfBoth(first, CandidatesAmong(entities, call, ids[1..]), id);
      assert ids == [ids[0]] + ids[1..];
      assert evidence.Some? ==> first[0].0 == ids[0];
    }
  }

  lemma NamedIff(entities: seq<Entity>, name: string, id: EntityId)
    ensures id in ByName(entities, name)
       <==> id < |entities| && EligibleFreeFunction(entities[id]) && entities[id].primary.name == name
  {
    var p := (e: Entity) => EligibleFreeFunction(e) && e.primary.name == name;
    var named := IdsWhere(entities, p, 0);
    assert Named(entities, name) == named;
    assert id in ByName(entities, name) <==> id in multiset(ByName(entities, name));
    assert id in named <==> id in multiset(named);
  }

  /** An entity is among the candidates of a call exactly when the call may mean it. */
  lemma CandidateIff(entities: seq<Entity>, call: Call, id: EntityId)
    ensures IsCandidate(Candidates(entities, call), id) <==> id < |entities| && MayMean(call, entities[id])
  {
    if IsNameForm(call.form) && call.calleeName.Some? {
      var name := call.calleeName.value;
      AmongIff(entities, call, ByName(entities, name), id);
      NamedIff(entities, name, id);
      if id in ByName(entities, name) {
        JudgedIff(call, entities[id]);
      }
    }
  }

  // ---------------------------------------------------------------- evidence

  predicate CountKnownToFit(call: Call, signature: Signature) {
    call.argumentCount.Some? && signature.minArity.Some? && (signature.maxArity.Some? || signature.variadic)
  }

  /** What speaks for a candidate; its name alone when nothing else does. */
  predicate Supports(call: Call, e: Entity, code: EvidenceCode) {
    match code
    case ExplicitQualifier => call.qualifiedName.Some?
    case SameFile => e.primary.path == call.path
    case InternalLinkage => e.primary.linkage.Internal?
    case CompatibleArity => CountKnownToFit(call, e.primary.signature)
    case NameOnly =>
      call.qualifiedName.None? && e.primary.path != call.path && !e.primary.linkage.Internal?
      && !CountKnownToFit(call, e.primary.signature)
    case _ => false
  }

  predicate Doubts(call: Call, e: Entity, code: EvidenceCode) {
    match code
    case CompatibleArity => call.argumentCount.Some? && !CountKnownToFit(call, e.primary.signature)
    case SyntaxErrorOverlap => call.syntaxErrorOverlap
    case ExternalBodyUnavailable =>
      e.primary.path != "" && e.primary.path[0] == '/' && forall a :: a in e.variants ==> !a.hasBody
    case _ => false
  }

  ghost predicate EvidenceIs(call: Call, e: Entity, evidence: Evidence) {
    forall code :: (code in evidence.supports <==> Supports(call, e, code))
                && (code in evidence.unknowns <==> Doubts(call, e, code))
  }

  lemma ArityJudged(call: Call, signature: Signature)
    requires call.argumentCount.Some?
    ensures AcceptsArity(signature, call.argumentCount.value).Some? && Fits(call, signature)
       <==> CountKnownToFit(call, signature) && Fits(call, signature)
    ensures AcceptsArity(signature, call.argumentCount.value) == Some(false) <==> !Fits(call, signature)
  {
  }

  lemma JudgedSupports(call: Call, e: Entity, code: EvidenceCode)
    requires CandidateEvidence(call, e).Some?
    ensures code in CandidateEvidence(call, e).value.supports <==> Supports(call, e, code)
  {
    if call.argumentCount.Some? {
      ArityJudged(call, e.primary.signature);
    }
  }

  lemma JudgedDoubts(call: Call, e: Entity, code: EvidenceCode)
    requires CandidateEvidence(call, e).Some?
    ensures code in CandidateEvidence(call, e).value.unknowns <==> Doubts(call, e, code)
  {
    if call.argumentCount.Some? {
      ArityJudged(call, e.primary.signature);
    }
  }

  lemma JudgedEvidence(call: Call, e: Entity, evidence: Evidence)
    requires CandidateEvidence(call, e) == Some(evidence)
    ensures EvidenceIs(call, e, evidence)
  {
    forall code ensures (code in evidence.supports <==> Supports(call, e, code))
                     && (code in evidence.unknowns <==> Doubts(call, e, code)) {
      JudgedSupports(call, e, code);
      JudgedDoubts(call, e, code);
    }
  }

  /** High for an explicit qualifier or internal linkage, else medium for the same file or a fitting count, else low. */
  function Trust(call: Call, e: Entity): Confidence {
    if call.qualifiedName.Some? || e.primary.linkage.Internal? then High
    else if e.primary.path == call.path || CountKnownToFit(call, e.primary.signature) then Medium
    else Low
  }

  /** Every candidate carries exactly the evidence that holds of it, and the confidence that follows. */
  lemma CandidateEvidenceIs(entities: seq<Entity>, call: Call)
    ensures var r := Candidates(entities, call);
      forall i :: 0 <= i < |r| ==>
        EvidenceIs(call, entities[r[i].0], r[i].1) && ConfidenceOf(r[i].1) == Trust(call, entities[r[i].0])
  {
    var r := Candidates(entities, call);
    forall i | 0 <= i < |r|
      ensures EvidenceIs(call, entities[r[i].0], r[i].1) && ConfidenceOf(r[i].1) == Trust(call, entities[r[i].0])
    {
      JudgedEvidence(call, entities[r[i].0], r[i].1);
      TrustFollows(call, entities[r[i].0], r[i].1);
    }
  }

  lemma TrustFollows(call: Call, e: Entity, evidence: Evidence)
    requires EvidenceIs(call, e, evidence)
    ensures ConfidenceOf(evidence) == Trust(call, e)
  {
    assert ExplicitQualifier in evidence.supports <==> Supports(call, e, ExplicitQualifier);
    assert InternalLinkage in evidence.supports <==> Supports(call, e, InternalLinkage);
    assert SameFile in evidence.supports <==> Supports(call, e, SameFile);
    assert CompatibleArity in evidence.supports <==> Supports(call, e, CompatibleArity);
  }

  // ---------------------------------------------------------------- joins

  /** `ids` are the entities the call may mean, each once, by entity key and then by id. */
  ghost predicate Meant(entities: seq<Entity>, call: Call, ids: seq<EntityId>) {
    (forall id: EntityId :: id in ids <==> id < |entities| && MayMean(call, entities[id])) && KeyOrdered(entities, ids)
  }

  ghost predicate KeyOrdered(entities: seq<Entity>, ids: seq<EntityId>) {
    forall i, j :: 0 <= i < j < |ids| ==> InKeyOrder(entities, ids[i], ids[j])
  }

  predicate InKeyOrder(entities: seq<Entity>, a: EntityId, b: EntityId) {
    a < |entities| && b < |entities|
    && (StringLt(entities[a].key, entities[b].key) || (entities[a].key == entities[b].key && a < b))
  }

  function IdsOf(r: seq<(EntityId, Evidence)>): (ids: seq<EntityId>) {
    seq(|r|, i requires 0 <= i < |r| => r[i].0)
  }

  lemma KeysOfIds(entities: seq<Entity>, a: EntityId, b: EntityId)
    requires a < |entities| && b < |entities|
    requires KeyLe(KeyOfId(entities)(a), KeyOfId(entities)(b))
    ensures StringLt(entities[a].key, entities[b].key) || entities[a].key == entities[b].key
    ensures entities[a].key == entities[b].key ==> KeyOfId(entities)(a) == KeyOfId(entities)(b)
  {
    StringLeReflexive(entities[a].key);
  }

  ghost predicate Rising(ids: seq<nat>) {
    forall i, j :: 0 <= i < j < |ids| ==> ids[i] < ids[j]
  }

  lemma SortedPair(named: seq<EntityId>, key: EntityId -> Key, i: nat, j: nat)
    requires Rising(named) && i < j < |StableSort(named, key)|
    ensures var ids := StableSort(named, key);
      KeyLe(key(ids[i]), key(ids[j])) && (key(ids[i]) == key(ids[j]) ==> ids[i] < ids[j])
  {
    StableSortFacts(named, key);
    var pick := StableSortArranges(named, key);
    assert key(named[pick[i]]) == key(named[pick[j]]) ==> pick[i] < pick[j];
  }

  lemma ByNameInOrder(entities: seq<Entity>, name: string, i: nat, j: nat)
    requires i < j < |ByName(entities, name)|
    ensures InKeyOrder(entities, ByName(entities, name)[i], ByName(entities, name)[j])
  {
    var ids, named, key := ByName(entities, name), Named(entities, name), KeyOfId(entities);
    SortedPair(named, key, i, j);
    KeysOfIds(entities, ids[i], ids[j]);
  }

  lemma KeyOrderedCons(entities: seq<Entity>, id: EntityId, ids: seq<EntityId>)
    requires KeyOrdered(entities, ids) && forall x :: x in ids ==> InKeyOrder(entities, id, x)
    ensures KeyOrdered(entities, [id] + ids)
  {
  }

  lemma IdsOfCons(first: seq<(EntityId, Evidence)>, rest: seq<(EntityId, Evidence)>)
    ensures IdsOf(first + rest) == IdsOf(first) + IdsOf(rest)
  {
  }

  lemma OneMoreInOrder(entities: seq<Entity>, ids: seq<EntityId>, first: seq<(EntityId, Evidence)>,
                       rest: seq<(EntityId, Evidence)>)
    requires ids != [] && KeyOrdered(entities, ids)
    requires first == [] || (|first| == 1 && first[0].0 == ids[0])
    requires KeyOrdered(entities, IdsOf(rest)) && forall x :: x in IdsOf(rest) ==> x in ids[1..]
    ensures KeyOrdered(entities, IdsOf(first + rest)) && forall x :: x in IdsOf(first + rest) ==> x in ids
  {
    IdsOfCons(first, rest);
    assert ids == [ids[0]] + ids[1..];
    if first == [] {
      assert first + rest == rest;
    } else {
      assert IdsOf(first) == [ids[0]];
      KeyOrderedCons(entities, ids[0], IdsOf(rest));
    }
  }

  /** Candidates keep the order of the ids they are taken from. */
  lemma {:induction false} AmongInOrder(entities: seq<Entity>, call: Call, ids: seq<EntityId>)
    requires Within(ids, |entities|) && KeyOrdered(entities, ids)
    ensures var kept := IdsOf(CandidatesAmong(entities, call, ids));
      KeyOrdered(entities, kept) && forall x :: x in kept ==> x in ids
  {
    if ids != [] {
      AmongInOrder(entities, call, ids[1..]);
      var evidence := CandidateEvidence(call, entities[ids[0]]);
      OneMoreInOrder(entities, ids, if evidence.Some? then [(ids[0], evidence.value)] else [],
                     CandidatesAmong(entities, call, ids[1..]));
    }
  }

  lemma CandidatesInOrder(entities: seq<Entity>, call: Call)
    ensures KeyOrdered(entities, IdsOf(Candidates(entities, call)))
  {
    if IsNameForm(call.form) && call.calleeName.Some? {
      var ids := ByName(entities, call.calleeName.value);
      forall i, j | 0 <= i < j < |ids| ensures InKeyOrder(entities, ids[i], ids[j]) {
        ByNameInOrder(entities, call.calleeName.value, i, j);
      }
      AmongInOrder(entities, call, ids);
    }
  }

  lemma IdsOfMembers(r: seq<(EntityId, Evidence)>, id: EntityId)
    ensures id in IdsOf(r) <==> IsCandidate(r, id)
  {
    if i :| 0 <= i < |r| && r[i].0 == id {
      assert IdsOf(r)[i] == id;
    }
    if id in IdsOf(r) {
      var i :| 0 <= i < |r| && IdsOf(r)[i] == id;
      assert r[i].0 == id;
    }
  }

  /** The ids of the candidates are the entities the call may mean, in order. */
  lemma CandidatesAreMeant(entities: seq<Entity>, call: Call)
    ensures Meant(entities, call, IdsOf(Candidates(entities, call)))
  {
    CandidatesInOrder(entities, call);
    forall id: EntityId
      ensures id in IdsOf(Candidates(entities, call)) <==> id < |entities| && MayMean(call, entities[id])
    {
      CandidateIff(entities, call, id);
      IdsOfMembers(Candidates(entities, call), id);
    }
  }

  /** The join of a call to an entity it may mean, of which there are `k`. */
  ghost predicate JoinsTo(entities: seq<Entity>, call: Call, caller: EntityId, site: CallId, k: nat, id: EntityId,
                          u: Use)
  {
    id < |entities| && u.site == site && EvidenceIs(call, entities[id], u.evidence)
    && u.key == (if k == 1 then RelationKey(caller, Some(id), Trust(call, entities[id]), None)
                 else RelationKey(caller, Some(id), Ambiguous, Some(site)))
  }

  lemma EachJoins(entities: seq<Entity>, call: Call, caller: EntityId, site: CallId, i: nat)
    requires i < |Candidates(entities, call)|
    ensures var r := Candidates(entities, call);
      JoinsTo(entities, call, caller, site, |r|, r[i].0, UsesFor(caller, site, call, r)[i])
  {
    CandidateEvidenceIs(entities, call);
  }

  lemma UnresolvedJoin(call: Call, caller: EntityId, site: CallId)
    ensures UsesFor(caller, site, call, [])
         == [Use(RelationKey(caller, None, Unresolved, None), site,
                 Evidence({}, {if call.form in {DirectName, QualifiedName, ParenthesizedName} then NameOnly
                               else UnsupportedCallForm}))]
  {
    assert {} + {NameOnly} == {NameOnly} && {} + {UnsupportedCallForm} == {UnsupportedCallForm};
  }

  /**
   What a call with a caller contributes: without an entity it may mean, one unresolved join;
   else one join to each such entity in order, ambiguous when there are several.
   */
  lemma JoinsExactly(entities: seq<Entity>, call: Call, site: CallId) returns (ids: seq<EntityId>)
    ensures Meant(entities, call, ids)
    ensures var uses, caller := UsesOf(entities, call, site), ResolveCaller(entities, call);
      (caller.None? ==> uses == [])
      && (caller.Some? && ids == [] ==>
            uses == [Use(RelationKey(caller.value, None, Unresolved, None), site,
                         Evidence({}, {if call.form in {DirectName, QualifiedName, ParenthesizedName} then NameOnly
                                       else UnsupportedCallForm}))])
      && (caller.Some? && ids != [] ==>
            |uses| == |ids|
            && forall i :: 0 <= i < |ids| ==> JoinsTo(entities, call, caller.value, site, |ids|, ids[i], uses[i]))
  {
    var r, caller := Candidates(entities, call), ResolveCaller(entities, call);
    ids := IdsOf(r);
    CandidatesAreMeant(entities, call);
    if caller.Some? {
      UnresolvedJoin(call, caller.value, site);
      forall i | 0 <= i < |ids| && ids != []
        ensures JoinsTo(entities, call, caller.value, site, |ids|, ids[i], UsesOf(entities, call, site)[i])
      {
        EachJoins(entities, call, caller.value, site, i);
      }
    }
  }

  /** A relation's evidence is all the evidence of its joins. */
  lemma {:induction false} EvidenceIsAll(uses: seq<Use>, key: RelationKey, code: EvidenceCode)
    ensures code in EvidenceFor(uses, key).supports
       <==> exists u :: u in uses && u.key == key && code in u.evidence.supports
    ensures code in EvidenceFor(uses, key).unknowns
       <==> exists u :: u in uses && u.key == key && code in u.evidence.unknowns
  {
    if uses != [] {
      EvidenceIsAll(uses[1..], key, code);
      assert uses == [uses[0]] + uses[1..];
    }
  }

  // ---------------------------------------------------------------- the caller

  predicate CarriesKey(e: Entity, raw: string) {
    exists a :: a in e.variants && a.entityKey == raw
  }

  predicate DefinesKey(e: Entity, raw: string, path: string) {
    exists a :: a in e.variants && a.entityKey == raw && a.path == path && a.role == Definition
  }

  ghost predicate SoleCarrier(entities: seq<Entity>, raw: string, e: nat) {
    e < |entities| && CarriesKey(entities[e], raw)
    && forall x: nat :: x < |entities| && CarriesKey(entities[x], raw) ==> x == e
  }

  ghost predicate SoleDefiner(entities: seq<Entity>, raw: string, path: string, e: nat) {
    e < |entities| && DefinesKey(entities[e], raw, path)
    && forall x: nat :: x < |entities| && DefinesKey(entities[x], raw, path) ==> x == e
  }

  lemma CarriesIff(e: Entity, raw: string)
    ensures Carries(raw)(e) <==> CarriesKey(e, raw)
  {
  }

  lemma DefinesIff(e: Entity, raw: string, path: string)
    ensures CarriesAndDefines(raw, path)(e) <==> DefinesKey(e, raw, path)
  {
  }

  lemma SoleCarrierIff(entities: seq<Entity>, raw: string, e: nat)
    ensures OnlyOne(entities, Carries(raw), e) <==> SoleCarrier(entities, raw, e)
  {
    forall x: nat | x < |entities| ensures Carries(raw)(entities[x]) <==> CarriesKey(entities[x], raw) {
      CarriesIff(entities[x], raw);
    }
  }

  lemma SoleDefinerIff(entities: seq<Entity>, raw: string, path: string, e: nat)
    ensures OnlyOne(entities, CarriesAndDefines(raw, path), e) <==> SoleDefiner(entities, raw, path, e)
  {
    forall x: nat | x < |entities|
      ensures CarriesAndDefines(raw, path)(entities[x]) <==> DefinesKey(entities[x], raw, path)
    {
      DefinesIff(entities[x], raw, path);
    }
  }

  /** The caller carries the call's raw key alone, or nobody does and it alone defines that key in the call's file. */
  lemma CallerIff(entities: seq<Entity>, call: Call, e: nat)
    ensures ResolveCaller(entities, call) == Some(e) <==>
      SoleCarrier(entities, call.callerKey, e)
      || ((forall x: nat :: !SoleCarrier(entities, call.callerKey, x))
          && SoleDefiner(entities, call.callerKey, call.path, e))
  {
    CallerIsUnique(entities, call, e);
    SoleDefinerIff(entities, call.callerKey, call.path, e);
    forall x: nat
      ensures OnlyOne(entities, Carries(call.callerKey), x) <==> SoleCarrier(entities, call.callerKey, x)
    {
      SoleCarrierIff(entities, call.callerKey, x);
    }
  }

  // ---------------------------------------------------------------- entities

  /** `a` goes before `b`: definitions first, then facts of the syntax tree, then by path and position. */
  predicate Precedes(a: Anchor, b: Anchor) {
    if (a.role == Definition) != (b.role == Definition) then a.role == Definition
    else if a.fromAst != b.fromAst then a.fromAst
    else if a.path != b.path then StringLt(a.path, b.path)
    else a.nameRange.0 < b.nameRange.0
  }

  lemma PrecedesIff(a: Anchor, b: Anchor)
    ensures KeyLe(PrimaryKey(a), PrimaryKey(b)) <==> !Precedes(b, a)
  {
    var s, t := PrimaryKey(a), PrimaryKey(b);
    var s1, t1 := s[1..], t[1..];
    var s2, t2 := s1[1..], t1[1..];
    var s3, t3 := s2[1..], t2[1..];
    assert s1[0] == Num(if a.fromAst then 0 else 1) && t1[0] == Num(if b.fromAst then 0 else 1);
    assert s2[0] == Text(a.path) && t2[0] == Text(b.path);
    assert s3[0] == Num(a.nameRange.0) && t3[0] == Num(b.nameRange.0);
    assert s3[1..] == [] && t3[1..] == [];
    assert KeyLe(s3, t3) <==> a.nameRange.0 <= b.nameRange.0;
    StringLeTotal(a.path, b.path);
    StringLeReflexive(a.path);
    assert KeyLe(s2, t2) <==> AtomLt(s2[0], t2[0]) || (s2[0] == t2[0] && KeyLe(s3, t3));
    assert KeyLe(s1, t1) <==> AtomLt(s1[0], t1[0]) || (s1[0] == t1[0] && KeyLe(s2, t2));
    assert KeyLe(s, t) <==> AtomLt(s[0], t[0]) || (s[0] == t[0] && KeyLe(s1, t1));
  }

  predicate SamePlace(a: Anchor, b: Anchor) {
    a.path == b.path && a.fingerprint == b.fingerprint && a.nameRange == b.nameRange
  }

  lemma {:induction false} DedupMembers(s: seq<Anchor>)
    ensures forall v :: v in DedupRuns(s) ==> v in s
    ensures forall a :: a in s ==> exists v :: v in DedupRuns(s) && SamePlace(v, a)
    decreases |s|
  {
    if |s| >= 2 {
      var rest := if SameAnchor(s[1], s[0]) then [s[0]] + s[2..] else s[1..];
      DedupMembers(rest);
      assert s == [s[0]] + s[1..] && s[1..] == [s[1]] + s[2..];
      assert s[0] in DedupRuns(s);
      forall a | a in s ensures exists v :: v in DedupRuns(s) && SamePlace(v, a) {
        if a == s[0] || (SameAnchor(s[1], s[0]) && a == s[1]) {
          assert SamePlace(s[0], a);
        } else {
          assert a in rest;
          var v :| v in DedupRuns(rest) && SamePlace(v, a);
          assert v in DedupRuns(s);
        }
      }
    } else {
      forall a | a in s ensures exists v :: v in DedupRuns(s) && SamePlace(v, a) {
        assert SamePlace(a, a);
      }
    }
  }

  ghost predicate NeighboursDiffer(s: seq<Anchor>) {
    forall i, j :: 0 <= i && j == i + 1 < |s| ==> !SamePlace(s[i], s[j])
  }

  lemma DifferingCons(a: Anchor, s: seq<Anchor>)
    requires NeighboursDiffer(s) && (s != [] ==> !SamePlace(a, s[0]))
    ensures NeighboursDiffer([a] + s)
  {
    var r := [a] + s;
    forall i, j | 0 <= i && j == i + 1 < |r| ensures !SamePlace(r[i], r[j]) {
      assert r[j] == s[i] && (i > 0 ==> r[i] == s[i - 1]);
    }
  }

  lemma {:induction false} DedupParts(s: seq<Anchor>)
    ensures NeighboursDiffer(DedupRuns(s))
    decreases |s|
  {
    if |s| >= 2 {
      if SameAnchor(s[1], s[0]) {
        DedupParts([s[0]] + s[2..]);
      } else {
        DedupParts(s[1..]);
        DifferingCons(s[0], DedupRuns(s[1..]));
      }
    }
  }

  lemma SortedGroup(group: seq<Anchor>)
    ensures Sorted(StableSort(group, PrimaryKey), PrimaryKey)
    ensures forall a :: a in StableSort(group, PrimaryKey) <==> a in group
  {
    StableSortFacts(group, PrimaryKey);
    SortKeepsMembers(group, PrimaryKey);
  }

  lemma NonePrecedesHead(s: seq<Anchor>, a: Anchor)
    requires s != [] && Sorted(s, PrimaryKey) && a in s
    ensures !Precedes(a, s[0])
  {
    var i :| 0 <= i < |s| && s[i] == a;
    if i > 0 {
      assert KeyLe(PrimaryKey(s[0]), PrimaryKey(s[i]));
      PrecedesIff(s[0], a);
    }
  }

  lemma DedupKeepsHead(group: seq<Anchor>)
    requires group != []
    ensures StableSort(group, PrimaryKey) != []
    ensures Variants(group)[0] == StableSort(group, PrimaryKey)[0]
    ensures Variants(group) == DedupRuns(StableSort(group, PrimaryKey))
  {
    SortedGroup(group);
    assert group[0] in StableSort(group, PrimaryKey);
  }

  /**
   An entity stands for its group: its variants are anchors of the group, each anchor of the
   group is at the place of one of them, neighbours stand at different places, and no anchor
   of the group precedes the primary one.
   */
  lemma EntityStandsForGroup(group: seq<Anchor>, key: string)
    requires group != []
    ensures var e := EntityOf(group, key);
      e.key == key && e.primary in group && (forall a :: a in group ==> !Precedes(a, e.primary))
      && (forall v :: v in e.variants ==> v in group)
      && (forall a :: a in group ==> exists v :: v in e.variants && SamePlace(v, a))
      && NeighboursDiffer(e.variants)
  {
    var sorted := StableSort(group, PrimaryKey);
    SortedGroup(group);
    DedupKeepsHead(group);
    DedupMembers(sorted);
    DedupParts(sorted);
    forall a | a in group ensures !Precedes(a, sorted[0]) {
      NonePrecedesHead(sorted, a);
    }
    assert sorted[0] in sorted;
  }
}
