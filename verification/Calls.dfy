/**
 Callables, call sites and how one call is resolved (call_catalog.rs 177-247,
 536-563, 602-676, 735-779; call_model.rs 159-169). Grouping anchors into entities
 is an input: a sequence of non-empty groups, each with one name.
 */
module Calls {
  import opened Basics
  import opened Ordering

  type EntityId = nat
  type CallId = nat

  datatype CallableKind = Function | SyntheticGlobalInitializer | SyntheticLambda | FunctionLikeMacro

  datatype Role = Declaration | Definition | Synthetic

  datatype OwnerKind = Namespace | Record | UnknownOwner

  datatype Linkage = External | Internal(path: string) | Package(package: string) | UnknownLinkage

  datatype Signature = Signature(minArity: Option<nat>, maxArity: Option<nat>, variadic: bool)

  datatype Anchor = Anchor(
    path: string, name: string, qualifiedName: string, hasOwner: bool, ownerKind: Option<OwnerKind>,
    kind: CallableKind, role: Role, linkage: Linkage, signature: Signature,
    nameRange: (nat, nat), hasBody: bool, fromAst: bool, entityKey: string, fingerprint: string)

  datatype Entity = Entity(key: string, primary: Anchor, variants: seq<Anchor>)

  datatype CallForm =
    | DirectName | QualifiedName | ParenthesizedName | MemberDot | MemberArrow | StaticMember
    | FunctionPointer | CallableObject | ExplicitConstruction | Unsupported

  datatype Call = Call(
    path: string, callerKey: string, calleeName: Option<string>, qualifiedName: Option<string>,
    form: CallForm, argumentCount: Option<nat>, syntaxErrorOverlap: bool)

  datatype EvidenceCode =
    | SameFile | InternalLinkage | ExplicitQualifier | CompatibleArity | NameOnly
    | SyntaxErrorOverlap | UnsupportedCallForm | ExternalBodyUnavailable

  /** The two bit masks a call can set. */
  datatype Evidence = Evidence(supports: set<EvidenceCode>, unknowns: set<EvidenceCode>)

  const NO_EVIDENCE := Evidence({}, {})

  datatype Confidence = High | Medium | Low | Ambiguous | Unresolved

  // ---------------------------------------------------------------- entities

  /** Definitions first, then AST facts, then by path and position. */
  function PrimaryKey(a: Anchor): Key {
    [Num(if a.role == Definition then 0 else 1), Num(if a.fromAst then 0 else 1), Text(a.path), Num(a.nameRange.0)]
  }

  predicate SameAnchor(a: Anchor, b: Anchor) {
    a.path == b.path && a.fingerprint == b.fingerprint && a.nameRange == b.nameRange
  }

  /** `dedup_by`: of each run of equal neighbours only the first stays. */
  function DedupRuns(s: seq<Anchor>): (r: seq<Anchor>)
    ensures s != [] ==> r != [] && r[0] == s[0]
    decreases |s|
  {
    if |s| < 2 then s
    else if SameAnchor(s[1], s[0]) then DedupRuns([s[0]] + s[2..])
    else [s[0]] + DedupRuns(s[1..])
  }

  function Variants(group: seq<Anchor>): (r: seq<Anchor>)
    requires group != []
    ensures r != []
  {
    StableSortFacts(group, PrimaryKey);
    DedupRuns(StableSort(group, PrimaryKey))
  }

  function EntityOf(group: seq<Anchor>, key: string): Entity
    requires group != []
  {
    Entity(key, Variants(group)[0], Variants(group))
  }

  function RawKeys(e: Entity): set<string> { set a | a in e.variants :: a.entityKey }

  predicate EligibleFreeFunction(e: Entity) {
    e.primary.kind == Function && !(e.primary.hasOwner && e.primary.ownerKind == Some(UnknownOwner))
  }

  /** The ids from `from` on whose entity satisfies `p`, in order. */
  function IdsWhere(entities: seq<Entity>, p: Entity -> bool, from: nat): (ids: seq<EntityId>)
    requires from <= |entities|
    ensures forall i :: 0 <= i < |ids| ==> from <= ids[i] < |entities| && p(entities[ids[i]])
    ensures forall i, j :: 0 <= i < j < |ids| ==> ids[i] < ids[j]
    ensures forall e: nat :: from <= e < |entities| && p(entities[e]) ==> e in ids
    decreases |entities| - from
  {
    if from == |entities| then []
    else (if p(entities[from]) then [from] else []) + IdsWhere(entities, p, from + 1)
  }

  function ByRawKey(entities: seq<Entity>, raw: string): (ids: seq<EntityId>)
    ensures forall i :: 0 <= i < |ids| ==> ids[i] < |entities| && raw in RawKeys(entities[ids[i]])
    ensures forall e: nat :: e < |entities| && raw in RawKeys(entities[e]) ==> e in ids
    ensures forall i, j :: 0 <= i < j < |ids| ==> ids[i] < ids[j]
  {
    IdsWhere(entities, Carries(raw), 0)
  }

  function Named(entities: seq<Entity>, name: string): (ids: seq<EntityId>)
    ensures forall i :: 0 <= i < |ids| ==> ids[i] < |entities| && entities[ids[i]].primary.name == name
    ensures forall i, j :: 0 <= i < j < |ids| ==> ids[i] < ids[j]
  {
    IdsWhere(entities, e => EligibleFreeFunction(e) && e.primary.name == name, 0)
  }

  function KeyOfId(entities: seq<Entity>): EntityId -> Key {
    (id: EntityId) => if id < |entities| then [Text(entities[id].key)] else []
  }

  ghost predicate Within(ids: seq<EntityId>, n: nat) {
    forall i :: 0 <= i < |ids| ==> ids[i] < n
  }

  /** The name index: the eligible entities of that name, ordered by entity key. */
  function ByName(entities: seq<Entity>, name: string): (ids: seq<EntityId>)
    ensures multiset(ids) == multiset(Named(entities, name))
    ensures Within(ids, |entities|)
  {
    var named := Named(entities, name);
    var ids := StableSort(named, KeyOfId(entities));
    StableSortFacts(named, KeyOfId(entities));
    assert forall i :: 0 <= i < |ids| ==> ids[i] in multiset(ids) && ids[i] in named;
    ids
  }

  lemma ByNameLength(entities: seq<Entity>, name: string)
    ensures |ByName(entities, name)| == |Named(entities, name)|
  {
    assert |ByName(entities, name)| == |multiset(ByName(entities, name))| == |multiset(Named(entities, name))|;
  }

  // ---------------------------------------------------------------- one call

  predicate DefinesKeyIn(e: Entity, raw: string, path: string) {
    exists a :: a in e.variants && a.entityKey == raw && a.path == path && a.role == Definition
  }

  /** The caller: the only entity with the raw key, else the only one that defines it in the call's file. */
  function ResolveCaller(entities: seq<Entity>, call: Call): (r: Option<EntityId>)
    ensures r.Some? ==> r.value < |entities|
  {
    var candidates := ByRawKey(entities, call.callerKey);
    if |candidates| == 1 then Some(candidates[0])
    else
      var exact := IdsWhere(entities, CarriesAndDefines(call.callerKey, call.path), 0);
      if |exact| == 1 then Some(exact[0]) else None
  }

  /** `e` is the only entity with that property. */
  predicate OnlyOne(entities: seq<Entity>, p: Entity -> bool, e: nat) {
    e < |entities| && p(entities[e]) && forall x: nat :: x < |entities| && p(entities[x]) ==> x == e
  }

  lemma Spread(ids: seq<nat>)
    requires forall i, j :: 0 <= i < j < |ids| ==> ids[i] < ids[j]
    ensures |ids| > 1 ==> ids[0] != ids[1]
  {
  }

  lemma OnlyOneIsListed(entities: seq<Entity>, p: Entity -> bool, e: nat)
    requires OnlyOne(entities, p, e)
    ensures IdsWhere(entities, p, 0) == [e]
  {
    var ids := IdsWhere(entities, p, 0);
    Spread(ids);
    assert e in ids && forall i :: 0 <= i < |ids| ==> ids[i] == e;
  }

  lemma ListedIsOnlyOne(entities: seq<Entity>, p: Entity -> bool, e: nat)
    requires IdsWhere(entities, p, 0) == [e]
    ensures OnlyOne(entities, p, e)
  {
    var ids := IdsWhere(entities, p, 0);
    assert ids[0] == e;
    assert forall x: nat :: x < |entities| && p(entities[x]) ==> x in ids;
  }

  lemma OneIdWhere(entities: seq<Entity>, p: Entity -> bool, e: nat)
    ensures IdsWhere(entities, p, 0) == [e] <==> OnlyOne(entities, p, e)
  {
    if OnlyOne(entities, p, e) {
      OnlyOneIsListed(entities, p, e);
    }
    if IdsWhere(entities, p, 0) == [e] {
      ListedIsOnlyOne(entities, p, e);
    }
  }

  function Carries(raw: string): Entity -> bool { (e: Entity) => raw in RawKeys(e) }

  function CarriesAndDefines(raw: string, path: string): Entity -> bool {
    (e: Entity) => raw in RawKeys(e) && DefinesKeyIn(e, raw, path)
  }

  /**
   The caller is the entity that alone carries the call's raw key; when no entity does so
   alone, the one that alone defines that key in the call's file; else there is none.
   */
  lemma CallerIsUnique(entities: seq<Entity>, call: Call, e: nat)
    ensures ResolveCaller(entities, call) == Some(e) <==>
      OnlyOne(entities, Carries(call.callerKey), e)
      || ((forall x: nat :: !OnlyOne(entities, Carries(call.callerKey), x))
          && OnlyOne(entities, CarriesAndDefines(call.callerKey, call.path), e))
  {
    var all := IdsWhere(entities, Carries(call.callerKey), 0);
    var exact := IdsWhere(entities, CarriesAndDefines(call.callerKey, call.path), 0);
    forall x: nat ensures all == [x] <==> OnlyOne(entities, Carries(call.callerKey), x) {
      OneIdWhere(entities, Carries(call.callerKey), x);
    }
    OneIdWhere(entities, CarriesAndDefines(call.callerKey, call.path), e);
    assert |all| == 1 ==> all == [all[0]];
    assert |exact| == 1 ==> exact == [exact[0]];
  }

  predicate IsNameForm(form: CallForm) { form.DirectName? || form.QualifiedName? || form.ParenthesizedName? }

  function AcceptsArity(s: Signature, arity: nat): Option<bool> {
    if s.minArity.None? then None
    else if arity < s.minArity.value then Some(false)
    else if s.maxArity.Some? then Some(arity <= s.maxArity.value)
    else if s.variadic then Some(true)
    else None
  }

  function Support(e: Evidence, code: EvidenceCode): Evidence { e.(supports := e.supports + {code}) }

  function Doubt(e: Evidence, code: EvidenceCode): Evidence { e.(unknowns := e.unknowns + {code}) }

  function Merge(a: Evidence, b: Evidence): Evidence {
    Evidence(a.supports + b.supports, a.unknowns + b.unknowns)
  }

  predicate IsAbsolute(path: string) { path != "" && path[0] == '/' }

  predicate Bodyless(e: Entity) { forall a :: a in e.variants ==> !a.hasBody }

  /** Whether an entity of the called name is a candidate, and on which evidence. */
  function CandidateEvidence(call: Call, e: Entity): Option<Evidence> {
    if !call.form.QualifiedName? && e.primary.ownerKind == Some(Record) then None
    else if call.qualifiedName.Some? && call.qualifiedName.value != e.primary.qualifiedName then None
    else if e.primary.linkage.Internal? && e.primary.linkage.path != call.path then None
    else if call.argumentCount.Some? && AcceptsArity(e.primary.signature, call.argumentCount.value) == Some(false)
    then None
    else
      var named := if call.qualifiedName.Some? then Support(NO_EVIDENCE, ExplicitQualifier) else NO_EVIDENCE;
      var placed := if e.primary.path == call.path then Support(named, SameFile) else named;
      var linked := if e.primary.linkage.Internal? then Support(placed, InternalLinkage) else placed;
      var counted :=
        if call.argumentCount.None? then linked
        else if AcceptsArity(e.primary.signature, call.argumentCount.value).Some? then Support(linked, CompatibleArity)
        else Doubt(linked, CompatibleArity);
      var parsed := if call.syntaxErrorOverlap then Doubt(counted, SyntaxErrorOverlap) else counted;
      var bodied :=
        if IsAbsolute(e.primary.path) && Bodyless(e) then Doubt(parsed, ExternalBodyUnavailable) else parsed;
      Some(if bodied.supports == {} then Support(bodied, NameOnly) else bodied)
  }

  /** The candidates among `ids`, in that order. */
  function CandidatesAmong(entities: seq<Entity>, call: Call, ids: seq<EntityId>): (r: seq<(EntityId, Evidence)>)
    requires Within(ids, |entities|)
    ensures |r| <= |ids|
    ensures forall i :: 0 <= i < |r| ==>
      r[i].0 in ids && r[i].0 < |entities| && CandidateEvidence(call, entities[r[i].0]) == Some(r[i].1)
  {
    if ids == [] then []
    else
      var evidence := CandidateEvidence(call, entities[ids[0]]);
      (if evidence.Some? then [(ids[0], evidence.value)] else []) + CandidatesAmong(entities, call, ids[1..])
  }

  function Candidates(entities: seq<Entity>, call: Call): (r: seq<(EntityId, Evidence)>)
    ensures forall i :: 0 <= i < |r| ==>
      r[i].0 < |entities| && CandidateEvidence(call, entities[r[i].0]) == Some(r[i].1)
  {
    if !IsNameForm(call.form) || call.calleeName.None? then []
    else CandidatesAmong(entities, call, ByName(entities, call.calleeName.value))
  }

  function ConfidenceOf(e: Evidence): Confidence {
    if ExplicitQualifier in e.supports || InternalLinkage in e.supports then High
    else if SameFile in e.supports || CompatibleArity in e.supports then Medium
    else Low
  }

  function UnresolvedEvidence(call: Call): Evidence {
    Doubt(NO_EVIDENCE, if IsNameForm(call.form) then NameOnly else UnsupportedCallForm)
  }

  // ---------------------------------------------------------------- candidates are distinct

  ghost predicate Distinct<T>(s: seq<T>) {
    forall i, j :: 0 <= i < j < |s| ==> s[i] != s[j]
  }

  lemma {:induction false} DistinctCounts<T>(s: seq<T>, x: T)
    requires Distinct(s)
    ensures multiset(s)[x] == if x in s then 1 else 0
  {
    if s != [] {
      assert s == [s[0]] + s[1..];
      assert Distinct(s[1..]);
      DistinctCounts(s[1..], x);
    }
  }

  lemma {:induction false} CountsDistinct<T>(s: seq<T>)
    requires forall x :: multiset(s)[x] <= 1
    ensures Distinct(s)
  {
    if s != [] {
      assert s == [s[0]] + s[1..];
      forall x ensures multiset(s[1..])[x] <= 1 {
        assert multiset(s)[x] <= 1;
      }
      CountsDistinct(s[1..]);
      assert multiset(s)[s[0]] <= 1;
      assert s[0] !in s[1..];
    }
  }

  lemma SameElementsDistinct<T>(s: seq<T>, t: seq<T>)
    requires Distinct(s) && multiset(t) == multiset(s)
    ensures Distinct(t)
  {
    forall x ensures multiset(t)[x] <= 1 {
      DistinctCounts(s, x);
    }
    CountsDistinct(t);
  }

  lemma {:induction false} CandidatesAreDistinct(entities: seq<Entity>, call: Call, ids: seq<EntityId>)
    requires Within(ids, |entities|) && Distinct(ids)
    ensures DistinctIds(CandidatesAmong(entities, call, ids))
  {
    if ids != [] {
      CandidatesAreDistinct(entities, call, ids[1..]);
      assert ids[0] !in ids[1..];
    }
  }

  ghost predicate DistinctIds(r: seq<(EntityId, Evidence)>) {
    forall i, j :: 0 <= i < j < |r| ==> r[i].0 != r[j].0
  }

  /** A call has at most one candidacy per entity, and no more candidates than its name has entities. */
  lemma CandidatesFacts(entities: seq<Entity>, call: Call)
    ensures var r := Candidates(entities, call);
      DistinctIds(r)
      && (r != [] ==> call.calleeName.Some? && |r| <= |Named(entities, call.calleeName.value)|)
  {
    if IsNameForm(call.form) && call.calleeName.Some? {
      var name := call.calleeName.value;
      SameElementsDistinct(Named(entities, name), ByName(entities, name));
      CandidatesAreDistinct(entities, call, ByName(entities, name));
      ByNameLength(entities, name);
    }
  }
}
