/** The PBX plan: eight sorted lists of entities with identifiers of the form maximum plus one. */
module PBX {
  import opened GoStrings
  import opened Wrappers
  import Sorting

  type Time = int

  datatype Kind = ExtensionKind | TrunkKind | RouteKind | QueueKind | ConferenceKind | IVRKind | PromptKind | ProfileKind

  /** One datatype for the eight record types, which all travel through the same create and delete code. */
  datatype Entity =
    | Extension(id: int, createdAt: Time, updatedAt: Time, tenantID: int, organizationID: int, userID: int,
                number: string, displayName: string, technology: string, endpoint: string, voicemailEnabled: bool)
    | Trunk(id: int, createdAt: Time, updatedAt: Time, tenantID: int,
            name: string, technology: string, endpoint: string, active: bool)
    | Route(id: int, createdAt: Time, updatedAt: Time, tenantID: int,
            name: string, direction: string, pattern: string, destination: string)
    | Queue(id: int, createdAt: Time, updatedAt: Time, tenantID: int, organizationID: int,
            name: string, strategy: string, members: seq<string>)
    | Conference(id: int, createdAt: Time, updatedAt: Time, tenantID: int, organizationID: int, userID: int,
                 name: string, accessCode: string, recordingEnabled: bool)
    | IVR(id: int, createdAt: Time, updatedAt: Time, tenantID: int,
          name: string, rootPrompt: string, defaultDestination: string, timeoutSeconds: int)
    | PromptAssignment(id: int, createdAt: Time, updatedAt: Time, tenantID: int, organizationID: int,
                       name: string, promptName: string, targetKind: string, targetRef: string)
    | ProvisioningProfile(id: int, createdAt: Time, updatedAt: Time, tenantID: int,
                          name: string, technology: string, template: string, extensions: seq<string>)
  {
    function Kind(): Kind {
      match this
      case Extension(_, _, _, _, _, _, _, _, _, _, _) => ExtensionKind
      case Trunk(_, _, _, _, _, _, _, _) => TrunkKind
      case Route(_, _, _, _, _, _, _, _) => RouteKind
      case Queue(_, _, _, _, _, _, _, _) => QueueKind
      case Conference(_, _, _, _, _, _, _, _, _) => ConferenceKind
      case IVR(_, _, _, _, _, _, _, _) => IVRKind
      case PromptAssignment(_, _, _, _, _, _, _, _, _) => PromptKind
      case ProvisioningProfile(_, _, _, _, _, _, _, _) => ProfileKind
    }

    /** Extensions sort by number, everything else by name. */
    function Key(): string {
      if Extension? then number else name
    }

    /** The fields that must not be blank. */
    function RequiredFields(): seq<string> {
      match this
      case Extension(_, _, _, _, _, _, number, displayName, technology, _, _) => [number, displayName, technology]
      case Trunk(_, _, _, _, name, technology, endpoint, _) => [name, technology, endpoint]
      case Route(_, _, _, _, name, direction, _, destination) => [name, direction, destination]
      case Queue(_, _, _, _, _, name, _, _) => [name]
      case Conference(_, _, _, _, _, _, name, _, _) => [name]
      case IVR(_, _, _, _, name, _, defaultDestination, _) => [name, defaultDestination]
      case PromptAssignment(_, _, _, _, _, name, promptName, targetKind, targetRef) => [name, promptName, targetKind, targetRef]
      case ProvisioningProfile(_, _, _, _, name, technology, template, _) => [name, technology, template]
    }

    /** The stored form: text trimmed, technologies and kinds lowered, stamped with identifier and time. */
    function Stored(newID: int, now: Time): (r: Entity)
      ensures r.Kind() == Kind() && r.id == newID && r.createdAt == now && r.updatedAt == now
      ensures r.Key() == TrimSpace(Key())
    {
      match this
      case Extension(_, _, _, t, o, u, number, displayName, technology, endpoint, vm) =>
        Extension(newID, now, now, t, o, u, TrimSpace(number), TrimSpace(displayName), ToLower(TrimSpace(technology)),
                  TrimSpace(endpoint), vm)
      case Trunk(_, _, _, t, name, technology, endpoint, active) =>
        Trunk(newID, now, now, t, TrimSpace(name), ToLower(TrimSpace(technology)), TrimSpace(endpoint), active)
      case Route(_, _, _, t, name, direction, pattern, destination) =>
        Route(newID, now, now, t, TrimSpace(name), ToLower(TrimSpace(direction)), TrimSpace(pattern), TrimSpace(destination))
      case Queue(_, _, _, t, o, name, strategy, members) =>
        Queue(newID, now, now, t, o, TrimSpace(name), TrimSpace(strategy), members)
      case Conference(_, _, _, t, o, u, name, accessCode, recording) =>
        Conference(newID, now, now, t, o, u, TrimSpace(name), TrimSpace(accessCode), recording)
      case IVR(_, _, _, t, name, rootPrompt, destination, timeout) =>
        IVR(newID, now, now, t, TrimSpace(name), TrimSpace(rootPrompt), TrimSpace(destination), timeout)
      case PromptAssignment(_, _, _, t, o, name, promptName, targetKind, targetRef) =>
        PromptAssignment(newID, now, now, t, o, TrimSpace(name), TrimSpace(promptName),
                         ToLower(TrimSpace(targetKind)), TrimSpace(targetRef))
      case ProvisioningProfile(_, _, _, t, name, technology, template, extensions) =>
        ProvisioningProfile(newID, now, now, t, TrimSpace(name), ToLower(TrimSpace(technology)), TrimSpace(template), extensions)
    }
  }

  /** What a create keeps of its request: references, switches, lists and numbers as they are, text trimmed,
      and technology, direction and target kind lowered too. */
  lemma StoredIs(e: Entity, id: int, now: Time)
    ensures var s := e.Stored(id, now);
            && s.Kind() == e.Kind() && s.id == id && s.createdAt == s.updatedAt == now && s.tenantID == e.tenantID
            && (e.Extension? || e.Queue? || e.Conference? || e.PromptAssignment? ==> s.organizationID == e.organizationID)
            && (e.Extension? || e.Conference? ==> s.userID == e.userID)
            && (e.Extension? ==> s.number == TrimSpace(e.number) && s.displayName == TrimSpace(e.displayName))
            && (e.Extension? ==> s.voicemailEnabled == e.voicemailEnabled)
            && (!e.Extension? ==> s.name == TrimSpace(e.name))
            && (e.Extension? || e.Trunk? || e.ProvisioningProfile? ==> s.technology == ToLower(TrimSpace(e.technology)))
            && (e.Extension? || e.Trunk? ==> s.endpoint == TrimSpace(e.endpoint))
            && (e.Trunk? ==> s.active == e.active)
            && (e.Route? ==> s.direction == ToLower(TrimSpace(e.direction)) && s.pattern == TrimSpace(e.pattern))
            && (e.Route? ==> s.destination == TrimSpace(e.destination))
            && (e.Queue? ==> s.strategy == TrimSpace(e.strategy) && s.members == e.members)
            && (e.Conference? ==> s.accessCode == TrimSpace(e.accessCode) && s.recordingEnabled == e.recordingEnabled)
            && (e.IVR? ==> s.rootPrompt == TrimSpace(e.rootPrompt) && s.timeoutSeconds == e.timeoutSeconds)
            && (e.IVR? ==> s.defaultDestination == TrimSpace(e.defaultDestination))
            && (e.PromptAssignment? ==> s.promptName == TrimSpace(e.promptName) && s.targetKind == ToLower(TrimSpace(e.targetKind)))
            && (e.PromptAssignment? ==> s.targetRef == TrimSpace(e.targetRef))
            && (e.ProvisioningProfile? ==> s.template == TrimSpace(e.template) && s.extensions == e.extensions)
  {
    hide TrimSpace, ToLower;
  }

  /** Storing a stored entity again changes nothing, so every list already holds normal forms. */
  lemma StoredIsIdempotent(e: Entity, id: int, now: Time)
    ensures e.Stored(id, now).Stored(id, now) == e.Stored(id, now)
  {
    hide TrimSpace, ToLower;
    match e
    case Extension(_, _, _, _, _, _, _, _, technology, _, _) => LowerOfTrimmed(technology);
    case Trunk(_, _, _, _, _, technology, _, _) => LowerOfTrimmed(technology);
    case Route(_, _, _, _, _, direction, _, _) => LowerOfTrimmed(direction);
    case PromptAssignment(_, _, _, _, _, _, _, targetKind, _) => LowerOfTrimmed(targetKind);
    case ProvisioningProfile(_, _, _, _, _, technology, _, _) => LowerOfTrimmed(technology);
    case _ =>
  }

  /** The required fields of a stored entity are blank exactly where those of the request were. */
  lemma StoredKeepsRequired(e: Entity, id: int, now: Time, i: nat)
    requires i < |e.RequiredFields()|
    ensures |e.Stored(id, now).RequiredFields()| == |e.RequiredFields()|
    ensures e.Stored(id, now).RequiredFields()[i] == "" <==> TrimSpace(e.RequiredFields()[i]) == ""
  {
    hide TrimSpace, ToLower;
    LowerOfTrimmed(e.RequiredFields()[i]);
  }

  predicate KeyLess(a: Entity, b: Entity) { Less(a.Key(), b.Key()) }

  datatype PBXError = FieldRequired(index: nat) | NotFound

  datatype Plan = Plan(lists: map<Kind, seq<Entity>>, updatedAt: Time)
  {
    function Of(kind: Kind): seq<Entity> {
      if kind in lists then lists[kind] else []
    }
  }

  const EMPTY_PLAN := Plan(map[], 0)

  ghost predicate DistinctPositive(list: seq<Entity>) {
    && (forall i :: 0 <= i < |list| ==> list[i].id > 0)
    && (forall i, j :: 0 <= i < j < |list| ==> list[i].id != list[j].id)
  }

  ghost predicate OfKind(list: seq<Entity>, kind: Kind) {
    forall i :: 0 <= i < |list| ==> list[i].Kind() == kind
  }

  ghost predicate ListOK(list: seq<Entity>, kind: Kind) {
    DistinctPositive(list) && OfKind(list, kind) && Sorting.SortedBy(KeyLess, list)
  }

  ghost predicate PlanOK(plan: Plan) {
    forall kind: Kind :: ListOK(plan.Of(kind), kind)
  }

  /** In a stored plan extensions are in the order of their numbers and all other lists in that of their names. */
  lemma PlanOrder(plan: Plan, kind: Kind, i: nat, j: nat)
    requires PlanOK(plan) && i < j < |plan.Of(kind)|
    ensures var a, b := plan.Of(kind)[i], plan.Of(kind)[j];
            && (a.Extension? <==> kind == ExtensionKind) && (b.Extension? <==> kind == ExtensionKind)
            && (if kind == ExtensionKind then a.number == b.number || Less(a.number, b.number)
                else a.name == b.name || Less(a.name, b.name))
  {
    hide Less;
    var list := plan.Of(kind);
    assert ListOK(list, kind) && list[i].Kind() == list[j].Kind() == kind;
    LessTotal(list[i].Key(), list[j].Key());
  }

  /** A plan that still has to be sorted. */
  ghost predicate Unsorted(plan: Plan) {
    forall kind: Kind :: DistinctPositive(plan.Of(kind)) && OfKind(plan.Of(kind), kind)
  }

  ghost predicate SameEntities(a: Plan, b: Plan) {
    forall kind: Kind :: multiset(a.Of(kind)) == multiset(b.Of(kind))
  }

  /** `b` holds the entities of `a`, list by list, and one more. */
  ghost predicate Gains(a: Plan, b: Plan, e: Entity) {
    forall kind: Kind :: multiset(b.Of(kind)) == multiset(a.Of(kind)) + if kind == e.Kind() then multiset{e} else multiset{}
  }

  predicate MissingField(e: Entity) {
    exists i :: 0 <= i < |e.RequiredFields()| && TrimSpace(e.RequiredFields()[i]) == ""
  }

  /** The first required field that is blank. */
  predicate FirstBlankAt(e: Entity, i: nat) {
    && i < |e.RequiredFields()| && TrimSpace(e.RequiredFields()[i]) == ""
    && forall k :: 0 <= k < i ==> TrimSpace(e.RequiredFields()[k]) != ""
  }

  /** Which fields a create asks for, kind by kind. */
  lemma MissingFieldIff(e: Entity)
    ensures e.Extension? ==>
              (MissingField(e) <==> TrimSpace(e.number) == "" || TrimSpace(e.displayName) == "" || TrimSpace(e.technology) == "")
    ensures e.Trunk? ==>
              (MissingField(e) <==> TrimSpace(e.name) == "" || TrimSpace(e.technology) == "" || TrimSpace(e.endpoint) == "")
    ensures e.Route? ==>
              (MissingField(e) <==> TrimSpace(e.name) == "" || TrimSpace(e.direction) == "" || TrimSpace(e.destination) == "")
    ensures e.Queue? || e.Conference? ==> (MissingField(e) <==> TrimSpace(e.name) == "")
    ensures e.IVR? ==> (MissingField(e) <==> TrimSpace(e.name) == "" || TrimSpace(e.defaultDestination) == "")
    ensures e.PromptAssignment? ==>
              (MissingField(e) <==> || TrimSpace(e.name) == "" || TrimSpace(e.promptName) == ""
                                    || TrimSpace(e.targetKind) == "" || TrimSpace(e.targetRef) == "")
    ensures e.ProvisioningProfile? ==>
              (MissingField(e) <==> TrimSpace(e.name) == "" || TrimSpace(e.technology) == "" || TrimSpace(e.template) == "")
  {
    hide TrimSpace;
    var fields := e.RequiredFields();
    var n := |fields|;
    assert 1 <= n <= 4 && fields[0] == e.RequiredFields()[0];
    assert n > 1 ==> fields[1] == e.RequiredFields()[1];
    assert n > 2 ==> fields[2] == e.RequiredFields()[2];
    assert n > 3 ==> fields[3] == e.RequiredFields()[3];
  }

  datatype PlanCall = Create(entity: Entity, now: Time) | Delete(kind: Kind, id: int)

  /** What one uninterrupted call does to the plan. How a sort breaks ties is left open. */
  ghost predicate PlanStep(a: Plan, call: PlanCall, b: Plan) {
    PlanOK(b)
    && match call
       case Create(e, now) =>
         if MissingField(e) then b == a else Gains(a, b, e.Stored(MaxID(a.Of(e.Kind())) + 1, now))
       case Delete(kind, id) =>
         if forall e :: e in a.Of(kind) ==> e.id != id then b == a
         else exists e :: e in a.Of(kind) && e.id == id && Gains(b, a, e)
  }

  lemma KeyOrderIsWeak(all: multiset<Entity>)
    ensures Sorting.WeakOrderOn(KeyLess, all)
  {
    forall a: Entity, b: Entity | KeyLess(a, b) ensures !KeyLess(b, a) {
      LessIrreflexive(a.Key());
      if KeyLess(b, a) { LessTransitive(a.Key(), b.Key(), a.Key()); }
    }
    forall a: Entity, b: Entity, c: Entity | KeyLess(a, c) ensures KeyLess(a, b) || KeyLess(b, c) {
      LessTotal(a.Key(), b.Key());
      if Less(b.Key(), a.Key()) { LessTransitive(b.Key(), a.Key(), c.Key()); }
    }
  }

  lemma PermutationKeepsList(a: seq<Entity>, b: seq<Entity>, kind: Kind)
    requires DistinctPositive(a) && OfKind(a, kind) && multiset(a) == multiset(b)
    ensures DistinctPositive(b) && OfKind(b, kind)
  {
    Sorting.PermutationIsDistinct(a, b);
    forall i | 0 <= i < |b| ensures b[i] in a { assert b[i] in b; }
    forall i, j | 0 <= i < j < |b| ensures b[i].id != b[j].id {
      var x :| 0 <= x < |a| && a[x] == b[i];
      var y :| 0 <= y < |a| && a[y] == b[j];
      assert x != y;
    }
  }

  /** The largest identifier of a list, or 0. */
  function MaxID(list: seq<Entity>): (r: int)
    ensures r >= 0
    ensures forall i :: 0 <= i < |list| ==> list[i].id <= r
    ensures r == 0 || exists i :: 0 <= i < |list| && list[i].id == r
  {
    if list == [] then 0
    else
      var rest := MaxID(list[..|list| - 1]);
      if list[|list| - 1].id > rest then list[|list| - 1].id else rest
  }

  /** Deleting an entity lets the next create hand its identifier out again exactly when it was the
      largest and the one below it is still in use, or when it was the only entity and had number 1. */
  lemma IdentifierReusedIff(list: seq<Entity>, k: nat)
    requires DistinctPositive(list) && k < |list|
    ensures MaxID(list[..k] + list[k + 1..]) + 1 == list[k].id
            <==> (forall i :: 0 <= i < |list| ==> list[i].id <= list[k].id)
                 && (list[k].id == 1 || exists i :: 0 <= i < |list| && list[i].id == list[k].id - 1)
  {
    if MaxID(list[..k] + list[k + 1..]) + 1 == list[k].id { ReusedOnlyIf(list, k); }
    ReusedIf(list, k);
  }

  /** The smallest case: with one entity, numbered 1, a create after its delete hands out 1 again. */
  lemma IdentifierIsReused(e: Entity)
    requires e.id == 1
    ensures DistinctPositive([e]) && MaxID([e][..0] + [e][1..]) + 1 == [e][0].id
  {
    assert [e][..0] + [e][1..] == [];
  }

  lemma WithoutIndex(list: seq<Entity>, k: nat)
    requires k < |list|
    ensures var rest := list[..k] + list[k + 1..];
            && (forall i :: 0 <= i < |rest| ==> rest[i] == list[if i < k then i else i + 1])
            && (forall i :: 0 <= i < |list| && i != k ==> list[i] in rest)
  {
    var rest := list[..k] + list[k + 1..];
    forall i | 0 <= i < |list| && i != k ensures list[i] in rest { assert list[i] == rest[if i < k then i else i - 1]; }
  }

  lemma ReusedOnlyIf(list: seq<Entity>, k: nat)
    requires DistinctPositive(list) && k < |list|
    requires MaxID(list[..k] + list[k + 1..]) + 1 == list[k].id
    ensures forall i :: 0 <= i < |list| ==> list[i].id <= list[k].id
    ensures list[k].id == 1 || exists i :: 0 <= i < |list| && list[i].id == list[k].id - 1
  {
    WithoutIndex(list, k);
    var rest := list[..k] + list[k + 1..];
    if list[k].id != 1 {
      var i :| 0 <= i < |rest| && rest[i].id == MaxID(rest);
      assert list[if i < k then i else i + 1].id == list[k].id - 1;
    }
  }

  lemma ReusedIf(list: seq<Entity>, k: nat)
    requires DistinctPositive(list) && k < |list|
    ensures (forall i :: 0 <= i < |list| ==> list[i].id <= list[k].id)
            && (list[k].id == 1 || exists i :: 0 <= i < |list| && list[i].id == list[k].id - 1)
            ==> MaxID(list[..k] + list[k + 1..]) + 1 == list[k].id
  {
    WithoutIndex(list, k);
    var rest := list[..k] + list[k + 1..];
    forall i | 0 <= i < |rest| && (forall j :: 0 <= j < |list| ==> list[j].id <= list[k].id) ensures rest[i].id < list[k].id {}
  }

  const KINDS := [ExtensionKind, TrunkKind, RouteKind, QueueKind, ConferenceKind, IVRKind, PromptKind, ProfileKind]

  lemma EveryKindListed(kind: Kind)
    ensures exists i :: 0 <= i < |KINDS| && KINDS[i] == kind
  {
    match kind
    case ExtensionKind => assert KINDS[0] == kind;
    case TrunkKind => assert KINDS[1] == kind;
    case RouteKind => assert KINDS[2] == kind;
    case QueueKind => assert KINDS[3] == kind;
    case ConferenceKind => assert KINDS[4] == kind;
    case IVRKind => assert KINDS[5] == kind;
    case PromptKind => assert KINDS[6] == kind;
    case ProfileKind => assert KINDS[7] == kind;
  }

  ghost predicate SortedFrom(before: Plan, after: Plan, kind: Kind) {
    ListOK(after.Of(kind), kind) && multiset(after.Of(kind)) == multiset(before.Of(kind))
  }

  /** Puts each of the eight lists in order of its key; ties may come out in any order. */
  method SortPBXPlan(plan: Plan, updatedAt: Time) returns (sorted: Plan)
    requires Unsorted(plan)
    ensures PlanOK(sorted) && SameEntities(plan, sorted) && sorted.updatedAt == updatedAt
  {
    var lists: map<Kind, seq<Entity>> := map[];
    for k := 0 to |KINDS|
      invariant forall i :: 0 <= i < k ==> SortedFrom(plan, Plan(lists, updatedAt), KINDS[i])
      invariant forall i :: 0 <= i < k ==> KINDS[i] in lists
    {
      ghost var before := Plan(lists, updatedAt);
      var kind := KINDS[k];
      var list := SortList(plan.Of(kind), kind);
      lists := lists[kind := list];
      ghost var after := Plan(lists, updatedAt);
      forall i | 0 <= i <= k ensures SortedFrom(plan, after, KINDS[i]) {
        if KINDS[i] == kind { assert after.Of(kind) == list; } else { assert after.Of(KINDS[i]) == before.Of(KINDS[i]); }
      }
    }
    sorted := Plan(lists, updatedAt);
    forall kind: Kind ensures ListOK(sorted.Of(kind), kind) && multiset(plan.Of(kind)) == multiset(sorted.Of(kind)) {
      EveryKindListed(kind);
      var i :| 0 <= i < |KINDS| && KINDS[i] == kind;
      assert SortedFrom(plan, sorted, KINDS[i]);
    }
  }

  method SortList(list: seq<Entity>, ghost kind: Kind) returns (sorted: seq<Entity>)
    requires DistinctPositive(list) && OfKind(list, kind)
    ensures ListOK(sorted, kind) && multiset(sorted) == multiset(list)
  {
    sorted := Sorting.Sort(list, KeyLess);
    KeyOrderIsWeak(multiset(list));
    PermutationKeepsList(list, sorted, kind);
  }

  /** `nextIDFromInts`. */
  method NextID(list: seq<Entity>) returns (next: int)
    ensures next == MaxID(list) + 1
  {
    var maxID := 0;
    for index := 0 to |list|
      invariant maxID == MaxID(list[..index])
    {
      assert list[..index + 1][..index] == list[..index];
      if list[index].id > maxID {
        maxID := list[index].id;
      }
    }
    assert list[..|list|] == list;
    return maxID + 1;
  }

  /** `deleteFromSlice` with a test on the identifier: drops the first match only. */
  method DeleteFromSlice(list: seq<Entity>, id: int) returns (filtered: seq<Entity>, removed: bool)
    ensures removed <==> exists k :: 0 <= k < |list| && list[k].id == id
    ensures !removed ==> filtered == list
    ensures removed ==> exists k :: 0 <= k < |list| && list[k].id == id && filtered == list[..k] + list[k + 1..]
                                    && forall j :: 0 <= j < k ==> list[j].id != id
  {
    filtered, removed := [], false;
    ghost var at := 0;
    for index := 0 to |list|
      invariant !removed ==> filtered == list[..index] && forall k :: 0 <= k < index ==> list[k].id != id
      invariant removed ==> 0 <= at < index && list[at].id == id && filtered == list[..at] + list[at + 1..index]
      invariant removed ==> forall k :: 0 <= k < at ==> list[k].id != id
    {
      if !removed && list[index].id == id {
        removed := true;
        at := index;
      } else {
        filtered := filtered + [list[index]];
      }
    }
    assert removed ==> list[at + 1..|list|] == list[at + 1..];
  }

  /** The store stamps a plan that comes without a time. */
  function StampOf(now: Time, wall: Time): Time { if now == 0 then wall else now }

  class PBXStore {
    var pbxPlan: Plan

    constructor ()
      ensures pbxPlan == EMPTY_PLAN && PlanOK(pbxPlan)
    {
      pbxPlan := EMPTY_PLAN;
    }

    method SavePBXPlan(plan: Plan, wall: Time) returns (saved: Plan)
      requires Unsorted(plan)
      modifies this
      ensures pbxPlan == saved && PlanOK(saved) && SameEntities(plan, saved)
      ensures saved.updatedAt == if plan.updatedAt == 0 then wall else plan.updatedAt
    {
      saved := SortPBXPlan(plan, if plan.updatedAt == 0 then wall else plan.updatedAt);
      pbxPlan := saved;
    }
  }

  class PBXService {
    const store: PBXStore

    constructor (store: PBXStore)
      ensures this.store == store
    {
      this.store := store;
    }

    /** `savePlan`: stamps and sorts, then the store sorts again. */
    method SavePlan(plan: Plan, now: Time, wall: Time)
      requires Unsorted(plan)
      modifies store
      ensures PlanOK(store.pbxPlan) && SameEntities(plan, store.pbxPlan)
      ensures store.pbxPlan.updatedAt == StampOf(now, wall)
    {
      var sorted := SortPBXPlan(plan, now);
      assert Unsorted(sorted);
      var saved := store.SavePBXPlan(sorted, wall);
      forall kind: Kind ensures multiset(plan.Of(kind)) == multiset(saved.Of(kind)) {
        assert multiset(plan.Of(kind)) == multiset(sorted.Of(kind));
      }
    }

    /** The first required field that is blank, if any. */
    method FirstBlank(fields: seq<string>) returns (r: Option<nat>)
      ensures r.None? <==> forall i :: 0 <= i < |fields| ==> TrimSpace(fields[i]) != ""
      ensures r.Some? ==> r.value < |fields| && TrimSpace(fields[r.value]) == ""
      ensures r.Some? ==> forall i :: 0 <= i < r.value ==> TrimSpace(fields[i]) != ""
    {
      for i := 0 to |fields|
        invariant forall k :: 0 <= k < i ==> TrimSpace(fields[k]) != ""
      {
        if TrimSpace(fields[i]) == "" {
          return Some(i);
        }
      }
      return None;
    }

    method FirstMissing(entity: Entity) returns (r: Option<nat>)
      ensures r.Some? <==> MissingField(entity)
      ensures r.Some? ==> FirstBlankAt(entity, r.value)
    {
      hide TrimSpace;
      r := FirstBlank(entity.RequiredFields());
    }

    method GetEntity(kind: Kind, id: int) returns (r: Result<Entity, PBXError>)
      ensures r.Ok? ==> r.value in store.pbxPlan.Of(kind) && r.value.id == id
      ensures r.Err? ==> r == Err(NotFound) && forall e :: e in store.pbxPlan.Of(kind) ==> e.id != id
    {
      var list := store.pbxPlan.Of(kind);
      for index := 0 to |list|
        invariant forall k :: 0 <= k < index ==> list[k].id != id
      {
        if list[index].id == id {
          return Ok(list[index]);
        }
      }
      return Err(NotFound);
    }

    method Append(stored: Entity, kind: Kind, savedAt: Time, wall: Time)
      requires PlanOK(store.pbxPlan) && stored.Kind() == kind && stored.id == MaxID(store.pbxPlan.Of(kind)) + 1
      modifies store
      ensures PlanOK(store.pbxPlan) && Gains(old(store.pbxPlan), store.pbxPlan, stored)
      ensures store.pbxPlan.updatedAt == StampOf(savedAt, wall)
    {
      ghost var before := store.pbxPlan;
      var list := store.pbxPlan.Of(kind) + [stored];
      AppendKeepsList(before.Of(kind), stored, kind);
      var plan := WithList(store.pbxPlan, kind, list);
      assert Unsorted(plan);
      SavePlan(plan, savedAt, wall);
      GainFromPermutation(before, plan, store.pbxPlan, stored);
    }

    /** A create adds exactly the stored form of the entity, under a fresh positive identifier. `now` and `savedAt`
        are the two clock readings of the service, `wall` that of the store. */
    method CreateEntity(entity: Entity, now: Time, savedAt: Time, wall: Time) returns (r: Result<Entity, PBXError>)
      requires PlanOK(store.pbxPlan)
      modifies store
      ensures PlanStep(old(store.pbxPlan), Create(entity, now), store.pbxPlan)
      ensures r.Err? <==> MissingField(entity)
      ensures r.Err? ==> r.error.FieldRequired? && FirstBlankAt(entity, r.error.index)
      ensures r.Ok? ==> r.value == entity.Stored(MaxID(old(store.pbxPlan).Of(entity.Kind())) + 1, now)
      ensures r.Ok? ==> store.pbxPlan.updatedAt == StampOf(savedAt, wall)
    {
      hide MissingField, FirstBlankAt, Entity.Stored, Entity.Kind, Entity.RequiredFields, TrimSpace, PlanOK, Gains;
      var blank := FirstMissing(entity);
      if blank.Some? {
        return Err(FieldRequired(blank.value));
      }
      var stored := AppendNext(entity, now, savedAt, wall);
      return Ok(stored);
    }

    method AppendNext(entity: Entity, now: Time, savedAt: Time, wall: Time) returns (stored: Entity)
      requires PlanOK(store.pbxPlan)
      modifies store
      ensures stored == entity.Stored(MaxID(old(store.pbxPlan).Of(entity.Kind())) + 1, now)
      ensures PlanOK(store.pbxPlan) && Gains(old(store.pbxPlan), store.pbxPlan, stored)
      ensures store.pbxPlan.updatedAt == StampOf(savedAt, wall)
    {
      hide TrimSpace, Entity.Stored, Entity.Kind, PlanOK, Gains;
      var id := NextID(store.pbxPlan.Of(entity.Kind()));
      stored := entity.Stored(id, now);
      Append(stored, entity.Kind(), savedAt, wall);
    }

    /** A delete removes exactly the entity with the identifier. */
    method DeleteEntity(kind: Kind, id: int, now: Time, wall: Time) returns (r: Result<bool, PBXError>)
      requires PlanOK(store.pbxPlan)
      modifies store
      ensures PlanStep(old(store.pbxPlan), Delete(kind, id), store.pbxPlan)
      ensures r.Err? <==> forall e :: e in old(store.pbxPlan).Of(kind) ==> e.id != id
      ensures r.Err? ==> r == Err(NotFound)
      ensures r.Ok? ==> store.pbxPlan.updatedAt == StampOf(now, wall)
      ensures forall e :: e in store.pbxPlan.Of(kind) ==> e.id != id
    {
      assert ListOK(store.pbxPlan.Of(kind), kind);
      hide PlanOK, Gains, PlanStep;
      ghost var before := store.pbxPlan;
      var filtered, removed := DeleteFromSlice(store.pbxPlan.Of(kind), id);
      if !removed {
        NothingToDelete(before, kind, id);
        return Err(NotFound);
      }
      ghost var e := RemovedEntity(store.pbxPlan.Of(kind), filtered, id, kind);
      Remove(filtered, e, kind, now, wall);
      DeletesOne(before, store.pbxPlan, kind, id, e);
      return Ok(true);
    }

    method Remove(filtered: seq<Entity>, ghost e: Entity, kind: Kind, now: Time, wall: Time)
      requires PlanOK(store.pbxPlan) && DistinctPositive(filtered) && OfKind(filtered, kind)
      requires multiset(store.pbxPlan.Of(kind)) == multiset(filtered) + multiset{e} && e.Kind() == kind
      requires forall f :: f in filtered ==> f.id != e.id
      modifies store
      ensures PlanOK(store.pbxPlan) && Gains(store.pbxPlan, old(store.pbxPlan), e)
      ensures forall f :: f in store.pbxPlan.Of(kind) ==> f.id != e.id
      ensures store.pbxPlan.updatedAt == StampOf(now, wall)
    {
      SavePlan(WithList(store.pbxPlan, kind, filtered), now, wall);
      SameElements(filtered, store.pbxPlan.Of(kind));
    }
  }

  lemma NothingToDelete(a: Plan, kind: Kind, id: int)
    requires PlanOK(a) && !exists k :: 0 <= k < |a.Of(kind)| && a.Of(kind)[k].id == id
    ensures PlanStep(a, Delete(kind, id), a) && forall e :: e in a.Of(kind) ==> e.id != id
  {
    hide PlanOK;
  }

  lemma DeletesOne(a: Plan, b: Plan, kind: Kind, id: int, e: Entity)
    requires PlanOK(b) && Gains(b, a, e) && e in a.Of(kind) && e.id == id
    ensures PlanStep(a, Delete(kind, id), b)
  {
    hide PlanOK, Gains;
  }

  function WithList(plan: Plan, kind: Kind, list: seq<Entity>): (r: Plan)
    ensures forall k: Kind :: r.Of(k) == if k == kind then list else plan.Of(k)
  {
    plan.(lists := plan.lists[kind := list])
  }

  lemma AppendKeepsList(list: seq<Entity>, stored: Entity, kind: Kind)
    requires DistinctPositive(list) && OfKind(list, kind) && stored.Kind() == kind && stored.id == MaxID(list) + 1
    ensures DistinctPositive(list + [stored]) && OfKind(list + [stored], kind)
    ensures multiset(list + [stored]) == multiset(list) + multiset{stored}
  {
  }

  /** After a create, the only entity a get can return for the new identifier is the created one. */
  lemma CreatedIsFound(a: Plan, b: Plan, e: Entity, got: Entity)
    requires PlanOK(b) && Gains(a, b, e)
    requires got in b.Of(e.Kind()) && got.id == e.id
    ensures got == e
  {
    var list := b.Of(e.Kind());
    assert e in multiset(list);
    assert ListOK(list, e.Kind());
    var x :| 0 <= x < |list| && list[x] == e;
    var y :| 0 <= y < |list| && list[y] == got;
  }

  lemma GainFromPermutation(a: Plan, plan: Plan, b: Plan, e: Entity)
    requires Gains(a, plan, e) && SameEntities(plan, b)
    ensures Gains(a, b, e)
  {
    forall kind: Kind
      ensures multiset(b.Of(kind)) == multiset(a.Of(kind)) + if kind == e.Kind() then multiset{e} else multiset{}
    {
      assert multiset(plan.Of(kind)) == multiset(b.Of(kind));
    }
  }

  /** What `DeleteFromSlice` took out of a list with distinct identifiers. */
  lemma RemovedEntity(list: seq<Entity>, filtered: seq<Entity>, id: int, kind: Kind) returns (e: Entity)
    requires DistinctPositive(list) && OfKind(list, kind)
    requires exists k :: 0 <= k < |list| && list[k].id == id && filtered == list[..k] + list[k + 1..]
    ensures e in list && e.id == id && e.Kind() == kind && multiset(list) == multiset(filtered) + multiset{e}
    ensures DistinctPositive(filtered) && OfKind(filtered, kind)
    ensures forall f :: f in filtered ==> f.id != id
  {
    var k :| 0 <= k < |list| && list[k].id == id && filtered == list[..k] + list[k + 1..];
    e := list[k];
    WithoutOne(list, k);
    RemainderKeepsList(list, k, kind);
  }

  lemma SameElements(a: seq<Entity>, b: seq<Entity>)
    requires multiset(a) == multiset(b)
    ensures forall e :: e in a <==> e in b
  {
    forall e ensures e in a <==> e in b { assert e in multiset(a) <==> e in multiset(b); }
  }

  lemma WithoutOne(list: seq<Entity>, k: nat)
    requires k < |list|
    ensures multiset(list) == multiset(list[..k] + list[k + 1..]) + multiset{list[k]}
  {
    assert list == list[..k] + [list[k]] + list[k + 1..];
  }

  lemma RemainderKeepsList(list: seq<Entity>, k: nat, kind: Kind)
    requires DistinctPositive(list) && OfKind(list, kind) && k < |list|
    ensures var rest := list[..k] + list[k + 1..];
            DistinctPositive(rest) && OfKind(rest, kind) && forall f :: f in rest ==> f.id != list[k].id
  {
    var rest := list[..k] + list[k + 1..];
    forall i | 0 <= i < |rest| ensures rest[i] == list[if i < k then i else i + 1] {}
  }
}
