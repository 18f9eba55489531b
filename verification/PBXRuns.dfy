/** Whole runs of PBX calls: what a plan holds is what was created and not deleted. */
module PBXRuns {
  import opened PBX

  /** A run of uninterrupted calls from the empty plan, with the plan before and after each. */
  ghost predicate PlanRun(plans: seq<Plan>, calls: seq<PlanCall>) {
    && |plans| == |calls| + 1 && plans[0] == EMPTY_PLAN
    && forall i, next :: 0 <= i < |calls| && next == i + 1 ==> PlanStep(plans[i], calls[i], plans[next])
  }

  /** The entity with this identifier, as a list of none or one. */
  function WithID(list: seq<Entity>, id: int): seq<Entity> {
    if list == [] then [] else if list[0].id == id then [list[0]] else WithID(list[1..], id)
  }

  lemma {:induction false} WithIDFinds(list: seq<Entity>, id: int, e: Entity)
    requires DistinctPositive(list) && e in list && e.id == id
    ensures WithID(list, id) == [e]
  {
    if list[0].id != id {
      assert e in list[1..];
      WithIDFinds(list[1..], id, e);
    }
  }

  lemma {:induction false} WithIDMisses(list: seq<Entity>, id: int)
    requires forall e :: e in list ==> e.id != id
    ensures WithID(list, id) == []
  {
    if list != [] { WithIDMisses(list[1..], id); }
  }

  /** What a call adds to a list of the plan it finds. */
  function Created(plan: Plan, call: PlanCall, kind: Kind): multiset<Entity> {
    if call.Create? && call.entity.Kind() == kind && !MissingField(call.entity)
    then multiset{call.entity.Stored(MaxID(plan.Of(kind)) + 1, call.now)}
    else multiset{}
  }

  /** What a call takes out of a list of the plan it finds. */
  function Deleted(plan: Plan, call: PlanCall, kind: Kind): multiset<Entity> {
    if call.Delete? && call.kind == kind then multiset(WithID(plan.Of(kind), call.id)) else multiset{}
  }

  function AllCreated(plans: seq<Plan>, calls: seq<PlanCall>, kind: Kind): multiset<Entity>
    requires |plans| >= |calls|
  {
    if calls == [] then multiset{}
    else
      var n := |calls| - 1;
      AllCreated(plans, calls[..n], kind) + Created(plans[n], calls[n], kind)
  }

  function AllDeleted(plans: seq<Plan>, calls: seq<PlanCall>, kind: Kind): multiset<Entity>
    requires |plans| >= |calls|
  {
    if calls == [] then multiset{}
    else
      var n := |calls| - 1;
      AllDeleted(plans, calls[..n], kind) + Deleted(plans[n], calls[n], kind)
  }

  /** The stored form of an entity, under the identifier that comes next in this plan. */
  function StoredBy(plan: Plan, entity: Entity, now: Time): Entity {
    entity.Stored(MaxID(plan.Of(entity.Kind())) + 1, now)
  }

  lemma CreatedIs(plan: Plan, e: Entity, now: Time, kind: Kind)
    ensures Created(plan, Create(e, now), kind)
            == if e.Kind() == kind && !MissingField(e) then multiset{StoredBy(plan, e, now)} else multiset{}
    ensures StoredBy(plan, e, now).Kind() == e.Kind()
  {
    hide MissingField, Entity.Stored, Entity.Kind, MaxID;
  }

  lemma GainsAt(a: Plan, b: Plan, e: Entity, kind: Kind)
    requires Gains(a, b, e)
    ensures multiset(b.Of(kind)) == multiset(a.Of(kind)) + if kind == e.Kind() then multiset{e} else multiset{}
  {
    hide Entity.Kind;
  }

  lemma CreateBalances(a: Plan, e: Entity, now: Time, b: Plan, kind: Kind)
    requires PlanStep(a, Create(e, now), b)
    ensures multiset(b.Of(kind)) == multiset(a.Of(kind)) + Created(a, Create(e, now), kind)
  {
    hide MissingField, PlanOK, Gains, Created, Entity.Stored, Entity.Kind, MaxID;
    CreatedIs(a, e, now, kind);
    if !MissingField(e) { GainsAt(a, b, StoredBy(a, e, now), kind); }
  }

  lemma NothingDeleted(a: Plan, k: Kind, id: int, kind: Kind)
    requires forall e :: e in a.Of(k) ==> e.id != id
    ensures Deleted(a, Delete(k, id), kind) == multiset{}
  {
    WithIDMisses(a.Of(k), id);
  }

  lemma OneDeleted(a: Plan, k: Kind, id: int, e: Entity)
    requires ListOK(a.Of(k), k) && e in a.Of(k) && e.id == id
    ensures Deleted(a, Delete(k, id), k) == multiset{e} && e.Kind() == k
  {
    hide Entity.Kind;
    WithIDFinds(a.Of(k), id, e);
    assert e.Kind() == k;
    hide WithID;
    assert multiset([e]) == multiset{e};
  }

  lemma DeleteBalancesThere(a: Plan, k: Kind, id: int, b: Plan)
    requires ListOK(a.Of(k), k) && PlanStep(a, Delete(k, id), b)
    ensures multiset(b.Of(k)) + Deleted(a, Delete(k, id), k) == multiset(a.Of(k))
  {
    hide PlanOK, ListOK, Deleted, Gains, Entity.Kind;
    if forall e :: e in a.Of(k) ==> e.id != id {
      NothingDeleted(a, k, id, k);
    } else {
      var e :| e in a.Of(k) && e.id == id && Gains(b, a, e);
      OneDeleted(a, k, id, e);
      GainsAt(b, a, e, k);
    }
  }

  lemma DeleteBalancesElsewhere(a: Plan, k: Kind, id: int, b: Plan, kind: Kind)
    requires ListOK(a.Of(k), k) && PlanStep(a, Delete(k, id), b) && kind != k
    ensures multiset(b.Of(kind)) == multiset(a.Of(kind))
  {
    hide PlanOK, ListOK, Gains, Entity.Kind, Deleted;
    if e :| e in a.Of(k) && e.id == id && Gains(b, a, e) {
      OneDeleted(a, k, id, e);
      GainsAt(b, a, e, kind);
    }
  }

  lemma DeleteBalances(a: Plan, k: Kind, id: int, b: Plan, kind: Kind)
    requires PlanOK(a) && PlanStep(a, Delete(k, id), b)
    ensures multiset(b.Of(kind)) + Deleted(a, Delete(k, id), kind) == multiset(a.Of(kind))
  {
    assert ListOK(a.Of(k), k);
    hide PlanOK, PlanStep, WithID;
    if kind == k { DeleteBalancesThere(a, k, id, b); } else { DeleteBalancesElsewhere(a, k, id, b, kind); }
  }

  lemma StepBalances(a: Plan, call: PlanCall, b: Plan, kind: Kind)
    requires PlanOK(a) && PlanStep(a, call, b)
    ensures PlanOK(b)
    ensures multiset(b.Of(kind)) + Deleted(a, call, kind) == multiset(a.Of(kind)) + Created(a, call, kind)
  {
    match call
    case Create(e, now) =>
      CreateBalances(a, e, now, b, kind);
      hide PlanOK, Gains, Entity.Kind, Entity.Stored;
    case Delete(k, id) =>
      DeleteBalances(a, k, id, b, kind);
      hide PlanOK, Gains, Entity.Kind, Entity.Stored;
  }

  lemma EmptyPlanOK(kind: Kind)
    ensures PlanOK(EMPTY_PLAN) && EMPTY_PLAN.Of(kind) == []
  {
  }

  /** After any run every list is in order with distinct positive identifiers, and holds exactly the stored
      forms of what was created and not deleted since, as often as they were created. */
  lemma {:induction false} PlanIsCreatedMinusDeleted(plans: seq<Plan>, calls: seq<PlanCall>, kind: Kind)
    requires PlanRun(plans, calls)
    ensures PlanOK(plans[|calls|])
    ensures multiset(plans[|calls|].Of(kind)) + AllDeleted(plans, calls, kind) == AllCreated(plans, calls, kind)
    decreases |calls|
  {
    hide PlanStep, Created, Deleted, PlanOK;
    EmptyPlanOK(kind);
    if calls != [] {
      var n := |calls| - 1;
      var before, init := plans[..|calls|], calls[..n];
      assert PlanRun(before, init);
      PlanIsCreatedMinusDeleted(before, init, kind);
      SamePlans(before, plans, init, kind);
      StepBalances(plans[n], calls[n], plans[n + 1], kind);
      Chain(multiset(plans[n].Of(kind)), multiset(plans[n + 1].Of(kind)), Deleted(plans[n], calls[n], kind),
            Created(plans[n], calls[n], kind), AllDeleted(plans, init, kind), AllCreated(plans, init, kind));
    }
  }

  lemma Chain(m: multiset<Entity>, m': multiset<Entity>, lost: multiset<Entity>, won: multiset<Entity>,
              allLost: multiset<Entity>, allWon: multiset<Entity>)
    requires m' + lost == m + won && m + allLost == allWon
    ensures m' + (allLost + lost) == allWon + won
  {
    assert m' + (allLost + lost) == (m' + lost) + allLost;
    assert (m + won) + allLost == (m + allLost) + won;
  }

  lemma {:induction false} SamePlans(a: seq<Plan>, b: seq<Plan>, calls: seq<PlanCall>, kind: Kind)
    requires |calls| <= |a| <= |b| && a == b[..|a|]
    ensures AllCreated(a, calls, kind) == AllCreated(b, calls, kind) && AllDeleted(a, calls, kind) == AllDeleted(b, calls, kind)
  {
    if calls != [] { SamePlans(a, b, calls[..|calls| - 1], kind); }
  }
}
