/** PBX calls cut at their two store calls: each loads the whole plan, and saves the whole plan it computed. */
module PBXRaces {
  import opened Wrappers
  import opened PBX
  import opened PBXRuns

  datatype Local = Idle | Saving(next: Plan)
  datatype Action = Load(call: PlanCall) | Save
  datatype Step = Step(request: int, action: Action)

  /** Lists are taken up to their order: the sort that a save ends with is left out. */
  datatype System = System(plan: Plan, locals: map<int, Local>)

  function LocalOf(s: System, r: int): Local { if r in s.locals then s.locals[r] else Idle }

  function Without(list: seq<Entity>, id: int): seq<Entity> {
    if list == [] then []
    else if list[0].id == id then list[1..]
    else [list[0]] + Without(list[1..], id)
  }

  /** The plan a call computes from the one it loaded; a refused call saves nothing. */
  function Computed(plan: Plan, call: PlanCall): Option<Plan> {
    match call
    case Create(e, now) =>
      if MissingField(e) then None else Some(WithList(plan, e.Kind(), plan.Of(e.Kind()) + [StoredBy(plan, e, now)]))
    case Delete(kind, id) =>
      if WithID(plan.Of(kind), id) == [] then None else Some(WithList(plan, kind, Without(plan.Of(kind), id)))
  }

  function Next(s: System, step: Step): System {
    match (step.action, LocalOf(s, step.request))
    case (Load(call), Idle) =>
      (match Computed(s.plan, call)
       case None => s
       case Some(next) => s.(locals := s.locals[step.request := Saving(next)]))
    case (Save, Saving(next)) => System(next, s.locals[step.request := Idle])
    case _ => s
  }

  function Continue(s: System, steps: seq<Step>): System {
    if steps == [] then s else Next(Continue(s, steps[..|steps| - 1]), steps[|steps| - 1])
  }

  predicate Holds(plan: Plan, e: Entity) { e in plan.Of(e.Kind()) }

  /** Whatever is about to be saved holds the entity too. */
  ghost predicate Agreed(s: System, e: Entity) {
    forall r :: r in s.locals && s.locals[r].Saving? ==> Holds(s.locals[r].next, e)
  }

  ghost predicate NotDeleted(steps: seq<Step>, e: Entity) {
    forall k :: 0 <= k < |steps| ==> steps[k].action != Load(Delete(e.Kind(), e.id))
  }

  ghost predicate Survives(s: System, e: Entity) {
    forall more :: NotDeleted(more, e) ==> Holds(Continue(s, more).plan, e)
  }

  lemma {:induction false} WithoutKeepsOthers(list: seq<Entity>, id: int, e: Entity)
    requires e in list && e.id != id
    ensures e in Without(list, id)
  {
    if list[0].id == id {
      assert e in list[1..];
    } else if e != list[0] {
      WithoutKeepsOthers(list[1..], id, e);
    }
  }

  lemma ComputedKeeps(plan: Plan, call: PlanCall, e: Entity)
    requires Holds(plan, e) && call != Delete(e.Kind(), e.id) && Computed(plan, call).Some?
    ensures Holds(Computed(plan, call).value, e)
  {
    hide MissingField;
    if call.Delete? && call.kind == e.Kind() { WithoutKeepsOthers(plan.Of(e.Kind()), call.id, e); }
  }

  lemma SurvivingStep(s: System, step: Step, e: Entity)
    requires Holds(s.plan, e) && Agreed(s, e) && step.action != Load(Delete(e.Kind(), e.id))
    ensures Holds(Next(s, step).plan, e) && Agreed(Next(s, step), e)
  {
    hide Holds, Computed;
    if step.action.Load? && Computed(s.plan, step.action.call).Some? { ComputedKeeps(s.plan, step.action.call, e); }
    if step.action.Save? && LocalOf(s, step.request).Saving? { assert Holds(s.locals[step.request].next, e); }
  }

  lemma {:induction false} SurvivesSteps(s: System, more: seq<Step>, e: Entity)
    requires Holds(s.plan, e) && Agreed(s, e) && NotDeleted(more, e)
    ensures Holds(Continue(s, more).plan, e) && Agreed(Continue(s, more), e)
  {
    hide Holds, Next;
    if more != [] {
      SurvivesSteps(s, more[..|more| - 1], e);
      SurvivingStep(Continue(s, more[..|more| - 1]), more[|more| - 1], e);
    }
  }

  /** A stored entity survives every continuation that does not delete it exactly when every call that has
      loaded the plan and not saved yet computed one that holds the entity too. */
  lemma EntitySurvivesIff(s: System, e: Entity)
    requires Holds(s.plan, e)
    ensures Survives(s, e) <==> Agreed(s, e)
  {
    hide Holds;
    if Agreed(s, e) {
      forall more | NotDeleted(more, e) ensures Holds(Continue(s, more).plan, e) { SurvivesSteps(s, more, e); }
    } else {
      var r :| r in s.locals && s.locals[r].Saving? && !Holds(s.locals[r].next, e);
      var more := [Step(r, Save)];
      assert more[..0] == [] && Continue(s, more) == Next(s, more[0]);
      assert NotDeleted(more, e);
    }
  }

  /** Every list of the plan has distinct positive identifiers and entities of its own kind. */
  ghost predicate Numbered(plan: Plan) {
    forall kind: Kind :: DistinctPositive(plan.Of(kind)) && OfKind(plan.Of(kind), kind)
  }

  ghost predicate AllNumbered(s: System) {
    Numbered(s.plan) && forall r :: r in s.locals && s.locals[r].Saving? ==> Numbered(s.locals[r].next)
  }

  lemma {:induction false} WithoutMembers(list: seq<Entity>, id: int)
    ensures forall e :: e in Without(list, id) ==> e in list
  {
    if list != [] { WithoutMembers(list[1..], id); }
  }

  lemma ConsKeepsNumbers(first: Entity, rest: seq<Entity>, kind: Kind)
    requires DistinctPositive(rest) && OfKind(rest, kind) && first.id > 0 && first.Kind() == kind
    requires forall e :: e in rest ==> e.id != first.id
    ensures DistinctPositive([first] + rest) && OfKind([first] + rest, kind)
  {
    hide Entity.Kind;
    forall i | 0 <= i < |rest| ensures rest[i].id != first.id { assert rest[i] in rest; }
  }

  lemma {:induction false} WithoutKeepsNumbers(list: seq<Entity>, id: int, kind: Kind)
    requires DistinctPositive(list) && OfKind(list, kind)
    ensures DistinctPositive(Without(list, id)) && OfKind(Without(list, id), kind)
  {
    hide Entity.Kind;
    if list != [] {
      var tail := list[1..];
      forall e | e in tail ensures e.id != list[0].id {}
      if list[0].id != id {
        WithoutKeepsNumbers(tail, id, kind);
        WithoutMembers(tail, id);
        ConsKeepsNumbers(list[0], Without(tail, id), kind);
      }
    }
  }

  lemma ComputedIsNumbered(plan: Plan, call: PlanCall)
    requires Numbered(plan) && Computed(plan, call).Some?
    ensures Numbered(Computed(plan, call).value)
  {
    hide MissingField, Entity.Stored, Entity.Kind;
    match call
    case Create(e, now) =>
      AppendKeepsList(plan.Of(e.Kind()), StoredBy(plan, e, now), e.Kind());
    case Delete(kind, id) =>
      WithoutKeepsNumbers(plan.Of(kind), id, kind);
  }

  lemma StepIsNumbered(s: System, step: Step)
    requires AllNumbered(s)
    ensures AllNumbered(Next(s, step))
  {
    hide Numbered, Computed;
    if step.action.Load? && Computed(s.plan, step.action.call).Some? { ComputedIsNumbered(s.plan, step.action.call); }
  }

  /** Under every interleaving from the empty plan every list keeps distinct positive identifiers. */
  lemma {:induction false} IdentifiersStayDistinct(steps: seq<Step>)
    ensures AllNumbered(Continue(System(EMPTY_PLAN, map[]), steps))
  {
    if steps != [] {
      IdentifiersStayDistinct(steps[..|steps| - 1]);
      StepIsNumbered(Continue(System(EMPTY_PLAN, map[]), steps[..|steps| - 1]), steps[|steps| - 1]);
    }
  }

  /** Two creates of one kind are given the same identifier exactly when the largest identifiers of the plans they
      loaded are the same, whatever was saved in between. */
  lemma SameIdentifierIff(p: Plan, a: Entity, first: Time, q: Plan, b: Entity, second: Time)
    requires a.Kind() == b.Kind()
    ensures StoredBy(p, a, first).id == StoredBy(q, b, second).id <==> MaxID(p.Of(a.Kind())) == MaxID(q.Of(a.Kind()))
  {
    hide Entity.Stored, Entity.Kind, MaxID;
  }

  /** Two creates of one kind that both load before either saves are given the same identifier, and the
      entity that was saved first is lost. */
  lemma TwoCreatesCollide(s: System, a: Entity, b: Entity, first: Time, second: Time)
    requires LocalOf(s, 0).Idle? && LocalOf(s, 1).Idle? && a.Kind() == b.Kind() && !MissingField(a) && !MissingField(b)
    ensures var both := Next(Next(s, Step(0, Load(Create(a, first)))), Step(1, Load(Create(b, second))));
            var done := Next(Next(both, Step(0, Save)), Step(1, Save));
            && StoredBy(s.plan, a, first).id == StoredBy(s.plan, b, second).id
            && done.plan.Of(a.Kind()) == s.plan.Of(a.Kind()) + [StoredBy(s.plan, b, second)]
  {
    hide MissingField, Entity.Stored, Entity.Kind, Entity.RequiredFields, MaxID;
    var both := Next(Next(s, Step(0, Load(Create(a, first)))), Step(1, Load(Create(b, second))));
    assert LocalOf(both, 0) == Saving(Computed(s.plan, Create(a, first)).value);
    assert LocalOf(both, 1) == Saving(Computed(s.plan, Create(b, second)).value);
  }

  lemma {:induction false} WithoutIsOneLess(list: seq<Entity>, id: int)
    ensures multiset(Without(list, id)) + multiset(WithID(list, id)) == multiset(list)
  {
    if list != [] {
      WithoutIsOneLess(list[1..], id);
      assert list == [list[0]] + list[1..];
    }
  }

  /** A call that nobody interrupts leaves the entities that the atomic call leaves. */
  lemma UninterruptedCall(s: System, r: int, call: PlanCall, b: Plan)
    requires LocalOf(s, r).Idle? && PlanOK(s.plan) && PlanStep(s.plan, call, b)
    ensures SameEntities(Next(Next(s, Step(r, Load(call))), Step(r, Save)).plan, b)
  {
    hide Entity.Stored, Entity.RequiredFields, Computed, PlanOK, Created, Deleted, PlanStep;
    var done := Next(Next(s, Step(r, Load(call))), Step(r, Save)).plan;
    assert done == if Computed(s.plan, call).Some? then Computed(s.plan, call).value else s.plan;
    forall kind: Kind ensures multiset(done.Of(kind)) == multiset(b.Of(kind)) {
      StepBalances(s.plan, call, b, kind);
      ComputedBalances(s.plan, call, kind);
      assert multiset(done.Of(kind)) == multiset(done.Of(kind)) + Deleted(s.plan, call, kind) - Deleted(s.plan, call, kind);
      assert multiset(b.Of(kind)) == multiset(b.Of(kind)) + Deleted(s.plan, call, kind) - Deleted(s.plan, call, kind);
    }
  }

  lemma ComputedBalances(plan: Plan, call: PlanCall, kind: Kind)
    ensures var next := if Computed(plan, call).Some? then Computed(plan, call).value else plan;
            multiset(next.Of(kind)) + Deleted(plan, call, kind) == multiset(plan.Of(kind)) + Created(plan, call, kind)
  {
    hide MissingField, Entity.Stored, Entity.Kind, Entity.RequiredFields, WithID, Without;
    match call
    case Create(e, now) => CreateComputes(plan, e, now, kind);
    case Delete(k, id) => DeleteComputes(plan, k, id, kind);
  }

  lemma OneMore(plan: Plan, k: Kind, x: Entity, kind: Kind)
    ensures multiset(WithList(plan, k, plan.Of(k) + [x]).Of(kind))
            == multiset(plan.Of(kind)) + if kind == k then multiset{x} else multiset{}
  {
  }

  lemma CreateComputes(plan: Plan, e: Entity, now: Time, kind: Kind)
    ensures var next := if MissingField(e) then plan else WithList(plan, e.Kind(), plan.Of(e.Kind()) + [StoredBy(plan, e, now)]);
            multiset(next.Of(kind)) == multiset(plan.Of(kind)) + Created(plan, Create(e, now), kind)
  {
    hide MissingField, Entity.Stored, Entity.Kind, Entity.RequiredFields, MaxID, WithList, Created, StoredBy;
    var stored := StoredBy(plan, e, now);
    OneMore(plan, e.Kind(), stored, kind);
    CreatedIs(plan, e, now, kind);
  }

  lemma DeleteComputes(plan: Plan, k: Kind, id: int, kind: Kind)
    ensures var call := Delete(k, id);
            var next := if Computed(plan, call).Some? then Computed(plan, call).value else plan;
            multiset(next.Of(kind)) + Deleted(plan, call, kind) == multiset(plan.Of(kind))
  {
    WithoutIsOneLess(plan.Of(k), id);
    hide Without, WithID;
  }
}
