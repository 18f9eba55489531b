/** The same service calls cut at their separately locked store calls and interleaved arbitrarily. */
module DomainRaces {
  import opened Wrappers
  import opened DomainNames
  import opened DomainModel
  import opened DomainService
  import opened DomainRuns

  /** What a request holds between two of its store calls. */
  datatype Local =
    | Idle
    | Counted(ownerType: OwnerType, ownerID: int, name: string, owned: nat)
    | Writing(record: CustomDomain)
    | Removing(id: int)

  datatype Action =
    | CountOwned(ownerType: OwnerType, ownerID: int, name: string)
    | FindForCreate(at: Time)
    | FindForEdit(caller: Caller, name: string, edit: Edit, now: Time)
    | FindForDelete(caller: Caller, name: string)
    | Write(wall: Time)
    | Remove

  datatype Step = Step(request: int, action: Action)

  /** What never changes about a record: its name and its owner. */
  datatype Identity = Identity(domain: string, ownerType: OwnerType, ownerID: int)

  function IdentityOf(d: CustomDomain): Identity { Identity(d.domain, d.ownerType, d.ownerID) }

  /** `identities` is auxiliary: what each identifier was first given to. No action reads it. */
  datatype System = System(store: DomainState, locals: map<int, Local>, identities: map<int, Identity>)

  const INITIAL := System(EMPTY_STATE, map[], map[])

  function LocalOf(s: System, request: int): Local {
    if request in s.locals then s.locals[request] else Idle
  }

  function Put(s: System, r: int, l: Local): System {
    s.(locals := s.locals[r := l])
  }

  ghost function DoCount(config: ServiceConfig, s: System, r: int, t: OwnerType, owner: int, name: string): System {
    if NameRefusal(config, name).Some? then s else Put(s, r, Counted(t, owner, name, |OwnedIDs(s.store, t, owner)|))
  }

  function DoFindForCreate(config: ServiceConfig, s: System, r: int, l: Local, now: Time): System
    requires l.Counted?
  {
    if CreateRefusal(config, l.ownerType, l.owned, FindDomain(s.store, l.name).Some?).Some? then Put(s, r, Idle)
    else Put(s, r, Writing(NewRecord(l.ownerType, l.ownerID, l.name, now)))
  }

  function DoFindForEdit(config: ServiceConfig, s: System, r: int, caller: Caller, name: string, edit: Edit,
                         now: Time): System {
    match LookupFor(s.store, caller, name)
    case Err(_) => s
    case Ok(d) =>
      match EditRecord(config, d, edit, now)
      case Refused(_) => s
      case Written(record, _) => Put(s, r, Writing(record))
  }

  function DoFindForDelete(s: System, r: int, caller: Caller, name: string): System {
    match LookupFor(s.store, caller, name)
    case Err(_) => s
    case Ok(d) => Put(s, r, Removing(d.id))
  }

  function DoWrite(s: System, r: int, record: CustomDomain, wall: Time): System {
    var (store, saved) := SaveDomain(s.store, record, wall);
    System(store, s.locals[r := Idle], if record.id == 0 then s.identities[saved.id := IdentityOf(saved)] else s.identities)
  }

  function DoRemove(s: System, r: int, id: int): System {
    System(if id in s.store.byID then DomainModel.DeleteDomain(s.store, id).value else s.store, s.locals[r := Idle], s.identities)
  }

  /** One locked store call by one request, together with the computation that follows it. */
  ghost function Next(config: ServiceConfig, s: System, step: Step): System {
    var r := step.request;
    var l := LocalOf(s, r);
    match step.action
    case CountOwned(t, owner, name) => if l.Idle? then DoCount(config, s, r, t, owner, name) else s
    case FindForCreate(now) => if l.Counted? then DoFindForCreate(config, s, r, l, now) else s
    case FindForEdit(caller, name, edit, now) => if l.Idle? then DoFindForEdit(config, s, r, caller, name, edit, now) else s
    case FindForDelete(caller, name) => if l.Idle? then DoFindForDelete(s, r, caller, name) else s
    case Write(wall) => if l.Writing? then DoWrite(s, r, l.record, wall) else s
    case Remove => if l.Removing? then DoRemove(s, r, l.id) else s
  }

  ghost function Exec(config: ServiceConfig, steps: seq<Step>): System {
    if steps == [] then INITIAL
    else Next(config, Exec(config, steps[..|steps| - 1]), steps[|steps| - 1])
  }

  /** The record is well formed and carries the one name its identifier was given. */
  ghost predicate KnownRecord(identities: map<int, Identity>, d: CustomDomain) {
    && NameOK(d) && OwnerOK(d) && LifecycleOK(d)
    && d.id in identities && identities[d.id] == IdentityOf(d)
  }

  ghost predicate NoDangling(st: DomainState) {
    forall n :: n in st.byName ==> st.byName[n] in st.byID && st.byID[st.byName[n]].domain == n
  }

  ghost predicate LocalOK(identities: map<int, Identity>, l: Local) {
    && (l.Counted? ==> IsCanonicalName(NormalizeDomainName(l.name)))
    && (l.Writing? && l.record.id == 0 ==> NameOK(l.record) && OwnerOK(l.record) && LifecycleOK(l.record))
    && (l.Writing? && l.record.id != 0 ==> KnownRecord(identities, l.record))
  }

  /** The store part of a safe system. */
  ghost predicate SafeStore(st: DomainState, identities: map<int, Identity>) {
    && NoDangling(st) && 1 <= st.next
    && (forall id :: id in identities ==> 1 <= id < st.next)
    && (forall id :: id in st.byID ==> st.byID[id].id == id && KnownRecord(identities, st.byID[id]))
  }

  ghost predicate SafeSystem(s: System) {
    && SafeStore(s.store, s.identities)
    && (forall r :: r in s.locals ==> LocalOK(s.identities, s.locals[r]))
  }

  /** Writing a record under its identifier's one name leaves no other name pointing at it. */
  lemma WriteKeepsStore(st: DomainState, identities: map<int, Identity>, saved: CustomDomain)
    requires SafeStore(st, identities) && KnownRecord(identities, saved) && saved.id in identities
    ensures SafeStore(DomainState(st.next, st.byID[saved.id := saved], st.byName[saved.domain := saved.id]), identities)
  {
    var st' := DomainState(st.next, st.byID[saved.id := saved], st.byName[saved.domain := saved.id]);
    forall n | n in st'.byName
      ensures st'.byName[n] in st'.byID && st'.byID[st'.byName[n]].domain == n
    {
      if n != saved.domain {
        var id := st.byName[n];
        assert identities[id].domain == n;
      }
    }
  }

  lemma MoreNames(identities: map<int, Identity>, more: map<int, Identity>, d: CustomDomain)
    requires KnownRecord(identities, d) && forall id :: id in identities ==> id in more && more[id] == identities[id]
    ensures KnownRecord(more, d)
  {
  }

  lemma NewIdentityKeepsStore(st: DomainState, identities: map<int, Identity>, identity: Identity)
    requires SafeStore(st, identities)
    ensures SafeStore(st.(next := st.next + 1), identities[st.next := identity])
    ensures st.next !in identities
  {
    forall id | id in st.byID ensures KnownRecord(identities[st.next := identity], st.byID[id]) {
      MoreNames(identities, identities[st.next := identity], st.byID[id]);
    }
  }

  ghost predicate Extends(more: map<int, Identity>, identities: map<int, Identity>) {
    forall id :: id in identities ==> id in more && more[id] == identities[id]
  }

  /** The locals of the requests that did not move stay sound when more identities become known. */
  lemma LocalsStaySafe(identities: map<int, Identity>, more: map<int, Identity>, l: Local)
    requires LocalOK(identities, l) && Extends(more, identities)
    ensures LocalOK(more, l)
  {
  }

  lemma WrittenIsSafe(s: System, r: int, isNew: bool, saved: CustomDomain)
    requires SafeSystem(s)
    requires NameOK(saved) && OwnerOK(saved) && LifecycleOK(saved)
    requires if isNew then saved.id == s.store.next else KnownRecord(s.identities, saved)
    ensures var identities := if isNew then s.identities[saved.id := IdentityOf(saved)] else s.identities;
            var st := DomainState(if isNew then s.store.next + 1 else s.store.next,
                                  s.store.byID[saved.id := saved], s.store.byName[saved.domain := saved.id]);
            SafeSystem(System(st, s.locals[r := Idle], identities)) && Extends(identities, s.identities)
  {
    var identities := if isNew then s.identities[saved.id := IdentityOf(saved)] else s.identities;
    if isNew {
      NewIdentityKeepsStore(s.store, s.identities, IdentityOf(saved));
      WriteKeepsStore(s.store.(next := s.store.next + 1), identities, saved);
    } else {
      WriteKeepsStore(s.store, s.identities, saved);
    }
    var locals := s.locals[r := Idle];
    forall q | q in locals ensures LocalOK(identities, locals[q]) {
      if q != r { LocalsStaySafe(s.identities, identities, s.locals[q]); }
    }
  }

  lemma StampKeepsRecord(record: CustomDomain, saved: CustomDomain)
    requires NameOK(record) && OwnerOK(record) && LifecycleOK(record)
    requires saved == record.(id := saved.id, createdAt := saved.createdAt, updatedAt := saved.updatedAt)
    ensures NameOK(saved) && OwnerOK(saved) && LifecycleOK(saved)
    ensures saved.domain == record.domain
  {
  }

  lemma WriteIsSafe(s: System, r: int, record: CustomDomain, wall: Time)
    requires SafeSystem(s) && LocalOK(s.identities, Writing(record))
    ensures SafeSystem(DoWrite(s, r, record, wall)) && Extends(DoWrite(s, r, record, wall).identities, s.identities)
  {
    SaveKeepsName(s.store, record, wall);
    var saved := SaveDomain(s.store, record, wall).1;
    StampKeepsRecord(record, saved);
    WrittenIsSafe(s, r, record.id == 0, saved);
  }

  lemma RemoveIsSafe(s: System, r: int, id: int)
    requires SafeSystem(s)
    ensures SafeSystem(DoRemove(s, r, id)) && DoRemove(s, r, id).identities == s.identities
  {
    PutIsSafe(s, r, Idle);
  }

  lemma PutIsSafe(s: System, r: int, l: Local)
    requires SafeSystem(s) && LocalOK(s.identities, l)
    ensures SafeSystem(Put(s, r, l))
  {
  }

  lemma FindForEditIsSafe(config: ServiceConfig, s: System, r: int, caller: Caller, name: string, edit: Edit, now: Time)
    requires SafeSystem(s)
    ensures SafeSystem(DoFindForEdit(config, s, r, caller, name, edit, now))
    ensures DoFindForEdit(config, s, r, caller, name, edit, now).identities == s.identities
  {
    hide NormalizeDomainName, ProvenTarget;
    var found := LookupFor(s.store, caller, name);
    if found.Ok? && EditRecord(config, found.value, edit, now).Written? {
      EditKeepsLifecycle(config, found.value, edit, now);
      EditKeepsIdentity(config, found.value, edit, now);
      PutIsSafe(s, r, Writing(EditRecord(config, found.value, edit, now).record));
    }
  }

  lemma CountIsSafe(config: ServiceConfig, s: System, r: int, t: OwnerType, owner: int, name: string)
    requires SafeSystem(s)
    ensures SafeSystem(DoCount(config, s, r, t, owner, name)) && DoCount(config, s, r, t, owner, name).identities == s.identities
  {
    if NameRefusal(config, name) == None {
      AcceptedNameIsCanonical(name, config.constraints);
      PutIsSafe(s, r, Counted(t, owner, name, |OwnedIDs(s.store, t, owner)|));
    }
  }

  lemma FindForCreateIsSafe(config: ServiceConfig, s: System, r: int, l: Local, now: Time)
    requires SafeSystem(s) && l.Counted? && LocalOK(s.identities, l)
    ensures SafeSystem(DoFindForCreate(config, s, r, l, now)) && DoFindForCreate(config, s, r, l, now).identities == s.identities
  {
    NewRecordOK(l.ownerType, l.ownerID, l.name, now);
    PutIsSafe(s, r, Writing(NewRecord(l.ownerType, l.ownerID, l.name, now)));
    PutIsSafe(s, r, Idle);
  }

  lemma FindForDeleteIsSafe(s: System, r: int, caller: Caller, name: string)
    requires SafeSystem(s)
    ensures SafeSystem(DoFindForDelete(s, r, caller, name)) && DoFindForDelete(s, r, caller, name).identities == s.identities
  {
    var found := LookupFor(s.store, caller, name);
    if found.Ok? { PutIsSafe(s, r, Removing(found.value.id)); }
  }

  lemma StepIsSafe(config: ServiceConfig, s: System, step: Step)
    requires SafeSystem(s)
    ensures SafeSystem(Next(config, s, step)) && Extends(Next(config, s, step).identities, s.identities)
  {
    hide DoCount, DoFindForCreate, DoFindForEdit, DoFindForDelete, DoWrite, DoRemove;
    var r := step.request;
    var l := LocalOf(s, r);
    match step.action
    case CountOwned(t, owner, name) => CountIsSafe(config, s, r, t, owner, name);
    case FindForCreate(now) => if l.Counted? { FindForCreateIsSafe(config, s, r, l, now); }
    case FindForEdit(caller, name, edit, now) =>
      FindForEditIsSafe(config, s, r, caller, name, edit, now);
    case FindForDelete(caller, name) => FindForDeleteIsSafe(s, r, caller, name);
    case Write(wall) => if l.Writing? { WriteIsSafe(s, r, l.record, wall); }
    case Remove => if l.Removing? { RemoveIsSafe(s, r, l.id); }
  }

  lemma {:induction false} ExecIsSafe(config: ServiceConfig, steps: seq<Step>, earlier: nat)
    requires earlier <= |steps|
    ensures SafeSystem(Exec(config, steps))
    ensures Extends(Exec(config, steps).identities, Exec(config, steps[..earlier]).identities)
  {
    if steps == [] {
      assert steps[..earlier] == steps;
    } else {
      var prefix := steps[..|steps| - 1];
      ExecIsSafe(config, prefix, if earlier < |steps| then earlier else 0);
      StepIsSafe(config, Exec(config, prefix), steps[|steps| - 1]);
      if earlier < |steps| {
        assert prefix[..earlier] == steps[..earlier];
      } else {
        assert steps[..earlier] == steps;
      }
    }
  }

  /** Under every interleaving the name index never dangles: a lookup that succeeds returns a stored
      record of that very name, never Go's zero record, and the record obeys the state machine. */
  lemma LookupNeverDangles(config: ServiceConfig, steps: seq<Step>, name: string)
    requires FindDomain(Exec(config, steps).store, name).Some?
    ensures var st, d := Exec(config, steps).store, FindDomain(Exec(config, steps).store, name).value;
            && 1 <= d.id < st.next && d.id in st.byID && st.byID[d.id] == d
            && d.domain == NormalizeDomainName(name) && LifecycleOK(d)
  {
    ExecIsSafe(config, steps, 0);
  }

  /** Under every interleaving an identifier keeps one name and one owner for ever, even when a write that
      was in flight during a deletion brings the deleted record back. */
  lemma IdentifierKeepsIdentity(config: ServiceConfig, steps: seq<Step>, earlier: nat, id: int)
    requires earlier <= |steps|
    requires id in Exec(config, steps[..earlier]).store.byID && id in Exec(config, steps).store.byID
    ensures IdentityOf(Exec(config, steps[..earlier]).store.byID[id]) == IdentityOf(Exec(config, steps).store.byID[id])
  {
    ExecIsSafe(config, steps, earlier);
    ExecIsSafe(config, steps[..earlier], 0);
  }

  /** Some request is about to write the record with this identifier. */
  ghost predicate InFlight(s: System, id: int) {
    exists r :: r in s.locals && s.locals[r].Writing? && s.locals[r].record.id == id
  }

  ghost predicate Gone(s: System, id: int) {
    1 <= id < s.store.next && id !in s.store.byID && !InFlight(s, id)
  }

  lemma PutKeepsGone(s: System, r: int, l: Local, id: int)
    requires Gone(s, id) && !(l.Writing? && l.record.id == id)
    ensures Gone(Put(s, r, l), id)
  {
  }

  lemma EditNeverFindsGone(config: ServiceConfig, s: System, r: int, caller: Caller, name: string, edit: Edit,
                           now: Time, id: int)
    requires SafeSystem(s) && Gone(s, id)
    ensures Gone(DoFindForEdit(config, s, r, caller, name, edit, now), id)
  {
    hide NormalizeDomainName;
    var found := LookupFor(s.store, caller, name);
    if found.Ok? && EditRecord(config, found.value, edit, now).Written? {
      EditKeepsIdentity(config, found.value, edit, now);
      PutKeepsGone(s, r, Writing(EditRecord(config, found.value, edit, now).record), id);
    }
  }

  /** What a write of a record with a canonical name does to the records. */
  lemma WriteIsPut(s: System, r: int, record: CustomDomain, wall: Time)
    requires IsCanonicalName(record.domain)
    ensures var (s', saved) := (DoWrite(s, r, record, wall), SaveDomain(s.store, record, wall).1);
            && s'.store.byID == s.store.byID[saved.id := saved] && s'.locals == s.locals[r := Idle]
            && s'.store.byName == s.store.byName[record.domain := saved.id]
            && saved.id == (if record.id == 0 then s.store.next else record.id)
            && s'.store.next == (if record.id == 0 then s.store.next + 1 else s.store.next)
            && IdentityOf(saved) == IdentityOf(record)
  {
    hide NormalizeDomainName, IsCanonicalName;
    SaveKeepsName(s.store, record, wall);
  }

  lemma PutRecordKeepsGone(s: System, s': System, r: int, saved: CustomDomain, id: int)
    requires Gone(s, id) && saved.id != id
    requires s'.store.byID == s.store.byID[saved.id := saved] && s'.store.next >= s.store.next && s'.locals == s.locals[r := Idle]
    ensures Gone(s', id)
  {
  }

  lemma WriteKeepsGone(s: System, r: int, record: CustomDomain, wall: Time, id: int)
    requires Gone(s, id) && record.id != id && LocalOK(s.identities, Writing(record))
    ensures Gone(DoWrite(s, r, record, wall), id)
  {
    assert IsCanonicalName(record.domain);
    hide DoWrite, SaveDomain, IsCanonicalName, LocalOK;
    WriteIsPut(s, r, record, wall);
    PutRecordKeepsGone(s, DoWrite(s, r, record, wall), r, SaveDomain(s.store, record, wall).1, id);
  }

  lemma GoneStep(config: ServiceConfig, s: System, step: Step, id: int)
    requires SafeSystem(s) && Gone(s, id)
    ensures Gone(Next(config, s, step), id)
  {
    hide NormalizeDomainName, NameRefusal, CreateRefusal;
    var r := step.request;
    var l := LocalOf(s, r);
    match step.action
    case CountOwned(t, owner, name) => PutKeepsGone(s, r, Counted(t, owner, name, |OwnedIDs(s.store, t, owner)|), id);
    case FindForCreate(now) =>
      PutKeepsGone(s, r, Idle, id);
      if l.Counted? { PutKeepsGone(s, r, Writing(NewRecord(l.ownerType, l.ownerID, l.name, now)), id); }
    case FindForEdit(caller, name, edit, now) => EditNeverFindsGone(config, s, r, caller, name, edit, now, id);
    case FindForDelete(caller, name) =>
      var found := LookupFor(s.store, caller, name);
      if found.Ok? { PutKeepsGone(s, r, Removing(found.value.id), id); }
    case Write(wall) => if l.Writing? { WriteKeepsGone(s, r, l.record, wall, id); }
    case Remove => if l.Removing? { PutKeepsGone(s, r, Idle, id); }
  }

  lemma {:induction false} GoneForEver(config: ServiceConfig, steps: seq<Step>, more: seq<Step>, id: int)
    requires Gone(Exec(config, steps), id)
    ensures Gone(Exec(config, steps + more), id)
    decreases |more|
  {
    if more == [] {
      assert steps + more == steps;
    } else {
      var init, last := more[..|more| - 1], more[|more| - 1];
      GoneForEver(config, steps, init, id);
      ExecIsSafe(config, steps + init, 0);
      GoneStep(config, Exec(config, steps + init), last, id);
      ExecAppend(config, steps + init, last);
      assert steps + more == steps + init + [last];
    }
  }

  /** Under every interleaving a removed record stays gone for ever exactly when no request is about to
      write it at that moment. */
  lemma DeletionIsFinalIff(config: ServiceConfig, steps: seq<Step>, id: int)
    requires var s := Exec(config, steps); 1 <= id < s.store.next && id !in s.store.byID
    ensures (forall more :: id !in Exec(config, steps + more).store.byID) <==> !InFlight(Exec(config, steps), id)
  {
    var s := Exec(config, steps);
    if InFlight(s, id) {
      var r :| r in s.locals && s.locals[r].Writing? && s.locals[r].record.id == id;
      ExecAppend(config, steps, Step(r, Write(0)));
      assert id in Exec(config, steps + [Step(r, Write(0))]).store.byID;
    } else {
      forall more ensures id !in Exec(config, steps + more).store.byID { GoneForEver(config, steps, more, id); }
    }
  }

  lemma FindTakesOff(config: ServiceConfig, s: System, r: int, caller: Caller, name: string, edit: Edit, now: Time)
    requires LocalOf(s, r) == Idle && LookupFor(s.store, caller, name).Ok?
    requires EditRecord(config, LookupFor(s.store, caller, name).value, edit, now).Written?
    ensures Next(config, s, Step(r, FindForEdit(caller, name, edit, now)))
            == Put(s, r, Writing(EditRecord(config, LookupFor(s.store, caller, name).value, edit, now).record))
  {
    hide LookupFor, EditRecord;
  }

  lemma DeleteGoesThrough(config: ServiceConfig, s: System, r: int, caller: Caller, name: string)
    requires LocalOf(s, r) == Idle && LookupFor(s.store, caller, name).Ok? && LookupFor(s.store, caller, name).value.id in s.store.byID
    ensures var d := LookupFor(s.store, caller, name).value;
            Next(config, Next(config, s, Step(r, FindForDelete(caller, name))), Step(r, Remove))
            == System(DomainModel.DeleteDomain(s.store, d.id).value, s.locals[r := Removing(d.id)][r := Idle], s.identities)
  {
    hide LookupFor;
    var d := LookupFor(s.store, caller, name).value;
    assert Next(config, s, Step(r, FindForDelete(caller, name))) == Put(s, r, Removing(d.id));
  }

  /** An edit looks its record up, and another request deletes the record before the edit writes. */
  function DeletionDuringEdit(editor: int, remover: int, caller: Caller, name: string, edit: Edit,
                              now: Time): seq<Step> {
    [] + [Step(editor, FindForEdit(caller, name, edit, now))] + [Step(remover, FindForDelete(caller, name))] + [Step(remover, Remove)]
  }

  /** The store knows neither the identifier nor the name. */
  predicate Absent(st: DomainState, d: CustomDomain) { d.id !in st.byID && d.domain !in st.byName }

  /** The store has a record of that identifier, name and owner, and finds it under the name. */
  predicate Present(st: DomainState, d: CustomDomain) {
    && d.id in st.byID && IdentityOf(st.byID[d.id]) == IdentityOf(d)
    && d.domain in st.byName && st.byName[d.domain] == d.id
  }

  lemma DeletedInBetween(config: ServiceConfig, s: System, editor: int, remover: int, caller: Caller, name: string,
                         d: CustomDomain, edit: Edit, now: Time)
    requires SafeSystem(s) && editor != remover && LocalOf(s, editor) == LocalOf(s, remover) == Idle
    requires LookupFor(s.store, caller, name) == Ok(d) && EditRecord(config, d, edit, now).Written?
    ensures var w := EditRecord(config, d, edit, now).record;
            var s1 := Next(config, s, Step(editor, FindForEdit(caller, name, edit, now)));
            var s2 := Next(config, Next(config, s1, Step(remover, FindForDelete(caller, name))), Step(remover, Remove));
            && Absent(s2.store, d) && LocalOf(s2, editor) == Writing(w)
            && w.id == d.id != 0 && IdentityOf(w) == IdentityOf(d) && IsCanonicalName(d.domain)
  {
    assert d.id in s.store.byID && s.store.byID[d.id] == d && d.id != 0 && NameOK(d);
    FindTakesOff(config, s, editor, caller, name, edit, now);
    EditKeepsIdentity(config, d, edit, now);
    hide EditRecord, Next, NormalizeDomainName, IsCanonicalName;
    var s1 := Put(s, editor, Writing(EditRecord(config, d, edit, now).record));
    DeleteGoesThrough(config, s1, remover, caller, name);
  }

  /** In every reachable system an edit that is in flight while its record is deleted brings it back,
      under its old identifier, name and owner. */
  lemma DeletionUndone(config: ServiceConfig, steps: seq<Step>, editor: int, remover: int, caller: Caller, name: string,
                       d: CustomDomain, edit: Edit, now: Time, wall: Time)
    requires editor != remover && LocalOf(Exec(config, steps), editor) == LocalOf(Exec(config, steps), remover) == Idle
    requires LookupFor(Exec(config, steps).store, caller, name) == Ok(d) && EditRecord(config, d, edit, now).Written?
    ensures var during := steps + DeletionDuringEdit(editor, remover, caller, name, edit, now);
            && Absent(Exec(config, during).store, d)
            && Present(Exec(config, during + [Step(editor, Write(wall))]).store, d)
  {
    hide LookupFor, EditRecord, Next, IsCanonicalName, Exec, SafeSystem, LocalOf, IdentityOf, DeletionDuringEdit, Absent, Present;
    var s := Exec(config, steps);
    ExecIsSafe(config, steps, 0);
    DeletedInBetween(config, s, editor, remover, caller, name, d, edit, now);
    var during := steps + DeletionDuringEdit(editor, remover, caller, name, edit, now);
    ExecDeletion(config, steps, editor, remover, caller, name, edit, now);
    ExecAppend(config, during, Step(editor, Write(wall)));
    WriteBringsBack(config, Exec(config, during), editor, d, EditRecord(config, d, edit, now).record, wall);
  }

  lemma WriteBringsBack(config: ServiceConfig, s: System, r: int, d: CustomDomain, w: CustomDomain, wall: Time)
    requires LocalOf(s, r) == Writing(w) && w.id == d.id != 0 && IdentityOf(w) == IdentityOf(d) && IsCanonicalName(d.domain)
    ensures Present(Next(config, s, Step(r, Write(wall))).store, d)
  {
    WriteComes(config, s, r, w, wall);
    WriteIsPut(s, r, w, wall);
    hide DoWrite, SaveDomain, IsCanonicalName;
  }

  lemma ExecDeletion(config: ServiceConfig, steps: seq<Step>, editor: int, remover: int, caller: Caller, name: string,
                     edit: Edit, now: Time)
    ensures var s1 := Next(config, Exec(config, steps), Step(editor, FindForEdit(caller, name, edit, now)));
            Exec(config, steps + DeletionDuringEdit(editor, remover, caller, name, edit, now))
            == Next(config, Next(config, s1, Step(remover, FindForDelete(caller, name))), Step(remover, Remove))
  {
    hide Next, Exec;
    ExecThree(config, steps, Step(editor, FindForEdit(caller, name, edit, now)),
              Step(remover, FindForDelete(caller, name)), Step(remover, Remove));
  }

  lemma WriteComes(config: ServiceConfig, s: System, r: int, record: CustomDomain, wall: Time)
    requires LocalOf(s, r) == Writing(record)
    ensures Next(config, s, Step(r, Write(wall))) == DoWrite(s, r, record, wall)
  {
    hide DoWrite;
  }

  lemma ExecThree(config: ServiceConfig, steps: seq<Step>, a: Step, b: Step, c: Step)
    ensures Exec(config, steps + ([] + [a] + [b] + [c])) == Next(config, Next(config, Next(config, Exec(config, steps), a), b), c)
  {
    ExecAppend(config, steps, a);
    ExecAppend(config, steps + [a], b);
    ExecAppend(config, steps + [a] + [b], c);
    assert steps + ([] + [a] + [b] + [c]) == steps + [a] + [b] + [c];
  }

  /** Some request is about to write the record with another status, or to remove it. */
  ghost predicate LiftInFlight(s: System, id: int) {
    exists r :: r in s.locals
      && ((s.locals[r].Writing? && s.locals[r].record.id == id && s.locals[r].record.status != StatusSuspended)
          || s.locals[r] == Removing(id))
  }

  /** A lookup, by a verification, a lifting of the suspension or a deletion, that reaches the record. */
  predicate LiftingFind(s: System, action: Action, id: int) {
    match action
    case FindForEdit(caller, name, edit, _) => (edit.Verify? || edit.Unsuspend?) && Reaches(s.store, caller, name, id)
    case FindForDelete(caller, name) => Reaches(s.store, caller, name, id)
    case _ => false
  }

  ghost predicate HeldSuspended(s: System, id: int) {
    id != 0 && Suspended(s.store, id) && !LiftInFlight(s, id)
  }

  predicate Harmless(l: Local, id: int) {
    !(l.Writing? && l.record.id == id && l.record.status != StatusSuspended) && l != Removing(id)
  }

  lemma PutKeepsSuspended(s: System, r: int, l: Local, id: int)
    requires HeldSuspended(s, id) && Harmless(l, id)
    ensures HeldSuspended(Put(s, r, l), id)
  {
  }

  lemma EditFindKeepsSuspended(config: ServiceConfig, s: System, r: int, caller: Caller, name: string, edit: Edit,
                               now: Time, id: int)
    requires SafeSystem(s) && HeldSuspended(s, id) && !LiftingFind(s, FindForEdit(caller, name, edit, now), id)
    ensures HeldSuspended(DoFindForEdit(config, s, r, caller, name, edit, now), id)
  {
    hide NormalizeDomainName;
    var found := LookupFor(s.store, caller, name);
    if found.Ok? && EditRecord(config, found.value, edit, now).Written? {
      var d := found.value;
      EditKeepsIdentity(config, d, edit, now);
      assert d.id in s.store.byID && s.store.byID[d.id] == d;
      if d.id == id { EditKeepsSuspensionIff(config, d, edit, now); }
      PutKeepsSuspended(s, r, Writing(EditRecord(config, d, edit, now).record), id);
    }
  }

  lemma WriteKeepsSuspended(s: System, r: int, record: CustomDomain, wall: Time, id: int)
    requires SafeSystem(s) && HeldSuspended(s, id) && r in s.locals && s.locals[r] == Writing(record)
    ensures HeldSuspended(DoWrite(s, r, record, wall), id)
  {
    assert LocalOK(s.identities, s.locals[r]) && IsCanonicalName(record.domain) && id < s.store.next;
    WriteIsPut(s, r, record, wall);
    SaveKeepsName(s.store, record, wall);
    var s', saved := DoWrite(s, r, record, wall), SaveDomain(s.store, record, wall).1;
    hide DoWrite, SaveDomain, IsCanonicalName, SafeSystem, LocalOK;
    assert saved.status == record.status;
    PutRecordKeepsSuspended(s, s', r, saved, id);
  }

  lemma PutRecordKeepsSuspended(s: System, s': System, r: int, saved: CustomDomain, id: int)
    requires HeldSuspended(s, id) && (saved.id == id ==> saved.status == StatusSuspended)
    requires s'.store.byID == s.store.byID[saved.id := saved] && s'.locals == s.locals[r := Idle]
    ensures HeldSuspended(s', id)
  {
  }

  lemma RemoveKeepsSuspended(s: System, r: int, removed: int, id: int)
    requires HeldSuspended(s, id) && removed != id
    ensures HeldSuspended(DoRemove(s, r, removed), id)
  {
  }

  lemma StepKeepsSuspended(config: ServiceConfig, s: System, step: Step, id: int)
    requires SafeSystem(s) && HeldSuspended(s, id) && !LiftingFind(s, step.action, id)
    ensures HeldSuspended(Next(config, s, step), id)
  {
    hide NormalizeDomainName, NameRefusal, CreateRefusal, HeldSuspended, DoWrite, DoRemove, DoFindForEdit, SafeSystem;
    var r := step.request;
    var l := LocalOf(s, r);
    match step.action
    case CountOwned(t, owner, name) => PutKeepsSuspended(s, r, Counted(t, owner, name, |OwnedIDs(s.store, t, owner)|), id);
    case FindForCreate(now) =>
      PutKeepsSuspended(s, r, Idle, id);
      if l.Counted? {
        NotZero(s, id);
        PutKeepsSuspended(s, r, Writing(NewRecord(l.ownerType, l.ownerID, l.name, now)), id);
      }
    case FindForEdit(caller, name, edit, now) => EditFindKeepsSuspended(config, s, r, caller, name, edit, now, id);
    case FindForDelete(caller, name) =>
      var found := LookupFor(s.store, caller, name);
      if found.Ok? { PutKeepsSuspended(s, r, Removing(found.value.id), id); }
    case Write(wall) => if l.Writing? { WriteKeepsSuspended(s, r, l.record, wall, id); }
    case Remove =>
      if l.Removing? {
        NotRemoving(s, r, id);
        RemoveKeepsSuspended(s, r, l.id, id);
      }
  }

  lemma NotZero(s: System, id: int)
    requires HeldSuspended(s, id)
    ensures id != 0
  {
  }

  lemma NotRemoving(s: System, r: int, id: int)
    requires HeldSuspended(s, id)
    ensures LocalOf(s, r) != Removing(id)
  {
  }

  /** No step of `more`, run after `steps`, looks the record up in order to lift its suspension. */
  ghost predicate NoLiftingFind(config: ServiceConfig, steps: seq<Step>, more: seq<Step>, id: int) {
    forall k :: 0 <= k < |more| ==> !LiftingFind(Exec(config, steps + more[..k]), more[k].action, id)
  }

  lemma {:induction false} SuspendedThroughout(config: ServiceConfig, steps: seq<Step>, more: seq<Step>, id: int)
    requires HeldSuspended(Exec(config, steps), id) && NoLiftingFind(config, steps, more, id)
    ensures HeldSuspended(Exec(config, steps + more), id)
    decreases |more|
  {
    hide Exec, Next, LiftingFind, HeldSuspended, SafeSystem;
    if more == [] {
      assert steps + more == steps;
    } else {
      var n := |more| - 1;
      var init := more[..n];
      forall k | 0 <= k < n ensures !LiftingFind(Exec(config, steps + init[..k]), init[k].action, id) {
        assert init[..k] == more[..k] && init[k] == more[k];
      }
      SuspendedThroughout(config, steps, init, id);
      ExecIsSafe(config, steps + init, 0);
      StepKeepsSuspended(config, Exec(config, steps + init), more[n], id);
      ExecAppend(config, steps + init, more[n]);
      assert steps + more == steps + init + [more[n]];
    }
  }

  lemma LiftComes(config: ServiceConfig, s: System, r: int, id: int)
    requires SafeSystem(s) && r in s.locals && Suspended(s.store, id) && !Harmless(s.locals[r], id)
    ensures !Suspended(Next(config, s, Step(r, if s.locals[r].Writing? then Write(0) else Remove)).store, id)
  {
    var l := s.locals[r];
    if l.Writing? {
      assert LocalOK(s.identities, l) && IsCanonicalName(l.record.domain) && id != 0;
      WriteComes(config, s, r, l.record, 0);
      WriteIsPut(s, r, l.record, 0);
      SaveKeepsName(s.store, l.record, 0);
      hide DoWrite, SaveDomain, IsCanonicalName, SafeSystem, LocalOK, Next;
    }
  }

  /** Under every interleaving a suspended record stays suspended in all continuations that do not look it up to
      lift that, exactly when no request is about to write it with another status or to remove it. An edit that
      was in flight when the suspension was written undoes it. */
  lemma SuspensionSurvivesIff(config: ServiceConfig, steps: seq<Step>, id: int)
    requires Suspended(Exec(config, steps).store, id)
    ensures (forall more :: NoLiftingFind(config, steps, more, id) ==> Suspended(Exec(config, steps + more).store, id))
            <==> !LiftInFlight(Exec(config, steps), id)
  {
    var s := Exec(config, steps);
    ExecIsSafe(config, steps, 0);
    assert id != 0;
    hide Exec, Next, SafeSystem, LiftingFind, Suspended;
    if LiftInFlight(s, id) {
      var r :| r in s.locals && !Harmless(s.locals[r], id);
      LiftComes(config, s, r, id);
      var step := Step(r, if s.locals[r].Writing? then Write(0) else Remove);
      ExecAppend(config, steps, step);
      NotLifting(config, steps, step, id);
      assert NoLiftingFind(config, steps, [step], id) && !Suspended(Exec(config, steps + [step]).store, id);
    } else {
      forall more | NoLiftingFind(config, steps, more, id) ensures Suspended(Exec(config, steps + more).store, id) {
        SuspendedThroughout(config, steps, more, id);
      }
    }
  }

  lemma NotLifting(config: ServiceConfig, steps: seq<Step>, step: Step, id: int)
    requires step.action.Write? || step.action.Remove?
    ensures NoLiftingFind(config, steps, [step], id)
  {
    hide Exec;
  }

  /** The name index leads to the record. */
  predicate Findable(st: DomainState, id: int) {
    id in st.byID && st.byID[id].domain in st.byName && st.byName[st.byID[id].domain] == id
  }

  /** A write makes its own record findable, and hides exactly the other records of that name. */
  lemma WriteKeepsFindableIff(config: ServiceConfig, steps: seq<Step>, r: int, wall: Time, id: int)
    requires var s := Exec(config, steps); LocalOf(s, r).Writing? && id in s.store.byID
    ensures var s := Exec(config, steps);
            var d := LocalOf(s, r).record;
            Findable(Next(config, s, Step(r, Write(wall))).store, id)
            <==> id == d.id || (Findable(s.store, id) && s.store.byID[id].domain != d.domain)
  {
    var s := Exec(config, steps);
    ExecIsSafe(config, steps, 0);
    var d := LocalOf(s, r).record;
    assert LocalOK(s.identities, s.locals[r]) && IsCanonicalName(d.domain) && 0 !in s.store.byID && s.store.next !in s.store.byID;
    WriteComes(config, s, r, d, wall);
    WriteIsPut(s, r, d, wall);
    hide Exec, DoWrite, SaveDomain, IsCanonicalName, SafeSystem, LocalOK, Next;
  }

  /** A removal hides exactly the other records of the removed one's name. */
  lemma RemoveKeepsFindableIff(s: System, r: int, removed: int, id: int)
    requires id in s.store.byID && removed in s.store.byID && id != removed
    ensures Findable(DoRemove(s, r, removed).store, id)
            <==> Findable(s.store, id) && s.store.byID[id].domain != s.store.byID[removed].domain
  {
  }

  /** Under every interleaving, all records can be found exactly when names are unique and every name is indexed. */
  lemma AllFindableIff(config: ServiceConfig, steps: seq<Step>)
    ensures var st := Exec(config, steps).store;
            (forall id :: id in st.byID ==> Findable(st, id))
            <==> UniqueNames(st) && forall id :: id in st.byID ==> st.byID[id].domain in st.byName
  {
    ExecIsSafe(config, steps, 0);
    var st := Exec(config, steps).store;
    hide Exec, KnownRecord;
    if forall id :: id in st.byID ==> Findable(st, id) {
      forall a, b | a in st.byID && b in st.byID && st.byID[a].domain == st.byID[b].domain ensures a == b {
        assert Findable(st, a) && Findable(st, b);
      }
    }
  }

  ghost predicate UniqueNames(st: DomainState) {
    forall a, b :: a in st.byID && b in st.byID && st.byID[a].domain == st.byID[b].domain ==> a == b
  }

  lemma WriteUnique(st: DomainState, saved: CustomDomain, id: int)
    requires UniqueNames(st) && (id == saved.id || (id !in st.byID && saved.id !in st.byID))
    ensures UniqueNames(st.(byID := st.byID[saved.id := saved]))
            <==> forall k :: k in st.byID && k != id ==> st.byID[k].domain != saved.domain
  {
    var st' := st.(byID := st.byID[saved.id := saved]);
    forall k | k in st.byID && k != id
      ensures UniqueNames(st') ==> st.byID[k].domain != saved.domain
    {
      assert k in st'.byID && k != saved.id && st'.byID[k] == st.byID[k] && st'.byID[saved.id] == saved;
      assert UniqueNames(st') && st'.byID[k].domain == st'.byID[saved.id].domain ==> k == saved.id;
    }
  }

  /** Names stay unique through a write exactly when no other record holds the name at that moment. */
  lemma WriteKeepsUniqueIff(config: ServiceConfig, steps: seq<Step>, r: int, wall: Time)
    requires var s := Exec(config, steps); LocalOf(s, r).Writing? && UniqueNames(s.store)
    ensures var s := Exec(config, steps);
            var d := LocalOf(s, r).record;
            UniqueNames(Next(config, s, Step(r, Write(wall))).store)
            <==> forall id :: id in s.store.byID && id != d.id ==> s.store.byID[id].domain != d.domain
  {
    hide NormalizeDomainName;
    ExecIsSafe(config, steps, 0);
    SafeWriteKeepsUniqueIff(Exec(config, steps), r, LocalOf(Exec(config, steps), r).record, wall);
  }

  lemma SafeWriteKeepsUniqueIff(s: System, r: int, d: CustomDomain, wall: Time)
    requires SafeSystem(s) && r in s.locals && s.locals[r] == Writing(d) && UniqueNames(s.store)
    ensures UniqueNames(DoWrite(s, r, d, wall).store)
            <==> forall id :: id in s.store.byID && id != d.id ==> s.store.byID[id].domain != d.domain
  {
    assert LocalOK(s.identities, s.locals[r]);
    assert 0 !in s.store.byID && s.store.next !in s.store.byID;
    SaveKeepsName(s.store, d, wall);
    WriteUnique(s.store, SaveDomain(s.store, d, wall).1, d.id);
  }

  /** The quota of an owner survives a write exactly when the write replaces a stored record, or the owner has
      no limit, or fewer records than the limit at that moment. */
  lemma WriteKeepsQuotaIff(config: ServiceConfig, steps: seq<Step>, r: int, wall: Time)
    requires var s := Exec(config, steps); LocalOf(s, r).Writing? && WithinQuota(config, s.store)
    ensures var s := Exec(config, steps);
            var d := LocalOf(s, r).record;
            WithinQuota(config, Next(config, s, Step(r, Write(wall))).store)
            <==> || d.id in s.store.byID
                 || LimitFor(config.constraints, d.ownerType) <= 0
                 || |OwnedIDs(s.store, d.ownerType, d.ownerID)| < LimitFor(config.constraints, d.ownerType)
  {
    hide WithinQuota, DoWrite;
    var s := Exec(config, steps);
    ExecIsSafe(config, steps, 0);
    WriteComes(config, s, r, LocalOf(s, r).record, wall);
    SafeWriteKeepsQuotaIff(config, s, r, LocalOf(s, r).record, wall);
  }

  lemma SafeWriteKeepsQuotaIff(config: ServiceConfig, s: System, r: int, d: CustomDomain, wall: Time)
    requires SafeSystem(s) && r in s.locals && s.locals[r] == Writing(d) && WithinQuota(config, s.store)
    ensures WithinQuota(config, DoWrite(s, r, d, wall).store)
            <==> || d.id in s.store.byID
                 || LimitFor(config.constraints, d.ownerType) <= 0
                 || |OwnedIDs(s.store, d.ownerType, d.ownerID)| < LimitFor(config.constraints, d.ownerType)
  {
    hide IsCanonicalName, DoWrite, SaveDomain, WithinQuota;
    assert LocalOK(s.identities, s.locals[r]);
    WriteIsPut(s, r, d, wall);
    assert d.id in s.store.byID ==> IdentityOf(s.store.byID[d.id]) == IdentityOf(d);
    QuotaAfterPut(config, s.store, DoWrite(s, r, d, wall).store, SaveDomain(s.store, d, wall).1);
  }

  lemma QuotaAfterPut(config: ServiceConfig, st: DomainState, st': DomainState, saved: CustomDomain)
    requires WithinQuota(config, st) && st'.byID == st.byID[saved.id := saved]
    requires saved.id in st.byID ==> IdentityOf(st.byID[saved.id]) == IdentityOf(saved)
    ensures WithinQuota(config, st')
            <==> || saved.id in st.byID
                 || LimitFor(config.constraints, saved.ownerType) <= 0
                 || |OwnedIDs(st, saved.ownerType, saved.ownerID)| < LimitFor(config.constraints, saved.ownerType)
  {
    forall t: OwnerType, owner: int
      ensures |OwnedIDs(st', t, owner)| == |OwnedIDs(st, t, owner)| + if saved.id !in st.byID && saved.OwnedBy(t, owner) then 1 else 0
    {
      if saved.id !in st.byID {
        OwnedAfterAdd(st, st', saved.id, saved, t, owner);
      } else {
        assert OwnedIDs(st', t, owner) == OwnedIDs(st, t, owner);
      }
    }
    hide OwnedIDs;
  }

  lemma ExecAppend(config: ServiceConfig, steps: seq<Step>, step: Step)
    ensures Exec(config, steps + [step]) == Next(config, Exec(config, steps), step)
  {
    assert (steps + [step])[..|steps|] == steps;
  }

  datatype Claim = Claim(ownerType: OwnerType, ownerID: int)

  /** Two requests that both count and both look before either writes. */
  function BothLook(a: Claim, b: Claim, name: string, now: Time): seq<Step> {
    [] + [Step(0, CountOwned(a.ownerType, a.ownerID, name))] + [Step(1, CountOwned(b.ownerType, b.ownerID, name))]
       + [Step(0, FindForCreate(now))] + [Step(1, FindForCreate(now))]
  }

  function ClaimedRecord(c: Claim, name: string, now: Time): CustomDomain {
    NewRecord(c.ownerType, c.ownerID, name, now)
  }

  function ClaimCounted(c: Claim, name: string): Local { Counted(c.ownerType, c.ownerID, name, 0) }

  lemma CountFromEmpty(config: ServiceConfig, s: System, r: int, c: Claim, name: string)
    requires NameRefusal(config, name) == None && s.store == EMPTY_STATE && LocalOf(s, r) == Idle
    ensures Next(config, s, Step(r, CountOwned(c.ownerType, c.ownerID, name))) == Put(s, r, ClaimCounted(c, name))
  {
    hide NameRefusal;
    assert OwnedIDs(EMPTY_STATE, c.ownerType, c.ownerID) == {};
  }

  lemma BothCount(config: ServiceConfig, a: Claim, b: Claim, name: string)
    requires NameRefusal(config, name) == None
    ensures Exec(config, [] + [Step(0, CountOwned(a.ownerType, a.ownerID, name))] + [Step(1, CountOwned(b.ownerType, b.ownerID, name))])
            == Put(Put(INITIAL, 0, ClaimCounted(a, name)), 1, ClaimCounted(b, name))
  {
    assert Exec(config, []) == INITIAL;
    hide NameRefusal, Exec, Next, OwnedIDs;
    var steps := [] + [Step(0, CountOwned(a.ownerType, a.ownerID, name))];
    ExecAppend(config, [], steps[0]);
    CountFromEmpty(config, INITIAL, 0, a, name);
    ExecAppend(config, steps, Step(1, CountOwned(b.ownerType, b.ownerID, name)));
    CountFromEmpty(config, Put(INITIAL, 0, ClaimCounted(a, name)), 1, b, name);
  }

  lemma BothMayWrite(config: ServiceConfig, a: Claim, b: Claim, name: string, now: Time)
    requires NameRefusal(config, name) == None
    ensures var s := Exec(config, BothLook(a, b, name, now));
            && s.store == EMPTY_STATE
            && LocalOf(s, 0) == Writing(ClaimedRecord(a, name, now)) && LocalOf(s, 1) == Writing(ClaimedRecord(b, name, now))
  {
    hide NormalizeDomainName, NameRefusal, NewRecord;
    var find := FindForCreate(now);
    var steps := [] + [Step(0, CountOwned(a.ownerType, a.ownerID, name))] + [Step(1, CountOwned(b.ownerType, b.ownerID, name))];
    BothCount(config, a, b, name);
    ExecAppend(config, steps, Step(0, find));
    ExecAppend(config, steps + [Step(0, find)], Step(1, find));
  }

  /** The run in which both look and then both write. */
  function Race(a: Claim, b: Claim, name: string, now: Time, wall: Time): seq<Step> {
    BothLook(a, b, name, now) + [Step(0, Write(wall))] + [Step(1, Write(wall))]
  }

  /** Two registrations of one free name that both look before either writes both succeed, whoever
      the two owners are: the name gets two records, and one owner limited to one domain can hold both. */
  lemma RaceRegistersTwice(config: ServiceConfig, a: Claim, b: Claim, name: string, now: Time, wall: Time)
    requires NameRefusal(config, name) == None
    ensures var st := Exec(config, Race(a, b, name, now, wall)).store;
            && !UniqueNames(st) && st.byID.Keys == {1, 2}
            && SameButStamps(st.byID[1], ClaimedRecord(a, name, now)) && SameButStamps(st.byID[2], ClaimedRecord(b, name, now))
    ensures a == b ==> OwnedIDs(Exec(config, Race(a, b, name, now, wall)).store, a.ownerType, a.ownerID) == {1, 2}
  {
    var steps := BothLook(a, b, name, now);
    BothMayWrite(config, a, b, name, now);
    ExecAppend(config, steps, Step(0, Write(wall)));
    ExecAppend(config, steps + [Step(0, Write(wall))], Step(1, Write(wall)));
    AcceptedNameIsCanonical(name, config.constraints);
    BothWrite(config, Exec(config, steps), ClaimedRecord(a, name, now), ClaimedRecord(b, name, now), wall);
  }

  predicate SameButStamps(stored: CustomDomain, d: CustomDomain) {
    stored == d.(id := stored.id, createdAt := stored.createdAt, updatedAt := stored.updatedAt)
  }

  lemma BothWrite(config: ServiceConfig, s: System, d: CustomDomain, e: CustomDomain, wall: Time)
    requires s.store == EMPTY_STATE && d.id == 0 && e.id == 0 && d.domain == e.domain && IsCanonicalName(d.domain)
    requires LocalOf(s, 0) == Writing(d) && LocalOf(s, 1) == Writing(e)
    ensures var st := Next(config, Next(config, s, Step(0, Write(wall))), Step(1, Write(wall))).store;
            && !UniqueNames(st) && st.byID.Keys == {1, 2}
            && SameButStamps(st.byID[1], d) && SameButStamps(st.byID[2], e)
  {
    hide NormalizeDomainName, IsCanonicalName;
    var s1 := DoWrite(s, 0, d, wall);
    SaveKeepsName(s.store, d, wall);
    SaveKeepsName(s1.store, e, wall);
    var st := DoWrite(s1, 1, e, wall).store;
    assert st.byID.Keys == {1, 2};
    assert st.byID[1].domain == st.byID[2].domain;
  }

  /** Calls whose steps nobody interrupts do exactly what the atomic calls do. */
  lemma UninterruptedCreate(config: ServiceConfig, s: System, r: int, t: OwnerType, owner: int, name: string,
                            now: Time, wall: Time)
    requires LocalOf(s, r) == Idle
    ensures var s1 := Next(config, s, Step(r, CountOwned(t, owner, name)));
            var s2 := Next(config, s1, Step(r, FindForCreate(now)));
            Next(config, s2, Step(r, Write(wall))).store == Apply(config, s.store, Create(t, owner, name), now, wall).0
  {
    hide NormalizeDomainName, ValidateDomainName, NameErrorCode, SaveDomain, NewRecord, OwnedIDs, LimitFor;
    var s1 := Next(config, s, Step(r, CountOwned(t, owner, name)));
    assert s1.store == s.store;
    if NameRefusal(config, name) == None {
      assert s1 == Put(s, r, Counted(t, owner, name, |OwnedIDs(s.store, t, owner)|));
      var s2 := Next(config, s1, Step(r, FindForCreate(now)));
      assert s2.store == s.store;
    }
  }

  lemma UninterruptedEdit(config: ServiceConfig, s: System, r: int, caller: Caller, name: string, edit: Edit,
                          now: Time, wall: Time)
    requires LocalOf(s, r) == Idle
    ensures Next(config, Next(config, s, Step(r, FindForEdit(caller, name, edit, now))), Step(r, Write(wall))).store
            == Apply(config, s.store, EditDomain(caller, name, edit), now, wall).0
  {
    hide EditRecord, LookupFor, SaveDomain;
    assert Next(config, s, Step(r, FindForEdit(caller, name, edit, now))).store == s.store;
  }

  lemma UninterruptedDelete(config: ServiceConfig, s: System, r: int, caller: Caller, name: string, now: Time,
                            wall: Time)
    requires LocalOf(s, r) == Idle
    ensures Next(config, Next(config, s, Step(r, FindForDelete(caller, name))), Step(r, Remove)).store
            == Apply(config, s.store, Delete(caller, name), now, wall).0
  {
    hide LookupFor;
    assert Next(config, s, Step(r, FindForDelete(caller, name))).store == s.store;
  }
}
