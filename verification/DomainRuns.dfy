/** Whole runs of the domain service with each call uninterrupted, from an empty store. */
module DomainRuns {
  import opened GoStrings
  import opened Wrappers
  import opened DomainNames
  import opened DomainModel
  import opened DomainService

  datatype Timed = Timed(call: Call, now: Time, wall: Time)

  ghost function Run(config: ServiceConfig, calls: seq<Timed>): DomainState {
    if calls == [] then EMPTY_STATE
    else
      var last := calls[|calls| - 1];
      Apply(config, Run(config, calls[..|calls| - 1]), last.call, last.now, last.wall).0
  }

  /** The two maps are inverses of each other and identifiers come from the counter. */
  ghost predicate IndexExact(st: DomainState) {
    && (forall id :: id in st.byID ==>
          && st.byID[id].id == id && 1 <= id < st.next
          && st.byID[id].domain in st.byName && st.byName[st.byID[id].domain] == id)
    && (forall n :: n in st.byName ==> st.byName[n] in st.byID && st.byID[st.byName[n]].domain == n)
    && 1 <= st.next
  }

  ghost predicate NameOK(d: CustomDomain) {
    IsCanonicalName(d.domain) && d.isWildcard == HasPrefix(d.domain, "*.")
  }

  predicate OwnerOK(d: CustomDomain) {
    && d.userID == (if d.ownerType == User then d.ownerID else 0)
    && d.organizationID == (if d.ownerType == Org then d.ownerID else 0)
  }

  /** The per-record state machine. A target is recorded by the first successful verification and never cleared. */
  predicate LifecycleOK(d: CustomDomain) {
    && (d.status == StatusActive ==> d.verificationStatus == Verified)
    && (d.verificationStatus == Verified ==> d.status == StatusActive || d.status == StatusSuspended)
    && (d.status == StatusError ==> d.verificationStatus == VerificationFailed)
    && (d.verificationError != "" <==> d.verificationStatus == VerificationFailed)
    && (d.verificationStatus == Verified ==> d.resolvedTarget != "")
    && d.sslError == ""
    && d.sslStatus == (if d.sslEnabled then SSLPending else SSLNone)
    && (d.sslEnabled ==> d.resolvedTarget != "" && d.sslChallenge != "" && d.sslChallenge != CHALLENGE_AUTO)
    && (d.sslEnabled && d.sslChallenge == CHALLENGE_DNS01 ==> d.sslProvider != "")
  }

  ghost predicate RecordsOK(st: DomainState) {
    forall id :: id in st.byID ==> NameOK(st.byID[id]) && OwnerOK(st.byID[id]) && LifecycleOK(st.byID[id])
  }

  ghost predicate WithinQuota(config: ServiceConfig, st: DomainState) {
    forall t: OwnerType, owner: int :: LimitFor(config.constraints, t) > 0 ==>
      |OwnedIDs(st, t, owner)| <= LimitFor(config.constraints, t)
  }

  ghost predicate Reachable(config: ServiceConfig, st: DomainState) {
    IndexExact(st) && RecordsOK(st) && WithinQuota(config, st)
  }

  /** A record with a canonical name is stored under that very name. */
  lemma SaveKeepsName(st: DomainState, d: CustomDomain, wall: Time)
    requires IsCanonicalName(d.domain)
    ensures var (st', saved) := SaveDomain(st, d, wall);
            && saved == d.(id := saved.id, createdAt := saved.createdAt, updatedAt := saved.updatedAt)
            && saved.id == (if d.id == 0 then st.next else d.id)
            && saved.updatedAt == (if d.updatedAt == 0 then wall else d.updatedAt)
            && saved.createdAt == (if d.id == 0 && d.createdAt == 0 then saved.updatedAt else d.createdAt)
            && st' == DomainState(if d.id == 0 then st.next + 1 else st.next, st.byID[saved.id := saved], st.byName[d.domain := saved.id])
  {
    hide IsCanonicalName, NormalizeDomainName;
    CanonicalNameIsFixed(d.domain);
  }

  /** No edit touches the identity, the name or the owner; only a verification touches the target. */
  lemma EditKeepsIdentity(config: ServiceConfig, d: CustomDomain, edit: Edit, now: Time)
    requires EditRecord(config, d, edit, now).Written?
    ensures var w := EditRecord(config, d, edit, now).record;
            && w.id == d.id && w.domain == d.domain && w.isWildcard == d.isWildcard && w.createdAt == d.createdAt
            && w.ownerType == d.ownerType && w.ownerID == d.ownerID && w.userID == d.userID
            && w.organizationID == d.organizationID && w.tenantID == d.tenantID
            && (w.resolvedTarget == d.resolvedTarget || (edit.Verify? && w.resolvedTarget == ProvenTarget(config, edit.dns)))
  {
    match edit
    case Verify(dns) => var target := ProvenTarget(config, dns);
    case ConfigureSSL(wanted, provider) =>
    case _ =>
  }

  /** Each edit stamps the record and changes no other fields than its own. */
  lemma EditTouchesOnly(config: ServiceConfig, d: CustomDomain, edit: Edit, now: Time)
    requires EditRecord(config, d, edit, now).Written?
    ensures var w := EditRecord(config, d, edit, now).record;
            && w.updatedAt == now
            && w.verifiedAt == (if edit.Verify? && w.verificationStatus == Verified then now else d.verifiedAt)
            && (!edit.Verify? ==> w.verificationStatus == d.verificationStatus && w.verificationError == d.verificationError)
            && (edit.Verify? ==> (w.verificationStatus == Verified <==> ProvenTarget(config, edit.dns) != ""))
            && w.suspensionReason == (if edit.Suspend? then TrimSpace(edit.reason) else if edit.Unsuspend? then "" else d.suspensionReason)
            && w.status == (match edit
                            case Suspend(_) => StatusSuspended
                            case Verify(_) => if w.verificationStatus == Verified then StatusActive else StatusError
                            case Unsuspend => if d.verificationStatus == Verified then StatusActive else StatusPending
                            case _ => d.status)
            && w.sslProvider == (if edit.ConfigureSSL? then TrimSpace(ToLower(edit.provider)) else d.sslProvider)
            && (!edit.ConfigureSSL? ==> w.sslEnabled == d.sslEnabled)
            && (!edit.ConfigureSSL? && !edit.RenewSSL? ==>
                  w.sslStatus == d.sslStatus && w.sslError == d.sslError && w.sslChallenge == d.sslChallenge)
            && w.sslIssuedAt == d.sslIssuedAt && w.sslExpiresAt == d.sslExpiresAt
  {
  }

  lemma VerifyKeepsLifecycle(d: CustomDomain, target: string, e: DomainError, now: Time)
    requires LifecycleOK(d) && target != ""
    ensures LifecycleOK(VerifiedRecord(d, target, now))
    ensures LifecycleOK(FailedRecord(d, e, now))
  {
    assert ErrorText(e) != "";
  }

  lemma ConfigureKeepsLifecycle(config: ServiceConfig, d: CustomDomain, wanted: SSLChallenge, provider: string,
                                now: Time)
    requires LifecycleOK(d)
    requires ConfigureOutcome(config, d, wanted, provider, now).Written?
    ensures LifecycleOK(ConfigureOutcome(config, d, wanted, provider, now).record)
  {
    TrimSpaceOfLower(provider);
  }

  lemma EditKeepsLifecycle(config: ServiceConfig, d: CustomDomain, edit: Edit, now: Time)
    requires LifecycleOK(d)
    requires EditRecord(config, d, edit, now).Written?
    ensures LifecycleOK(EditRecord(config, d, edit, now).record)
  {
    match edit
    case Verify(dns) =>
      var target := ProvenTarget(config, dns);
      VerifyKeepsLifecycle(d, if target == "" then "?" else target, if dns.ips.None? then DNSLookupFailed else DNSMismatch, now);
    case ConfigureSSL(wanted, provider) => ConfigureKeepsLifecycle(config, d, wanted, provider, now);
    case _ =>
  }

  /** Writing back a stored record changes no key, owner or name. */
  lemma RewriteKeepsReachable(config: ServiceConfig, st: DomainState, d: CustomDomain, w: CustomDomain, wall: Time)
    requires Reachable(config, st)
    requires d.id in st.byID && st.byID[d.id] == d
    requires w.id == d.id && w.domain == d.domain && w.isWildcard == d.isWildcard
    requires w.ownerType == d.ownerType && w.ownerID == d.ownerID && w.userID == d.userID && w.organizationID == d.organizationID
    requires LifecycleOK(w)
    ensures Reachable(config, SaveDomain(st, w, wall).0)
  {
    hide NormalizeDomainName;
    SaveKeepsName(st, w, wall);
    var st' := SaveDomain(st, w, wall).0;
    forall t: OwnerType, owner: int
      ensures OwnedIDs(st', t, owner) == OwnedIDs(st, t, owner)
    {
      assert forall id :: id in st'.byID ==> (st'.byID[id].OwnedBy(t, owner) <==> st.byID[id].OwnedBy(t, owner));
    }
  }

  lemma CreateKeepsReachable(config: ServiceConfig, st: DomainState, t: OwnerType, owner: int, name: string,
                             now: Time, wall: Time)
    requires Reachable(config, st)
    requires NameRefusal(config, name) == None
    requires CreateRefusal(config, t, |OwnedIDs(st, t, owner)|, FindDomain(st, name).Some?) == None
    ensures Reachable(config, SaveDomain(st, NewRecord(t, owner, name, now), wall).0)
  {
    AcceptedNameIsCanonical(name, config.constraints);
    NewRecordOK(t, owner, name, now);
    var d := NewRecord(t, owner, name, now);
    SaveKeepsName(st, d, wall);
    AddKeepsReachable(config, st, d, SaveDomain(st, d, wall).1);
  }

  lemma NewRecordOK(t: OwnerType, owner: int, name: string, now: Time)
    requires IsCanonicalName(NormalizeDomainName(name))
    ensures var d := NewRecord(t, owner, name, now); NameOK(d) && OwnerOK(d) && LifecycleOK(d)
  {
  }

  ghost function Added(st: DomainState, saved: CustomDomain): DomainState {
    DomainState(st.next + 1, st.byID[st.next := saved], st.byName[saved.domain := st.next])
  }

  lemma AddKeepsReachable(config: ServiceConfig, st: DomainState, d: CustomDomain, saved: CustomDomain)
    requires Reachable(config, st)
    requires NameOK(d) && OwnerOK(d) && LifecycleOK(d) && d.domain !in st.byName
    requires saved == d.(id := st.next, createdAt := saved.createdAt, updatedAt := saved.updatedAt)
    requires CreateRefusal(config, d.ownerType, |OwnedIDs(st, d.ownerType, d.ownerID)|, false) == None
    ensures Reachable(config, Added(st, saved))
  {
    assert IndexExact(Added(st, saved));
    assert NameOK(saved) && OwnerOK(saved) && LifecycleOK(saved);
    assert RecordsOK(Added(st, saved));
    AddKeepsQuota(config, st, saved);
  }

  lemma OwnedAfterAdd(st: DomainState, st': DomainState, id: int, saved: CustomDomain, t: OwnerType, owner: int)
    requires id !in st.byID && st'.byID == st.byID[id := saved]
    ensures OwnedIDs(st', t, owner) == OwnedIDs(st, t, owner) + if saved.OwnedBy(t, owner) then {id} else {}
  {
  }

  lemma AddKeepsQuota(config: ServiceConfig, st: DomainState, saved: CustomDomain)
    requires IndexExact(st) && WithinQuota(config, st)
    requires CreateRefusal(config, saved.ownerType, |OwnedIDs(st, saved.ownerType, saved.ownerID)|, false) == None
    ensures WithinQuota(config, Added(st, saved))
  {
    hide IsCanonicalName, OwnedIDs;
    assert st.next !in st.byID;
    var st' := Added(st, saved);
    forall t: OwnerType, owner: int | LimitFor(config.constraints, t) > 0
      ensures |OwnedIDs(Added(st, saved), t, owner)| <= LimitFor(config.constraints, t)
    {
      OwnedAfterAdd(st, st', st.next, saved, t, owner);
    }
  }

  lemma DeleteKeepsReachable(config: ServiceConfig, st: DomainState, id: int)
    requires Reachable(config, st) && id in st.byID
    ensures Reachable(config, DomainModel.DeleteDomain(st, id).value)
    ensures var st' := DomainModel.DeleteDomain(st, id).value;
            st'.byID == st.byID - {id} && st'.byName.Keys == st.byName.Keys - {st.byID[id].domain}
  {
    var st' := DomainModel.DeleteDomain(st, id).value;
    forall t: OwnerType, owner: int
      ensures |OwnedIDs(st', t, owner)| <= |OwnedIDs(st, t, owner)|
    {
      assert OwnedIDs(st', t, owner) == OwnedIDs(st, t, owner) - {id};
    }
  }

  lemma StepKeepsReachable(config: ServiceConfig, st: DomainState, call: Call, now: Time, wall: Time)
    requires Reachable(config, st)
    ensures Reachable(config, Apply(config, st, call, now, wall).0)
  {
    match call
    case Create(t, owner, name) =>
      if NameRefusal(config, name) == None && CreateRefusal(config, t, |OwnedIDs(st, t, owner)|, FindDomain(st, name).Some?) == None {
        CreateKeepsReachable(config, st, t, owner, name, now, wall);
      }
    case EditDomain(caller, name, edit) =>
      var found := LookupFor(st, caller, name);
      if found.Ok? && EditRecord(config, found.value, edit, now).Written? {
        EditKeepsLifecycle(config, found.value, edit, now);
        EditKeepsIdentity(config, found.value, edit, now);
        RewriteKeepsReachable(config, st, found.value, EditRecord(config, found.value, edit, now).record, wall);
      }
    case Delete(caller, name) =>
      var found := LookupFor(st, caller, name);
      if found.Ok? {
        DeleteKeepsReachable(config, st, found.value.id);
      }
  }

  /** Over every run: the maps stay exact inverses, every record obeys the state machine, quotas hold. */
  lemma {:induction false} RunIsReachable(config: ServiceConfig, calls: seq<Timed>)
    ensures Reachable(config, Run(config, calls))
  {
    if calls == [] {
      forall t: OwnerType, owner: int ensures OwnedIDs(EMPTY_STATE, t, owner) == {} {}
    } else {
      var last := calls[|calls| - 1];
      RunIsReachable(config, calls[..|calls| - 1]);
      StepKeepsReachable(config, Run(config, calls[..|calls| - 1]), last.call, last.now, last.wall);
    }
  }

  /** No user holds more than the limit for users, and no organisation more than the limit for organisations. */
  lemma RunStaysWithinLimits(config: ServiceConfig, calls: seq<Timed>, owner: int)
    ensures config.constraints.maxDomainsPerUser > 0 ==>
              |OwnedIDs(Run(config, calls), User, owner)| <= config.constraints.maxDomainsPerUser
    ensures config.constraints.maxDomainsPerOrg > 0 ==>
              |OwnedIDs(Run(config, calls), Org, owner)| <= config.constraints.maxDomainsPerOrg
  {
    RunIsReachable(config, calls);
    hide Run, OwnedIDs;
  }

  /** A domain name never has two records, whoever owns them. */
  lemma NameHasOneRecord(config: ServiceConfig, calls: seq<Timed>, a: int, b: int)
    requires var st := Run(config, calls); a in st.byID && b in st.byID && st.byID[a].domain == st.byID[b].domain
    ensures a == b
  {
    RunIsReachable(config, calls);
  }

  /** The call finds the record with this identifier and may act on it. */
  predicate Reaches(st: DomainState, caller: Caller, name: string, id: int) {
    LookupFor(st, caller, name).Ok? && LookupFor(st, caller, name).value.id == id
  }

  /** The call is a verification that reaches the record and finds a target for it. */
  predicate Verifies(config: ServiceConfig, st: DomainState, call: Call, id: int) {
    call.EditDomain? && call.edit.Verify? && Reaches(st, call.caller, call.target, id) && ProvenTarget(config, call.edit.dns) != ""
  }

  /** Some earlier call of the run verified this very record. */
  ghost predicate VerifiedBefore(config: ServiceConfig, calls: seq<Timed>, id: int) {
    exists k :: 0 <= k < |calls| && Verifies(config, Run(config, calls[..k]), calls[k].call, id)
  }

  lemma StepTargets(config: ServiceConfig, st: DomainState, call: Call, now: Time, wall: Time, id: int)
    requires Reachable(config, st)
    requires var st' := Apply(config, st, call, now, wall).0; id in st'.byID && st'.byID[id].resolvedTarget != ""
    ensures (id in st.byID && st.byID[id].resolvedTarget != "") || Verifies(config, st, call, id)
  {
    hide NormalizeDomainName, ProvenTarget;
    match call
    case Create(t, owner, name) =>
      if NameRefusal(config, name) == None {
        AcceptedNameIsCanonical(name, config.constraints);
        SaveKeepsName(st, NewRecord(t, owner, name, now), wall);
      }
    case EditDomain(caller, name, edit) =>
      var found := LookupFor(st, caller, name);
      if found.Ok? && EditRecord(config, found.value, edit, now).Written? {
        EditKeepsIdentity(config, found.value, edit, now);
        SaveKeepsName(st, EditRecord(config, found.value, edit, now).record, wall);
      }
    case Delete(caller, name) =>
  }

  /** SSL is only ever enabled, and a domain active, on a record that an earlier call of the same run reached
      and verified. */
  lemma {:induction false} TargetNeedsVerification(config: ServiceConfig, calls: seq<Timed>, id: int)
    requires id in Run(config, calls).byID
    requires var d := Run(config, calls).byID[id]; d.resolvedTarget != "" || d.sslEnabled || d.status == StatusActive
    ensures VerifiedBefore(config, calls, id)
  {
    TargetRecorded(config, calls, id);
    hide Reachable, Apply, LifecycleOK, Verifies;
    var n := |calls| - 1;
    var prefix, last := calls[..n], calls[n];
    assert Run(config, calls) == Apply(config, Run(config, prefix), last.call, last.now, last.wall).0;
    hide Run;
    RunIsReachable(config, prefix);
    StepTargets(config, Run(config, prefix), last.call, last.now, last.wall, id);
    if !Verifies(config, Run(config, prefix), last.call, id) {
      TargetNeedsVerification(config, prefix, id);
      var k :| 0 <= k < n && Verifies(config, Run(config, prefix[..k]), prefix[k].call, id);
      assert prefix[..k] == calls[..k] && prefix[k] == calls[k];
    }
  }

  lemma TargetRecorded(config: ServiceConfig, calls: seq<Timed>, id: int)
    requires id in Run(config, calls).byID
    requires var d := Run(config, calls).byID[id]; d.resolvedTarget != "" || d.sslEnabled || d.status == StatusActive
    ensures Run(config, calls).byID[id].resolvedTarget != "" && calls != []
  {
    RunIsReachable(config, calls);
  }

  predicate Suspended(st: DomainState, id: int) {
    id in st.byID && st.byID[id].status == StatusSuspended
  }

  /** The call is a suspension that reaches the record. */
  predicate Suspends(st: DomainState, call: Call, id: int) {
    call.EditDomain? && call.edit.Suspend? && Reaches(st, call.caller, call.target, id)
  }

  /** The call is a verification, whatever DNS answers, a lifting of the suspension or a deletion that
      reaches the record. */
  predicate Lifts(st: DomainState, call: Call, id: int) {
    || (call.EditDomain? && (call.edit.Verify? || call.edit.Unsuspend?) && Reaches(st, call.caller, call.target, id))
    || (call.Delete? && Reaches(st, call.who, call.victim, id))
  }

  /** A suspension outlives a written edit exactly when the edit neither verifies nor lifts. */
  lemma EditKeepsSuspensionIff(config: ServiceConfig, d: CustomDomain, edit: Edit, now: Time)
    requires d.status == StatusSuspended && EditRecord(config, d, edit, now).Written?
    ensures EditRecord(config, d, edit, now).record.status == StatusSuspended <==> !edit.Verify? && !edit.Unsuspend?
  {
    EditTouchesOnly(config, d, edit, now);
  }

  /** After a call a record is suspended exactly when the call suspends it, or it was suspended before and
      the call does not lift that. */
  lemma SuspendedStepIff(config: ServiceConfig, st: DomainState, call: Call, now: Time, wall: Time, id: int)
    requires Reachable(config, st)
    ensures Suspended(Apply(config, st, call, now, wall).0, id) <==> Suspends(st, call, id) || (Suspended(st, id) && !Lifts(st, call, id))
  {
    hide NormalizeDomainName, ProvenTarget, IsCanonicalName;
    match call
    case Create(t, owner, name) =>
      if NameRefusal(config, name) == None {
        AcceptedNameIsCanonical(name, config.constraints);
        SaveKeepsName(st, NewRecord(t, owner, name, now), wall);
      }
    case EditDomain(caller, name, edit) =>
      var found := LookupFor(st, caller, name);
      if found.Ok? && EditRecord(config, found.value, edit, now).Written? {
        EditTouchesOnly(config, found.value, edit, now);
        EditKeepsIdentity(config, found.value, edit, now);
        hide EditRecord;
        SaveKeepsName(st, EditRecord(config, found.value, edit, now).record, wall);
      }
    case Delete(caller, name) =>
  }

  /** Call `k` of the run suspended the record and no later call lifted that. */
  ghost predicate LastSuspension(config: ServiceConfig, calls: seq<Timed>, id: int, k: int) {
    && 0 <= k < |calls| && Suspends(Run(config, calls[..k]), calls[k].call, id)
    && forall m :: k < m < |calls| ==> !Lifts(Run(config, calls[..m]), calls[m].call, id)
  }

  lemma LastSuspensionStep(config: ServiceConfig, calls: seq<Timed>, id: int)
    requires calls != []
    ensures var n := |calls| - 1;
            (exists k :: LastSuspension(config, calls, id, k))
            <==> Suspends(Run(config, calls[..n]), calls[n].call, id)
                 || (!Lifts(Run(config, calls[..n]), calls[n].call, id) && exists k :: LastSuspension(config, calls[..n], id, k))
  {
    hide Run, Suspends, Lifts;
    var n := |calls| - 1;
    var init := calls[..n];
    assert forall k :: 0 <= k < n ==> init[..k] == calls[..k] && init[k] == calls[k];
    if k :| LastSuspension(config, calls, id, k) { assert k < n ==> LastSuspension(config, init, id, k); }
    if Suspends(Run(config, calls[..n]), calls[n].call, id) { assert LastSuspension(config, calls, id, n); }
    if !Lifts(Run(config, calls[..n]), calls[n].call, id) {
      if k :| LastSuspension(config, init, id, k) { assert LastSuspension(config, calls, id, k); }
    }
  }

  /** After any run a record is suspended exactly when some call suspended it and no later call verified it,
      lifted the suspension or deleted it. */
  lemma {:induction false} SuspendedIff(config: ServiceConfig, calls: seq<Timed>, id: int)
    ensures Suspended(Run(config, calls), id) <==> exists k :: LastSuspension(config, calls, id, k)
  {
    if calls != [] {
      var n := |calls| - 1;
      SuspendedIff(config, calls[..n], id);
      RunIsReachable(config, calls[..n]);
      SuspendedStepIff(config, Run(config, calls[..n]), calls[n].call, calls[n].now, calls[n].wall, id);
      LastSuspensionStep(config, calls, id);
    }
  }

  ghost predicate StaysSuspended(config: ServiceConfig, calls: seq<Timed>, i: nat, id: int) {
    forall n :: i <= n <= |calls| ==> Suspended(Run(config, calls[..n]), id)
  }

  ghost predicate NeverLifted(config: ServiceConfig, calls: seq<Timed>, i: nat, id: int) {
    forall k :: i <= k < |calls| ==> !Lifts(Run(config, calls[..k]), calls[k].call, id)
  }

  lemma OneCallMoreSuspended(config: ServiceConfig, calls: seq<Timed>, init: seq<Timed>, i: nat, id: int)
    requires i < |calls| && init == calls[..|calls| - 1]
    ensures StaysSuspended(config, calls, i, id) <==> StaysSuspended(config, init, i, id) && Suspended(Run(config, calls), id)
  {
    hide Run, Suspended;
    assert calls[..|calls|] == calls;
    if StaysSuspended(config, calls, i, id) {
      forall k | i <= k <= |init| ensures Suspended(Run(config, init[..k]), id) { assert init[..k] == calls[..k]; }
    }
    if StaysSuspended(config, init, i, id) && Suspended(Run(config, calls), id) {
      forall k | i <= k <= |calls| ensures Suspended(Run(config, calls[..k]), id) {
        if k < |calls| { assert init[..k] == calls[..k]; }
      }
    }
  }

  lemma OneCallMoreLifted(config: ServiceConfig, calls: seq<Timed>, init: seq<Timed>, i: nat, id: int)
    requires i < |calls| && init == calls[..|calls| - 1]
    ensures var last := calls[|calls| - 1].call;
            NeverLifted(config, calls, i, id) <==> NeverLifted(config, init, i, id) && !Lifts(Run(config, init), last, id)
  {
    hide Run, Lifts;
    if NeverLifted(config, calls, i, id) {
      forall k | i <= k < |init| ensures !Lifts(Run(config, init[..k]), init[k].call, id) { assert init[..k] == calls[..k]; }
    }
    if NeverLifted(config, init, i, id) && !Lifts(Run(config, init), calls[|calls| - 1].call, id) {
      forall k | i <= k < |calls| ensures !Lifts(Run(config, calls[..k]), calls[k].call, id) {
        if k < |init| { assert init[..k] == calls[..k] && init[k] == calls[k]; }
      }
    }
  }

  /** From call `i` on, a suspended record stays suspended throughout exactly when no call verifies it, lifts
      the suspension or deletes it. */
  lemma {:induction false} SuspensionLastsIff(config: ServiceConfig, calls: seq<Timed>, i: nat, id: int)
    requires i <= |calls| && Suspended(Run(config, calls[..i]), id)
    ensures StaysSuspended(config, calls, i, id) <==> NeverLifted(config, calls, i, id)
    decreases |calls|
  {
    hide Suspended, Lifts, Suspends, Run, Apply;
    if i < |calls| {
      var n := |calls| - 1;
      var init := calls[..n];
      assert init[..i] == calls[..i] && init[..n] == init;
      SuspensionLastsIff(config, init, i, id);
      OneCallMoreSuspended(config, calls, init, i, id);
      OneCallMoreLifted(config, calls, init, i, id);
      RunStep(config, calls);
      RunIsReachable(config, init);
      SuspendedStepIff(config, Run(config, init), calls[n].call, calls[n].now, calls[n].wall, id);
      SuspendsIsNoLift(Run(config, init), calls[n].call, id);
    }
  }

  lemma RunStep(config: ServiceConfig, calls: seq<Timed>)
    requires calls != []
    ensures var n := |calls| - 1;
            Run(config, calls) == Apply(config, Run(config, calls[..n]), calls[n].call, calls[n].now, calls[n].wall).0
  {
  }

  lemma SuspendsIsNoLift(st: DomainState, call: Call, id: int)
    ensures !(Suspends(st, call, id) && Lifts(st, call, id))
  {
  }

  /** On a record that a run can produce, a renewal only moves the update time: it never selects a
      challenge again. The resolver's status-only test agrees with `IsActive`. */
  lemma RenewOnlyTouchesTime(config: ServiceConfig, calls: seq<Timed>, id: int, now: Time)
    requires id in Run(config, calls).byID
    ensures var d := Run(config, calls).byID[id];
            && (d.status == StatusActive <==> d.IsActive())
            && EditRecord(config, d, RenewSSL, now)
               == if d.sslEnabled then Written(d.(updatedAt := now), None) else Refused(DomainNotVerified)
  {
    hide NormalizeDomainName, IsCanonicalName;
    RunIsReachable(config, calls);
  }
}
