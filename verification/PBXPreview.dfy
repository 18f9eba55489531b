/** The apply preview: which problems the PBX plan has against the detected inventory. */
module PBXPreview {
  import opened GoStrings
  import opened PBX
  import opened Asterisk

  datatype Validation =
    | QueuesUnavailable
    | ConferencesUnavailable
    | PromptsUnavailable
    | NoChannelDrivers
    | TechnologyMissing(technology: string)

  function NormalTechnology(s: string): string { ToLower(TrimSpace(s)) }

  function TechnologyOf(e: Entity): string {
    if e.Extension? || e.Trunk? || e.ProvisioningProfile? then e.technology else ""
  }

  /** The normalised technologies of a list of entities, blanks included. */
  function Technologies(list: seq<Entity>): (r: seq<string>)
    ensures |r| == |list|
    ensures forall i :: 0 <= i < |list| ==> r[i] == NormalTechnology(TechnologyOf(list[i]))
  {
    seq(|list|, i requires 0 <= i < |list| => NormalTechnology(TechnologyOf(list[i])))
  }

  /** Everything the plan refers to, in the order the preview visits it. */
  function Referenced(plan: Plan): seq<string> {
    Technologies(plan.Of(ExtensionKind)) + Technologies(plan.Of(TrunkKind)) + Technologies(plan.Of(ProfileKind))
  }

  /** Each non-blank string once, where it first occurs. */
  function FirstSeen(all: seq<string>): seq<string> {
    if all == [] then []
    else
      var seen, last := FirstSeen(all[..|all| - 1]), all[|all| - 1];
      if last == "" || last in seen then seen else seen + [last]
  }

  predicate FirstOccursAt(all: seq<string>, s: string, k: int) {
    0 <= k < |all| && all[k] == s && s !in all[..k]
  }

  /** `FirstSeen` lists exactly the distinct non-blank strings. */
  lemma {:induction false} FirstSeenIsDistinct(all: seq<string>)
    ensures forall s :: s in FirstSeen(all) <==> s in all && s != ""
    ensures forall i, j :: 0 <= i < j < |FirstSeen(all)| ==> FirstSeen(all)[i] != FirstSeen(all)[j]
  {
    if all != [] {
      var init, last := all[..|all| - 1], all[|all| - 1];
      FirstSeenIsDistinct(init);
      assert all == init + [last];
    }
  }

  lemma OccursEarlier(all: seq<string>, s: string, k: int)
    requires all != [] && s in all[..|all| - 1] && FirstOccursAt(all, s, k)
    ensures k < |all| - 1 && FirstOccursAt(all[..|all| - 1], s, k)
  {
    var init := all[..|all| - 1];
    if k < |all| - 1 {
      assert init[..k] == all[..k];
    }
  }

  /** It lists them in the order of their first occurrences. */
  lemma {:induction false} FirstSeenInOrder(all: seq<string>, i: nat, j: nat, k: int, m: int)
    requires i < j < |FirstSeen(all)|
    requires FirstOccursAt(all, FirstSeen(all)[i], k) && FirstOccursAt(all, FirstSeen(all)[j], m)
    ensures k < m
  {
    var n := |all| - 1;
    var init, last := all[..n], all[n];
    var seen := FirstSeen(init);
    FirstSeenIsDistinct(init);
    assert seen[i] in init;
    OccursEarlier(all, seen[i], k);
    if j < |seen| {
      assert seen[j] in init;
      OccursEarlier(all, seen[j], m);
      FirstSeenInOrder(init, i, j, k, m);
    } else {
      assert last !in init;
      assert forall x :: 0 <= x < n ==> init[x] == all[x] && init[x] != last;
    }
  }

  /** `listContainsFold`. */
  predicate ContainsFold(values: seq<string>, target: string) {
    exists i :: 0 <= i < |values| && ToLower(TrimSpace(values[i])) == ToLower(TrimSpace(target))
  }

  predicate Missing(state: AsteriskState, technology: string) {
    !ContainsFold(state.channelDrivers, technology) && !ContainsFold(state.endpointStacks, technology)
  }

  function MissingWarnings(state: AsteriskState, technologies: seq<string>): seq<Validation> {
    if technologies == [] then []
    else
      var last := technologies[|technologies| - 1];
      MissingWarnings(state, technologies[..|technologies| - 1]) + if Missing(state, last) then [TechnologyMissing(last)] else []
  }

  lemma {:induction false} OneWarningEach(state: AsteriskState, technologies: seq<string>, t: string)
    requires forall i, j :: 0 <= i < j < |technologies| ==> technologies[i] != technologies[j]
    ensures multiset(MissingWarnings(state, technologies))[TechnologyMissing(t)]
            == if t in technologies && Missing(state, t) then 1 else 0
    ensures forall v :: v in MissingWarnings(state, technologies) ==> v.TechnologyMissing?
  {
    hide Missing;
    if technologies != [] {
      var init, last := technologies[..|technologies| - 1], technologies[|technologies| - 1];
      OneWarningEach(state, init, t);
      assert technologies == init + [last];
    }
  }

  /** The capabilities a plan may need. */
  datatype Offer = Offer(queues: bool, conferences: bool, prompts: bool, drivers: bool)

  function OfferOf(state: AsteriskState): Offer {
    Offer(HasAnyCapability(state, ["queues"]), HasAnyCapability(state, ["conferences"]),
          HasAnyCapability(state, ["prompts", "recordings"]), |state.channelDrivers| > 0)
  }

  predicate NeedsPrompts(plan: Plan) { |plan.Of(IVRKind)| > 0 || |plan.Of(PromptKind)| > 0 }

  predicate NeedsDrivers(plan: Plan) {
    |plan.Of(ExtensionKind)| > 0 || |plan.Of(TrunkKind)| > 0 || |plan.Of(ProfileKind)| > 0
  }

  function CapabilityProblems(plan: Plan, offer: Offer): seq<Validation> {
    (if |plan.Of(QueueKind)| > 0 && !offer.queues then [QueuesUnavailable] else [])
    + (if |plan.Of(ConferenceKind)| > 0 && !offer.conferences then [ConferencesUnavailable] else [])
    + (if NeedsPrompts(plan) && !offer.prompts then [PromptsUnavailable] else [])
    + (if NeedsDrivers(plan) && !offer.drivers then [NoChannelDrivers] else [])
  }

  function Validations(plan: Plan, state: AsteriskState): seq<Validation> {
    CapabilityProblems(plan, OfferOf(state)) + MissingWarnings(state, FirstSeen(Referenced(plan)))
  }

  /** One pass of the `record` closure over normalised technologies. */
  method RecordAll(technologies: seq<string>, values: seq<string>, seen: set<string>, ghost before: seq<string>)
    returns (values': seq<string>, seen': set<string>)
    requires values == FirstSeen(before) && seen == set s | s in values
    ensures values' == FirstSeen(before + technologies) && seen' == set s | s in values'
  {
    hide FirstSeen;
    values', seen' := values, seen;
    ghost var all := before + technologies;
    assert all[..|before|] == before;
    for index := 0 to |technologies|
      invariant values' == FirstSeen(all[..|before| + index])
      invariant seen' == set s | s in values'
    {
      var normalized := technologies[index];
      assert all[|before| + index] == normalized;
      FirstSeenStep(all, |before| + index);
      if normalized != "" && normalized !in seen' {
        seen' := seen' + {normalized};
        values' := values' + [normalized];
      }
    }
    assert all[..|before| + |technologies|] == all;
  }

  lemma FirstSeenStep(all: seq<string>, n: nat)
    requires n < |all|
    ensures var seen := FirstSeen(all[..n]);
            FirstSeen(all[..n + 1]) == if all[n] == "" || all[n] in seen then seen else seen + [all[n]]
  {
    assert all[..n + 1][..n] == all[..n];
  }

  /** `referencedTechnologies`: extensions, then trunks, then provisioning profiles. */
  method ReferencedTechnologies(plan: Plan) returns (values: seq<string>)
    ensures values == FirstSeen(Referenced(plan))
  {
    values := RecordThree(Technologies(plan.Of(ExtensionKind)), Technologies(plan.Of(TrunkKind)),
                          Technologies(plan.Of(ProfileKind)));
  }

  method RecordThree(a: seq<string>, b: seq<string>, c: seq<string>) returns (values: seq<string>)
    ensures values == FirstSeen(a + b + c)
  {
    var seen: set<string> := {};
    values := [];
    values, seen := RecordAll(a, values, seen, []);
    assert [] + a == a;
    values, seen := RecordAll(b, values, seen, a);
    values, seen := RecordAll(c, values, seen, a + b);
  }

  method ApplyPreview(plan: Plan, state: AsteriskState) returns (validations: seq<Validation>)
    ensures validations == Validations(plan, state)
  {
    hide Missing, Referenced, FirstSeen, CapabilityProblems, OfferOf;
    var offer := OfferOf(state);
    var problems := CapabilityPass(plan, offer);
    var technologies := ReferencedTechnologies(plan);
    validations := problems;
    for index := 0 to |technologies|
      invariant validations == problems + MissingWarnings(state, technologies[..index])
    {
      assert technologies[..index + 1][..index] == technologies[..index];
      if Missing(state, technologies[index]) {
        validations := validations + [TechnologyMissing(technologies[index])];
      }
    }
    assert technologies[..|technologies|] == technologies;
  }

  method CapabilityPass(plan: Plan, offer: Offer) returns (validations: seq<Validation>)
    ensures validations == CapabilityProblems(plan, offer)
  {
    validations := [];
    if |plan.Of(QueueKind)| > 0 && !offer.queues {
      validations := validations + [QueuesUnavailable];
    }
    if |plan.Of(ConferenceKind)| > 0 && !offer.conferences {
      validations := validations + [ConferencesUnavailable];
    }
    if (|plan.Of(IVRKind)| > 0 || |plan.Of(PromptKind)| > 0) && !offer.prompts {
      validations := validations + [PromptsUnavailable];
    }
    if (|plan.Of(ExtensionKind)| > 0 || |plan.Of(TrunkKind)| > 0 || |plan.Of(ProfileKind)| > 0) && !offer.drivers {
      validations := validations + [NoChannelDrivers];
    }
  }

  /** Some channel driver or endpoint stack carries that name, up to case and surrounding blanks. */
  ghost predicate Offered(state: AsteriskState, t: string) {
    exists d :: (d in state.channelDrivers || d in state.endpointStacks) && ToLower(TrimSpace(d)) == t
  }

  /** Some extension, trunk or provisioning profile names that technology. */
  ghost predicate Names(plan: Plan, t: string) {
    exists e :: (e in plan.Of(ExtensionKind) || e in plan.Of(TrunkKind) || e in plan.Of(ProfileKind))
                && (e.Extension? || e.Trunk? || e.ProvisioningProfile?) && ToLower(TrimSpace(e.technology)) == t
  }

  lemma ReferencedIff(plan: Plan, t: string)
    requires t != ""
    ensures t in Referenced(plan) <==> Names(plan, t)
    ensures t in Referenced(plan) ==> ToLower(TrimSpace(t)) == t
  {
    assert TrimSpace("") == "" && ToLower("") == "";
    hide TrimSpace, ToLower;
    var e1, e2, e3 := plan.Of(ExtensionKind), plan.Of(TrunkKind), plan.Of(ProfileKind);
    NamedIff(e1, t);
    NamedIff(e2, t);
    NamedIff(e3, t);
    if t in Referenced(plan) {
      assert t in Technologies(e1) || t in Technologies(e2) || t in Technologies(e3);
    }
  }

  lemma NamedIff(list: seq<Entity>, t: string)
    requires t != "" && NormalTechnology("") == ""
    ensures t in Technologies(list) <==> exists e :: e in list && (e.Extension? || e.Trunk? || e.ProvisioningProfile?)
                                                     && ToLower(TrimSpace(e.technology)) == t
    ensures t in Technologies(list) ==> ToLower(TrimSpace(t)) == t
  {
    hide TrimSpace, ToLower;
    var r := Technologies(list);
    if t in r {
      var i :| 0 <= i < |r| && r[i] == t;
      assert list[i] in list;
      LowerOfTrimmed(TechnologyOf(list[i]));
    }
    if e :| e in list && (e.Extension? || e.Trunk? || e.ProvisioningProfile?) && ToLower(TrimSpace(e.technology)) == t {
      var i :| 0 <= i < |list| && list[i] == e;
      assert r[i] == t;
    }
  }

  lemma MissingIff(state: AsteriskState, t: string)
    requires ToLower(TrimSpace(t)) == t
    ensures Missing(state, t) <==> !Offered(state, t)
  {
    hide TrimSpace, ToLower;
    assert ContainsFold(state.channelDrivers, t) <==> exists d :: d in state.channelDrivers && ToLower(TrimSpace(d)) == t;
    assert ContainsFold(state.endpointStacks, t) <==> exists d :: d in state.endpointStacks && ToLower(TrimSpace(d)) == t;
  }

  /** A preview warns once about each technology that the plan names and neither drivers nor stacks offer,
      and about no other technology. */
  lemma OneWarningPerMissingTechnology(plan: Plan, state: AsteriskState, t: string)
    ensures multiset(Validations(plan, state))[TechnologyMissing(t)]
            == if t != "" && Names(plan, t) && !Offered(state, t) then 1 else 0
  {
    hide Missing, Offered, Names, Referenced, CapabilityProblems, OfferOf, FirstSeen;
    FirstSeenIsDistinct(Referenced(plan));
    OneWarningEach(state, FirstSeen(Referenced(plan)), t);
    NoProblemsIff(plan, OfferOf(state));
    var problems, v := CapabilityProblems(plan, OfferOf(state)), TechnologyMissing(t);
    assert v !in problems;
    if t != "" {
      ReferencedIff(plan, t);
      if t in Referenced(plan) { MissingIff(state, t); }
    }
  }

  /** Each of the four other codes comes up exactly when the plan needs the capability and the inventory lacks it. */
  lemma CapabilityCodesIff(plan: Plan, state: AsteriskState)
    ensures var r := Validations(plan, state);
            && (QueuesUnavailable in r <==> plan.Of(QueueKind) != [] && !HasCapability(state, "queues"))
            && (ConferencesUnavailable in r <==> plan.Of(ConferenceKind) != [] && !HasCapability(state, "conferences"))
            && (PromptsUnavailable in r <==> (plan.Of(IVRKind) != [] || plan.Of(PromptKind) != [])
                                             && !HasCapability(state, "prompts") && !HasCapability(state, "recordings"))
            && (NoChannelDrivers in r <==> (plan.Of(ExtensionKind) != [] || plan.Of(TrunkKind) != [] || plan.Of(ProfileKind) != [])
                                           && state.channelDrivers == [])
  {
    hide HasCapability, HasAnyCapability, Missing, Referenced, FirstSeen, MissingWarnings, CapabilityProblems, Plan.Of;
    OneKey(state, "queues");
    OneKey(state, "conferences");
    TwoKeys(state, "prompts", "recordings");
    CodesFor(plan, OfferOf(state));
    FirstSeenIsDistinct(Referenced(plan));
    OneWarningEach(state, FirstSeen(Referenced(plan)), "");
  }

  lemma CodesFor(plan: Plan, offer: Offer)
    ensures var p := CapabilityProblems(plan, offer);
            && (QueuesUnavailable in p <==> plan.Of(QueueKind) != [] && !offer.queues)
            && (ConferencesUnavailable in p <==> plan.Of(ConferenceKind) != [] && !offer.conferences)
            && (PromptsUnavailable in p <==> NeedsPrompts(plan) && !offer.prompts)
            && (NoChannelDrivers in p <==> NeedsDrivers(plan) && !offer.drivers)
  {
    hide Plan.Of;
  }

  /** Codes come in one fixed order, technologies last and in the order in which the plan first names them. */
  function Rank(v: Validation): nat {
    match v
    case QueuesUnavailable => 0
    case ConferencesUnavailable => 1
    case PromptsUnavailable => 2
    case NoChannelDrivers => 3
    case TechnologyMissing(_) => 4
  }

  lemma PreviewOrder(plan: Plan, state: AsteriskState, i: nat, j: nat)
    requires i < j < |Validations(plan, state)|
    ensures var r := Validations(plan, state);
            && Rank(r[i]) <= Rank(r[j])
            && (r[i].TechnologyMissing? && r[j].TechnologyMissing? ==>
                  forall k, m :: FirstOccursAt(Referenced(plan), r[i].technology, k) && FirstOccursAt(Referenced(plan), r[j].technology, m)
                                 ==> k < m)
  {
    hide Missing, MissingWarnings, Referenced, FirstSeen, OfferOf, FirstOccursAt, CapabilityProblems;
    var problems, technologies := CapabilityProblems(plan, OfferOf(state)), FirstSeen(Referenced(plan));
    FirstSeenIsDistinct(Referenced(plan));
    OneWarningEach(state, technologies, "");
    NoProblemsIff(plan, OfferOf(state));
    ProblemsInOrder(plan, OfferOf(state));
    var warnings, n := MissingWarnings(state, technologies), |problems|;
    assert forall x :: 0 <= x < |warnings| ==> warnings[x] in warnings;
    assert forall x :: 0 <= x < n ==> problems[x] in problems;
    if i >= n { WarningsInOrder(plan, state, i - n, j - n); }
  }

  lemma ProblemsInOrder(plan: Plan, offer: Offer)
    ensures var p := CapabilityProblems(plan, offer); forall i, j :: 0 <= i < j < |p| ==> Rank(p[i]) <= Rank(p[j])
  {
  }

  lemma WarningsInOrder(plan: Plan, state: AsteriskState, i: nat, j: nat)
    requires i < j < |MissingWarnings(state, FirstSeen(Referenced(plan)))|
    ensures var all := Referenced(plan);
            var warnings := MissingWarnings(state, FirstSeen(all));
            && warnings[i].TechnologyMissing? && warnings[j].TechnologyMissing?
            && forall k, m :: FirstOccursAt(all, warnings[i].technology, k) && FirstOccursAt(all, warnings[j].technology, m) ==> k < m
  {
    hide Missing, MissingWarnings, Referenced, FirstSeen, FirstOccursAt;
    var all := Referenced(plan);
    var technologies := FirstSeen(all);
    var a, b := WarningsKeepOrder(state, technologies, i, j);
    forall k, m | FirstOccursAt(all, technologies[a], k) && FirstOccursAt(all, technologies[b], m) ensures k < m {
      FirstSeenInOrder(all, a, b, k, m);
    }
  }

  lemma {:induction false} WarningsKeepOrder(state: AsteriskState, technologies: seq<string>, i: nat, j: nat) returns (a: nat, b: nat)
    requires i < j < |MissingWarnings(state, technologies)|
    ensures a < b < |technologies|
    ensures MissingWarnings(state, technologies)[i] == TechnologyMissing(technologies[a])
    ensures MissingWarnings(state, technologies)[j] == TechnologyMissing(technologies[b])
  {
    hide Missing;
    var n := |technologies| - 1;
    var init := technologies[..n];
    if j < |MissingWarnings(state, init)| {
      a, b := WarningsKeepOrder(state, init, i, j);
    } else {
      a := WarningIsOf(state, init, i);
      b := n;
    }
  }

  lemma {:induction false} WarningIsOf(state: AsteriskState, technologies: seq<string>, i: nat) returns (a: nat)
    requires i < |MissingWarnings(state, technologies)|
    ensures a < |technologies| && MissingWarnings(state, technologies)[i] == TechnologyMissing(technologies[a])
  {
    hide Missing;
    var n := |technologies| - 1;
    if i < |MissingWarnings(state, technologies[..n])| {
      a := WarningIsOf(state, technologies[..n], i);
    } else {
      a := n;
    }
  }

  /** A preview is clean exactly when every needed capability is there, some channel driver is there if
      anything needs one, and every technology the plan names is offered. */
  lemma CleanPreviewIff(plan: Plan, state: AsteriskState)
    ensures Validations(plan, state) == [] <==>
              && (plan.Of(QueueKind) != [] ==> HasCapability(state, "queues"))
              && (plan.Of(ConferenceKind) != [] ==> HasCapability(state, "conferences"))
              && (plan.Of(IVRKind) != [] || plan.Of(PromptKind) != [] ==>
                    HasCapability(state, "prompts") || HasCapability(state, "recordings"))
              && (plan.Of(ExtensionKind) != [] || plan.Of(TrunkKind) != [] || plan.Of(ProfileKind) != [] ==>
                    state.channelDrivers != [])
              && (forall t :: Names(plan, t) && t != "" ==> Offered(state, t))
  {
    hide HasCapability, HasAnyCapability, Missing, Referenced, FirstSeen, Names, Offered;
    var technologies := FirstSeen(Referenced(plan));
    FirstSeenIsDistinct(Referenced(plan));
    NoWarningsIff(state, technologies);
    OneKey(state, "queues");
    OneKey(state, "conferences");
    TwoKeys(state, "prompts", "recordings");
    NoProblemsIff(plan, OfferOf(state));
    forall t | t != "" ensures (t in technologies && Missing(state, t)) <==> (Names(plan, t) && !Offered(state, t)) {
      ReferencedIff(plan, t);
      if t in Referenced(plan) { MissingIff(state, t); }
    }
  }

  lemma NoProblemsIff(plan: Plan, offer: Offer)
    ensures CapabilityProblems(plan, offer) == [] <==>
              && (|plan.Of(QueueKind)| > 0 ==> offer.queues) && (|plan.Of(ConferenceKind)| > 0 ==> offer.conferences)
              && (NeedsPrompts(plan) ==> offer.prompts) && (NeedsDrivers(plan) ==> offer.drivers)
    ensures forall v :: v in CapabilityProblems(plan, offer) ==> !v.TechnologyMissing?
  {
  }

  lemma {:induction false} NoWarningsIff(state: AsteriskState, technologies: seq<string>)
    ensures MissingWarnings(state, technologies) == [] <==> forall t :: t in technologies ==> !Missing(state, t)
  {
    hide Missing;
    if technologies != [] {
      var init, last := technologies[..|technologies| - 1], technologies[|technologies| - 1];
      NoWarningsIff(state, init);
      assert technologies == init + [last];
    }
  }
}
