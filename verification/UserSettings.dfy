/** Per-user communication settings: what is stored, what the inventory overlays, what an update accepts. */
module UserSettings {
  import opened GoStrings
  import opened Wrappers
  import opened PBX
  import opened PBXRuns
  import opened Asterisk
  import Contacts

  datatype Settings = Settings(
    userID: int,
    extensionID: int,
    doNotDisturb: bool,
    callForwardingTarget: string,
    voicemailEnabled: bool,
    webphoneEnabled: bool,
    presenceEnabled: bool,
    messagingEnabled: bool,
    preferredEndpoint: string,
    preferredContactEmail: string,
    updatedAt: Time)

  function DefaultSettings(userID: int): Settings {
    Settings(userID, 0, false, "", true, true, true, true, "", "", 0)
  }

  function NormalizeSettings(s: Settings): Settings {
    s.(callForwardingTarget := TrimSpace(s.callForwardingTarget), preferredEndpoint := TrimSpace(s.preferredEndpoint),
       preferredContactEmail := Contacts.NormalizeEmail(s.preferredContactEmail))
  }

  /** The plan's first extension of the user. */
  function FirstExtension(list: seq<Entity>, userID: int): (r: Option<Entity>)
    ensures r.Some? ==> exists i :: 0 <= i < |list| && list[i] == r.value && IsUsers(list[i], userID)
                                    && forall k :: 0 <= k < i ==> !IsUsers(list[k], userID)
    ensures r.None? ==> forall k :: 0 <= k < |list| ==> !IsUsers(list[k], userID)
  {
    if list == [] then None
    else if IsUsers(list[0], userID) then Some(list[0])
    else
      var rest := FirstExtension(list[1..], userID);
      assert forall k :: 1 <= k < |list| ==> list[k] == list[1..][k - 1];
      rest
  }

  predicate IsUsers(e: Entity, userID: int) { e.Extension? && e.userID == userID }

  predicate SupportsTelephony(state: AsteriskState) {
    |state.channelDrivers| > 0 || |state.endpointStacks| > 0
  }

  predicate SupportsMessaging(state: AsteriskState) {
    HasAnyCapability(state, ["xmpp", "presence", "mail_delivery"]) || HasSubsystem(state, "messaging_backend")
  }

  predicate OffersVoicemail(state: AsteriskState) {
    HasAnyCapability(state, ["voicemail", "recordings"])
  }

  /** What an extension and the inventory allow, as the checks of an update and the overlay of a load see it. */
  datatype Support = Support(telephony: bool, messaging: bool, voicemail: bool, browserCalling: bool)

  function SupportOf(state: AsteriskState): Support {
    Support(SupportsTelephony(state), SupportsMessaging(state), OffersVoicemail(state), HasCapability(state, "browser_calling"))
  }

  type OwnExtension = e: Option<Entity> | e.Some? ==> e.value.Extension? witness None

  predicate SupportsVoicemail(extension: OwnExtension, support: Support) {
    extension.Some? && extension.value.voicemailEnabled && support.voicemail
  }

  predicate SupportsWebphone(extension: OwnExtension, support: Support) {
    extension.Some? && support.telephony && support.browserCalling
  }

  /** The overlay of extension and inventory over normalised settings. */
  function Limited(s: Settings, extension: OwnExtension, support: Support): Settings {
    s.(extensionID := if extension.Some? then extension.value.id else s.extensionID,
       preferredEndpoint := if extension.Some? && s.preferredEndpoint == "" then extension.value.endpoint else s.preferredEndpoint,
       voicemailEnabled := s.voicemailEnabled && (extension.Some? ==> extension.value.voicemailEnabled),
       messagingEnabled := s.messagingEnabled && support.messaging,
       presenceEnabled := s.presenceEnabled && support.messaging,
       webphoneEnabled := s.webphoneEnabled && support.browserCalling)
  }

  /** What a load reports: the stored or default settings, limited to what is available. */
  function Reported(stored: Option<Settings>, extension: OwnExtension, support: Support, userID: int): Settings {
    Limited(NormalizeSettings(if stored.Some? then stored.value else DefaultSettings(userID)), extension, support)
  }

  datatype Refusal =
    | UserNotFound
    | EmailInvalid
    | WebphoneUnavailable
    | PresenceUnavailable
    | MessagingUnavailable
    | VoicemailUnavailable

  /** The reported settings with the requested values written over them. */
  function Merged(reported: Settings, request: Settings): Settings {
    NormalizeSettings(request).(userID := reported.userID, extensionID := reported.extensionID, updatedAt := reported.updatedAt)
  }

  /** The first check that the merged settings fail. */
  function FirstRefusal(merged: Settings, extension: OwnExtension, support: Support,
                        validEmail: string -> bool): Option<Refusal> {
    if merged.preferredContactEmail != "" && !validEmail(merged.preferredContactEmail) then Some(EmailInvalid)
    else if merged.webphoneEnabled && !SupportsWebphone(extension, support) then Some(WebphoneUnavailable)
    else if merged.presenceEnabled && !support.messaging then Some(PresenceUnavailable)
    else if merged.messagingEnabled && !support.messaging then Some(MessagingUnavailable)
    else if merged.voicemailEnabled && !SupportsVoicemail(extension, support) then Some(VoicemailUnavailable)
    else None
  }

  /** The owner, extension and time an accepted update fills in. */
  function Filled(merged: Settings, extension: OwnExtension, userID: int, now: Time): Settings {
    merged.(
      userID := userID,
      extensionID := if extension.Some? then extension.value.id else merged.extensionID,
      preferredEndpoint := if extension.Some? && merged.preferredEndpoint == "" then extension.value.endpoint else merged.preferredEndpoint,
      updatedAt := now)
  }

  /** What the store makes of the settings it is given. */
  function Saved(s: Settings, wall: Time): Settings {
    NormalizeSettings(s).(updatedAt := if s.updatedAt == 0 then wall else s.updatedAt)
  }

  function UpdateOutcome(reported: Settings, request: Settings, extension: OwnExtension, support: Support,
                         userID: int, now: Time, wall: Time, validEmail: string -> bool): Result<Settings, Refusal> {
    var merged := Merged(reported, request);
    var refusal := FirstRefusal(merged, extension, support, validEmail);
    if refusal.Some? then Err(refusal.value) else Ok(Saved(Filled(merged, extension, userID, now), wall))
  }

  lemma NormalizeSettingsIsIdempotent(s: Settings)
    ensures NormalizeSettings(NormalizeSettings(s)) == NormalizeSettings(s)
  {
    Contacts.NormalizeEmailIsIdempotent(s.preferredContactEmail);
  }

  /** The user's extension has an endpoint of white space only. */
  predicate BlankEndpoint(extension: OwnExtension) {
    extension.Some? && extension.value.endpoint != "" && TrimSpace(extension.value.endpoint) == ""
  }

  /** While plan and inventory stay as they are, a load after an accepted update reports what the update
      returned, exactly unless the request left the endpoint blank and the extension's own is white space:
      the store trims that to nothing and the load brings it back. */
  lemma LoadAfterUpdateIff(stored: Option<Settings>, request: Settings, extension: OwnExtension, support: Support,
                           userID: int, now: Time, wall: Time, validEmail: string -> bool)
    ensures var before := Reported(stored, extension, support, userID);
            var outcome := UpdateOutcome(before, request, extension, support, userID, now, wall, validEmail);
            outcome.Ok? ==>
              (Reported(Some(outcome.value), extension, support, userID) == outcome.value
               <==> !(BlankEndpoint(extension) && TrimSpace(request.preferredEndpoint) == ""))
  {
    var reported := Reported(stored, extension, support, userID);
    NormalizeSettingsIsIdempotent(request);
    LimitedAfterSave(Merged(reported, request), extension, support, userID, now, wall, validEmail);
  }

  lemma LimitedAfterSave(merged: Settings, extension: OwnExtension, support: Support, userID: int, now: Time,
                         wall: Time, validEmail: string -> bool)
    requires NormalizeSettings(merged) == merged
    ensures var saved := Saved(Filled(merged, extension, userID, now), wall);
            FirstRefusal(merged, extension, support, validEmail).None? ==>
              (Limited(NormalizeSettings(saved), extension, support) == saved
               <==> !(BlankEndpoint(extension) && merged.preferredEndpoint == ""))
  {
    NormalizeSettingsIsIdempotent(Filled(merged, extension, userID, now));
  }

  /** An accepted update takes over everything that was requested, and fills in no more than the owner, the
      extension, its endpoint for a blank one, and the time. */
  lemma UpdateTakesRequest(stored: Option<Settings>, request: Settings, extension: OwnExtension, support: Support,
                           userID: int, now: Time, wall: Time, validEmail: string -> bool)
    ensures var reported := Reported(stored, extension, support, userID);
            var outcome := UpdateOutcome(reported, request, extension, support, userID, now, wall, validEmail);
            outcome.Ok? ==> TakesRequest(outcome.value, request, extension, userID, if now == 0 then wall else now)
    ensures var reported := Reported(stored, extension, support, userID);
            var outcome := UpdateOutcome(reported, request, extension, support, userID, now, wall, validEmail);
            outcome.Ok? ==> outcome.value.extensionID == (if extension.Some? then extension.value.id else reported.extensionID)
  {
    hide TrimSpace, ToLower, Reported;
    Contacts.NormalizeEmailIsIdempotent(request.preferredContactEmail);
  }

  predicate TakesRequest(s: Settings, request: Settings, extension: OwnExtension, userID: int, at: Time) {
    && s.userID == userID && s.updatedAt == at
    && s.doNotDisturb == request.doNotDisturb && s.voicemailEnabled == request.voicemailEnabled
    && s.webphoneEnabled == request.webphoneEnabled && s.presenceEnabled == request.presenceEnabled
    && s.messagingEnabled == request.messagingEnabled
    && s.callForwardingTarget == TrimSpace(request.callForwardingTarget)
    && s.preferredContactEmail == TrimSpace(ToLower(request.preferredContactEmail))
    && (TrimSpace(request.preferredEndpoint) != "" ==> s.preferredEndpoint == TrimSpace(request.preferredEndpoint))
    && (TrimSpace(request.preferredEndpoint) == "" && extension.Some? ==> s.preferredEndpoint == TrimSpace(extension.value.endpoint))
    && (TrimSpace(request.preferredEndpoint) == "" && extension.None? ==> s.preferredEndpoint == "")
  }

  /** Which of the five refusals an update gets, in their order; it is accepted exactly when it gets none. */
  lemma RefusalIs(reported: Settings, request: Settings, extension: OwnExtension, support: Support,
                  userID: int, now: Time, wall: Time, validEmail: string -> bool)
    ensures var outcome := UpdateOutcome(reported, request, extension, support, userID, now, wall, validEmail);
            var email := TrimSpace(ToLower(request.preferredContactEmail));
            var emailOK := email == "" || validEmail(email);
            var phoneOK := !request.webphoneEnabled || (extension.Some? && support.telephony && support.browserCalling);
            var presenceOK, chatOK := !request.presenceEnabled || support.messaging, !request.messagingEnabled || support.messaging;
            var mailboxOK := !request.voicemailEnabled || (extension.Some? && extension.value.voicemailEnabled && support.voicemail);
            && (outcome == Err(EmailInvalid) <==> !emailOK)
            && (outcome == Err(WebphoneUnavailable) <==> emailOK && !phoneOK)
            && (outcome == Err(PresenceUnavailable) <==> emailOK && phoneOK && !presenceOK)
            && (outcome == Err(MessagingUnavailable) <==> emailOK && phoneOK && presenceOK && !chatOK)
            && (outcome == Err(VoicemailUnavailable) <==> emailOK && phoneOK && presenceOK && chatOK && !mailboxOK)
            && (outcome.Ok? <==> emailOK && phoneOK && presenceOK && chatOK && mailboxOK)
  {
    hide TrimSpace, ToLower, Saved, Filled;
  }

  /** What a load reports, field by field: a user without stored settings starts with every feature on. */
  lemma ReportedIs(stored: Option<Settings>, extension: OwnExtension, support: Support, userID: int)
    ensures var r := Reported(stored, extension, support, userID);
            var has := stored.Some?;
            && (r.voicemailEnabled <==> (has ==> stored.value.voicemailEnabled) && (extension.Some? ==> extension.value.voicemailEnabled))
            && (r.messagingEnabled <==> (has ==> stored.value.messagingEnabled) && support.messaging)
            && (r.presenceEnabled <==> (has ==> stored.value.presenceEnabled) && support.messaging)
            && (r.webphoneEnabled <==> (has ==> stored.value.webphoneEnabled) && support.browserCalling)
            && (r.doNotDisturb <==> has && stored.value.doNotDisturb)
            && r.userID == (if has then stored.value.userID else userID)
            && r.callForwardingTarget == (if has then TrimSpace(stored.value.callForwardingTarget) else "")
            && r.preferredContactEmail == (if has then TrimSpace(ToLower(stored.value.preferredContactEmail)) else "")
            && (has && TrimSpace(stored.value.preferredEndpoint) != "" ==> r.preferredEndpoint == TrimSpace(stored.value.preferredEndpoint))
            && (!(has && TrimSpace(stored.value.preferredEndpoint) != "") ==>
                  r.preferredEndpoint == if extension.Some? then extension.value.endpoint else "")
            && (extension.Some? ==> r.extensionID == extension.value.id)
            && (extension.None? ==> r.extensionID == if has then stored.value.extensionID else 0)
            && r.updatedAt == (if has then stored.value.updatedAt else 0)
  {
    BlankTrims();
    hide TrimSpace, ToLower;
  }

  lemma BlankTrims()
    ensures TrimSpace("") == "" && TrimSpace(ToLower("")) == ""
  {
  }

  ghost predicate HasMessagingBackend(state: AsteriskState) {
    exists s :: s in state.subsystems && s.key == "messaging_backend" && TrimSpace(s.provider) != ""
  }

  lemma HasBackendIff(state: AsteriskState)
    ensures HasSubsystem(state, "messaging_backend") <==> HasMessagingBackend(state)
  {
    hide TrimSpace, ToLower, HasSubsystem;
    HasSubsystemIff(state, "messaging_backend");
  }

  /** What the inventory supports, in terms of drivers, capabilities and subsystems. */
  lemma SupportIs(state: AsteriskState)
    ensures var s := SupportOf(state);
            && (s.telephony <==> state.channelDrivers != [] || state.endpointStacks != [])
            && (s.messaging <==> || HasCapability(state, "xmpp") || HasCapability(state, "presence")
                                 || HasCapability(state, "mail_delivery") || HasMessagingBackend(state))
            && (s.voicemail <==> HasCapability(state, "voicemail") || HasCapability(state, "recordings"))
            && (s.browserCalling <==> HasCapability(state, "browser_calling"))
  {
    ThreeKeys(state, "xmpp", "presence", "mail_delivery");
    TwoKeys(state, "voicemail", "recordings");
    HasBackendIff(state);
    hide HasCapability, HasAnyCapability, HasSubsystem, HasMessagingBackend;
  }

  /** An extension that `CreateExtension` stored has a trimmed endpoint, so its owner's update always sticks. */
  lemma CreatedExtensionKeepsUpdates(e: Entity, id: int, at: Time, stored: Option<Settings>, request: Settings,
                                     support: Support,
                                     userID: int, now: Time, wall: Time, validEmail: string -> bool)
    requires e.Extension?
    ensures var extension: OwnExtension := Some(e.Stored(id, at));
            var before := Reported(stored, extension, support, userID);
            var outcome := UpdateOutcome(before, request, extension, support, userID, now, wall, validEmail);
            outcome.Ok? ==> Reported(Some(outcome.value), extension, support, userID) == outcome.value
  {
    LoadAfterUpdateIff(stored, request, Some(e.Stored(id, at)), support, userID, now, wall, validEmail);
  }

  /** The failing family is not empty: an extension whose endpoint is one space. */
  lemma LoadCanOverwriteUpdate() returns (extension: OwnExtension, request: Settings, support: Support)
    ensures var outcome := UpdateOutcome(Reported(None, extension, support, 1), request, extension, support, 1, 5, 5, _ => true);
            outcome.Ok? && Reported(Some(outcome.value), extension, support, 1) != outcome.value
  {
    hide TrimSpace, ToLower, Contacts.NormalizeEmail;
    extension := Some(Extension(1, 0, 0, 1, 1, 1, "100", "Desk", "pjsip", [' '], false));
    support := Support(false, false, false, false);
    request := Settings(1, 0, false, "", false, false, false, false, "", "", 0);
    LoadAfterUpdateIff(None, request, extension, support, 1, 5, 5, _ => true);
  }

  /** Whatever is stored, a load never reports a feature on that the inventory lacks. */
  lemma ReportedIsAvailable(stored: Option<Settings>, extension: OwnExtension, state: AsteriskState, userID: int)
    ensures var r := Reported(stored, extension, SupportOf(state), userID);
            && ((r.messagingEnabled || r.presenceEnabled) ==>
                  || HasCapability(state, "xmpp") || HasCapability(state, "presence") || HasCapability(state, "mail_delivery")
                  || HasSubsystem(state, "messaging_backend"))
            && (r.webphoneEnabled ==> HasCapability(state, "browser_calling"))
            && (r.voicemailEnabled && extension.Some? ==> extension.value.voicemailEnabled)
  {
    ThreeKeys(state, "xmpp", "presence", "mail_delivery");
  }

  /** Submitting reported settings unchanged is accepted exactly when nothing is reported on that the overlay
      leaves unchecked: a webphone without extension or telephony, voicemail without extension or recordings. */
  lemma ResubmitAcceptedIff(stored: Option<Settings>, extension: OwnExtension, support: Support,
                            userID: int, now: Time, wall: Time, validEmail: string -> bool)
    ensures var r := Reported(stored, extension, support, userID);
            UpdateOutcome(r, r, extension, support, userID, now, wall, validEmail).Ok?
            <==> && (r.preferredContactEmail != "" ==> validEmail(r.preferredContactEmail))
                 && (r.webphoneEnabled ==> extension.Some? && support.telephony)
                 && (r.voicemailEnabled ==> extension.Some? && support.voicemail)
  {
    hide TrimSpace, ToLower, Contacts.NormalizeEmail;
    var s := if stored.Some? then stored.value else DefaultSettings(userID);
    Contacts.NormalizeEmailIsIdempotent(s.preferredContactEmail);
  }

  /** What a user without extension or stored settings is shown is refused where browser calling is offered. */
  lemma DefaultsAreRefused(userID: int, now: Time, wall: Time, validEmail: string -> bool)
    ensures var support := Support(true, true, true, true);
            var r := Reported(None, None, support, userID);
            UpdateOutcome(r, r, None, support, userID, now, wall, validEmail).Err?
  {
    ResubmitAcceptedIff(None, None, Support(true, true, true, true), userID, now, wall, validEmail);
    hide UpdateOutcome;
  }

  /** Every extension in a list has the endpoint that a create trimmed. */
  ghost predicate EndpointsTrimmed(list: seq<Entity>) {
    forall e :: e in list && e.Extension? ==> Trimmed(e.endpoint)
  }

  lemma {:induction false} CreatedEndpointsTrimmed(plans: seq<Plan>, calls: seq<PlanCall>, e: Entity)
    requires |plans| >= |calls| && e in AllCreated(plans, calls, ExtensionKind) && e.Extension?
    ensures Trimmed(e.endpoint)
  {
    hide Entity.Stored, MaxID, TrimSpace, MissingField;
    var n := |calls| - 1;
    if e in AllCreated(plans, calls[..n], ExtensionKind) {
      CreatedEndpointsTrimmed(plans, calls[..n], e);
    } else {
      StoredEndpointTrimmed(calls[n].entity, MaxID(plans[n].Of(ExtensionKind)) + 1, calls[n].now);
    }
  }

  lemma StoredEndpointTrimmed(e: Entity, id: int, now: Time)
    ensures e.Stored(id, now).Extension? ==> Trimmed(e.Stored(id, now).endpoint)
  {
    hide TrimSpace, ToLower;
  }

  /** After any run of PBX calls every stored extension has a trimmed endpoint. */
  lemma RunTrimsEndpoints(plans: seq<Plan>, calls: seq<PlanCall>)
    requires PlanRun(plans, calls)
    ensures EndpointsTrimmed(plans[|calls|].Of(ExtensionKind))
  {
    PlanIsCreatedMinusDeleted(plans, calls, ExtensionKind);
    var list := plans[|calls|].Of(ExtensionKind);
    forall e | e in list && e.Extension? ensures Trimmed(e.endpoint) {
      assert e in multiset(list);
      assert e in AllCreated(plans, calls, ExtensionKind);
      CreatedEndpointsTrimmed(plans, calls, e);
    }
  }

  /** So after any run of PBX calls, every user's accepted update is what the next load reports. */
  lemma RunKeepsUpdates(plans: seq<Plan>, calls: seq<PlanCall>, stored: Option<Settings>, request: Settings,
                        support: Support,
                        userID: int, now: Time, wall: Time, validEmail: string -> bool)
    requires PlanRun(plans, calls)
    ensures var extension: OwnExtension := FirstExtension(plans[|calls|].Of(ExtensionKind), userID);
            var before := Reported(stored, extension, support, userID);
            var outcome := UpdateOutcome(before, request, extension, support, userID, now, wall, validEmail);
            outcome.Ok? ==> Reported(Some(outcome.value), extension, support, userID) == outcome.value
  {
    RunTrimsEndpoints(plans, calls);
    var list := plans[|calls|].Of(ExtensionKind);
    hide UpdateOutcome, Reported, PlanRun, TrimSpace;
    var extension: OwnExtension := FirstExtension(list, userID);
    LoadAfterUpdateIff(stored, request, extension, support, userID, now, wall, validEmail);
    if extension.Some? { assert extension.value in list && TrimSpace(extension.value.endpoint) == extension.value.endpoint; }
  }

  datatype Context = Context(settings: Settings, extension: OwnExtension, support: Support)

  /** The parts of the memory store that the settings operations touch. */
  class CommunicationStore {
    var users: set<int>
    var pbxPlan: Plan
    var asteriskState: AsteriskState
    var userCommPrefs: map<int, Settings>

    constructor (users: set<int>, plan: Plan, state: AsteriskState)
      ensures this.users == users && pbxPlan == plan && asteriskState == state && userCommPrefs == map[]
    {
      this.users, pbxPlan, asteriskState, userCommPrefs := users, plan, state, map[];
    }

    method SaveUserCommunicationSettings(settings: Settings, wall: Time) returns (saved: Settings)
      modifies `userCommPrefs
      ensures saved == Saved(settings, wall)
      ensures userCommPrefs == old(userCommPrefs)[settings.userID := saved]
    {
      saved := NormalizeSettings(settings);
      if saved.updatedAt == 0 {
        saved := saved.(updatedAt := wall);
      }
      userCommPrefs := userCommPrefs[saved.userID := saved];
    }

    function Stored(userID: int): Option<Settings>
      reads `userCommPrefs
    {
      if userID in userCommPrefs then Some(userCommPrefs[userID]) else None
    }
  }

  class UserCommunicationsService {
    const store: CommunicationStore
    /** Stands for the format rules of an address. */
    const validEmail: string -> bool

    constructor (store: CommunicationStore, validEmail: string -> bool)
      ensures this.store == store && this.validEmail == validEmail
    {
      this.store, this.validEmail := store, validEmail;
    }

    function OwnExtensionOf(userID: int): OwnExtension
      reads store`pbxPlan
    {
      FirstExtension(store.pbxPlan.Of(ExtensionKind), userID)
    }

    method FindUserExtension(userID: int) returns (r: OwnExtension)
      ensures r == OwnExtensionOf(userID)
    {
      var list := store.pbxPlan.Of(ExtensionKind);
      assert list[0..] == list;
      for index := 0 to |list|
        invariant FirstExtension(list[index..], userID) == FirstExtension(list, userID)
      {
        assert list[index..][1..] == list[index + 1..];
        if list[index].Extension? && list[index].userID == userID {
          return Some(list[index]);
        }
      }
      return None;
    }

    method LoadContext(userID: int) returns (r: Result<Context, Refusal>)
      ensures userID !in store.users ==> r == Err(UserNotFound)
      ensures userID in store.users ==>
                var extension, support := OwnExtensionOf(userID), SupportOf(store.asteriskState);
                r == Ok(Context(Reported(store.Stored(userID), extension, support, userID), extension, support))
    {
      if userID !in store.users {
        return Err(UserNotFound);
      }
      var support := SupportOf(store.asteriskState);
      var settings := DefaultSettings(userID);
      if userID in store.userCommPrefs {
        settings := store.userCommPrefs[userID];
      }
      settings := NormalizeSettings(settings);
      var extension := FindUserExtension(userID);
      settings := Limit(settings, extension, support);
      return Ok(Context(settings, extension, support));
    }

    static method Limit(normalized: Settings, extension: OwnExtension, support: Support) returns (settings: Settings)
      ensures settings == Limited(normalized, extension, support)
    {
      settings := normalized;
      if extension.Some? {
        settings := settings.(extensionID := extension.value.id);
        if settings.preferredEndpoint == "" {
          settings := settings.(preferredEndpoint := extension.value.endpoint);
        }
        if !extension.value.voicemailEnabled {
          settings := settings.(voicemailEnabled := false);
        }
      }
      if !support.messaging {
        settings := settings.(messagingEnabled := false, presenceEnabled := false);
      }
      if !support.browserCalling {
        settings := settings.(webphoneEnabled := false);
      }
    }

    method GetSettings(userID: int) returns (r: Result<Settings, Refusal>)
      ensures r.Err? <==> userID !in store.users
      ensures r.Err? ==> r.error == UserNotFound
      ensures r.Ok? ==>
                r.value == Reported(store.Stored(userID), OwnExtensionOf(userID), SupportOf(store.asteriskState), userID)
    {
      var context := LoadContext(userID);
      match context
      case Err(error) => return Err(error);
      case Ok(c) => return Ok(c.settings);
    }

    /** An accepted update stores what it returns and touches no other user's settings; a refused one stores nothing. */
    method UpdateSettings(userID: int, request: Settings, now: Time, wall: Time) returns (r: Result<Settings, Refusal>)
      modifies store`userCommPrefs
      ensures userID !in store.users ==> r == Err(UserNotFound)
      ensures userID in store.users ==>
                var extension, support := OwnExtensionOf(userID), SupportOf(store.asteriskState);
                var before := Reported(old(store.Stored(userID)), extension, support, userID);
                r == UpdateOutcome(before, request, extension, support, userID, now, wall, validEmail)
      ensures store.userCommPrefs == if r.Ok? then old(store.userCommPrefs)[userID := r.value] else old(store.userCommPrefs)
    {
      hide SupportOf, UpdateOutcome, Reported;
      var context := LoadContext(userID);
      if context.Err? {
        return Err(context.error);
      }
      r := Apply(context.value, userID, request, now, wall);
    }

    method Apply(c: Context, userID: int, request: Settings, now: Time,
                 wall: Time) returns (r: Result<Settings, Refusal>)
      modifies store`userCommPrefs
      ensures r == UpdateOutcome(c.settings, request, c.extension, c.support, userID, now, wall, validEmail)
      ensures store.userCommPrefs == if r.Ok? then old(store.userCommPrefs)[userID := r.value] else old(store.userCommPrefs)
    {
      var merged := Merge(c.settings, request);
      var refusal := Check(merged, c);
      if refusal.Some? {
        return Err(refusal.value);
      }
      merged := Fill(merged, c.extension, userID, now);
      var saved := store.SaveUserCommunicationSettings(merged, wall);
      return Ok(saved);
    }

    static method Fill(settings: Settings, extension: OwnExtension, userID: int, now: Time) returns (merged: Settings)
      ensures merged == Filled(settings, extension, userID, now)
    {
      merged := settings.(userID := userID);
      if extension.Some? {
        merged := merged.(extensionID := extension.value.id);
        if merged.preferredEndpoint == "" {
          merged := merged.(preferredEndpoint := extension.value.endpoint);
        }
      }
      merged := merged.(updatedAt := now);
    }

    static method Merge(current: Settings, request: Settings) returns (merged: Settings)
      ensures merged == Merged(current, request)
    {
      merged := current.(doNotDisturb := request.doNotDisturb);
      merged := merged.(callForwardingTarget := TrimSpace(request.callForwardingTarget));
      merged := merged.(voicemailEnabled := request.voicemailEnabled, webphoneEnabled := request.webphoneEnabled);
      merged := merged.(presenceEnabled := request.presenceEnabled, messagingEnabled := request.messagingEnabled);
      merged := merged.(preferredEndpoint := TrimSpace(request.preferredEndpoint));
      merged := merged.(preferredContactEmail := Contacts.NormalizeEmail(request.preferredContactEmail));
    }

    method Check(merged: Settings, c: Context) returns (r: Option<Refusal>)
      ensures r == FirstRefusal(merged, c.extension, c.support, validEmail)
    {
      if merged.preferredContactEmail != "" && !validEmail(merged.preferredContactEmail) {
        return Some(EmailInvalid);
      }
      if merged.webphoneEnabled && !SupportsWebphone(c.extension, c.support) {
        return Some(WebphoneUnavailable);
      }
      if merged.presenceEnabled && !c.support.messaging {
        return Some(PresenceUnavailable);
      }
      if merged.messagingEnabled && !c.support.messaging {
        return Some(MessagingUnavailable);
      }
      if merged.voicemailEnabled && !SupportsVoicemail(c.extension, c.support) {
        return Some(VoicemailUnavailable);
      }
      return None;
    }
  }
}
