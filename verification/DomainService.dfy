/** The domain service: registration, DNS verification, suspension and SSL of custom domains. */
module DomainService {
  import opened GoStrings
  import opened Wrappers
  import opened DomainNames
  import opened DomainModel
  import Sorting

  /** An IP address as the resolver reports it: its bytes and its printed form, which is never empty. */
  datatype RawAddress = Address(bytes: seq<int>, text: string)
  type Address = a: RawAddress | a.text != "" witness Address([], "?")

  const V4_IN_V6_PREFIX := [0, 0, 0, 0, 0, 0, 0, 0, 0, 0, 255, 255]

  /** `net.IP.Equal`: an IPv4 address equals its IPv6-mapped form. */
  predicate SameAddress(a: Address, b: Address) {
    if |a.bytes| == |b.bytes| then a.bytes == b.bytes
    else if |a.bytes| == 4 && |b.bytes| == 16 then b.bytes == V4_IN_V6_PREFIX + a.bytes
    else if |a.bytes| == 16 && |b.bytes| == 4 then a.bytes == V4_IN_V6_PREFIX + b.bytes
    else false
  }

  datatype ServiceConfig = ServiceConfig(
    constraints: DomainConstraints,
    platformHosts: seq<string>,
    publicIPs: seq<Address>,
    tlsALPN: bool,
    http: bool)

  /** What DNS answers for a name during one verification; `None` is a lookup error. */
  datatype DNSAnswers = DNSAnswers(ips: Option<seq<Address>>, cname: Option<string>)

  predicate IsPublic(config: ServiceConfig, a: Address) {
    exists j :: 0 <= j < |config.publicIPs| && SameAddress(a, config.publicIPs[j])
  }

  /** The first resolved address that is one of the server's own, or "". */
  function FirstPublic(config: ServiceConfig, ips: seq<Address>): (r: string)
    ensures r == "" <==> forall i :: 0 <= i < |ips| ==> !IsPublic(config, ips[i])
    ensures r != "" ==> exists i :: 0 <= i < |ips| && IsPublic(config, ips[i]) && r == ips[i].text
                                    && forall k :: 0 <= k < i ==> !IsPublic(config, ips[k])
  {
    if ips == [] then ""
    else if IsPublic(config, ips[0]) then ips[0].text
    else
      var rest := FirstPublic(config, ips[1..]);
      assert forall i :: 1 <= i < |ips| ==> ips[i] == ips[1..][i - 1];
      rest
  }

  function CanonicalCNAME(cname: string): string {
    TrimSuffix(NormalizeHost(cname), ".")
  }

  predicate HostMatches(platformHost: string, host: string) { NormalizeHost(platformHost) == host }

  predicate IsPlatformHost(config: ServiceConfig, host: string) {
    exists j :: 0 <= j < |config.platformHosts| && HostMatches(config.platformHosts[j], host)
  }

  /** The target that DNS proves for a domain, or "": a public address first, a platform CNAME second. */
  function ProvenTarget(config: ServiceConfig, dns: DNSAnswers): string {
    var address := if dns.ips.Some? then FirstPublic(config, dns.ips.value) else "";
    if address != "" then address
    else if dns.cname.Some? && IsPlatformHost(config, CanonicalCNAME(dns.cname.value))
    then CanonicalCNAME(dns.cname.value)
    else ""
  }

  /** Verification finds a target exactly when an address lookup yields a public address or the
      CNAME lookup yields a non-empty platform host. */
  lemma ProvenTargetIff(config: ServiceConfig, dns: DNSAnswers)
    ensures ProvenTarget(config, dns) != "" <==>
              || (dns.ips.Some? && exists i :: 0 <= i < |dns.ips.value| && IsPublic(config, dns.ips.value[i]))
              || (dns.cname.Some? && CanonicalCNAME(dns.cname.value) != "" && IsPlatformHost(config, CanonicalCNAME(dns.cname.value)))
  {
  }

  /** The early return of the source: without addresses and platform hosts there is nothing to find. */
  lemma NothingToProve(config: ServiceConfig, dns: DNSAnswers)
    requires dns.ips.None? && |config.platformHosts| == 0
    ensures ProvenTarget(config, dns) == ""
  {
  }

  /** The changes a caller can ask for on an existing record. */
  datatype Edit =
    | Verify(dns: DNSAnswers)
    | ConfigureSSL(challenge: SSLChallenge, provider: string)
    | Suspend(reason: string)
    | Unsuspend
    | RenewSSL

  /** Either the edit is refused, or a record is written and possibly an error reported with it. */
  datatype EditOutcome = Refused(error: DomainError) | Written(record: CustomDomain, report: Option<DomainError>)

  function ErrorText(e: DomainError): string {
    if e == DNSLookupFailed then "DNS_LOOKUP_FAILED" else "DNS_MISMATCH"
  }

  function FailedRecord(d: CustomDomain, e: DomainError, now: Time): CustomDomain {
    d.(status := StatusError, verificationStatus := VerificationFailed, verificationError := ErrorText(e), updatedAt := now)
  }

  function VerifiedRecord(d: CustomDomain, target: string, now: Time): CustomDomain {
    d.(status := StatusActive, verificationStatus := Verified, verificationError := "",
       verifiedAt := now, resolvedTarget := target, updatedAt := now)
  }

  /** Verification without the early return of the source. */
  function VerifyOutcome(config: ServiceConfig, d: CustomDomain, dns: DNSAnswers, now: Time): EditOutcome {
    var target := ProvenTarget(config, dns);
    if target != "" then Written(VerifiedRecord(d, target, now), None)
    else
      var e := if dns.ips.None? then DNSLookupFailed else DNSMismatch;
      Written(FailedRecord(d, e, now), Some(e))
  }

  /** A failed verification reports whether the lookup failed or found other addresses, records the code of that
      error, and leaves all else but the status alone; a successful one clears the code and records the target. */
  lemma VerificationOutcome(config: ServiceConfig, d: CustomDomain, dns: DNSAnswers, now: Time)
    ensures var outcome := EditRecord(config, d, Verify(dns), now);
            && outcome.Written?
            && (ProvenTarget(config, dns) != "" ==>
                  && outcome.report == None
                  && outcome.record == d.(status := StatusActive, verificationStatus := Verified, verificationError := "",
                                          verifiedAt := now, resolvedTarget := ProvenTarget(config, dns), updatedAt := now))
            && (ProvenTarget(config, dns) == "" && dns.ips.None? ==>
                  && outcome.report == Some(DNSLookupFailed)
                  && outcome.record == d.(status := StatusError, verificationStatus := VerificationFailed,
                                          verificationError := "DNS_LOOKUP_FAILED", updatedAt := now))
            && (ProvenTarget(config, dns) == "" && dns.ips.Some? ==>
                  && outcome.report == Some(DNSMismatch)
                  && outcome.record == d.(status := StatusError, verificationStatus := VerificationFailed,
                                          verificationError := "DNS_MISMATCH", updatedAt := now))
  {
    hide ProvenTarget;
  }

  function ConfigureOutcome(config: ServiceConfig, d: CustomDomain, wanted: SSLChallenge, provider: string,
                            now: Time): EditOutcome {
    var challenge :=
      if wanted == "" || wanted == CHALLENGE_AUTO then SelectSSLChallenge(d, config.tlsALPN, config.http) else wanted;
    if d.verificationStatus != Verified then Refused(DomainNotVerified)
    else if challenge == CHALLENGE_DNS01 && TrimSpace(provider) == "" then Refused(SSLProviderInvalid)
    else Written(d.(sslEnabled := true, sslProvider := TrimSpace(ToLower(provider)), sslChallenge := challenge,
                    sslStatus := SSLPending, sslError := "", updatedAt := now), None)
  }

  function EditRecord(config: ServiceConfig, d: CustomDomain, edit: Edit, now: Time): EditOutcome {
    match edit
    case Verify(dns) => VerifyOutcome(config, d, dns, now)
    case ConfigureSSL(challenge, provider) => ConfigureOutcome(config, d, challenge, provider, now)
    case Suspend(reason) =>
      Written(d.(status := StatusSuspended, suspensionReason := TrimSpace(reason), updatedAt := now), None)
    case Unsuspend =>
      Written(d.(status := if d.verificationStatus == Verified then StatusActive else StatusPending,
                 suspensionReason := "", updatedAt := now), None)
    case RenewSSL =>
      if !d.sslEnabled then Refused(DomainNotVerified)
      else
        Written(d.(sslStatus := SSLPending, sslError := "",
                   sslChallenge := if d.sslChallenge == "" then SelectSSLChallenge(d, config.tlsALPN, config.http)
                                   else d.sslChallenge,
                   updatedAt := now), None)
  }

  /** The challenge that a request gets: the one it names, or DNS where a provider or a wildcard needs it or nothing
      else is on offer, TLS before HTTP otherwise. */
  predicate Chosen(config: ServiceConfig, d: CustomDomain, wanted: SSLChallenge, chosen: SSLChallenge) {
    if wanted != "" && wanted != "auto" then chosen == wanted
    else if d.sslProvider != "" || d.isWildcard || (!config.tlsALPN && !config.http) then chosen == "dns-01"
    else if config.tlsALPN then chosen == "tls-alpn-01"
    else chosen == "http-01"
  }

  lemma ChallengeIsChosen(config: ServiceConfig, d: CustomDomain, wanted: SSLChallenge)
    ensures Chosen(config, d, wanted, if wanted == "" || wanted == CHALLENGE_AUTO
                                      then SelectSSLChallenge(d, config.tlsALPN, config.http) else wanted)
  {
  }

  /** Configuring SSL needs a verified domain, and a provider for DNS; it then records the chosen challenge. */
  lemma ConfigureOutcomeIs(config: ServiceConfig, d: CustomDomain, wanted: SSLChallenge, provider: string, now: Time, chosen: SSLChallenge)
    requires Chosen(config, d, wanted, chosen)
    ensures var outcome := EditRecord(config, d, ConfigureSSL(wanted, provider), now);
            && (d.verificationStatus != Verified ==> outcome == Refused(DomainNotVerified))
            && (d.verificationStatus == Verified && chosen == "dns-01" && TrimSpace(provider) == "" ==>
                  outcome == Refused(SSLProviderInvalid))
            && (d.verificationStatus == Verified && !(chosen == "dns-01" && TrimSpace(provider) == "") ==>
                  outcome == Written(d.(sslEnabled := true, sslProvider := TrimSpace(ToLower(provider)), sslChallenge := chosen,
                                        sslStatus := SSLPending, sslError := "", updatedAt := now), None))
  {
    hide TrimSpace, ToLower;
    ChallengeIsChosen(config, d, wanted);
  }

  /** A suspension is always granted and takes the trimmed reason; it moves nothing but status, reason and time. */
  lemma SuspendOutcomeIs(config: ServiceConfig, d: CustomDomain, reason: string, now: Time)
    ensures var outcome := EditRecord(config, d, Suspend(reason), now);
            && outcome.Written? && outcome.report == None
            && outcome.record == d.(status := StatusSuspended, suspensionReason := TrimSpace(reason), updatedAt := now)
  {
    hide TrimSpace;
  }

  /** Lifting a suspension gives a verified domain its activity and any other its wait back, and of the suspended
      record nothing else has changed. */
  lemma SuspensionIsUndone(config: ServiceConfig, d: CustomDomain, reason: string, at: Time, now: Time)
    ensures var suspended := EditRecord(config, d, Suspend(reason), at);
            suspended.Written? && var lifted := EditRecord(config, suspended.record, Unsuspend, now);
            && lifted.Written? && lifted.report == None
            && (d.verificationStatus == Verified ==>
                  lifted.record == d.(status := StatusActive, suspensionReason := "", updatedAt := now))
            && (d.verificationStatus != Verified ==>
                  lifted.record == d.(status := StatusPending, suspensionReason := "", updatedAt := now))
  {
    hide TrimSpace;
  }

  /** A renewal needs SSL; it keeps a challenge once chosen and otherwise chooses one as configuring would. */
  lemma RenewOutcomeIs(config: ServiceConfig, d: CustomDomain, now: Time, chosen: SSLChallenge)
    requires if d.sslChallenge == "" then Chosen(config, d, "", chosen) else chosen == d.sslChallenge
    ensures var outcome := EditRecord(config, d, RenewSSL, now);
            && (!d.sslEnabled ==> outcome == Refused(DomainNotVerified))
            && (d.sslEnabled ==>
                  outcome == Written(d.(sslStatus := SSLPending, sslError := "", sslChallenge := chosen, updatedAt := now), None))
  {
    ChallengeIsChosen(config, d, "");
  }

  function LimitFor(c: DomainConstraints, t: OwnerType): int {
    if t == Org then c.maxDomainsPerOrg else c.maxDomainsPerUser
  }

  function NameErrorCode(e: NameError): DomainError {
    if e == ReservedName || e == BlockedPattern then DomainReserved else DomainInvalid
  }

  function NewRecord(t: OwnerType, owner: int, name: string, now: Time): CustomDomain {
    var domain := NormalizeDomainName(name);
    CustomDomain(0, 0, if t == Org then owner else 0, if t == User then owner else 0, t, owner, domain,
                 HasPrefix(domain, "*."), "", 0, "", "", CHALLENGE_AUTO, "", 0, 0, "",
                 StatusPending, VerificationPending, SSLNone, false, now, now)
  }

  /** Who may act on a record: anyone in the administrative calls, one owner in the others. */
  datatype Caller = Administrator | OwnerOnly(ownerType: OwnerType, ownerID: int)
  {
    predicate Owns(d: CustomDomain) {
      Administrator? || d.OwnedBy(ownerType, ownerID)
    }
  }

  function LookupFor(st: DomainState, caller: Caller, name: string): Result<CustomDomain, DomainError> {
    match FindDomain(st, name)
    case None => Err(DomainNotFound)
    case Some(d) => if caller.Owns(d) then Ok(d) else Err(DomainNotFound)
  }

  /** A call reaches exactly the record indexed under the normalised name, if its caller is an administrator or
      the record's owner; every other case looks the same to the caller. */
  lemma LookupForIs(st: DomainState, caller: Caller, name: string)
    ensures var n := NormalizeDomainName(name);
            && (LookupFor(st, caller, name).Ok? <==>
                  n in st.byName && (caller.OwnerOnly? ==>
                    RecordAt(st, st.byName[n]).ownerType == caller.ownerType && RecordAt(st, st.byName[n]).ownerID == caller.ownerID))
            && (LookupFor(st, caller, name).Ok? ==> LookupFor(st, caller, name).value == RecordAt(st, st.byName[n]))
            && (LookupFor(st, caller, name).Err? ==> LookupFor(st, caller, name).error == DomainNotFound)
  {
    hide NormalizeDomainName;
  }

  /** What registration decides once it holds the owner's record count and the name lookup. */
  function CreateRefusal(config: ServiceConfig, t: OwnerType, owned: nat, found: bool): Option<DomainError> {
    if found then Some(DomainExists)
    else if LimitFor(config.constraints, t) > 0 && owned >= LimitFor(config.constraints, t) then Some(DomainLimit)
    else None
  }

  function NameRefusal(config: ServiceConfig, name: string): Option<DomainError> {
    if !config.constraints.enabled then Some(DomainNotFound)
    else
      match ValidateDomainName(name, config.constraints)
      case Some(e) => Some(NameErrorCode(e))
      case None => None
  }

  datatype Call =
    | Create(ownerType: OwnerType, ownerID: int, name: string)
    | EditDomain(caller: Caller, target: string, edit: Edit)
    | Delete(who: Caller, victim: string)

  /** One service call run without interruption. */
  ghost function Apply(config: ServiceConfig, st: DomainState, call: Call, now: Time, wall: Time): (DomainState,
                       Option<DomainError>) {
    match call
    case Create(t, owner, name) =>
      (match NameRefusal(config, name)
       case Some(e) => (st, Some(e))
       case None =>
         match CreateRefusal(config, t, |OwnedIDs(st, t, owner)|, FindDomain(st, name).Some?)
         case Some(e) => (st, Some(e))
         case None => (SaveDomain(st, NewRecord(t, owner, name, now), wall).0, None))
    case EditDomain(caller, name, edit) =>
      (match LookupFor(st, caller, name)
       case Err(e) => (st, Some(e))
       case Ok(d) =>
         match EditRecord(config, d, edit, now)
         case Refused(e) => (st, Some(e))
         case Written(record, report) => (SaveDomain(st, record, wall).0, report))
    case Delete(caller, name) =>
      (match LookupFor(st, caller, name)
       case Err(e) => (st, Some(e))
       case Ok(d) =>
         match DeleteDomain(st, d.id)
         case Err(e) => (st, Some(e))
         case Ok(st') => (st', None))
  }

  /** What a registration stores, field by field. */
  predicate IsRegistered(d: CustomDomain, id: int, t: OwnerType, owner: int, domain: string, at: Time) {
    && d.id == id && d.ownerType == t && d.ownerID == owner && d.tenantID == 0
    && (t == User ==> d.userID == owner && d.organizationID == 0) && (t == Org ==> d.organizationID == owner && d.userID == 0)
    && d.domain == domain && d.isWildcard == ("*." <= domain)
    && d.status == StatusPending && d.verificationStatus == VerificationPending && d.verificationError == ""
    && d.verifiedAt == 0 && d.resolvedTarget == "" && d.suspensionReason == ""
    && !d.sslEnabled && d.sslStatus == SSLNone && d.sslChallenge == "auto" && d.sslProvider == "" && d.sslError == ""
    && d.sslIssuedAt == 0 && d.sslExpiresAt == 0
    && d.createdAt == at && d.updatedAt == at
  }

  /** The limit of the configuration that applies to an owner. */
  predicate AtLimit(c: DomainConstraints, t: OwnerType, owned: nat) {
    && (t == User ==> 0 < c.maxDomainsPerUser <= owned)
    && (t == Org ==> 0 < c.maxDomainsPerOrg <= owned)
  }

  /** Which answer a registration gets, and what an accepted one stores. */
  lemma CreateOutcomeIs(config: ServiceConfig, st: DomainState, t: OwnerType, owner: int, name: string, now: Time, wall: Time)
    ensures var (st', error) := Apply(config, st, Create(t, owner, name), now, wall);
            var n := NormalizeDomainName(name);
            var permitted := config.constraints.enabled && IsCanonicalName(n) && Permitted(n, config.constraints);
            && (error == None <==> permitted && n !in st.byName && !AtLimit(config.constraints, t, |OwnedIDs(st, t, owner)|))
            && (!config.constraints.enabled ==> error == Some(DomainNotFound))
            && (config.constraints.enabled && !permitted ==> error in [Some(DomainInvalid), Some(DomainReserved)])
            && (permitted && n in st.byName ==> error == Some(DomainExists))
            && (permitted && n !in st.byName && AtLimit(config.constraints, t, |OwnedIDs(st, t, owner)|) ==> error == Some(DomainLimit))
            && (error.Some? ==> st' == st)
            && (error == None ==>
                  && st'.next == st.next + 1 && st.next in st'.byID && st'.byID == st.byID[st.next := st'.byID[st.next]]
                  && st'.byName == st.byName[n := st.next]
                  && IsRegistered(st'.byID[st.next], st.next, t, owner, n, if now == 0 then wall else now))
  {
    AcceptedIff(name, config.constraints);
    NameRefusalIs(config, name);
    CanonicalStays(NormalizeDomainName(name));
    hide NameRefusal, IsCanonicalName, Permitted, OwnedIDs, ValidateDomainName, SaveDomain, NewRecord, NormalizeDomainName;
    hide IsRegistered, Apply;
    ApplyCreateIs(config, st, t, owner, name, now, wall);
    RegisteredIs(st, t, owner, name, now, wall);
  }

  lemma CanonicalStays(d: string)
    ensures IsCanonicalName(d) ==> NormalizeDomainName(d) == d
  {
    if IsCanonicalName(d) { CanonicalNameIsFixed(d); }
  }

  lemma ApplyCreateIs(config: ServiceConfig, st: DomainState, t: OwnerType, owner: int, name: string, now: Time, wall: Time)
    ensures Apply(config, st, Create(t, owner, name), now, wall)
            == if NameRefusal(config, name).Some? then (st, NameRefusal(config, name))
               else if NormalizeDomainName(name) in st.byName then (st, Some(DomainExists))
               else if AtLimit(config.constraints, t, |OwnedIDs(st, t, owner)|) then (st, Some(DomainLimit))
               else (SaveDomain(st, NewRecord(t, owner, name, now), wall).0, None)
  {
    hide NameRefusal, OwnedIDs, SaveDomain, NewRecord, NormalizeDomainName;
  }

  lemma NameRefusalIs(config: ServiceConfig, name: string)
    ensures NameRefusal(config, name) == None <==> config.constraints.enabled && ValidateDomainName(name, config.constraints) == None
    ensures !config.constraints.enabled ==> NameRefusal(config, name) == Some(DomainNotFound)
    ensures config.constraints.enabled ==> NameRefusal(config, name) in [None, Some(DomainInvalid), Some(DomainReserved)]
  {
    hide ValidateDomainName;
  }

  lemma RegisteredIs(st: DomainState, t: OwnerType, owner: int, name: string, now: Time, wall: Time)
    ensures var n := NormalizeDomainName(name);
            var (st', saved) := SaveDomain(st, NewRecord(t, owner, name, now), wall);
            NormalizeDomainName(n) == n ==>
              && st' == DomainState(st.next + 1, st.byID[st.next := saved], st.byName[n := st.next])
              && IsRegistered(saved, st.next, t, owner, n, if now == 0 then wall else now)
  {
    hide NormalizeDomainName;
  }

  /** A name is refused as reserved, rather than as invalid, exactly when it passes the checks that come before the
      reserved names and the patterns, and one of those covers it. */
  lemma ReservedRefusalIff(config: ServiceConfig, name: string)
    ensures var (c, d) := (config.constraints, NormalizeDomainName(name));
            var bare := TrimPrefix(d, "*.");
            NameRefusal(config, name) == Some(DomainReserved)
            <==> && c.enabled && d != "" && !Contains(d, "/") && !Contains(d, ":") && !Contains(d, "://")
                 && |Split(bare, '.')| >= 2 && ("*." <= d ==> c.allowWildcard)
                 && (|Split(bare, '.')| == 2 ==> c.allowApex)
                 && (|Split(bare, '.')| > 2 && !("*." <= d) ==> c.allowSubdomain)
                 && ((exists i :: 0 <= i < |c.reserved| && MatchesReserved(d, c.reserved[i]))
                     || exists i :: 0 <= i < |c.blockedPatterns| && c.blockedPatterns[i](bare))
  {
    hide NormalizeDomainName, Contains, MatchesReserved, IsLabel, IsTopLevel, TrimPrefix, Split;
  }

  /** The 16-byte form of an address. */
  function Sixteen(bytes: seq<int>): seq<int> {
    if |bytes| == 4 then [0, 0, 0, 0, 0, 0, 0, 0, 0, 0, 255, 255] + bytes else bytes
  }

  /** Addresses are the same when their 16-byte forms are. */
  lemma SameAddressIff(a: Address, b: Address)
    requires |a.bytes| in [4, 16] && |b.bytes| in [4, 16]
    ensures SameAddress(a, b) <==> Sixteen(a.bytes) == Sixteen(b.bytes)
  {
    if |a.bytes| == |b.bytes| == 4 {
      assert Sixteen(a.bytes)[12..] == a.bytes && Sixteen(b.bytes)[12..] == b.bytes;
    }
  }

  /** An address is public when some configured one has its 16-byte form. */
  lemma IsPublicIff(config: ServiceConfig, a: Address)
    requires |a.bytes| in [4, 16] && forall p :: p in config.publicIPs ==> |p.bytes| in [4, 16]
    ensures IsPublic(config, a) <==> exists p :: p in config.publicIPs && Sixteen(p.bytes) == Sixteen(a.bytes)
  {
    hide SameAddress, Sixteen;
    forall p | p in config.publicIPs ensures SameAddress(a, p) <==> Sixteen(p.bytes) == Sixteen(a.bytes) { SameAddressIff(a, p); }
    if IsPublic(config, a) {
      var j :| 0 <= j < |config.publicIPs| && SameAddress(a, config.publicIPs[j]);
      assert config.publicIPs[j] in config.publicIPs;
    }
  }

  /** A host is one of the platform's when a configured one normalises to it. */
  lemma IsPlatformHostIff(config: ServiceConfig, host: string)
    ensures IsPlatformHost(config, host) <==> exists p :: p in config.platformHosts && NormalizeHost(p) == host
  {
    hide NormalizeHost;
    if p :| p in config.platformHosts && NormalizeHost(p) == host {
      var j :| 0 <= j < |config.platformHosts| && config.platformHosts[j] == p;
      assert HostMatches(config.platformHosts[j], host);
    }
  }

  /** A CNAME to a platform host, with or without the final dot of DNS and in any case, proves that host. */
  lemma PlatformCNAMEProves(config: ServiceConfig, host: string, cname: string)
    requires host in config.platformHosts && IsCanonicalName(host) && ToLower(cname) == host
    ensures ProvenTarget(config, DNSAnswers(None, Some(cname))) == host
    ensures ProvenTarget(config, DNSAnswers(None, Some(cname + "."))) == host
  {
    PlatformNames(host, cname);
    var j :| 0 <= j < |config.platformHosts| && config.platformHosts[j] == host;
    assert HostMatches(config.platformHosts[j], host);
    hide NormalizeHost, IsCanonicalName, CanonicalCNAME, HostMatches;
  }

  lemma PlatformNames(host: string, cname: string)
    requires IsCanonicalName(host) && ToLower(cname) == host
    ensures NormalizeHost(host) == host && host != "" && CanonicalCNAME(cname) == host && CanonicalCNAME(cname + ".") == host
  {
    hide IsCanonicalName, TrimSpace, SplitHostPort, TrimSuffix;
    CanonicalNameIsFixed(host);
    CanonicalEndsInLetter(host);
    TrimDot(host);
    TrimDot(host + ".");
    assert (host + ".")[..|host|] == host;
    LowerOfConcat(cname, ".");
    assert ToLower(cname + ".") == host + "." && Trimmed(host + ".");
    FirstIndexIsFirst(host, ':');
    FirstIndexIsFirst(host + ".", ':');
  }

  /** Platform hosts are kept in order, normalised, with blank ones dropped. */
  function KeptHosts(hosts: seq<string>): (r: seq<string>)
    ensures forall i :: 0 <= i < |r| ==> r[i] != ""
  {
    if hosts == [] then []
    else
      var host := NormalizeHost(hosts[|hosts| - 1]);
      KeptHosts(hosts[..|hosts| - 1]) + if host != "" then [host] else []
  }

  /** The hosts kept are the normal forms of the given ones, blank ones left out, in their order. */
  lemma {:induction false} KeptHostsAre(a: seq<string>, b: seq<string>, host: string)
    ensures KeptHosts(a + b) == KeptHosts(a) + KeptHosts(b)
    ensures KeptHosts([host]) == if NormalizeHost(host) == "" then [] else [NormalizeHost(host)]
  {
    hide NormalizeHost;
    assert [host][..0] == [];
    if b == [] {
      assert a + b == a;
    } else {
      KeptHostsAre(a, b[..|b| - 1], host);
      assert (a + b)[..|a + b| - 1] == a + b[..|b| - 1];
    }
  }

  /** Missing addresses are skipped. */
  function KeptAddresses(ips: seq<Option<Address>>): (r: seq<Address>)
    ensures forall a :: a in r <==> Some(a) in ips
  {
    if ips == [] then []
    else
      var last := ips[|ips| - 1];
      assert ips == ips[..|ips| - 1] + [last];
      KeptAddresses(ips[..|ips| - 1]) + if last.Some? then [last.value] else []
  }

  /** The others are kept in their order. */
  lemma {:induction false} KeptAddressesAre(a: seq<Option<Address>>, b: seq<Option<Address>>, ip: Option<Address>)
    ensures KeptAddresses(a + b) == KeptAddresses(a) + KeptAddresses(b)
    ensures KeptAddresses([ip]) == if ip == None then [] else [ip.value]
  {
    assert [ip][..0] == [];
    if b == [] {
      assert a + b == a;
    } else {
      KeptAddressesAre(a, b[..|b| - 1], ip);
      assert (a + b)[..|a + b| - 1] == a + b[..|b| - 1];
    }
  }

  /** `NewDomainService`. */
  method NewServiceConfig(constraints: DomainConstraints, hosts: seq<string>, ips: seq<Option<Address>>,
                          tlsALPN: bool, http: bool)
    returns (config: ServiceConfig)
    ensures config == ServiceConfig(constraints, KeptHosts(hosts), KeptAddresses(ips), tlsALPN, http)
  {
    hide NormalizeHost;
    var kept: seq<string> := [];
    for n := 0 to |hosts|
      invariant kept == KeptHosts(hosts[..n])
    {
      assert hosts[..n + 1][..n] == hosts[..n];
      var host := NormalizeHost(hosts[n]);
      if host != "" {
        kept := kept + [host];
      }
    }
    assert hosts[..|hosts|] == hosts;
    var addresses: seq<Address> := [];
    for n := 0 to |ips|
      invariant addresses == KeptAddresses(ips[..n])
    {
      assert ips[..n + 1][..n] == ips[..n];
      if ips[n].Some? {
        addresses := addresses + [ips[n].value];
      }
    }
    assert ips[..|ips|] == ips;
    config := ServiceConfig(constraints, kept, addresses, tlsALPN, http);
  }

  predicate NameLess(a: CustomDomain, b: CustomDomain) { Less(a.domain, b.domain) }

  class DomainService {
    const store: DomainStore
    const config: ServiceConfig

    constructor (store: DomainStore, config: ServiceConfig)
      ensures this.store == store && this.config == config
    {
      this.store, this.config := store, config;
    }

    method LookupDomain(name: string) returns (r: Result<CustomDomain, DomainError>)
      ensures r == LookupFor(store.View(), Administrator, name)
    {
      var found := store.FindCustomDomainByDomain(name);
      match found
      case None => return Err(DomainNotFound);
      case Some(d) => return Ok(d);
    }

    method GetOwnedDomain(t: OwnerType, owner: int, name: string) returns (r: Result<CustomDomain, DomainError>)
      ensures r == LookupFor(store.View(), OwnerOnly(t, owner), name)
    {
      r := LookupDomain(name);
      if r.Ok? && !r.value.OwnedBy(t, owner) {
        return Err(DomainNotFound);
      }
    }

    method CreateDomain(t: OwnerType, owner: int, name: string, now: Time,
                        wall: Time) returns (r: Result<CustomDomain, DomainError>)
      requires store.Valid()
      modifies store
      ensures store.Valid()
      ensures (store.View(), if r.Ok? then None else Some(r.error)) == Apply(config, old(store.View()), Create(t, owner, name), now, wall)
      ensures r.Ok? ==> r.value == SaveDomain(old(store.View()), NewRecord(t, owner, name, now), wall).1
    {
      if !config.constraints.enabled {
        return Err(DomainNotFound);
      }
      var nameError := ValidateDomainName(name, config.constraints);
      if nameError.Some? {
        return Err(NameErrorCode(nameError.value));
      }
      var existing := store.ListCustomDomainsByOwner(t, owner);
      var found := store.FindCustomDomainByDomain(name);
      if found.Some? {
        return Err(DomainExists);
      }
      var limit := LimitFor(config.constraints, t);
      if limit > 0 && |existing| >= limit {
        return Err(DomainLimit);
      }
      var saved := store.SaveCustomDomain(NewRecord(t, owner, name, now), wall);
      return Ok(saved);
    }

    /** The nested search of a verification: each resolved address against each public one. */
    method MatchAddress(ips: seq<Address>) returns (matchedTarget: string)
      ensures matchedTarget == FirstPublic(config, ips)
    {
      hide NormalizeHost;
      matchedTarget := "";
      var i := 0;
      while i < |ips|
        invariant 0 <= i <= |ips|
        invariant matchedTarget == "" && FirstPublic(config, ips) == FirstPublic(config, ips[i..])
      {
        var j := 0;
        while j < |config.publicIPs|
          invariant 0 <= j <= |config.publicIPs|
          invariant matchedTarget == ""
          invariant forall k :: 0 <= k < j ==> !SameAddress(ips[i], config.publicIPs[k])
        {
          if SameAddress(ips[i], config.publicIPs[j]) {
            matchedTarget := ips[i].text;
            break;
          }
          j := j + 1;
        }
        if matchedTarget != "" {
          break;
        }
        assert ips[i..][1..] == ips[i + 1..];
        i := i + 1;
      }
    }

    method MatchPlatformHost(cname: string) returns (matchedTarget: string)
      ensures matchedTarget == if IsPlatformHost(config, cname) then cname else ""
    {
      hide NormalizeHost;
      var j := 0;
      while j < |config.platformHosts|
        invariant 0 <= j <= |config.platformHosts|
        invariant forall k :: 0 <= k < j ==> !HostMatches(config.platformHosts[k], cname)
      {
        if HostMatches(config.platformHosts[j], cname) {
          return cname;
        }
        j := j + 1;
      }
      return "";
    }

    /** The address search, then the CNAME search. */
    method FindTarget(dns: DNSAnswers) returns (matchedTarget: string)
      ensures matchedTarget == ProvenTarget(config, dns)
    {
      matchedTarget := "";
      if dns.ips.Some? {
        matchedTarget := MatchAddress(dns.ips.value);
      }
      if matchedTarget == "" && |config.platformHosts| > 0 && dns.cname.Some? {
        matchedTarget := MatchPlatformHost(CanonicalCNAME(dns.cname.value));
      }
    }

    method VerifyDomain(d: CustomDomain, dns: DNSAnswers, now: Time, wall: Time)
      returns (saved: CustomDomain, resolvedTo: string, report: Option<DomainError>)
      requires store.Valid()
      modifies store
      ensures store.Valid()
      ensures var outcome := VerifyOutcome(config, d, dns, now);
              (store.View(), saved) == SaveDomain(old(store.View()), outcome.record, wall) && report == outcome.report
      ensures resolvedTo == ProvenTarget(config, dns)
      ensures report == None <==> ProvenTarget(config, dns) != ""
      ensures report.Some? ==> report.value == (if dns.ips.None? then DNSLookupFailed else DNSMismatch)
      ensures report.Some? ==> saved.verificationError == (if dns.ips.None? then "DNS_LOOKUP_FAILED" else "DNS_MISMATCH")
    {
      hide ProvenTarget, NormalizeDomainName;
      if dns.ips.None? && |config.platformHosts| == 0 {
        NothingToProve(config, dns);
        saved := store.SaveCustomDomain(FailedRecord(d, DNSLookupFailed, now), wall);
        return saved, "", Some(DNSLookupFailed);
      }

      var matchedTarget := FindTarget(dns);
      if matchedTarget == "" {
        var code := DNSMismatch;
        if dns.ips.None? {
          code := DNSLookupFailed;
        }
        saved := store.SaveCustomDomain(FailedRecord(d, code, now), wall);
        return saved, "", Some(code);
      }
      saved := store.SaveCustomDomain(VerifiedRecord(d, matchedTarget, now), wall);
      return saved, matchedTarget, None;
    }

    method VerifyOwnedDomain(t: OwnerType, owner: int, name: string, dns: DNSAnswers, now: Time, wall: Time)
      returns (resolvedTo: string, report: Option<DomainError>)
      requires store.Valid()
      modifies store
      ensures store.Valid()
      ensures (store.View(), report) == Apply(config, old(store.View()), EditDomain(OwnerOnly(t, owner), name, Verify(dns)), now, wall)
      ensures report == None ==> resolvedTo == ProvenTarget(config, dns) != ""
      ensures var found := LookupFor(old(store.View()), OwnerOnly(t, owner), name);
              found.Ok? && ProvenTarget(config, dns) == "" ==>
                report == Some(if dns.ips.None? then DNSLookupFailed else DNSMismatch)
    {
      var found := GetOwnedDomain(t, owner, name);
      if found.Err? {
        return "", Some(found.error);
      }
      var saved;
      saved, resolvedTo, report := VerifyDomain(found.value, dns, now, wall);
    }

    method ConfigureDomainSSL(t: OwnerType, owner: int, name: string, wanted: SSLChallenge, provider: string,
                              now: Time, wall: Time)
      returns (r: Result<CustomDomain, DomainError>)
      requires store.Valid()
      modifies store
      ensures store.Valid()
      ensures (store.View(), if r.Ok? then None else Some(r.error))
              == Apply(config, old(store.View()), EditDomain(OwnerOnly(t, owner), name, ConfigureSSL(wanted, provider)), now, wall)
    {
      r := GetOwnedDomain(t, owner, name);
      if r.Err? {
        return;
      }
      var d := r.value;
      if d.verificationStatus != Verified {
        return Err(DomainNotVerified);
      }
      var challenge := wanted;
      if challenge == "" || challenge == CHALLENGE_AUTO {
        challenge := SelectSSLChallenge(d, config.tlsALPN, config.http);
      }
      if challenge == CHALLENGE_DNS01 && TrimSpace(provider) == "" {
        return Err(SSLProviderInvalid);
      }
      d := d.(sslEnabled := true, sslProvider := TrimSpace(ToLower(provider)), sslChallenge := challenge,
              sslStatus := SSLPending, sslError := "", updatedAt := now);
      var saved := store.SaveCustomDomain(d, wall);
      return Ok(saved);
    }

    method SuspendDomain(name: string, reason: string, now: Time,
                         wall: Time) returns (r: Result<CustomDomain, DomainError>)
      requires store.Valid()
      modifies store
      ensures store.Valid()
      ensures (store.View(), if r.Ok? then None else Some(r.error))
              == Apply(config, old(store.View()), EditDomain(Administrator, name, Suspend(reason)), now, wall)
    {
      r := LookupDomain(name);
      if r.Err? {
        return;
      }
      var d := r.value.(status := StatusSuspended, suspensionReason := TrimSpace(reason), updatedAt := now);
      var saved := store.SaveCustomDomain(d, wall);
      return Ok(saved);
    }

    method UnsuspendDomain(name: string, now: Time, wall: Time) returns (r: Result<CustomDomain, DomainError>)
      requires store.Valid()
      modifies store
      ensures store.Valid()
      ensures (store.View(), if r.Ok? then None else Some(r.error))
              == Apply(config, old(store.View()), EditDomain(Administrator, name, Unsuspend), now, wall)
    {
      hide NormalizeDomainName;
      r := LookupDomain(name);
      if r.Err? {
        return;
      }
      var status := StatusPending;
      if r.value.verificationStatus == Verified {
        status := StatusActive;
      }
      var saved := store.SaveCustomDomain(r.value.(status := status, suspensionReason := "", updatedAt := now), wall);
      return Ok(saved);
    }

    method RenewDomainSSL(name: string, now: Time, wall: Time) returns (r: Result<CustomDomain, DomainError>)
      requires store.Valid()
      modifies store
      ensures store.Valid()
      ensures (store.View(), if r.Ok? then None else Some(r.error))
              == Apply(config, old(store.View()), EditDomain(Administrator, name, RenewSSL), now, wall)
    {
      r := LookupDomain(name);
      if r.Err? {
        return;
      }
      if !r.value.sslEnabled {
        return Err(DomainNotVerified);
      }
      var challenge := r.value.sslChallenge;
      if challenge == "" {
        challenge := SelectSSLChallenge(r.value, config.tlsALPN, config.http);
      }
      var d := r.value.(sslStatus := SSLPending, sslError := "", sslChallenge := challenge, updatedAt := now);
      var saved := store.SaveCustomDomain(d, wall);
      return Ok(saved);
    }

    method DeleteDomain(name: string) returns (report: Option<DomainError>)
      requires store.Valid()
      modifies store
      ensures store.Valid()
      ensures (store.View(), report) == Apply(config, old(store.View()), Delete(Administrator, name), 0, 0)
    {
      var found := LookupDomain(name);
      if found.Err? {
        return Some(found.error);
      }
      report := store.DeleteCustomDomainByID(found.value.id);
    }

    method DeleteOwnedDomain(t: OwnerType, owner: int, name: string) returns (report: Option<DomainError>)
      requires store.Valid()
      modifies store
      ensures store.Valid()
      ensures (store.View(), report) == Apply(config, old(store.View()), Delete(OwnerOnly(t, owner), name), 0, 0)
    {
      var found := GetOwnedDomain(t, owner, name);
      if found.Err? {
        return Some(found.error);
      }
      report := store.DeleteCustomDomainByID(found.value.id);
    }

    method ListDomains() returns (ds: seq<CustomDomain>)
      requires store.Valid()
      ensures Enumerates(ds, store.domainsByID)
      ensures Sorting.SortedBy(NameLess, ds)
    {
      ds := store.ListCustomDomains();
      ghost var listed := ds;
      ds := Sorting.Sort(ds, NameLess);
      NameOrderIsWeak(multiset(listed));
      PermutationEnumerates(listed, ds, store.domainsByID);
    }
  }

  lemma NameOrderIsWeak(all: multiset<CustomDomain>)
    ensures Sorting.WeakOrderOn(NameLess, all)
  {
    forall a: CustomDomain, b: CustomDomain | NameLess(a, b)
      ensures !NameLess(b, a)
    {
      LessIrreflexive(a.domain);
      if NameLess(b, a) { LessTransitive(a.domain, b.domain, a.domain); }
    }
    forall a: CustomDomain, b: CustomDomain, c: CustomDomain | NameLess(a, c)
      ensures NameLess(a, b) || NameLess(b, c)
    {
      LessTotal(a.domain, b.domain);
      if Less(b.domain, a.domain) { LessTransitive(b.domain, a.domain, c.domain); }
    }
  }

  /** Reordering a listing gives a listing. */
  lemma PermutationEnumerates(a: seq<CustomDomain>, b: seq<CustomDomain>, m: map<int, CustomDomain>)
    requires Enumerates(a, m) && KeysMatch(m) && multiset(a) == multiset(b)
    ensures Enumerates(b, m)
  {
    Sorting.PermutationIsDistinct(a, b);
    forall i | 0 <= i < |b| ensures b[i].id in m && m[b[i].id] == b[i] { assert b[i] in a; }
  }
}
