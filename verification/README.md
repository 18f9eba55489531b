# A verified model of the server's stateful back end

This Dafny project models the parts of the server that keep state and proves what they promise. The
HTTP surface is not modelled.

- **Custom domains**: name rules (`DomainNames`), the two-map index of the store (`DomainModel`), the service
  calls (`DomainService`), whole runs of uninterrupted calls (`DomainRuns`), the same calls cut at their
  separately locked store calls and interleaved arbitrarily (`DomainRaces`), and the host table rebuilt
  from a listing of the store (`Tenancy`), with the host and port it is asked for (`HostPorts`).
- **Credentials**: login sessions and their runs (`Sessions`, `SessionRuns`), bearer tokens, rotation and their runs
  (`Tokens`, `TokenRuns`),
  both kinds under interleaving (`CredentialRaces`), the token generator and its exact distribution
  (`TokenGenerator`, `TokenUniformity`), and the printed form of password hashes over unpadded base64,
  section 4 of RFC 4648 with the padding left off as section 3.2 allows (`Base64`, `Passwords`).
- **Telephony data**: the PBX plan (`PBX`), its runs (`PBXRuns`) and interleavings (`PBXRaces`), its apply preview (`PBXPreview`), contact lists (`Contacts`) and
  communication settings (`UserSettings`), with the part of the Asterisk inventory they read (`Asterisk`).
- **Paths**: the two path normalisers over a segment model of `path.Clean` (`Paths`).

Classes stand for the source's services and for the part of the memory store each one uses; their methods
are proved against specification functions, and the lemmas are about those functions. A state machine over
steps stands for interleaved requests. The library-level modules are `Wrappers` (options and results), `GoStrings` (the string functions
of the Go library that the server calls) and `Sorting` (what callers may assume of `slices.SortFunc`).

## What the proofs say about the code

Where a promise one would expect does not hold of the code, the model keeps the code as it is, and a lemma gives the
exact condition or a concrete case:

- Two interleaved registrations of one free name both succeed (`RaceRegistersTwice`). A write keeps names unique exactly
  when nobody else holds the name at that moment (`WriteKeepsUniqueIff`), and keeps quotas exactly when it replaces a
  stored record or the owner is below its limit then (`WriteKeepsQuotaIff`). After such a race routing depends on
  map iteration order (`RaceMakesRoutingAmbiguous`), which it does exactly when two records of one host bind
  differently (`TableIgnoresOrderIff`).
- An edit in flight brings a deleted domain back (`DeletionUndone`). A deletion is final exactly when no request is
  about to write the record at that moment (`DeletionIsFinalIff`).
- A resolve writes back what it looked up earlier, so a resolve in flight undoes a logout (`LogoutUndone`) and a
  refresh in flight turns one token into two (`RefreshedTwice`). A removal is final exactly when no request
  is between looking the credential up and writing it back (`RemovalIsFinalIff`, and before the call
  `LogoutIsFinalIff` and `RotationIsFinalIff`); for sessions that activity does not extend it always is
  (`PlainSessionRemovalIsFinal`). `EndsAtMostOnce` is what holds of runs that meet that condition, and
  `Conservation` counts the others exactly.
- A verification makes a suspended domain active again, or failed (domain.go:361-431). `EditKeepsSuspensionIff`,
  `SuspensionLastsIff` and `SuspendedIff` say when a suspension lasts, for one edit and for whole runs;
  interleaved edits can undo it too, and `SuspensionSurvivesIff` says when.
- A record can be stored and not be found by its name: after a name race, or when the other record of the name is
  deleted. `WriteKeepsFindableIff`, `RemoveKeepsFindableIff` and `AllFindableIff` say exactly when.
- A token digest that is drawn again overwrites the token it belonged to (`CreateKeepsAllIff`, `RotationKeepsAllIff`).
- Two interleaved PBX creates of one kind get one identifier and the first entity is lost (`TwoCreatesCollide`). A stored
  entity survives exactly when every call that loaded the plan and has not saved yet computed a plan that holds
  it (`EntitySurvivesIff`).
- Normalising a domain name is not idempotent; `NormalizeIdempotentIff` gives the inputs where it is.
- Comparing contact identifiers by the sign of their difference misorders extreme values (`DifferenceOrdersIff`), and
  a contact that a caller numbered itself can be overwritten by the store's own numbering (`NumberedSaveAddsIff`).
- A PBX identifier is handed out again after a delete under the condition of `IdentifierReusedIff`; `IdentifierIsReused` is the
  smallest case.
- An extension whose endpoint is white space makes a load report other settings than the update returned
  (`LoadAfterUpdateIff`); and what a load reports is not always accepted when it is sent back (`ResubmitAcceptedIff`,
  with `DefaultsAreRefused` for a case).
- Decoding unpadded base64 skips line breaks and ignores unused bits; `DecodeThenEncodeIff` says which texts are
  canonical.

## Model

| member | source | states |
|---|---|---|
| DomainNames.AcceptedIff | src/server/model/domain.go:112-165 | validation accepts exactly the inputs whose normal form is labels rejoined (section 2.3.1 of RFC 1035 as relaxed by section 2.1 of RFC 1123) and which the configuration permits |
| DomainNames.AcceptedNameIsCanonical | src/server/model/domain.go:112-165 | every accepted name normalises to one with at least two valid labels and a letters-only last label |
| DomainNames.CanonicalNameIsFixed | src/server/service/tenancy.go:102-110 | the normal form of an accepted name is a fixed point of both the name and the host normalisation |
| DomainNames.NormalizeIdempotentIff | src/server/model/domain.go:108-110 | the inputs on which normalising a name twice equals normalising it once |
| DomainNames.NormalizeIsNotIdempotent | src/server/model/domain.go:108-110 | a concrete name that a second normalisation changes |
| DomainNames.VariantsNormalizeAlike | src/server/model/domain.go:108-110 | outer white space, case and one final dot make no difference to a registered name |
| GoStrings.LowerCharIs | src/server/model/domain.go:108-110 | lowering replaces capital letters by small ones and nothing else |
| GoStrings.SpaceIs | src/server/model/domain.go:108-110 | which ASCII characters trimming drops |
| DomainNames.MatchesReservedIff | src/server/model/domain.go:187-192 | a reserved wildcard covers exactly the names that end in its domain after a dot, any other entry exactly itself |
| DomainNames.LabelMatchesPattern | src/server/model/domain.go:42 | labels are what that pattern matches |
| DomainNames.TopLevelMatchesPattern | src/server/model/domain.go:158-162 | so are top-level labels |
| DomainModel.DomainStore.SaveCustomDomain | src/server/store/memory.go:642-662 | the new records, name index and counter, and the record returned |
| DomainModel.SavedIsFound | src/server/store/memory.go:642-684 | what a save stores of any record, and that a lookup of its name then finds it |
| DomainModel.DomainStore.FindCustomDomainByDomain | src/server/store/memory.go:675-684 | a name-index hit is reported whatever the record map then yields |
| DomainModel.DomainStore.DeleteCustomDomainByID | src/server/store/memory.go:714-725 | a stored record leaves both maps, an unknown identifier is an error and changes nothing |
| DomainModel.DomainStore.ListCustomDomains | src/server/store/memory.go:690-699 | some enumeration of the records, each once, whatever the map order |
| DomainModel.DomainStore.ListCustomDomainsByOwner | src/server/store/memory.go:701-712 | some enumeration of exactly the owner's records, so its length is their number |
| DomainService.ProvenTargetIff | src/server/service/domain.go:361-431 | a target is found exactly when a resolved address is public or the CNAME is a platform host |
| DomainService.FirstPublic | src/server/service/domain.go:376-389 | the recorded address is the first resolved one that is public |
| DomainService.VerificationOutcome | src/server/service/domain.go:361-431 | field by field, what a verification writes when it finds a target and when it does not, and which code it reports |
| DomainService.SameAddressIff | src/server/service/domain.go:376-389 | two addresses count as the same exactly when their 16-byte forms agree, mapped IPv4 included |
| DomainService.IsPublicIff | src/server/service/domain.go:376-389 | an address is public exactly when a configured one has its 16-byte form |
| DomainService.IsPlatformHostIff | src/server/service/domain.go:394-399 | a host is the platform's exactly when a configured one normalises to it |
| DomainService.PlatformCNAMEProves | src/server/service/domain.go:391-400 | a CNAME that spells a platform host, in any case and with or without the final dot, proves that host |
| DomainService.LookupForIs | src/server/service/domain.go:311-320 | a lookup reaches exactly the record indexed under the normalised name that the caller may act on, and otherwise always answers that there is none |
| DomainService.CreateOutcomeIs | src/server/service/domain.go:252-300 | which of the five refusals a registration gets, and every field of the record an accepted one stores |
| DomainService.ReservedRefusalIff | src/server/service/domain.go:252-264 | a refused name is reported as reserved rather than invalid exactly when only a reserved entry or a pattern stands against it |
| DomainService.ConfigureOutcomeIs | src/server/service/domain.go:330-351 | the challenge chosen, what configuring SSL refuses and every field it writes |
| DomainService.SuspendOutcomeIs | src/server/service/domain.go:201-210 | a suspension writes the status, the trimmed reason and the time, and nothing else |
| DomainService.SuspensionIsUndone | src/server/service/domain.go:201-225 | lifting a suspension gives back the record as it was, active exactly when verified |
| DomainService.RenewOutcomeIs | src/server/service/domain.go:227-242 | a renewal needs SSL, keeps a challenge once chosen and otherwise chooses one as configuring would |
| DomainService.NewServiceConfig | src/server/service/domain.go:56-87 | blank hosts and missing addresses are dropped, the rest kept in order |
| DomainService.KeptHostsAre | src/server/service/domain.go:56-71 | the hosts kept are the non-blank normal forms of the given ones, in their order |
| DomainService.KeptAddressesAre | src/server/service/domain.go:72-78 | the addresses kept are those present, in their order |
| DomainService.DomainService.MatchAddress | src/server/service/domain.go:376-389 | the nested loops with their breaks yield the first public address |
| DomainService.DomainService.MatchPlatformHost | src/server/service/domain.go:394-399 | the loop finds the CNAME exactly when it is a platform host |
| DomainService.DomainService.CreateDomain | src/server/service/domain.go:252-300 | the call does what the atomic specification says, for every refusal and for the new record |
| DomainService.DomainService.VerifyDomain | src/server/service/domain.go:361-431 | with or without the early return: same record and target; a failed address lookup is reported and stored as DNS_LOOKUP_FAILED and every other failure as DNS_MISMATCH |
| DomainService.DomainService.VerifyOwnedDomain | src/server/service/domain.go:353-359 | verification of an owned record refines the atomic specification, with the same two failure codes; other owners' records are not found |
| DomainService.DomainService.ConfigureDomainSSL | src/server/service/domain.go:330-351 | refused unless verified, and for dns-01 unless a provider is given; else the record of the specification |
| DomainService.DomainService.SuspendDomain | src/server/service/domain.go:201-210 | refines the atomic specification |
| DomainService.DomainService.UnsuspendDomain | src/server/service/domain.go:212-225 | active again exactly when verified, pending otherwise |
| DomainService.DomainService.RenewDomainSSL | src/server/service/domain.go:227-242 | refines the atomic specification |
| DomainService.DomainService.DeleteDomain | src/server/service/domain.go:244-250 | refines the atomic specification |
| DomainService.DomainService.DeleteOwnedDomain | src/server/service/domain.go:322-328 | only the owner's record can go |
| DomainService.DomainService.ListDomains | src/server/service/domain.go:188-195 | an enumeration of the store in order of name |
| DomainRuns.RunIsReachable | src/server/service/domain.go:201-431 | over every run the two maps are exact inverses, every record obeys the state machine and every positive quota holds |
| DomainRuns.RunStaysWithinLimits | src/server/service/domain.go:444-449 | after any run no user holds more records than the limit for users and no organisation more than that for organisations |
| DomainRuns.StepKeepsReachable | src/server/service/domain.go:201-431 | each single call keeps that invariant, from any state that has it |
| DomainRuns.NameHasOneRecord | src/server/store/memory.go:642-725 | no two records of a reachable store share a name, whoever owns them |
| DomainRuns.EditKeepsLifecycle | src/server/service/domain.go:201-431 | every edit keeps the status, verification and SSL fields consistent |
| DomainRuns.EditKeepsIdentity | src/server/service/domain.go:201-431 | no edit touches identifier, name or owner, and only a verification touches the target |
| DomainRuns.TargetNeedsVerification | src/server/service/domain.go:330-431 | SSL is on, or a domain active, only after an earlier call of the run found that very record, was allowed to act on it and verified it |
| DomainRuns.EditKeepsSuspensionIff | src/server/service/domain.go:201-431 | a suspended record stays suspended through an edit exactly when the edit neither verifies nor lifts |
| DomainRuns.SuspensionLastsIff | src/server/service/domain.go:201-431 | from any point of any run a suspension lasts exactly while no call verifies, lifts or deletes the record |
| DomainRuns.SuspendedIff | src/server/service/domain.go:201-431 | after any run a record is suspended exactly when some call suspended it and none lifted that since |
| DomainRuns.RenewOnlyTouchesTime | src/server/service/domain.go:227-242 | on reachable records a renewal never selects a challenge, and a status test alone decides activity |
| DomainRaces.ExecIsSafe | src/server/store/memory.go:642-725 | under every interleaving the index never dangles, identifiers stay below the counter and keep their first name |
| DomainRaces.LookupNeverDangles | src/server/store/memory.go:675-684 | under every interleaving a successful lookup returns a stored record of that name, never a zero record |
| DomainRaces.IdentifierKeepsIdentity | src/server/store/memory.go:642-662 | an identifier has one name and one owner for ever, even when an in-flight write revives a deleted record |
| DomainRaces.DeletionUndone | src/server/service/domain.go:201-250 | in every reachable system an edit in flight while its record is deleted brings it back |
| DomainRaces.DeletionIsFinalIff | src/server/store/memory.go:642-725 | a removed record stays gone in every continuation exactly when no request is about to write it |
| DomainRaces.WriteKeepsQuotaIff | src/server/service/domain.go:265-299 | a write keeps all quotas exactly when it replaces a stored record, or the owner has no limit or is below it when it happens |
| DomainRaces.SuspensionSurvivesIff | src/server/service/domain.go:201-242 | under interleaving a suspension survives every continuation without a lookup that lifts it exactly when no request is about to write another status or to remove the record |
| DomainRaces.WriteKeepsFindableIff | src/server/store/memory.go:642-684 | a write hides exactly the other records of its name from lookups |
| DomainRaces.RemoveKeepsFindableIff | src/server/store/memory.go:714-725 | so does a removal |
| DomainRaces.AllFindableIff | src/server/store/memory.go:642-725 | under every interleaving all records can be found exactly when names are unique and indexed |
| DomainRaces.WriteKeepsUniqueIff | src/server/service/domain.go:252-300 | a write keeps names unique exactly when no other record holds the name when it happens |
| DomainRaces.RaceRegistersTwice | src/server/service/domain.go:265-299 | two registrations that both look first both succeed, whoever the owners are and whatever the limit |
| DomainRaces.UninterruptedCreate | src/server/service/domain.go:252-300 | a registration nobody interrupts equals the atomic one |
| DomainRaces.UninterruptedEdit | src/server/service/domain.go:201-431 | an edit nobody interrupts equals the atomic one |
| DomainRaces.UninterruptedDelete | src/server/service/domain.go:244-250 | a deletion nobody interrupts equals the atomic one |
| Tenancy.NewTenantResolver | src/server/service/tenancy.go:40-54 | the loops build the set and the table of the specification, later bindings winning |
| Tenancy.NewTenantResolverFromStore | src/server/service/tenancy.go:56-74 | the table is that of some listing of the store |
| Tenancy.TableRange | src/server/service/tenancy.go:40-54 | the table binds exactly the listed hosts, each to one of its own records |
| Tenancy.TableIgnoresOrderIff | src/server/service/tenancy.go:56-74 | one table for all listing orders exactly when records of one host bind alike |
| Tenancy.RunHasOneTable | src/server/service/tenancy.go:56-74 | after any run of atomic calls the table does not depend on the listing order |
| Tenancy.RaceMakesRoutingAmbiguous | src/server/service/tenancy.go:56-74 | after two claims raced for a name there is one table exactly when both records bind the host alike |
| Tenancy.ResolverAgreesWithStore | src/server/service/tenancy.go:76-100 | every host routes to the platform, else to the owner of its one record when active, else to the matching error |
| Tenancy.ResolveAnswers | src/server/service/tenancy.go:76-100 | which of the four answers a host gets, in terms of the platform hosts and the records of the store |
| Tenancy.PortDoesNotRoute | src/server/service/tenancy.go:76-110 | a canonical host routes the same with a port as without one |
| HostPorts.SplitHostPortIff | src/server/service/tenancy.go:102-110 | the texts that split into a host and a port, bracketed or not, and what the host is |
| HostPorts.NormalizeHostIs | src/server/service/tenancy.go:102-110 | the host is taken when the text splits, and otherwise the whole text stays, lowered and trimmed |
| HostPorts.PortIsStripped | src/server/service/tenancy.go:102-110 | a plain host followed by a colon and a port normalises to the host |
| HostPorts.BracketsAreStripped | src/server/service/tenancy.go:102-110 | so does a bracketed host followed by a port |
| HostPorts.OthersAreKept | src/server/service/tenancy.go:102-110 | texts without a port are left as they are |
| Tenancy.ListingIsUnique | src/server/service/domain.go:451-455 | for any map order and any correct sort the listing is the one strictly sorted enumeration |
| Sessions.EffectiveConfig | src/server/service/auth.go:173-187 | positive lifetimes are kept, others become the defaults |
| Sessions.SessionService.CreateSession | src/server/service/auth.go:353-382 | the issued session with its identifier, subject, origin, times and the lifetime of its kind, and the new store; an error or a panic that changes nothing when random bytes run short |
| Sessions.UUIDv4HasForm | src/server/service/auth.go:697-706 | every session identifier has the length, hyphens, version and variant of a version-4 identifier |
| Sessions.UUIDv4Prints | src/server/service/auth.go:697-706 | it prints every drawn byte in order as two hexadecimal digits, but for the version and variant bits |
| Sessions.SessionService.ResolveSession | src/server/service/auth.go:384-408 | refines the specification: not found, expired and removed, or live and perhaps extended |
| Sessions.ResolvedIs | src/server/service/auth.go:384-408 | case by case, what a resolve answers and what it leaves in the store |
| Sessions.BlankIff | src/server/service/auth.go:384-387 | a token of white space alone names no session |
| Sessions.SessionService.LogoutSession | src/server/service/auth.go:410-419 | removes exactly the named session or reports it missing |
| Sessions.LoggedOutIs | src/server/service/auth.go:410-419 | a logout succeeds exactly for a session that is there, and takes that one alone |
| Sessions.IssuedTokenIsNotBlank | src/server/service/auth.go:664-670 | an issued session token always passes the blank test of a resolve |
| SessionRuns.RunTracks | src/server/service/auth.go:353-419 | after every prefix of a run the store entry of every token says what the history says |
| SessionRuns.ResolveSucceedsIff | src/server/service/auth.go:384-408 | a resolve succeeds exactly when issued, not logged out, no late resolve since, and within the lifetime |
| SessionRuns.ResolveAnswersLogin | src/server/service/auth.go:353-408 | over every run a resolve that succeeds answers the subject, origin and creation time of the latest login with its token |
| SessionRuns.FixedLifetime | src/server/service/auth.go:353-408 | without extension a session resolves only within the lifetime of its kind, counted from its login |
| SessionRuns.FailureIsFinal | src/server/service/auth.go:384-419 | after one failed resolve of an issued token no later one succeeds |
| Tokens.TokenStore.SaveToken | src/server/store/memory.go:727-748 | the right map gets the entry; the identifier is spent even for an unknown owner type |
| Tokens.TokenStore.DeleteTokenByHash | src/server/store/memory.go:778-803 | exactly the entry goes, or nothing changes |
| Tokens.TokenService.CreateToken | src/server/service/auth.go:478-513 | the issued token, the new store and what is left of the random stream |
| Tokens.TokenService.ResolveToken | src/server/service/auth.go:515-535 | refines the specification: malformed, not found, expired and removed, or used |
| Tokens.TokenService.Reissue | src/server/service/auth.go:543-554 | the retry loop takes the first of four draws whose digest is new to the digest of the old token, issues it with the requested lifetime and disturbs no other entry |
| Tokens.TokenService.RefreshToken | src/server/service/auth.go:537-564 | granted exactly when one of four draws has another digest: the old entry went and that draw came, with owner, name, scope and the requested lifetime; refused: every key is still there |
| Tokens.TokenService.LogoutToken | src/server/service/auth.go:566-574 | removes exactly the presented token or reports it missing |
| Tokens.IssuedTokenResolvesIff | src/server/service/auth.go:478-535 | a fresh token is granted to its own owner type only, and for exactly its lifetime (an expiry that falls on the zero time never expires) |
| Tokens.RefreshedResolvesIff | src/server/service/auth.go:537-564 | after a granted refresh the new value resolves exactly while the lifetime asked for lasts, counted from the draw that ended the loop |
| Tokens.NewTokenIs | src/server/service/auth.go:478-513 | every field of an issued token, with the default name and scope |
| Tokens.LookedUpIs | src/server/service/auth.go:515-535 | what a resolve of a well-formed value answers and changes, case by case |
| Tokens.RotationKeepsAllIff | src/server/service/auth.go:537-564 | a rotation leaves all other tokens unchanged exactly when the drawn digest belonged to no other token |
| Tokens.CreateKeepsAllIff | src/server/store/memory.go:727-748 | so does a create |
| TokenRuns.RunTracks | src/server/service/auth.go:478-574 | after every prefix of a run the store entry of every token value says what the history says |
| TokenRuns.ResolveSucceedsIff | src/server/service/auth.go:478-574 | over every run a resolve succeeds exactly when its value was issued, directly or as the successor of a usable one, was neither logged out nor refreshed since, and has not expired |
| TokenRuns.ResolveAnswersOwner | src/server/service/auth.go:478-535 | over every run a resolve that succeeds answers the owner, name and scope for which its value, or the one it succeeds, was issued |
| Tokens.RotationMovesAccess | src/server/service/auth.go:537-564 | after a rotation the old value is dead, the new one lives, and the number of tokens is the same |
| CredentialRaces.NoStrayCredential | src/server/service/auth.go:537-564 | under every interleaving whatever is live was handed to a client or is still held by a refresh |
| CredentialRaces.Conservation | src/server/service/auth.go:515-574 | each credential came to life once per issue and revival and ended once per refresh, logout, expiry and roll-back |
| CredentialRaces.RemovalIsFinalIff | src/server/service/auth.go:384-574 | a dead credential stays dead in every continuation that does not draw it again exactly when no request is between looking it up and writing it back |
| CredentialRaces.PlainSessionRemovalIsFinal | src/server/service/auth.go:384-419 | without extension on activity every removal of a session is final |
| CredentialRaces.LogoutIsFinalIff | src/server/service/auth.go:566-574 | a logout is final exactly when no resolve or refresh of the credential is in flight then |
| CredentialRaces.RotationIsFinalIff | src/server/service/auth.go:559-563 | so is the deletion of the old token at the end of a refresh |
| CredentialRaces.EndsAtMostOnce | src/server/service/auth.go:537-574 | in runs whose removals meet that condition at most one refresh or logout of a credential takes effect, and then it is dead |
| CredentialRaces.RevivalIff | src/server/service/auth.go:520-531 | a write-back revives a credential exactly when a step since the lookup removed it and none after that brought it back |
| CredentialRaces.RefreshedTwice | src/server/service/auth.go:537-564 | two interleaved refreshes of one token can both be granted |
| CredentialRaces.LogoutUndone | src/server/service/auth.go:384-419 | a resolve in flight can bring a logged-out credential back |
| CredentialRaces.UninterruptedResolve | src/server/service/auth.go:515-535 | a token resolve nobody interrupts moves the live digests as the atomic one does, expiry included |
| CredentialRaces.UninterruptedRefresh | src/server/service/auth.go:537-564 | so does a refresh, composed of the atomic resolve, save and delete |
| CredentialRaces.UninterruptedLogout | src/server/service/auth.go:566-574 | so does a token logout |
| CredentialRaces.UninterruptedSessionResolve | src/server/service/auth.go:384-408 | so does a session resolve, extended or not |
| CredentialRaces.UninterruptedSessionLogout | src/server/service/auth.go:410-419 | so does a session logout |
| TokenGenerator.GeneratePrefixedOpaqueToken | src/server/service/auth.go:672-695 | the nested loops refine drawing one accepted byte at a time, and consume the same bytes |
| TokenGenerator.DrawTakesFirstAccepted | src/server/service/auth.go:672-695 | the result is the image of the first n bytes below the limit, the shortest such prefix is consumed, and it fails exactly when there are fewer |
| TokenGenerator.GeneratedValueIsOfOneKind | src/server/service/auth.go:599-628 | a generated value passes the format check of its own owner type and of no other |
| TokenGenerator.TokenFormatIff | src/server/service/auth.go:599-628 | the texts that pass the format check of an owner type: its prefix and 32 letters or digits |
| TokenUniformity.EveryTextHasEqualWeight | src/server/service/auth.go:672-695 | every text of length n comes from exactly 7^n accepted byte strings |
| TokenUniformity.AcceptedStringDrawsImage | src/server/service/auth.go:672-695 | an accepted byte string of length n drives the generator to its image and is used up |
| Base64.DecodeUndoesEncode | src/server/service/auth.go:630-662 | unpadded base64 decodes to what was encoded, for all remainders and both alphabets |
| Base64.DecodeThenEncodeIff | src/server/service/auth.go:643-662 | a text that decodes prints back as itself exactly when it has no line breaks and its unused bits are zero |
| Base64.LineBreaksAreSkipped | src/server/service/auth.go:643-662 | line breaks anywhere in a text change nothing |
| Base64.SymbolIsTabled | src/server/service/auth.go:630-662 | the symbols are those of tables 1 and 2 of RFC 4648 |
| Base64.GroupsAreNumbers | src/server/service/auth.go:630-662 | a group of bytes and its group of six-bit values are one number |
| Base64.GroupsInOrder | src/server/service/auth.go:630-662 | whole groups are encoded one after the other |
| Passwords.DecodeUndoesArgon2 | src/server/service/auth.go:630-662 | reading a printed password hash returns exactly its salt and key |
| Passwords.PrintedHead | src/server/service/auth.go:630-641 | a printed hash begins with the algorithm, version and parameters of the source |
| Passwords.DecodeArgon2Iff | src/server/service/auth.go:643-662 | the texts that read as a hash, and the salt and key they yield |
| Passwords.HashAcceptsExactly | src/server/service/auth.go:199-234 | a hash accepts exactly the acceptable passwords with the same derived key, its own password among them, with no rehash hint |
| Passwords.AcceptableIff | src/server/service/auth.go:199-234 | which passwords may be hashed or checked at all |
| Passwords.HashPasswordIs | src/server/service/auth.go:199-209 | what hashing a password draws, derives and prints, and when it fails |
| Passwords.VerifyPasswordIs | src/server/service/auth.go:211-234 | the answer of every check, for Argon2 and for bcrypt hashes, with its rehash hint |
| Contacts.DifferenceOrdersIff | src/server/model/user_communications.go:94-101 | comparing 64-bit identifiers by difference orders them exactly when the difference fits |
| Contacts.DifferenceMisordersExtremes | src/server/model/user_communications.go:94-101 | a pair of identifiers that the comparator puts in the wrong order |
| Contacts.NormalizeContactIsIdempotent | src/server/model/user_communications.go:79-85 | normalising a contact twice equals normalising it once |
| Contacts.SavedContactIs | src/server/store/memory.go:222-251 | every field of a saved contact, with the number and the creation time it gets |
| Contacts.SaveTouchesOne | src/server/store/memory.go:222-251 | a save changes the entry of that number of that user and no other |
| Contacts.DeleteContactIs | src/server/store/memory.go:274-293 | so does a deletion |
| Contacts.OrderedListIsUnique | src/server/model/user_communications.go:94-101 | a user's contacts have one list in order of lowered name, then identifier |
| Contacts.NumberedListIsUnique | src/server/model/user_communications.go:94-101 | while numbers handed out fit in 64 bits, every listing is the one strictly ordered list |
| Contacts.RunListIsUnique | src/server/store/memory.go:222-293 | so after any run of fewer than 2^63 saves and deletes that pass only known numbers |
| Contacts.ContactStore.SortUserContacts | src/server/model/user_communications.go:94-101 | a permutation, in order whenever the differences between identifiers of equal names fit in 64 bits |
| Contacts.ContactStore.Upsert | src/server/store/memory.go:234-247 | insert, or replace keeping the original creation time, as a map update |
| Contacts.ContactStore.SaveUserContact | src/server/store/memory.go:222-251 | the list refines a map update; other users' lists are untouched |
| Contacts.ContactStore.FindUserContact | src/server/store/memory.go:253-263 | lookup in the map |
| Contacts.ContactStore.ListUserContacts | src/server/store/memory.go:265-272 | the contacts of the map, each once, and in order whenever the comparator can be trusted on them |
| Contacts.ContactStore.DeleteUserContact | src/server/store/memory.go:274-293 | removal from the map; other users' lists are untouched |
| Contacts.NumberedSaveAddsIff | src/server/store/memory.go:226-247 | a save that the store numbers adds a contact exactly when the number is free |
| Contacts.NumberedSaveCanReplace | src/server/store/memory.go:226-247 | a concrete case where it replaces one |
| Contacts.NumberedSavesStayNumbered | src/server/store/memory.go:226-247 | it never does while callers pass only numbers they were given |
| PBX.MaxID | src/server/service/pbx.go:684-692 | the largest identifier of a list, or zero |
| PBX.NextID | src/server/service/pbx.go:684-692 | one more than that |
| PBX.IdentifierReusedIff | src/server/service/pbx.go:684-705 | when deleting an entity lets the next create hand out its identifier again |
| PBX.IdentifierIsReused | src/server/service/pbx.go:684-705 | the smallest case in which it does |
| PBX.DeleteFromSlice | src/server/service/pbx.go:694-705 | drops the first match and keeps the rest in order, or reports none |
| PBX.SortPBXPlan | src/server/model/pbx.go:169-180 | each list becomes a permutation of itself in order of its key |
| PBX.PlanOrder | src/server/model/pbx.go:169-180 | extensions come in the order of their numbers, all else in that of their names |
| PBX.StoredIsIdempotent | src/server/service/pbx.go:83-103 | the stored form of every entity is a normal form |
| PBX.StoredIs | src/server/service/pbx.go:83-103 | every field of a created entity: text trimmed, technology, direction and target kind lowered, the rest as requested |
| PBX.StoredKeepsRequired | src/server/model/pbx.go:130-139 | storing blanks no required field and fills none |
| PBX.MissingFieldIff | src/server/service/pbx.go:567-657 | which fields a create of each kind asks for |
| PBX.PBXStore.SavePBXPlan | src/server/store/memory.go:162-172 | the store sorts again and stamps an unstamped plan, with the same entities |
| PBX.PBXService.SavePlan | src/server/service/pbx.go:560-565 | saving keeps the entities and leaves every list sorted with distinct positive identifiers |
| PBX.PBXService.GetEntity | src/server/service/pbx.go:70-81 | returns a stored entity of that identifier, or there is none |
| PBX.PBXService.CreateEntity | src/server/service/pbx.go:83-103 | refused exactly for a blank required field, the first of which is reported; else the plan gains exactly the stored form under the next identifier |
| PBX.PBXService.DeleteEntity | src/server/service/pbx.go:105-117 | the plan loses exactly one entity of that identifier, or nothing changes and there was none |
| PBXRuns.PlanIsCreatedMinusDeleted | src/server/service/pbx.go:83-117 | after any run every list is sorted with distinct positive identifiers and holds exactly what was created and not deleted, as a multiset |
| PBXRaces.EntitySurvivesIff | src/server/service/pbx.go:83-117 | under interleaving a stored entity survives exactly when every plan about to be saved holds it |
| PBXRaces.TwoCreatesCollide | src/server/service/pbx.go:83-103 | two creates that both load first get one identifier, and the first saved is lost |
| PBXRaces.IdentifiersStayDistinct | src/server/service/pbx.go:83-117 | under every interleaving every list keeps distinct positive identifiers |
| PBXRaces.SameIdentifierIff | src/server/service/pbx.go:684-692 | two creates of one kind get one identifier exactly when the plans they loaded have one largest identifier |
| PBXRaces.UninterruptedCall | src/server/service/pbx.go:83-117 | a call nobody interrupts leaves the entities of the atomic call |
| PBX.CreatedIsFound | src/server/service/pbx.go:70-103 | after a create the only entity under the new identifier is the created one |
| PBXPreview.ReferencedTechnologies | src/server/service/pbx.go:733-757 | the three passes list each referenced technology once, in the order of the specification |
| PBXPreview.FirstSeenIsDistinct | src/server/service/pbx.go:733-757 | that list holds exactly the distinct non-blank technologies |
| PBXPreview.FirstSeenInOrder | src/server/service/pbx.go:733-757 | and orders them by first occurrence |
| PBXPreview.ApplyPreview | src/server/service/pbx.go:540-556 | the validations are those of the specification, in its order |
| PBXPreview.OneWarningPerMissingTechnology | src/server/service/pbx.go:552-556 | exactly one warning per technology that an extension, trunk or profile names and neither drivers nor stacks offer, and none for any other |
| PBXPreview.CapabilityCodesIff | src/server/service/pbx.go:514-551 | each other code comes up exactly when the plan needs the capability and the inventory lacks it |
| PBXPreview.PreviewOrder | src/server/service/pbx.go:514-556 | validations come in one fixed order, technologies last and as the plan first names them |
| PBXPreview.ReferencedIff | src/server/service/pbx.go:733-757 | a technology is referenced exactly when an extension, trunk or profile names it |
| PBXPreview.CleanPreviewIff | src/server/service/pbx.go:540-556 | no validations exactly when all needed capabilities, drivers and technologies are there |
| Asterisk.HasCapabilityIff | src/server/model/asterisk.go:66-74 | a capability counts exactly when the first entry of its key is available |
| Asterisk.HasSubsystemIff | src/server/model/asterisk.go:171-179 | a subsystem counts exactly when an entry of its key names a provider |
| UserSettings.FirstExtension | src/server/service/user_communications.go:387-394 | the user's first extension, or there is none |
| UserSettings.UserCommunicationsService.FindUserExtension | src/server/service/user_communications.go:387-394 | the loop finds that extension |
| UserSettings.UserCommunicationsService.LoadContext | src/server/service/user_communications.go:312-361 | stored or default settings with the overlay of extension and inventory, or the user is unknown |
| UserSettings.UserCommunicationsService.GetSettings | src/server/service/user_communications.go:262-268 | reports exactly those settings |
| UserSettings.UserCommunicationsService.UpdateSettings | src/server/service/user_communications.go:270-310 | the first failing check refuses and stores nothing; else what is returned is stored, for this user only |
| UserSettings.UpdateTakesRequest | src/server/service/user_communications.go:270-310 | an accepted update takes every switch of the request, its trimmed forwarding target, normalised address and endpoint or the extension's, for this user |
| UserSettings.RefusalIs | src/server/service/user_communications.go:270-299 | which check refuses a request, in their order, and that a request which passes them all is accepted |
| UserSettings.ReportedIs | src/server/service/user_communications.go:312-361 | every field that a load reports, stored or default, under the overlay |
| UserSettings.SupportIs | src/server/service/user_communications.go:396-434 | what the inventory supports, in terms of drivers, capabilities and subsystems |
| UserSettings.CommunicationStore.SaveUserCommunicationSettings | src/server/store/memory.go:199-209 | one user's entry becomes the normalised settings |
| UserSettings.LoadAfterUpdateIff | src/server/service/user_communications.go:262-361 | when a load after an accepted update reports exactly what the update returned |
| UserSettings.CreatedExtensionKeepsUpdates | src/server/service/user_communications.go:270-361 | it always does for an extension that the PBX service stored |
| UserSettings.RunTrimsEndpoints | src/server/service/pbx.go:83-103 | after any run of PBX calls every stored extension has a trimmed endpoint |
| UserSettings.RunKeepsUpdates | src/server/service/user_communications.go:270-361 | so after any such run every accepted update is what the next load reports |
| UserSettings.LoadCanOverwriteUpdate | src/server/service/user_communications.go:327-334 | an extension for which it does not |
| UserSettings.ReportedIsAvailable | src/server/service/user_communications.go:338-354 | a load never reports messaging, presence or webphone on without the inventory behind it |
| UserSettings.ResubmitAcceptedIff | src/server/service/user_communications.go:270-361 | when reported settings are accepted unchanged |
| UserSettings.DefaultsAreRefused | src/server/service/user_communications.go:270-361 | default settings that are not |
| Paths.NoDotDotSegment | src/config/path.go:18-31 | input without ".." has no such segment, so that branch of `path.Clean` is never taken |
| Paths.CleanWithoutDotDot | src/config/path.go:18-31 | there `path.Clean` is the joining of the real segments |
| Paths.ValidateIff | src/config/path.go:49-68 | the inputs that validation accepts |
| Paths.SafePathIsCanonical | src/config/path.go:70-75 | accepts exactly those and returns the non-empty segments joined by single slashes |
| Paths.SafePathRefusalIs | src/config/path.go:33-75 | which error a refused path gets: its length first, then "..", then its first bad segment |
| Paths.SegmentErrorIs | src/config/path.go:33-47 | which error a segment gets |
| Paths.ValidSegmentMatchesPattern | src/config/path.go:15 | the segments accepted are the texts of at most 64 characters that this pattern matches |
| Paths.SafePathIsIdempotent | src/config/path.go:70-75 | an accepted path is a fixed point |
| Paths.BaseURLIsCanonical | src/config/path.go:77-94 | "/" for blank input, else a slash and the segments other than "" and ".", accepted exactly when there are some and all are valid |
| Paths.BaseURLRefusalIs | src/config/path.go:77-94 | which error a refused base URL gets |
| Paths.BaseURLIsIdempotent | src/config/path.go:77-94 | an accepted base URL is a fixed point |

## Left out

- HTTP handlers, request parsing, cookies, JSON and text output: the server's surface over these calls.
- Strings are ASCII: lower-casing and trimming of other characters is not modelled.
- Counters and times are unbounded integers; only the contact comparator models 64-bit wrap-around.
- Blocked-name patterns and the address format rules are arbitrary predicates; a pattern that does not compile panics in the source and that is not modelled.
- DNS answers, clock readings and random bytes are inputs; Argon2, bcrypt and SHA-256 are arbitrary functions, SHA-256 injective where a theorem says so and Argon2 of the requested length.
- A domain call reads the service clock once and the store clock once; the source reads each at the same points.
- Store calls of the memory store never fail for other reasons than a missing entry, so other store errors are not modelled.
- Sorting.Sort: stands for any correct sort and works on values, so in-place reordering and slice aliasing are not captured; elements that tie may come out in any order.
- The memory store is split into one class per service; locking is modelled only by the steps of the three race modules.
- Nil and empty slices are the same value.
- PBX.PBXService.CreateEntity: the eight record types of the plan share one datatype, because the source repeats the same create and delete code for each; error texts are replaced by the position of the blank field.
- Paths.CleanWithoutDotDot: `path.Clean` is library code, modelled as a fold over segments rather than its byte buffer.
- PBXRaces.EntitySurvivesIff: lists are taken up to their order, since the sort that ends a save moves no entity in or out.
- CredentialRaces.NoStrayCredential: clients are taken to present only values they were given, and only which digests are live is tracked, not the records.
- Tokens.TokenService.RefreshToken: the roll-back for an old entry that is already gone is proved dead for uninterrupted calls; it is live in `CredentialRaces`.
- Session kinds other than admin and user, which no caller passes.
- The credential lookup and re-save at login.
- Voicemail, call and message lists repeat the contact list's upsert with another sort key.
- The checks that precede saving a contact, and the dashboard, presence and webphone views.
- Counts, artifacts and action texts of the apply preview.
- DNS instructions, permission checks, namespaces, operator and Asterisk surfaces, users, admins and organisations: constant tables, single checks or finite case analysis.
