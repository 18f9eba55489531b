/** Custom-domain records and the two-map index that the store keeps over them. */
module DomainModel {
  import opened Wrappers
  import opened DomainNames

  datatype DomainError =
    | DomainNotFound
    | DomainInvalid
    | DomainReserved
    | DomainExists
    | DomainLimit
    | DomainNotVerified
    | SSLProviderInvalid
    | DNSMismatch
    | DNSLookupFailed
    | RecordNotFound

  datatype OwnerType = User | Org
  datatype DomainStatus = StatusPending | StatusActive | StatusSuspended | StatusError
  datatype VerificationStatus = VerificationPending | Verified | VerificationFailed
  datatype SSLStatus = SSLNone | SSLPending | SSLActive | SSLExpired | SSLError

  /** Challenges arrive as request text, so any string is possible. */
  type SSLChallenge = string
  const CHALLENGE_AUTO: SSLChallenge := "auto"
  const CHALLENGE_HTTP01: SSLChallenge := "http-01"
  const CHALLENGE_TLS_ALPN: SSLChallenge := "tls-alpn-01"
  const CHALLENGE_DNS01: SSLChallenge := "dns-01"

  /** Seconds since some epoch; 0 is Go's zero time. */
  type Time = int

  datatype CustomDomain = CustomDomain(
    id: int,
    tenantID: int,
    organizationID: int,
    userID: int,
    ownerType: OwnerType,
    ownerID: int,
    domain: string,
    isWildcard: bool,
    verificationError: string,
    verifiedAt: Time,
    resolvedTarget: string,
    sslProvider: string,
    sslChallenge: SSLChallenge,
    sslError: string,
    sslIssuedAt: Time,
    sslExpiresAt: Time,
    suspensionReason: string,
    status: DomainStatus,
    verificationStatus: VerificationStatus,
    sslStatus: SSLStatus,
    sslEnabled: bool,
    createdAt: Time,
    updatedAt: Time)
  {
    predicate IsActive() {
      status == StatusActive && verificationStatus == Verified
    }

    predicate OwnedBy(t: OwnerType, owner: int) {
      ownerType == t && ownerID == owner
    }
  }

  /** The record Go's map lookup yields for a missing key. */
  const ZERO_DOMAIN := CustomDomain(0, 0, 0, 0, User, 0, "", false, "", 0, "", "", "", "", 0, 0, "",
                                    StatusPending, VerificationPending, SSLNone, false, 0, 0)

  function SelectSSLChallenge(d: CustomDomain, tlsALPN: bool, http: bool): SSLChallenge {
    if d.sslProvider != "" then CHALLENGE_DNS01
    else if d.isWildcard then CHALLENGE_DNS01
    else if tlsALPN then CHALLENGE_TLS_ALPN
    else if http then CHALLENGE_HTTP01
    else CHALLENGE_DNS01
  }

  /** The domain part of the store: the next identifier, the records and the name index. */
  datatype DomainState = DomainState(next: int, byID: map<int, CustomDomain>, byName: map<string, int>)

  const EMPTY_STATE := DomainState(1, map[], map[])

  /** `SaveCustomDomain`: assigns an identifier to a new record and indexes it by name.
      `wall` is the store's own clock, read only when the record carries no update time. */
  function SaveDomain(st: DomainState, d: CustomDomain, wall: Time): (DomainState, CustomDomain) {
    var name := NormalizeDomainName(d.domain);
    var now := if d.updatedAt == 0 then wall else d.updatedAt;
    var saved :=
      if d.id == 0 then
        d.(domain := name, id := st.next, createdAt := if d.createdAt == 0 then now else d.createdAt, updatedAt := now)
      else
        d.(domain := name, updatedAt := now);
    var next := if d.id == 0 then st.next + 1 else st.next;
    (DomainState(next, st.byID[saved.id := saved], st.byName[name := saved.id]), saved)
  }

  function RecordAt(st: DomainState, id: int): CustomDomain {
    if id in st.byID then st.byID[id] else ZERO_DOMAIN
  }

  /** `FindCustomDomainByDomain`: a hit in the name index is reported even if the record is gone. */
  function FindDomain(st: DomainState, name: string): Option<CustomDomain> {
    var key := NormalizeDomainName(name);
    if key in st.byName then Some(RecordAt(st, st.byName[key])) else None
  }

  /** `DeleteCustomDomainByID`. */
  function DeleteDomain(st: DomainState, id: int): Result<DomainState, DomainError> {
    if id in st.byID
    then Ok(DomainState(st.next, st.byID - {id}, st.byName - {st.byID[id].domain}))
    else Err(RecordNotFound)
  }

  /** What a save stores, whatever the record: the normal form of the name, under which it is then found, a new number
      and a creation time for a new record, and the time it carries or else the store's. */
  lemma SavedIsFound(st: DomainState, d: CustomDomain, wall: Time)
    ensures var (after, saved) := SaveDomain(st, d, wall);
            && saved == d.(domain := NormalizeDomainName(d.domain), id := saved.id, createdAt := saved.createdAt,
                           updatedAt := saved.updatedAt)
            && saved.id == (if d.id == 0 then st.next else d.id)
            && saved.updatedAt == (if d.updatedAt == 0 then wall else d.updatedAt)
            && saved.createdAt == (if d.id == 0 && d.createdAt == 0 then saved.updatedAt else d.createdAt)
            && after.next == st.next + (if d.id == 0 then 1 else 0) && after.byID == st.byID[saved.id := saved]
            && FindDomain(after, d.domain) == Some(saved)
            && forall name :: name != saved.domain ==> (name in after.byName <==> name in st.byName)
                                                       && (name in st.byName ==> after.byName[name] == st.byName[name])
  {
    hide NormalizeDomainName;
  }

  ghost function OwnedIDs(st: DomainState, t: OwnerType, owner: int): set<int> {
    set id | id in st.byID && st.byID[id].OwnedBy(t, owner)
  }

  ghost predicate KeysMatch(m: map<int, CustomDomain>) {
    forall id :: id in m ==> m[id].id == id
  }

  /** `ds` lists the records of `m`, each once, in any order. */
  ghost predicate Enumerates(ds: seq<CustomDomain>, m: map<int, CustomDomain>) {
    && (forall i :: 0 <= i < |ds| ==> ds[i].id in m && m[ds[i].id] == ds[i])
    && (forall i, j :: 0 <= i < j < |ds| ==> ds[i].id != ds[j].id)
    && (forall id :: id in m ==> m[id] in ds)
  }

  lemma {:induction false} EnumerationSize(ds: seq<CustomDomain>, m: map<int, CustomDomain>)
    requires Enumerates(ds, m) && KeysMatch(m)
    ensures |ds| == |m|
  {
    forall id | id in m ensures ds != [] { assert m[id] in ds; }
    if ds == [] {
      assert m.Keys == {};
    } else {
      RestEnumerates(ds, m);
      var rest := m - {ds[0].id};
      EnumerationSize(ds[1..], rest);
      hide Enumerates, KeysMatch;
      assert m.Keys == rest.Keys + {ds[0].id};
    }
  }

  lemma RestEnumerates(ds: seq<CustomDomain>, m: map<int, CustomDomain>)
    requires Enumerates(ds, m) && KeysMatch(m) && ds != []
    ensures var rest := m - {ds[0].id}; ds[0].id in m && Enumerates(ds[1..], rest) && KeysMatch(rest)
  {
    forall id | id in m && id != ds[0].id ensures m[id] in ds[1..] {
      assert m[id] in ds && m[id] != ds[0];
    }
  }

  /** The next key of a Go map iteration, whose order is unspecified. */
  method AnyOf(keys: set<int>) returns (id: int)
    requires keys != {}
    ensures id in keys
  {
    assert (forall k :: k !in keys) ==> keys == {};
    id :| id in keys;
  }

  /** Map iteration order is unspecified, so a store listing is any enumeration. */
  class DomainStore {
    var nextDomainID: int
    var domainsByID: map<int, CustomDomain>
    var domainIDsByName: map<string, int>

    ghost predicate Valid() reads this { KeysMatch(domainsByID) }

    ghost function View(): DomainState reads this {
      DomainState(nextDomainID, domainsByID, domainIDsByName)
    }

    constructor ()
      ensures Valid() && View() == EMPTY_STATE
    {
      nextDomainID, domainsByID, domainIDsByName := 1, map[], map[];
    }

    method SaveCustomDomain(d: CustomDomain, wall: Time) returns (saved: CustomDomain)
      requires Valid()
      modifies this
      ensures Valid()
      ensures (View(), saved) == SaveDomain(old(View()), d, wall)
    {
      var name, id, createdAt, now := NormalizeDomainName(d.domain), d.id, d.createdAt, d.updatedAt;
      if now == 0 {
        now := wall;
      }
      if id == 0 {
        id := nextDomainID;
        nextDomainID := nextDomainID + 1;
        if createdAt == 0 {
          createdAt := now;
        }
      }
      saved := d.(domain := name, id := id, createdAt := createdAt, updatedAt := now);
      domainsByID := domainsByID[saved.id := saved];
      domainIDsByName := domainIDsByName[saved.domain := saved.id];
    }

    method FindCustomDomainByDomain(name: string) returns (r: Option<CustomDomain>)
      ensures r == FindDomain(View(), name)
    {
      var key := NormalizeDomainName(name);
      if key !in domainIDsByName {
        return None;
      }
      var id := domainIDsByName[key];
      return Some(if id in domainsByID then domainsByID[id] else ZERO_DOMAIN);
    }

    method DeleteCustomDomainByID(id: int) returns (r: Option<DomainError>)
      requires Valid()
      modifies this
      ensures Valid()
      ensures match DeleteDomain(old(View()), id)
              case Ok(st) => r == None && View() == st
              case Err(e) => r == Some(e) && View() == old(View())
    {
      if id !in domainsByID {
        return Some(RecordNotFound);
      }
      var name := domainsByID[id].domain;
      domainsByID := domainsByID - {id};
      domainIDsByName := domainIDsByName - {name};
      return None;
    }

    method ListCustomDomains() returns (ds: seq<CustomDomain>)
      requires Valid()
      ensures Enumerates(ds, domainsByID)
    {
      ds := [];
      var todo := domainsByID.Keys;
      while todo != {}
        invariant todo <= domainsByID.Keys
        invariant forall i :: 0 <= i < |ds| ==> ds[i].id in domainsByID && ds[i].id !in todo && domainsByID[ds[i].id] == ds[i]
        invariant forall i, j :: 0 <= i < j < |ds| ==> ds[i].id != ds[j].id
        invariant forall id :: id in domainsByID && id !in todo ==> domainsByID[id] in ds
      {
        var id := AnyOf(todo);
        ds := ds + [domainsByID[id]];
        todo := todo - {id};
      }
    }

    method ListCustomDomainsByOwner(t: OwnerType, owner: int) returns (ds: seq<CustomDomain>)
      requires Valid()
      ensures |ds| == |OwnedIDs(View(), t, owner)|
      ensures Enumerates(ds, map id | id in domainsByID && domainsByID[id].OwnedBy(t, owner) :: domainsByID[id])
    {
      ds := [];
      var todo := domainsByID.Keys;
      while todo != {}
        invariant todo <= domainsByID.Keys
        invariant forall i :: 0 <= i < |ds| ==> ds[i].id in domainsByID && ds[i].id !in todo && domainsByID[ds[i].id] == ds[i]
        invariant forall i :: 0 <= i < |ds| ==> ds[i].OwnedBy(t, owner)
        invariant forall i, j :: 0 <= i < j < |ds| ==> ds[i].id != ds[j].id
        invariant forall id :: id in domainsByID && id !in todo && domainsByID[id].OwnedBy(t, owner) ==> domainsByID[id] in ds
      {
        var id := AnyOf(todo);
        if domainsByID[id].OwnedBy(t, owner) {
          ds := ds + [domainsByID[id]];
        }
        todo := todo - {id};
      }
      ghost var owned := map id | id in domainsByID && domainsByID[id].OwnedBy(t, owner) :: domainsByID[id];
      EnumerationSize(ds, owned);
      assert owned.Keys == OwnedIDs(View(), t, owner);
    }
  }
}
