/** Login sessions: issued, resolved against a clock, extended or expired, and logged out. */
module Sessions {
  import opened GoStrings
  import opened Wrappers
  import opened Base64

  const SESSION_BYTES: nat := 32

  type Time = int

  datatype SessionKind = AdminSession | UserSession

  /** What a login records besides the token: an identifier and where the request came from. */
  datatype Origin = Origin(id: string, ipAddress: string, userAgent: string)

  datatype Session = Session(
    kind: SessionKind,
    subjectID: int,
    tokenHash: string,
    origin: Origin,
    createdAt: Time,
    expiresAt: Time,
    lastSeenAt: Time)
  {
    predicate IsExpired(now: Time) { !(expiresAt > now) }
  }

  datatype SessionError = SessionNotFound | SessionExpired | SessionNoRandomness

  /** `Panic` is not an answer: the source panics when the random source fails after the token was drawn. */
  datatype SessionAnswer = Live(session: Session) | Dead(error: SessionError) | Panic

  datatype SessionConfig = SessionConfig(adminTTL: int, userTTL: int, extendOnActivity: bool)
  {
    function TTL(kind: SessionKind): (ttl: int)
      ensures kind == AdminSession ==> ttl == adminTTL
      ensures kind == UserSession ==> ttl == userTTL
    {
      if kind == AdminSession then adminTTL else userTTL
    }
  }

  const HOUR: int := 3600 * 1000000000

  /** `DefaultSessionConfig`, in nanoseconds. */
  const DEFAULT_CONFIG := SessionConfig(30 * 24 * HOUR, 7 * 24 * HOUR, true)

  /** `NewAuthService` replaces lifetimes that are not positive. */
  function EffectiveConfig(c: SessionConfig): (r: SessionConfig)
    ensures r.adminTTL > 0 && r.userTTL > 0 && r.extendOnActivity == c.extendOnActivity
    ensures c.adminTTL > 0 ==> r.adminTTL == c.adminTTL
    ensures c.userTTL > 0 ==> r.userTTL == c.userTTL
    ensures c.adminTTL <= 0 ==> r.adminTTL == 2_592_000_000_000_000
    ensures c.userTTL <= 0 ==> r.userTTL == 604_800_000_000_000
  {
    SessionConfig(if c.adminTTL <= 0 then DEFAULT_CONFIG.adminTTL else c.adminTTL,
                  if c.userTTL <= 0 then DEFAULT_CONFIG.userTTL else c.userTTL,
                  c.extendOnActivity)
  }

  /** The two session maps of the store. */
  datatype SessionState = SessionState(admin: map<string, Session>, user: map<string, Session>)
  {
    function Of(kind: SessionKind): map<string, Session> {
      if kind == AdminSession then admin else user
    }

    function With(kind: SessionKind, m: map<string, Session>): SessionState {
      if kind == AdminSession then this.(admin := m) else this.(user := m)
    }
  }

  /** The digest of a token, taken as given; the theorems below ask that it be injective. */
  type Digest = string -> string

  ghost predicate Injective(hash: Digest) {
    forall a: string, b: string :: hash(a) == hash(b) ==> a == b
  }

  predicate Blank(token: string) { TrimSpace(token) == "" }

  /** A token of white space alone names no session. */
  lemma BlankIff(token: string)
    ensures Blank(token) <==> forall i :: 0 <= i < |token| ==> IsSpace(token[i])
  {
    hide IsSpace;
  }

  /** A resolve reads the clock twice: to check the expiry and, if still live, to move it. */
  datatype Event =
    | Login(kind: SessionKind, token: string, subjectID: int, origin: Origin, at: Time)
    | Resolve(kind: SessionKind, token: string, at: Time, again: Time)
    | Logout(kind: SessionKind, token: string, at: Time)

  function NewSession(c: SessionConfig, hash: Digest, kind: SessionKind, token: string, subject: int, origin: Origin,
                      now: Time): Session {
    Session(kind, subject, hash(token), origin, now, now + c.TTL(kind), now)
  }

  /** What an issued session says, field by field. */
  predicate IsIssued(s: Session, c: SessionConfig, hash: Digest, kind: SessionKind, token: string, subject: int,
                     origin: Origin, now: Time) {
    && s.kind == kind && s.subjectID == subject && s.tokenHash == hash(token) && s.origin == origin
    && s.createdAt == now && s.lastSeenAt == now
    && (kind == AdminSession ==> s.expiresAt == now + c.adminTTL)
    && (kind == UserSession ==> s.expiresAt == now + c.userTTL)
  }

  function Resolved(c: SessionConfig, hash: Digest, st: SessionState, kind: SessionKind, token: string, now: Time,
                    again: Time): (SessionState, SessionAnswer) {
    var m, h := st.Of(kind), hash(token);
    if Blank(token) || h !in m then (st, Dead(SessionNotFound))
    else if m[h].IsExpired(now) then (st.With(kind, m - {m[h].tokenHash}), Dead(SessionExpired))
    else if c.extendOnActivity then
      var s := m[h].(lastSeenAt := again, expiresAt := again + c.TTL(kind));
      (st.With(s.kind, st.Of(s.kind)[s.tokenHash := s]), Live(s))
    else (st, Live(m[h]))
  }

  function LoggedOut(hash: Digest, st: SessionState, kind: SessionKind, token: string): (SessionState,
                     Option<SessionError>) {
    if Blank(token) || hash(token) !in st.Of(kind) then (st, Some(SessionNotFound))
    else (st.With(kind, st.Of(kind) - {hash(token)}), None)
  }

  /** A logout reports exactly the sessions that are not there, and takes exactly the one it names. */
  lemma LoggedOutIs(hash: Digest, st: SessionState, kind: SessionKind, token: string, other: SessionKind)
    ensures var (after, report) := LoggedOut(hash, st, kind, token);
            && (report == None <==> !Blank(token) && hash(token) in st.Of(kind))
            && report in [None, Some(SessionNotFound)]
            && (report == None ==> after.Of(kind) == st.Of(kind) - {hash(token)})
            && (report != None ==> after == st)
            && (other != kind ==> after.Of(other) == st.Of(other))
  {
    hide Blank;
  }

  /** A resolve, case by case: what it answers and what it leaves behind. */
  lemma ResolvedIs(c: SessionConfig, hash: Digest, st: SessionState, kind: SessionKind, token: string, now: Time, again: Time)
    requires forall h :: h in st.Of(kind) ==> st.Of(kind)[h].tokenHash == h && st.Of(kind)[h].kind == kind
    ensures var ((after, answer), m, h) := (Resolved(c, hash, st, kind, token, now, again), st.Of(kind), hash(token));
            var known := !Blank(token) && h in m;
            && (!known ==> answer == Dead(SessionNotFound) && after == st)
            && (known && m[h].expiresAt <= now ==> answer == Dead(SessionExpired) && after == st.With(kind, m - {h}))
            && (known && now < m[h].expiresAt && !c.extendOnActivity ==> answer == Live(m[h]) && after == st)
            && (known && now < m[h].expiresAt && c.extendOnActivity ==>
                  && answer == Live(m[h].(lastSeenAt := again, expiresAt := again + c.TTL(kind)))
                  && after == st.With(kind, m[h := answer.session]))
  {
    hide Blank;
  }

  function Apply(c: SessionConfig, hash: Digest, st: SessionState, e: Event): SessionState {
    match e
    case Login(kind, token, subject, origin, at) =>
      st.With(kind, st.Of(kind)[hash(token) := NewSession(c, hash, kind, token, subject, origin, at)])
    case Resolve(kind, token, at, again) => Resolved(c, hash, st, kind, token, at, again).0
    case Logout(kind, token, at) => LoggedOut(hash, st, kind, token).0
  }

  const UUID_BYTES: nat := 16

  function HexDigit(v: int): (c: char)
    requires 0 <= v < 16
  {
    if v < 10 then (v + '0' as int) as char else (v - 10 + 'a' as int) as char
  }

  function Hex(b: seq<byte>): (s: string)
    ensures |s| == 2 * |b|
    ensures forall i :: 0 <= i < |b| ==> s[2 * i] == HexDigit(b[i] / 16) && s[2 * i + 1] == HexDigit(b[i] % 16)
  {
    if b == [] then ""
    else
      var init, last := b[..|b| - 1], b[|b| - 1];
      Hex(init) + [HexDigit(last / 16), HexDigit(last % 16)]
  }

  /** `generateUUIDv4` on the bytes it read: version and variant bits set, then printed in five groups. */
  function UUIDv4(b: seq<byte>): string
    requires |b| == UUID_BYTES
  {
    var v := b[6 := b[6] % 16 + 64][8 := b[8] % 64 + 128];
    Hex(v[..4]) + "-" + Hex(v[4..6]) + "-" + Hex(v[6..8]) + "-" + Hex(v[8..10]) + "-" + Hex(v[10..])
  }

  /** Every session identifier has the version-4 form: 36 characters, hyphens, version and variant in place. */
  lemma UUIDv4HasForm(b: seq<byte>)
    requires |b| == UUID_BYTES
    ensures var s := UUIDv4(b);
            |s| == 36 && s[8] == s[13] == s[18] == s[23] == '-' && s[14] == '4' && s[19] in ['8', '9', 'a', 'b']
  {
    var v := b[6 := b[6] % 16 + 64][8 := b[8] % 64 + 128];
    var third, fourth := Hex(v[6..8]), Hex(v[8..10]);
    assert v[6..8][0] == v[6] && v[8..10][0] == v[8];
    assert v[6] / 16 == 4 && 8 <= v[8] / 16 <= 11;
    assert third[2 * 0] == HexDigit(4) == '4' && fourth[2 * 0] == HexDigit(v[8] / 16);
    hide Hex;
    var s := UUIDv4(b);
    assert s[14] == third[0] && s[19] == fourth[0];
  }

  /** The byte printed at each place: the one drawn, but for the version and variant bits. */
  function UUIDByte(b: seq<byte>, i: nat): (v: int)
    requires |b| == UUID_BYTES && i < UUID_BYTES
    ensures 0 <= v < 256
  {
    if i == 6 then 64 + b[6] % 16 else if i == 8 then 128 + b[8] % 64 else b[i]
  }

  /** Where byte `i` is printed: after the bytes before it and the hyphens at 8, 13, 18 and 23. */
  function UUIDPlace(i: nat): nat {
    2 * i + if i < 4 then 0 else if i < 6 then 1 else if i < 8 then 2 else if i < 10 then 3 else 4
  }

  const HEX_DIGITS := "0123456789abcdef"

  /** An identifier prints every drawn byte in order, as two hexadecimal digits. */
  lemma UUIDv4Prints(b: seq<byte>, i: nat)
    requires |b| == UUID_BYTES && i < UUID_BYTES
    ensures var s, at, v := UUIDv4(b), UUIDPlace(i), UUIDByte(b, i);
            at + 1 < |s| && s[at] == HEX_DIGITS[v / 16] && s[at + 1] == HEX_DIGITS[v % 16]
  {
    var v := b[6 := b[6] % 16 + 64][8 := b[8] % 64 + 128];
    assert v[i] == UUIDByte(b, i);
    hide UUIDByte, HexDigit, Hex;
    HexDigitIs(v[i] / 16);
    HexDigitIs(v[i] % 16);
    UUIDGroups(b, v);
    var s := UUIDv4(b);
    hide UUIDv4;
    if i < 4 { GroupPrints(s, v[0..4], 0, i); }
    else if i < 6 { GroupPrints(s, v[4..6], 9, i - 4); }
    else if i < 8 { GroupPrints(s, v[6..8], 14, i - 6); }
    else if i < 10 { GroupPrints(s, v[8..10], 19, i - 8); }
    else { GroupPrints(s, v[10..16], 24, i - 10); }
  }

  lemma GroupPrints(s: string, group: seq<byte>, start: nat, k: nat)
    requires k < |group| && start + 2 * |group| <= |s| && s[start..start + 2 * |group|] == Hex(group)
    ensures s[start + 2 * k] == HexDigit(group[k] / 16) && s[start + 2 * k + 1] == HexDigit(group[k] % 16)
  {
    var printed := Hex(group);
    hide Hex, HexDigit;
    assert printed[2 * k] == HexDigit(group[k] / 16) && printed[2 * k + 1] == HexDigit(group[k] % 16);
  }

  lemma UUIDGroups(b: seq<byte>, v: seq<byte>)
    requires |b| == UUID_BYTES && v == b[6 := b[6] % 16 + 64][8 := b[8] % 64 + 128]
    ensures var s := UUIDv4(b);
            && |s| == 36 && s[0..8] == Hex(v[0..4]) && s[9..13] == Hex(v[4..6]) && s[14..18] == Hex(v[6..8])
            && s[19..23] == Hex(v[8..10]) && s[24..36] == Hex(v[10..16])
  {
    hide Hex;
    assert v[..4] == v[0..4] && v[10..] == v[10..16];
  }

  lemma HexDigitIs(v: int)
    requires 0 <= v < 16
    ensures HexDigit(v) == HEX_DIGITS[v]
  {
    assert forall i :: 0 <= i < 10 ==> HEX_DIGITS[i] == (48 + i) as char;
    assert forall i :: 10 <= i < 16 ==> HEX_DIGITS[i] == (87 + i) as char;
  }

  class SessionStore {
    var adminSessions: map<string, Session>
    var userSessions: map<string, Session>

    ghost function View(): SessionState reads this { SessionState(adminSessions, userSessions) }

    constructor ()
      ensures View() == SessionState(map[], map[])
    {
      adminSessions, userSessions := map[], map[];
    }

    method SaveSession(s: Session)
      modifies this
      ensures View() == old(View()).With(s.kind, old(View()).Of(s.kind)[s.tokenHash := s])
    {
      match s.kind
      case AdminSession => adminSessions := adminSessions[s.tokenHash := s];
      case UserSession => userSessions := userSessions[s.tokenHash := s];
    }

    method FindSessionByTokenHash(kind: SessionKind, h: string) returns (r: Option<Session>)
      ensures r == if h in View().Of(kind) then Some(View().Of(kind)[h]) else None
    {
      match kind
      case AdminSession => r := if h in adminSessions then Some(adminSessions[h]) else None;
      case UserSession => r := if h in userSessions then Some(userSessions[h]) else None;
    }

    method DeleteSessionByTokenHash(kind: SessionKind, h: string) returns (found: bool)
      modifies this
      ensures found <==> h in old(View()).Of(kind)
      ensures View() == if found then old(View()).With(kind, old(View()).Of(kind) - {h}) else old(View())
    {
      match kind
      case AdminSession =>
        found := h in adminSessions;
        if found { adminSessions := adminSessions - {h}; }
      case UserSession =>
        found := h in userSessions;
        if found { userSessions := userSessions - {h}; }
    }
  }

  class SessionService {
    const store: SessionStore
    const config: SessionConfig
    const hash: Digest

    constructor (store: SessionStore, config: SessionConfig, hash: Digest)
      ensures this.store == store && this.config == EffectiveConfig(config) && this.hash == hash
    {
      this.store, this.config, this.hash := store, EffectiveConfig(config), hash;
    }

    /** `random` is what the reader still holds: the token takes the first bytes, the identifier the next. */
    method CreateSession(kind: SessionKind, subject: int, ipAddress: string, userAgent: string, random: seq<byte>,
                         now: Time)
      returns (token: string, answer: SessionAnswer)
      modifies store
      ensures |random| < SESSION_BYTES ==> answer == Dead(SessionNoRandomness)
      ensures SESSION_BYTES <= |random| < SESSION_BYTES + UUID_BYTES ==> answer == Panic
      ensures |random| < SESSION_BYTES + UUID_BYTES ==> store.View() == old(store.View())
      ensures |random| >= SESSION_BYTES + UUID_BYTES ==>
                var origin := Origin(UUIDv4(random[SESSION_BYTES..SESSION_BYTES + UUID_BYTES]), ipAddress, userAgent);
                && token == Encode(URLSafe, random[..SESSION_BYTES])
                && answer.Live? && IsIssued(answer.session, config, hash, kind, token, subject, origin, now)
                && answer == Live(NewSession(config, hash, kind, token, subject, origin, now))
                && store.View() == Apply(config, hash, old(store.View()), Login(kind, token, subject, origin, now))
    {
      if |random| < SESSION_BYTES {
        return "", Dead(SessionNoRandomness);
      }
      token := Encode(URLSafe, random[..SESSION_BYTES]);
      var rest := random[SESSION_BYTES..];
      if |rest| < UUID_BYTES {
        return "", Panic;
      }
      assert rest[..UUID_BYTES] == random[SESSION_BYTES..SESSION_BYTES + UUID_BYTES];
      var origin := Origin(UUIDv4(rest[..UUID_BYTES]), ipAddress, userAgent);
      var session := NewSession(config, hash, kind, token, subject, origin, now);
      store.SaveSession(session);
      return token, Live(session);
    }

    method ResolveSession(kind: SessionKind, token: string, now: Time, again: Time) returns (answer: SessionAnswer)
      modifies store
      ensures (store.View(), answer) == Resolved(config, hash, old(store.View()), kind, token, now, again)
    {
      if Blank(token) {
        return Dead(SessionNotFound);
      }
      var found := store.FindSessionByTokenHash(kind, hash(token));
      if found.None? {
        return Dead(SessionNotFound);
      }
      var session := found.value;
      if session.IsExpired(now) {
        ghost var m := store.View().Of(kind);
        assert session.tokenHash !in m ==> m - {session.tokenHash} == m;
        var _ := store.DeleteSessionByTokenHash(kind, session.tokenHash);
        return Dead(SessionExpired);
      }
      if config.extendOnActivity {
        session := session.(lastSeenAt := again, expiresAt := again + config.TTL(kind));
        store.SaveSession(session);
      }
      return Live(session);
    }

    method LogoutSession(kind: SessionKind, token: string) returns (report: Option<SessionError>)
      modifies store
      ensures (store.View(), report) == LoggedOut(hash, old(store.View()), kind, token)
    {
      if Blank(token) {
        return Some(SessionNotFound);
      }
      var found := store.DeleteSessionByTokenHash(kind, hash(token));
      if !found {
        return Some(SessionNotFound);
      }
      return None;
    }
  }

  /** An issued token is never blank, so a later resolve does look it up. */
  lemma IssuedTokenIsNotBlank(random: seq<byte>)
    requires |random| >= SESSION_BYTES
    ensures !Blank(Encode(URLSafe, random[..SESSION_BYTES]))
  {
    var token := Encode(URLSafe, random[..SESSION_BYTES]);
    EncodeCharacters(URLSafe, random[..SESSION_BYTES]);
    EncodeIsSextets(URLSafe, random[..SESSION_BYTES]);
    assert token[0] in token;
    ValueIsNoSpace(token[0]);
  }

  lemma ValueIsNoSpace(c: char)
    requires Value(URLSafe, c) >= 0
    ensures !IsSpace(c)
  {
  }
}
