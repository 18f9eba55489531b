/** Bearer tokens: issued, resolved, refreshed by rotation and logged out. */
module Tokens {
  import opened GoStrings
  import opened Wrappers
  import opened Base64
  import opened TokenGenerator

  type Time = int
  type TokenScope = string
  type Digest = string -> string

  const SCOPE_GLOBAL: TokenScope := "global"
  const SCOPE_READ_WRITE: TokenScope := "read-write"
  const SCOPE_READ: TokenScope := "read"

  datatype Token = Token(
    id: int,
    ownerType: TokenOwner,
    ownerID: int,
    name: string,
    tokenHash: string,
    tokenPrefix: string,
    scope: TokenScope,
    expiresAt: Time,
    lastUsedAt: Time,
    createdAt: Time)
  {
    /** The zero time never expires. */
    predicate IsExpired(now: Time) { expiresAt != 0 && !(expiresAt > now) }
  }

  datatype IssuedToken = IssuedToken(token: Token, text: string)

  predicate NormalName(name: string) { name != "" && Trimmed(name) }

  function DefaultTokenName(name: string): (r: string)
    ensures NormalName(r)
    ensures NormalName(name) ==> r == name
  {
    if TrimSpace(name) == "" then "default" else TrimSpace(name)
  }

  predicate KnownScope(scope: TokenScope) {
    scope == SCOPE_READ || scope == SCOPE_READ_WRITE || scope == SCOPE_GLOBAL
  }

  function DefaultTokenScope(scope: TokenScope): (r: TokenScope)
    ensures KnownScope(r)
    ensures KnownScope(scope) ==> r == scope
  {
    if scope == SCOPE_READ || scope == SCOPE_READ_WRITE then scope else SCOPE_GLOBAL
  }

  function DisplayPrefix(text: string): string {
    if |text| <= 8 then text else text[..8]
  }

  /** The three token maps of the store and the identifier counter they share. */
  datatype TokenState = TokenState(next: int, admin: map<string, Token>, user: map<string, Token>, org: map<string, Token>)
  {
    function Of(t: TokenOwner): map<string, Token> {
      match t
      case AdminToken => admin
      case UserToken => user
      case OrgToken => org
      case OtherToken => map[]
    }

    function With(t: TokenOwner, m: map<string, Token>): TokenState {
      match t
      case AdminToken => this.(admin := m)
      case UserToken => this.(user := m)
      case OrgToken => this.(org := m)
      case OtherToken => this
    }
  }

  function Numbered(st: TokenState, token: Token): Token {
    if token.id == 0 then token.(id := st.next) else token
  }

  /** `SaveToken`: the identifier is spent even when the owner type is unknown. */
  function Saved(st: TokenState, token: Token): TokenState {
    var numbered := Numbered(st, token);
    st.(next := if token.id == 0 then st.next + 1 else st.next)
      .With(token.ownerType, st.Of(token.ownerType)[numbered.tokenHash := numbered])
  }

  function NewToken(hash: Digest, t: TokenOwner, owner: int, name: string, scope: TokenScope, text: string, ttl: int,
                    now: Time): Token {
    Token(0, t, owner, DefaultTokenName(name), hash(text), DisplayPrefix(text), DefaultTokenScope(scope),
          if ttl > 0 then now + ttl else 0, now, now)
  }

  /** A new token, field by field: a blank name becomes "default", an unknown scope "global". */
  lemma NewTokenIs(hash: Digest, t: TokenOwner, owner: int, name: string, scope: TokenScope, text: string, ttl: int, now: Time)
    ensures var token := NewToken(hash, t, owner, name, scope, text, ttl, now);
            && token.ownerType == t && token.ownerID == owner && token.tokenHash == hash(text) && token.id == 0
            && token.name == (if TrimSpace(name) == "" then "default" else TrimSpace(name))
            && (scope in ["read", "read-write"] ==> token.scope == scope)
            && (scope !in ["read", "read-write"] ==> token.scope == "global")
            && (|text| > 8 ==> token.tokenPrefix == text[..8]) && (|text| <= 8 ==> token.tokenPrefix == text)
            && (ttl > 0 ==> token.expiresAt == now + ttl) && (ttl <= 0 ==> token.expiresAt == 0)
            && token.createdAt == now && token.lastUsedAt == now
  {
    hide TrimSpace;
  }

  /** A resolve of a well-formed value, case by case: it changes no more than the time of last use. */
  lemma LookedUpIs(st: TokenState, t: TokenOwner, h: string, checkedAt: Time, usedAt: Time)
    ensures var (st', answer) := LookedUp(st, t, h, checkedAt, usedAt);
            var expired := h in st.Of(t) && st.Of(t)[h].expiresAt != 0 && st.Of(t)[h].expiresAt <= checkedAt;
            && (h !in st.Of(t) ==> answer == Err(TokenNotFound) && st' == st)
            && (expired ==> answer == Err(TokenExpired) && st'.Of(t) == st.Of(t) - {h})
            && (h in st.Of(t) && !expired ==>
                  answer == Ok(st.Of(t)[h].(lastUsedAt := usedAt)) && st'.Of(t) == st.Of(t)[h := st.Of(t)[h].(lastUsedAt := usedAt)])
            && OthersSame(st, st', t) && st'.next == st.next
  {
  }

  /** What the service itself stores: normal names and scopes, filed under their own digest and owner. */
  predicate ServiceIssued(token: Token, t: TokenOwner, key: string) {
    && token.ownerType == t && token.tokenHash == key && token.id != 0
    && NormalName(token.name) && KnownScope(token.scope)
  }

  ghost predicate MapIssued(m: map<string, Token>, t: TokenOwner) {
    forall key :: key in m ==> ServiceIssued(m[key], t, key)
  }

  ghost predicate AllIssued(st: TokenState) {
    st.next > 0 && MapIssued(st.admin, AdminToken) && MapIssued(st.user, UserToken) && MapIssued(st.org, OrgToken)
  }

  /** Two maps that may differ at one key only. */
  ghost predicate SameExcept(a: map<string, Token>, b: map<string, Token>, key: string) {
    a - {key} == b - {key}
  }

  ghost predicate OthersSame(a: TokenState, b: TokenState, t: TokenOwner) {
    forall u: TokenOwner :: u != t ==> a.Of(u) == b.Of(u)
  }

  lemma SaveKeepsIssued(st: TokenState, token: Token)
    requires AllIssued(st) && token.ownerType != OtherToken
    requires NormalName(token.name) && KnownScope(token.scope)
    ensures AllIssued(Saved(st, token))
    ensures token.id == 0 ==> Numbered(st, token).id == st.next && Saved(st, token).next == st.next + 1
    ensures Saved(st, token).Of(token.ownerType) == st.Of(token.ownerType)[token.tokenHash := Numbered(st, token)]
    ensures OthersSame(st, Saved(st, token), token.ownerType)
  {
    hide NormalName, KnownScope;
    assert ServiceIssued(Numbered(st, token), token.ownerType, token.tokenHash);
  }

  lemma DeleteKeepsIssued(st: TokenState, t: TokenOwner, h: string)
    requires AllIssued(st)
    ensures AllIssued(st.With(t, st.Of(t) - {h}))
    ensures OthersSame(st, st.With(t, st.Of(t) - {h}), t)
  {
  }

  function LookedUp(st: TokenState, t: TokenOwner, h: string, checkedAt: Time, usedAt: Time): (TokenState,
                    Result<Token, TokenError>) {
    if h !in st.Of(t) then (st, Err(TokenNotFound))
    else if st.Of(t)[h].IsExpired(checkedAt) then (st.With(t, st.Of(t) - {h}), Err(TokenExpired))
    else
      var used := st.Of(t)[h].(lastUsedAt := usedAt);
      (st.With(t, st.Of(t)[h := used]), Ok(used))
  }

  /** What a resolve does to the store and what it answers. */
  function Resolution(hash: Digest, st: TokenState, t: TokenOwner, text: string, checkedAt: Time,
                      usedAt: Time): (TokenState, Result<Token, TokenError>) {
    match ValidateBearerTokenValue(text, t)
    case Some(invalid) => (st, Err(invalid))
    case None => LookedUp(st, t, hash(text), checkedAt, usedAt)
  }

  /** A freshly issued token is granted to exactly one owner type, for exactly its lifetime. */
  lemma IssuedTokenResolvesIff(hash: Digest, st: TokenState, t: TokenOwner, other: TokenOwner, owner: int,
                               name: string, scope: TokenScope,
                               stream: seq<byte>, ttl: int, now: Time, checkedAt: Time, usedAt: Time)
    requires TokenPrefix(t).Some? && Draw(stream, TOKEN_BYTES).Drawn?
    ensures var text := TokenPrefix(t).value + Draw(stream, TOKEN_BYTES).text;
            var issued := Saved(st, NewToken(hash, t, owner, name, scope, text, ttl, now));
            Resolution(hash, issued, other, text, checkedAt, usedAt).1.Ok?
            <==> other == t && (ttl <= 0 || now + ttl == 0 || checkedAt < now + ttl)
  {
    GeneratedValueIsOfOneKind(stream, t, other);
    hide ValidateBearerTokenValue, TokenPrefix, Draw;
  }

  /** A refused rotation of a live token: every key is still there and no other entry changed. */
  ghost predicate KeptAll(a: TokenState, b: TokenState, t: TokenOwner, h: string) {
    && h in b.Of(t) && SameExcept(a.Of(t), b.Of(t), h) && OthersSame(a, b, t)
  }

  /** A granted rotation: exactly the old entry went and exactly one new entry came, for the same
      owner, name and scope. */
  ghost predicate Rotated(a: TokenState, b: TokenState, t: TokenOwner, h: string, issued: IssuedToken) {
    var key := issued.token.tokenHash;
    && h in a.Of(t) && key != h
    && b.Of(t) == (a.Of(t) - {h})[key := issued.token]
    && issued.token.ownerID == a.Of(t)[h].ownerID && issued.token.name == a.Of(t)[h].name
    && issued.token.scope == a.Of(t)[h].scope
    && OthersSame(a, b, t)
  }

  /** Every other entry of the map is still there, unchanged. */
  ghost predicate OthersKept(before: map<string, Token>, after: map<string, Token>, gone: set<string>, issued: string) {
    forall key :: key in before && key !in gone && key != issued ==> key in after && after[key] == before[key]
  }

  /** All tokens but the old one survive a rotation unchanged exactly when the drawn digest was not there, with
      another token behind it: a digest that is taken is overwritten. */
  lemma RotationKeepsAllIff(a: TokenState, b: TokenState, t: TokenOwner, h: string, issued: IssuedToken)
    requires Rotated(a, b, t, h, issued)
    ensures OthersKept(a.Of(t), b.Of(t), {h}, issued.token.tokenHash)
    ensures (forall key :: key in a.Of(t) && key != h ==> key in b.Of(t) && b.Of(t)[key] == a.Of(t)[key])
            <==> (issued.token.tokenHash in a.Of(t) ==> a.Of(t)[issued.token.tokenHash] == issued.token)
  {
  }

  /** So with a token that is created. */
  lemma CreateKeepsAllIff(st: TokenState, token: Token)
    requires token.ownerType != OtherToken
    ensures var (m, m') := (st.Of(token.ownerType), Saved(st, token).Of(token.ownerType));
            && OthersKept(m, m', {}, token.tokenHash)
            && ((forall key :: key in m ==> key in m' && m'[key] == m[key])
                <==> (token.tokenHash in m ==> m[token.tokenHash] == Numbered(st, token)))
  {
  }

  /** A rotation moves access: the old digest is dead at once, the new one lives until its own expiry,
      and the number of tokens stays the same when the drawn digest was new to the store. */
  lemma RotationMovesAccess(a: TokenState, b: TokenState, t: TokenOwner, h: string, issued: IssuedToken,
                            checkedAt: Time, usedAt: Time)
    requires Rotated(a, b, t, h, issued)
    ensures LookedUp(b, t, h, checkedAt, usedAt) == (b, Err(TokenNotFound))
    ensures LookedUp(b, t, issued.token.tokenHash, checkedAt, usedAt).1
            == if issued.token.IsExpired(checkedAt) then Err(TokenExpired) else Ok(issued.token.(lastUsedAt := usedAt))
    ensures issued.token.tokenHash !in a.Of(t) ==> |b.Of(t)| == |a.Of(t)|
  {
    var key := issued.token.tokenHash;
    assert b.Of(t).Keys == a.Of(t).Keys - {h} + {key};
    assert |a.Of(t).Keys - {h}| == |a.Of(t).Keys| - 1;
  }

  lemma ResolvedIsIssued(st: TokenState, t: TokenOwner, h: string, usedAt: Time)
    requires AllIssued(st) && h in st.Of(t)
    ensures ServiceIssued(st.Of(t)[h].(lastUsedAt := usedAt), t, h)
    ensures st.With(t, st.Of(t)[h := st.Of(t)[h].(lastUsedAt := usedAt)]).Of(t) - {h} == st.Of(t) - {h}
  {
  }

  /** The random stream as draw number `k` of a refresh finds it. */
  function StreamAt(s: seq<byte>, k: nat): seq<byte> {
    if k == 0 then s
    else
      match Draw(StreamAt(s, k - 1), TOKEN_BYTES)
      case Dry => []
      case Drawn(_, rest) => rest
  }

  /** The value that draw yields, if the stream holds it. */
  function NthText(t: TokenOwner, s: seq<byte>, k: nat): Option<string> {
    match (TokenPrefix(t), Draw(StreamAt(s, k), TOKEN_BYTES))
    case (Some(prefix), Drawn(text, _)) => Some(prefix + text)
    case _ => None
  }

  /** The first `n` draws all have the digest `h`. */
  ghost predicate Repeats(hash: Digest, t: TokenOwner, s: seq<byte>, h: string, n: nat) {
    forall j :: 0 <= j < n ==> NthText(t, s, j).Some? && hash(NthText(t, s, j).value) == h
  }

  /** Draw `k` is the first whose digest is not `h`. */
  ghost predicate FirstNew(hash: Digest, t: TokenOwner, s: seq<byte>, h: string, k: nat) {
    NthText(t, s, k).Some? && hash(NthText(t, s, k).value) != h && Repeats(hash, t, s, h, k)
  }

  /** The times of a token issued at `now` for `ttl`. */
  predicate Dated(token: Token, ttl: int, now: Time) {
    && (ttl > 0 ==> token.expiresAt == now + ttl) && (ttl <= 0 ==> token.expiresAt == 0)
    && token.createdAt == now && token.lastUsedAt == now
  }

  /** A refresh answers with the first draw that gives another digest, dated by the clock reading of that draw. */
  ghost predicate DrawnAndDated(hash: Digest, t: TokenOwner, s: seq<byte>, h: string, ttl: int, issuedAt: seq<Time>, issued: IssuedToken) {
    exists k :: 0 <= k < |issuedAt| && FirstNew(hash, t, s, h, k)
                && NthText(t, s, k) == Some(issued.text) && Dated(issued.token, ttl, issuedAt[k])
  }

  /** The value of a granted refresh resolves exactly during the lifetime asked for, counted from its draw. */
  lemma RefreshedResolvesIff(hash: Digest, a: TokenState, b: TokenState, t: TokenOwner, h: string, issued: IssuedToken,
                             ttl: int, issuedAt: Time, checkedAt: Time, usedAt: Time)
    requires Rotated(a, b, t, h, issued) && issued.token.tokenHash == hash(issued.text)
    requires ValidateBearerTokenValue(issued.text, t) == None && Dated(issued.token, ttl, issuedAt)
    ensures Resolution(hash, b, t, issued.text, checkedAt, usedAt).1.Ok?
            <==> ttl <= 0 || issuedAt + ttl == 0 || checkedAt < issuedAt + ttl
  {
    hide ValidateBearerTokenValue;
    RotationMovesAccess(a, b, t, h, issued, checkedAt, usedAt);
  }

  function Used(st: TokenState, t: TokenOwner, h: string, usedAt: Time): TokenState
    requires h in st.Of(t)
  {
    st.With(t, st.Of(t)[h := st.Of(t)[h].(lastUsedAt := usedAt)])
  }

  /** From the store before a refresh to the store after it, by way of the resolve and the retry loop. */
  lemma RotationCompletes(st: TokenState, reissued: TokenState, t: TokenOwner, h: string, usedAt: Time,
                          issued: IssuedToken)
    requires h in st.Of(t) && issued.token.tokenHash != h
    requires reissued.Of(t) - {h} == (Used(st, t, h, usedAt).Of(t) - {h})[issued.token.tokenHash := issued.token]
    requires OthersSame(Used(st, t, h, usedAt), reissued, t)
    requires issued.token.ownerID == st.Of(t)[h].ownerID && issued.token.name == st.Of(t)[h].name
    requires issued.token.scope == st.Of(t)[h].scope
    ensures Rotated(st, reissued.With(t, reissued.Of(t) - {h}), t, h, issued)
  {
    var after := reissued.With(t, reissued.Of(t) - {h});
    forall u: TokenOwner | u != t ensures st.Of(u) == after.Of(u) {
      assert st.Of(u) == Used(st, t, h, usedAt).Of(u) == reissued.Of(u);
    }
  }

  lemma KeptSinceResolve(st: TokenState, after: TokenState, t: TokenOwner, h: string, usedAt: Time)
    requires h in st.Of(t) && KeptAll(Used(st, t, h, usedAt), after, t, h)
    ensures KeptAll(st, after, t, h)
  {
  }

  lemma DrawShift(t: TokenOwner, s: seq<byte>, k: nat)
    ensures NthText(t, StreamAt(s, k), 0) == NthText(t, s, k) && StreamAt(StreamAt(s, k), 1) == StreamAt(s, k + 1)
  {
    assert StreamAt(StreamAt(s, k), 0) == StreamAt(s, k);
  }

  lemma NothingDrawn(st: TokenState, t: TokenOwner, h: string, s: seq<byte>)
    requires h in st.Of(t)
    ensures KeptAll(st, st, t, h) && StreamAt(s, 0) == s
  {
  }

  /** What draw `n` decides after `n` repetitions: another repetition, the first new digest, or none at all. */
  lemma DrawDecides(hash: Digest, t: TokenOwner, s: seq<byte>, h: string, n: nat, ttl: int, issuedAt: seq<Time>, issued: IssuedToken)
    requires Repeats(hash, t, s, h, n) && n < |issuedAt|
    requires NthText(t, s, n) == Some(issued.text) && issued.token.tokenHash == hash(issued.text) && Dated(issued.token, ttl, issuedAt[n])
    ensures issued.token.tokenHash == h ==> Repeats(hash, t, s, h, n + 1)
    ensures issued.token.tokenHash != h ==> DrawnAndDated(hash, t, s, h, ttl, issuedAt, issued)
  {
    hide NthText, Dated;
    if issued.token.tokenHash != h { assert FirstNew(hash, t, s, h, n); }
  }

  lemma NoneIsNew(hash: Digest, t: TokenOwner, s: seq<byte>, h: string, n: nat)
    requires Repeats(hash, t, s, h, n) && (n == 4 || NthText(t, s, n) == None)
    ensures forall k :: 0 <= k < 4 ==> !FirstNew(hash, t, s, h, k)
  {
    hide NthText;
  }

  /** One more draw keeps a store in which nothing but the entry of `h` changed, up to the entry it adds. */
  lemma OneDrawKeeps(a: TokenState, b: TokenState, c: TokenState, t: TokenOwner, h: string, token: Token)
    requires KeptAll(a, b, t, h) && OthersSame(b, c, t) && c.Of(t) == b.Of(t)[token.tokenHash := token]
    ensures token.tokenHash == h ==> KeptAll(a, c, t, h)
    ensures token.tokenHash != h ==> c.Of(t) - {h} == (a.Of(t) - {h})[token.tokenHash := token]
    ensures h in c.Of(t) && OthersSame(a, c, t)
  {
    hide TokenState.Of;
    assert forall u: TokenOwner :: u != t ==> a.Of(u) == b.Of(u) == c.Of(u);
  }

  class TokenStore {
    var nextTokenID: int
    var adminTokens: map<string, Token>
    var userTokens: map<string, Token>
    var orgTokens: map<string, Token>

    ghost function View(): TokenState reads this {
      TokenState(nextTokenID, adminTokens, userTokens, orgTokens)
    }

    constructor ()
      ensures View() == TokenState(1, map[], map[], map[]) && AllIssued(View())
    {
      nextTokenID, adminTokens, userTokens, orgTokens := 1, map[], map[], map[];
    }

    method SaveToken(token: Token) returns (r: Option<Token>)
      modifies this
      ensures View() == Saved(old(View()), token)
      ensures r == if token.ownerType == OtherToken then None else Some(Numbered(old(View()), token))
    {
      var t := token;
      if t.id == 0 {
        t := t.(id := nextTokenID);
        nextTokenID := nextTokenID + 1;
      }
      match t.ownerType {
        case AdminToken => adminTokens := adminTokens[t.tokenHash := t];
        case UserToken => userTokens := userTokens[t.tokenHash := t];
        case OrgToken => orgTokens := orgTokens[t.tokenHash := t];
        case OtherToken => return None;
      }
      return Some(t);
    }

    method FindTokenByHash(t: TokenOwner, h: string) returns (r: Option<Token>)
      ensures r == if h in View().Of(t) then Some(View().Of(t)[h]) else None
    {
      match t
      case AdminToken => r := if h in adminTokens then Some(adminTokens[h]) else None;
      case UserToken => r := if h in userTokens then Some(userTokens[h]) else None;
      case OrgToken => r := if h in orgTokens then Some(orgTokens[h]) else None;
      case OtherToken => r := None;
    }

    method DeleteTokenByHash(t: TokenOwner, h: string) returns (found: bool)
      modifies this
      ensures found <==> h in old(View()).Of(t)
      ensures View() == if found then old(View()).With(t, old(View()).Of(t) - {h}) else old(View())
    {
      match t
      case AdminToken =>
        found := h in adminTokens;
        if found { adminTokens := adminTokens - {h}; }
      case UserToken =>
        found := h in userTokens;
        if found { userTokens := userTokens - {h}; }
      case OrgToken =>
        found := h in orgTokens;
        if found { orgTokens := orgTokens - {h}; }
      case OtherToken => found := false;
    }
  }

  class TokenService {
    const store: TokenStore
    const hash: Digest
    const reader: RandomReader

    constructor (store: TokenStore, hash: Digest, reader: RandomReader)
      ensures this.store == store && this.hash == hash && this.reader == reader
    {
      this.store, this.hash, this.reader := store, hash, reader;
    }

    /** Issues a token whose text the generator draws from the reader. */
    method CreateToken(t: TokenOwner, owner: int, name: string, scope: TokenScope, ttl: int, now: Time)
      returns (answer: Result<IssuedToken, TokenError>)
      modifies store, reader
      ensures answer.Err? ==> store.View() == old(store.View())
      ensures answer.Err? <==> TokenPrefix(t).None? || Draw(old(reader.rest), TOKEN_BYTES).Dry?
      ensures answer.Ok? ==>
                var text := TokenPrefix(t).value + Draw(old(reader.rest), TOKEN_BYTES).text;
                var token := NewToken(hash, t, owner, name, scope, text, ttl, now);
                && answer.value == IssuedToken(Numbered(old(store.View()), token), text)
                && store.View() == Saved(old(store.View()), token)
                && reader.rest == Draw(old(reader.rest), TOKEN_BYTES).rest
    {
      var prefix := TokenPrefix(t);
      if prefix.None? {
        return Err(UnknownTokenType);
      }
      var text := GeneratePrefixedOpaqueToken(reader, prefix.value, TOKEN_BYTES);
      if text.None? {
        return Err(NoRandomness);
      }
      var saved := store.SaveToken(NewToken(hash, t, owner, name, scope, text.value, ttl, now));
      if saved.None? {
        return Err(TokenNotFound);
      }
      return Ok(IssuedToken(saved.value, text.value));
    }

    /** `checkedAt` and `usedAt` are the two clock readings of a resolve. */
    method ResolveToken(t: TokenOwner, text: string, checkedAt: Time,
                        usedAt: Time) returns (answer: Result<Token, TokenError>)
      requires AllIssued(store.View())
      modifies store
      ensures AllIssued(store.View())
      ensures (store.View(), answer) == Resolution(hash, old(store.View()), t, text, checkedAt, usedAt)
    {
      var invalid := ValidateBearerTokenValue(text, t);
      if invalid.Some? {
        return Err(invalid.value);
      }
      var found := store.FindTokenByHash(t, hash(text));
      if found.None? {
        return Err(TokenNotFound);
      }
      var stored := found.value;
      if stored.IsExpired(checkedAt) {
        DeleteKeepsIssued(store.View(), t, stored.tokenHash);
        var _ := store.DeleteTokenByHash(t, stored.tokenHash);
        return Err(TokenExpired);
      }
      stored := stored.(lastUsedAt := usedAt);
      SaveKeepsIssued(store.View(), stored);
      var saved := store.SaveToken(stored);
      if saved.None? {
        return Err(TokenNotFound);
      }
      return Ok(saved.value);
    }

    /** The retry loop of a rotation: at most four draws for a digest that differs from the old one.
        `issuedAt` holds the clock reading of each draw. */
    method Reissue(t: TokenOwner, stored: Token, ttl: int,
                   issuedAt: seq<Time>) returns (answer: Result<IssuedToken, TokenError>)
      requires AllIssued(store.View()) && |issuedAt| == 4 && TokenPrefix(t).Some?
      requires stored.tokenHash in store.View().Of(t) && ServiceIssued(stored, t, stored.tokenHash)
      modifies store, reader
      ensures AllIssued(store.View())
      ensures answer.Err? || answer.value.token.tokenHash == stored.tokenHash ==>
                KeptAll(old(store.View()), store.View(), t, stored.tokenHash)
      ensures answer.Ok? && answer.value.token.tokenHash != stored.tokenHash ==>
                var issued := answer.value;
                && ServiceIssued(issued.token, t, hash(issued.text))
                && issued.token.ownerID == stored.ownerID && issued.token.name == stored.name && issued.token.scope == stored.scope
                && ValidateBearerTokenValue(issued.text, t) == None
                && store.View().Of(t) - {stored.tokenHash}
                   == (old(store.View()).Of(t) - {stored.tokenHash})[issued.token.tokenHash := issued.token]
                && stored.tokenHash in store.View().Of(t)
                && OthersSame(old(store.View()), store.View(), t)
                && issued.token.tokenHash == hash(issued.text)
                && DrawnAndDated(hash, t, old(reader.rest), stored.tokenHash, ttl, issuedAt, issued)
      ensures answer.Err? || answer.value.token.tokenHash == stored.tokenHash ==>
                forall k :: 0 <= k < 4 ==> !FirstNew(hash, t, old(reader.rest), stored.tokenHash, k)
    {
      hide ValidateBearerTokenValue, AllIssued, ServiceIssued, NthText, StreamAt, Dated, TokenState.Of, KeptAll, OthersSame;
      hide FirstNew, DrawnAndDated;
      NothingDrawn(store.View(), t, stored.tokenHash, reader.rest);
      answer := Err(TokenNotFound);
      var attempts := 0;
      while attempts < 4
        invariant 0 <= attempts <= 4
        invariant AllIssued(store.View())
        invariant KeptAll(old(store.View()), store.View(), t, stored.tokenHash)
        invariant attempts > 0 ==> answer.Ok? && answer.value.token.tokenHash == stored.tokenHash
        invariant reader.rest == StreamAt(old(reader.rest), attempts)
        invariant Repeats(hash, t, old(reader.rest), stored.tokenHash, attempts)
      {
        DrawShift(t, old(reader.rest), attempts);
        ghost var before := store.View();
        answer := DrawOnce(t, stored, ttl, issuedAt[attempts]);
        if answer.Err? {
          NoneIsNew(hash, t, old(reader.rest), stored.tokenHash, attempts);
          return;
        }
        DrawDecides(hash, t, old(reader.rest), stored.tokenHash, attempts, ttl, issuedAt, answer.value);
        OneDrawKeeps(old(store.View()), before, store.View(), t, stored.tokenHash, answer.value.token);
        if answer.value.token.tokenHash != stored.tokenHash {
          return;
        }
        attempts := attempts + 1;
      }
      NoneIsNew(hash, t, old(reader.rest), stored.tokenHash, attempts);
    }

    /** One draw of the retry loop. */
    method DrawOnce(t: TokenOwner, stored: Token, ttl: int, now: Time) returns (answer: Result<IssuedToken, TokenError>)
      requires AllIssued(store.View()) && TokenPrefix(t).Some? && ServiceIssued(stored, t, stored.tokenHash)
      modifies store, reader
      ensures AllIssued(store.View()) && OthersSame(old(store.View()), store.View(), t)
      ensures answer.Err? ==> store.View() == old(store.View())
      ensures answer.Ok? ==>
                var issued := answer.value;
                && ServiceIssued(issued.token, t, hash(issued.text))
                && issued.token.ownerID == stored.ownerID && issued.token.name == stored.name && issued.token.scope == stored.scope
                && ValidateBearerTokenValue(issued.text, t) == None
                && store.View().Of(t) == old(store.View()).Of(t)[issued.token.tokenHash := issued.token]
                && issued.token.tokenHash == hash(issued.text) && Dated(issued.token, ttl, now)
                && NthText(t, old(reader.rest), 0) == Some(issued.text) && reader.rest == StreamAt(old(reader.rest), 1)
      ensures answer.Err? ==> NthText(t, old(reader.rest), 0) == None
    {
      hide ValidateBearerTokenValue;
      ghost var before, stream := store.View(), reader.rest;
      answer := CreateToken(t, stored.ownerID, stored.name, stored.scope, ttl, now);
      if answer.Ok? {
        GeneratedValueIsOfOneKind(stream, t, t);
        SaveKeepsIssued(before, NewToken(hash, t, stored.ownerID, stored.name, stored.scope, answer.value.text, ttl, now));
      }
    }

    method RefreshToken(t: TokenOwner, text: string, ttl: int, checkedAt: Time, usedAt: Time, issuedAt: seq<Time>)
      returns (answer: Result<IssuedToken, TokenError>)
      requires AllIssued(store.View()) && |issuedAt| == 4
      modifies store, reader
      ensures AllIssued(store.View())
      ensures var (st, resolved) := Resolution(hash, old(store.View()), t, text, checkedAt, usedAt);
              if resolved.Err? then answer == Err(resolved.error) && store.View() == st
              else if answer.Err? then KeptAll(old(store.View()), store.View(), t, hash(text))
              else
                && Rotated(old(store.View()), store.View(), t, hash(text), answer.value)
                && answer.value.token.tokenHash == hash(answer.value.text)
                && ValidateBearerTokenValue(answer.value.text, t) == None
                && DrawnAndDated(hash, t, old(reader.rest), hash(text), ttl, issuedAt, answer.value)
      ensures Resolution(hash, old(store.View()), t, text, checkedAt, usedAt).1.Ok? && answer.Err? ==>
                forall k :: 0 <= k < 4 ==> !FirstNew(hash, t, old(reader.rest), hash(text), k)
    {
      hide ValidateBearerTokenValue, Rotated, KeptAll, DrawnAndDated, FirstNew;
      ghost var st, h := store.View(), hash(text);
      var resolved := ResolveToken(t, text, checkedAt, usedAt);
      if resolved.Err? {
        return Err(resolved.error);
      }
      var stored := resolved.value;
      ResolvedIsIssued(st, t, h, usedAt);
      assert store.View() == Used(st, t, h, usedAt);
      answer := Reissue(t, stored, ttl, issuedAt);
      if answer.Err? {
        KeptSinceResolve(st, store.View(), t, h, usedAt);
        return;
      }
      if answer.value.token.tokenHash == stored.tokenHash {
        KeptSinceResolve(st, store.View(), t, h, usedAt);
        return Err(TokenNotFound);
      }
      RotationCompletes(st, store.View(), t, h, usedAt, answer.value);
      DeleteKeepsIssued(store.View(), t, h);
      var found := store.DeleteTokenByHash(t, stored.tokenHash);
      // The roll-back of auth.go:559-562, for an old entry that is already gone, is dead when calls
      // do not interleave.
      assert found;
    }

    method LogoutToken(t: TokenOwner, text: string) returns (answer: Result<bool, TokenError>)
      modifies store
      ensures var st, h := old(store.View()), hash(text);
              if ValidateBearerTokenValue(text, t).Some? || h !in st.Of(t)
              then answer == Err(TokenNotFound) && store.View() == st
              else answer == Ok(true) && store.View() == st.With(t, st.Of(t) - {h})
    {
      if ValidateBearerTokenValue(text, t).Some? {
        return Err(TokenNotFound);
      }
      var found := store.DeleteTokenByHash(t, hash(text));
      if !found {
        return Err(TokenNotFound);
      }
      return Ok(true);
    }
  }
}
