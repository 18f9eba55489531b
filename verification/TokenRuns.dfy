/** Whole runs of issuing, resolving, refreshing and logging out bearer tokens: which resolves succeed, said
    without the store. */
module TokenRuns {
  import opened GoStrings
  import opened Wrappers
  import opened TokenGenerator
  import opened Tokens

  /** `at` is the first clock reading of a call. A refresh draws nothing when the random source runs dry. */
  datatype Event =
    | Create(t: TokenOwner, text: string, owner: int, name: string, scope: TokenScope, ttl: int, at: Time)
    | Resolve(t: TokenOwner, text: string, at: Time, used: Time)
    | Refresh(t: TokenOwner, text: string, at: Time, used: Time, drawn: Option<string>, ttl: int, issuedAt: Time)
    | Logout(t: TokenOwner, text: string, at: Time)

  function Refreshed(hash: Digest, st: TokenState, e: Event): TokenState
    requires e.Refresh?
  {
    var (used, resolved) := Resolution(hash, st, e.t, e.text, e.at, e.used);
    if resolved.Err? || e.drawn.None? then used
    else
      var was := resolved.value;
      var saved := Saved(used, NewToken(hash, e.t, was.ownerID, was.name, was.scope, e.drawn.value, e.ttl, e.issuedAt));
      saved.With(e.t, saved.Of(e.t) - {hash(e.text)})
  }

  function Apply(hash: Digest, st: TokenState, e: Event): TokenState {
    match e
    case Create(t, text, owner, name, scope, ttl, at) => Saved(st, NewToken(hash, t, owner, name, scope, text, ttl, at))
    case Resolve(t, text, at, used) => Resolution(hash, st, t, text, at, used).0
    case Refresh(_, _, _, _, _, _, _) => Refreshed(hash, st, e)
    case Logout(t, text, _) =>
      if ValidateBearerTokenValue(text, t).Some? || hash(text) !in st.Of(t) then st else st.With(t, st.Of(t) - {hash(text)})
  }

  function Run(hash: Digest, events: seq<Event>): TokenState {
    if events == [] then TokenState(1, map[], map[], map[])
    else Apply(hash, Run(hash, events[..|events| - 1]), events[|events| - 1])
  }

  ghost predicate Injective(hash: Digest) {
    forall a: string, b: string :: hash(a) == hash(b) ==> a == b
  }

  /** The value that an event draws, if any. */
  function Drawn(e: Event): Option<(TokenOwner, string)> {
    if e.Create? then Some((e.t, e.text))
    else if e.Refresh? && e.drawn.Some? then Some((e.t, e.drawn.value))
    else None
  }

  /** What a run may be: the clock never goes back, and every drawn value is well formed for its owner type, as
      generated ones are, and new. */
  ghost predicate Plausible(events: seq<Event>) {
    && (forall i, j :: 0 <= i < j < |events| ==> events[i].at <= events[j].at)
    && (forall i :: 0 <= i < |events| && Drawn(events[i]).Some? ==>
          ValidateBearerTokenValue(Drawn(events[i]).value.1, Drawn(events[i]).value.0) == None)
    && (forall i, j :: 0 <= i < j < |events| && Drawn(events[i]).Some? ==> Drawn(events[i]) != Drawn(events[j]))
  }

  /** The expiry of what an event issues; 0 is never. */
  function ExpiryOf(e: Event): Time {
    if e.Create? && e.ttl > 0 then e.at + e.ttl
    else if e.Refresh? && e.ttl > 0 then e.issuedAt + e.ttl
    else 0
  }

  predicate InLife(e: Event, now: Time) { ExpiryOf(e) == 0 || now < ExpiryOf(e) }

  predicate Concerns(e: Event, t: TokenOwner, text: string) { e.t == t && e.text == text }

  /** A logout of the token, or a refresh of it that gets as far as drawing its successor. */
  predicate Ends(e: Event, t: TokenOwner, text: string) {
    Concerns(e, t, text) && (e.Logout? || (e.Refresh? && e.drawn.Some?))
  }

  ghost predicate Ended(events: seq<Event>, i: nat, n: nat, t: TokenOwner, text: string)
    requires n <= |events|
  {
    exists m :: i < m < n && Ends(events[m], t, text)
  }

  /** Event `i` issues the value: as a new token, or as the successor of one that was usable then. */
  ghost predicate Issues(events: seq<Event>, i: nat, t: TokenOwner, text: string)
    requires i < |events|
    decreases i, 1
  {
    Drawn(events[i]) == Some((t, text)) && (events[i].Refresh? ==> Usable(events, i, t, events[i].text, events[i].at))
  }

  /** Before event `n`, at time `now`, the value is usable: issued, not logged out or replaced since, not expired. */
  ghost predicate Usable(events: seq<Event>, n: nat, t: TokenOwner, text: string, now: Time)
    requires n <= |events|
    decreases n, 0
  {
    exists i: nat :: i < n && Issues(events, i, t, text) && !Ended(events, i, n, t, text) && InLife(events[i], now)
  }

  ghost predicate Live(events: seq<Event>, i: nat, n: nat, t: TokenOwner, text: string)
    requires n <= |events|
  {
    i < n && Issues(events, i, t, text) && !Ended(events, i, n, t, text)
  }

  /** Some event between `i` and `n` came after the expiry of what `i` issued. */
  ghost predicate Past(events: seq<Event>, i: nat, n: nat)
    requires i < n <= |events|
  {
    ExpiryOf(events[i]) != 0 && exists j :: i < j < n && events[j].at >= ExpiryOf(events[i])
  }

  /** Event `i` issued for this owner, under this name and scope: its own if it created the token, otherwise those of the
      token that it replaced. */
  ghost predicate IssuedFor(events: seq<Event>, i: nat, owner: int, name: string, scope: TokenScope)
    requires i < |events|
    decreases i
  {
    if events[i].Create? then
      && owner == events[i].owner
      && name == (if TrimSpace(events[i].name) == "" then "default" else TrimSpace(events[i].name))
      && scope == (if events[i].scope in ["read", "read-write"] then events[i].scope else "global")
    else if events[i].Refresh? then
      exists j: nat :: j < i && Live(events, j, i, events[i].t, events[i].text) && IssuedFor(events, j, owner, name, scope)
    else false
  }

  predicate SameTerms(token: Token, owner: int, name: string, scope: TokenScope) {
    token.ownerID == owner && token.name == name && token.scope == scope
  }

  /** The token is what event `i` issued, to the same owner and on the same terms. */
  ghost predicate Belongs(token: Token, events: seq<Event>, i: nat)
    requires i < |events|
  {
    NormalName(token.name) && KnownScope(token.scope) && IssuedFor(events, i, token.ownerID, token.name, token.scope)
  }

  /** The map entry of a value says what the history says; an entry may be gone because it was found expired. */
  ghost predicate Tracks(hash: Digest, st: TokenState, events: seq<Event>, n: nat, t: TokenOwner, text: string)
    requires n <= |events|
  {
    var m, h := st.Of(t), hash(text);
    if h in m then
      exists i: nat :: Live(events, i, n, t, text) && m[h].expiresAt == ExpiryOf(events[i]) && Belongs(m[h], events, i)
    else forall i: nat :: Live(events, i, n, t, text) ==> Past(events, i, n)
  }

  lemma OneIssue(events: seq<Event>, i: nat, j: nat, n: nat, t: TokenOwner, text: string)
    requires Plausible(events) && n <= |events| && i < n && j < |events|
    requires Drawn(events[i]) == Some((t, text)) && Drawn(events[j]) == Some((t, text))
    ensures i == j
  {
  }

  /** A tracked value resolves exactly when it is usable. */
  lemma ResolvesIff(hash: Digest, st: TokenState, events: seq<Event>, n: nat, t: TokenOwner, text: string, used: Time)
    requires Plausible(events) && n < |events| && Tracks(hash, st, events, n, t, text)
    ensures Resolution(hash, st, t, text, events[n].at, used).1.Ok? <==> Usable(events, n, t, text, events[n].at)
  {
    hide ValidateBearerTokenValue;
    var m, h, at := st.Of(t), hash(text), events[n].at;
    if h in m {
      var i: nat :| Live(events, i, n, t, text) && m[h].expiresAt == ExpiryOf(events[i]);
      assert ValidateBearerTokenValue(text, t) == None;
      forall j: nat | Live(events, j, n, t, text) ensures j == i { OneIssue(events, i, j, n, t, text); }
      assert InLife(events[i], at) <==> !m[h].IsExpired(at);
      assert Usable(events, n, t, text, at) <==> InLife(events[i], at);
    } else {
      forall i: nat | Live(events, i, n, t, text) ensures !InLife(events[i], at) {
        var j :| i < j < n && events[j].at >= ExpiryOf(events[i]);
      }
    }
  }

  /** Two token states agree on one entry. */
  predicate SameAt(a: TokenState, b: TokenState, t: TokenOwner, h: string) {
    (h in a.Of(t) <==> h in b.Of(t)) && (h in a.Of(t) ==> a.Of(t)[h] == b.Of(t)[h])
  }

  lemma ResolutionElsewhere(hash: Digest, st: TokenState, t: TokenOwner, text: string, at: Time, used: Time,
                            u: TokenOwner, h: string)
    requires u != t || h != hash(text)
    ensures SameAt(st, Resolution(hash, st, t, text, at, used).0, u, h)
  {
    hide ValidateBearerTokenValue;
  }

  lemma SavedElsewhere(st: TokenState, token: Token, u: TokenOwner, h: string)
    requires u != token.ownerType || h != token.tokenHash
    ensures SameAt(st, Saved(st, token), u, h)
  {
  }

  lemma RemovedElsewhere(st: TokenState, t: TokenOwner, gone: string, u: TokenOwner, h: string)
    requires u != t || h != gone
    ensures SameAt(st, st.With(t, st.Of(t) - {gone}), u, h)
  {
  }

  /** The entries that an event can change are those of its own value and of the one it draws. */
  lemma OthersUntouched(hash: Digest, st: TokenState, e: Event, t: TokenOwner, text: string)
    requires Injective(hash) && !Concerns(e, t, text) && Drawn(e) != Some((t, text))
    ensures SameAt(st, Apply(hash, st, e), t, hash(text))
  {
    hide ValidateBearerTokenValue, Resolution, Saved, TokenState.Of, TokenState.With;
    var h := hash(text);
    assert t != e.t || h != hash(e.text);
    match e
    case Create(_, _, owner, name, scope, ttl, at) =>
      SavedElsewhere(st, NewToken(hash, e.t, owner, name, scope, e.text, ttl, at), t, h);
    case Resolve(_, _, at, used) => ResolutionElsewhere(hash, st, e.t, e.text, at, used, t, h);
    case Logout(_, _, _) => RemovedElsewhere(st, e.t, hash(e.text), t, h);
    case Refresh(_, _, at, used, drawn, ttl, issuedAt) =>
      var (st1, resolved) := Resolution(hash, st, e.t, e.text, at, used);
      ResolutionElsewhere(hash, st, e.t, e.text, at, used, t, h);
      if resolved.Ok? && drawn.Some? {
        var was := resolved.value;
        var token := NewToken(hash, e.t, was.ownerID, was.name, was.scope, drawn.value, ttl, issuedAt);
        assert t != e.t || h != hash(drawn.value);
        SavedElsewhere(st1, token, t, h);
        RemovedElsewhere(Saved(st1, token), e.t, hash(e.text), t, h);
      }
  }

  lemma LiveOneMore(events: seq<Event>, i: nat, n: nat, next: nat, t: TokenOwner, text: string)
    requires n < |events| && next == n + 1
    ensures Live(events, i, next, t, text) <==>
              if i == n then Issues(events, n, t, text) else Live(events, i, n, t, text) && !Ends(events[n], t, text)
  {
  }

  lemma OtherKeepsTrack(hash: Digest, st: TokenState, events: seq<Event>, n: nat, t: TokenOwner, text: string)
    requires Injective(hash) && n < |events| && !Concerns(events[n], t, text) && Drawn(events[n]) != Some((t, text))
    requires Tracks(hash, st, events, n, t, text)
    ensures Tracks(hash, Apply(hash, st, events[n]), events, n + 1, t, text)
  {
    var next := n + 1;
    OthersUntouched(hash, st, events[n], t, text);
    hide Apply, Live, Issues;
    forall i: nat ensures Live(events, i, next, t, text) <==> Live(events, i, n, t, text) {
      LiveOneMore(events, i, n, next, t, text);
      NotIssued(events, n, t, text);
      LiveIsEarlier(events, i, n, t, text);
    }
    forall i: nat | Live(events, i, n, t, text) ensures i < n { LiveIsEarlier(events, i, n, t, text); }
  }

  lemma NotIssued(events: seq<Event>, n: nat, t: TokenOwner, text: string)
    requires n < |events| && Drawn(events[n]) != Some((t, text))
    ensures !Issues(events, n, t, text)
  {
  }

  lemma LiveIsEarlier(events: seq<Event>, i: nat, n: nat, t: TokenOwner, text: string)
    requires n <= |events|
    ensures Live(events, i, n, t, text) ==> i < n && Drawn(events[i]) == Some((t, text))
  {
  }

  /** A value that event `n` draws was nowhere before. */
  lemma NewBefore(hash: Digest, st: TokenState, events: seq<Event>, n: nat, t: TokenOwner, text: string)
    requires Plausible(events) && n < |events| && Drawn(events[n]) == Some((t, text))
    requires Tracks(hash, st, events, n, t, text)
    ensures hash(text) !in st.Of(t) && forall i: nat :: !Live(events, i, n, t, text)
  {
    forall i: nat ensures !Live(events, i, n, t, text) {
      if Live(events, i, n, t, text) { OneIssue(events, i, n, n, t, text); }
    }
  }

  lemma IssuedIsTracked(hash: Digest, st': TokenState, events: seq<Event>, n: nat, t: TokenOwner, text: string)
    requires n < |events| && Issues(events, n, t, text)
    requires hash(text) in st'.Of(t) && st'.Of(t)[hash(text)].expiresAt == ExpiryOf(events[n])
    requires Belongs(st'.Of(t)[hash(text)], events, n)
    ensures Tracks(hash, st', events, n + 1, t, text)
  {
    assert Live(events, n, n + 1, t, text);
  }

  lemma GoneIsTracked(hash: Digest, st': TokenState, events: seq<Event>, n: nat, t: TokenOwner, text: string)
    requires n < |events| && hash(text) !in st'.Of(t) && !Issues(events, n, t, text)
    requires Ends(events[n], t, text) || forall i: nat :: !Live(events, i, n, t, text)
    ensures Tracks(hash, st', events, n + 1, t, text)
  {
    var next := n + 1;
    forall i: nat ensures !Live(events, i, next, t, text) { LiveOneMore(events, i, n, next, t, text); }
  }

  lemma CreateKeepsTrack(hash: Digest, st: TokenState, events: seq<Event>, n: nat)
    requires Plausible(events) && n < |events| && events[n].Create?
    ensures Tracks(hash, Apply(hash, st, events[n]), events, n + 1, events[n].t, events[n].text)
  {
    var e := events[n];
    assert e.t != OtherToken by { assert Drawn(e).Some?; assert ValidateBearerTokenValue(e.text, e.t) == None; }
    hide ValidateBearerTokenValue;
    assert Issues(events, n, e.t, e.text);
    NewTokenIs(hash, e.t, e.owner, e.name, e.scope, e.text, e.ttl, e.at);
    IssuedIsTracked(hash, Apply(hash, st, e), events, n, e.t, e.text);
  }

  /** A resolve, or a refresh that draws nothing. */
  lemma ResolveKeepsTrack(hash: Digest, st: TokenState, events: seq<Event>, n: nat, used: Time)
    requires Plausible(events) && n < |events|
    requires Drawn(events[n]) == None && !Ends(events[n], events[n].t, events[n].text)
    requires Tracks(hash, st, events, n, events[n].t, events[n].text)
    ensures var e := events[n];
            Tracks(hash, Resolution(hash, st, e.t, e.text, e.at, used).0, events, n + 1, e.t, e.text)
  {
    hide ValidateBearerTokenValue;
    var e, next := events[n], n + 1;
    var m, h, st' := st.Of(e.t), hash(e.text), Resolution(hash, st, e.t, e.text, e.at, used).0;
    NotIssued(events, n, e.t, e.text);
    forall i: nat ensures Live(events, i, next, e.t, e.text) <==> Live(events, i, n, e.t, e.text) {
      LiveOneMore(events, i, n, next, e.t, e.text);
    }
    if h in m {
      var i: nat :| Live(events, i, n, e.t, e.text) && m[h].expiresAt == ExpiryOf(events[i]) && Belongs(m[h], events, i);
      forall j: nat | Live(events, j, n, e.t, e.text) ensures j == i { OneIssue(events, i, j, n, e.t, e.text); }
      assert ValidateBearerTokenValue(e.text, e.t) == None;
      if m[h].IsExpired(e.at) {
        assert h !in st'.Of(e.t) && Past(events, i, next);
      } else {
        assert h in st'.Of(e.t) && st'.Of(e.t)[h].expiresAt == m[h].expiresAt && Belongs(st'.Of(e.t)[h], events, i);
      }
    } else {
      assert st' == st;
      forall i: nat | Live(events, i, n, e.t, e.text) ensures Past(events, i, next) { assert Past(events, i, n); }
    }
  }

  lemma LogoutKeepsTrack(hash: Digest, st: TokenState, events: seq<Event>, n: nat)
    requires Plausible(events) && n < |events| && events[n].Logout?
    requires Tracks(hash, st, events, n, events[n].t, events[n].text)
    ensures Tracks(hash, Apply(hash, st, events[n]), events, n + 1, events[n].t, events[n].text)
  {
    hide ValidateBearerTokenValue;
    var e := events[n];
    if hash(e.text) in st.Of(e.t) {
      var i: nat :| Live(events, i, n, e.t, e.text);
      assert ValidateBearerTokenValue(e.text, e.t) == None;
    }
    GoneIsTracked(hash, Apply(hash, st, e), events, n, e.t, e.text);
  }

  /** After a refresh that draws, the presented value is gone whether or not the refresh was granted. */
  lemma RefreshedIsGone(hash: Digest, st: TokenState, events: seq<Event>, n: nat)
    requires Plausible(events) && Injective(hash) && n < |events| && events[n].Refresh? && events[n].drawn.Some?
    requires events[n].drawn.value != events[n].text
    requires Tracks(hash, st, events, n, events[n].t, events[n].text)
    ensures Tracks(hash, Apply(hash, st, events[n]), events, n + 1, events[n].t, events[n].text)
  {
    hide ValidateBearerTokenValue;
    var e := events[n];
    var h := hash(e.text);
    if h in st.Of(e.t) {
      var i: nat :| Live(events, i, n, e.t, e.text);
      assert ValidateBearerTokenValue(e.text, e.t) == None;
    }
    assert h !in Apply(hash, st, e).Of(e.t);
    NotIssued(events, n, e.t, e.text);
    GoneIsTracked(hash, Apply(hash, st, e), events, n, e.t, e.text);
  }

  /** The drawn value is there exactly when the refresh was granted. */
  lemma SuccessorIsTracked(hash: Digest, st: TokenState, events: seq<Event>, n: nat, text: string)
    requires Plausible(events) && Injective(hash) && n < |events| && events[n].Refresh? && events[n].drawn == Some(text)
    requires Tracks(hash, st, events, n, events[n].t, events[n].text) && Tracks(hash, st, events, n, events[n].t, text)
    ensures Tracks(hash, Apply(hash, st, events[n]), events, n + 1, events[n].t, text)
  {
    var e := events[n];
    NewBefore(hash, st, events, n, e.t, text);
    ResolvesIff(hash, st, events, n, e.t, e.text, e.used);
    RefreshStores(hash, st, e, text);
    hide ValidateBearerTokenValue, Refreshed, Resolution;
    if Resolution(hash, st, e.t, e.text, e.at, e.used).1.Ok? {
      assert Issues(events, n, e.t, text);
      SuccessorBelongs(hash, st, events, n, text);
      IssuedIsTracked(hash, Apply(hash, st, e), events, n, e.t, text);
    } else {
      GoneIsTracked(hash, Apply(hash, st, e), events, n, e.t, text);
    }
  }

  lemma SuccessorBelongs(hash: Digest, st: TokenState, events: seq<Event>, n: nat, text: string)
    requires Plausible(events) && Injective(hash) && n < |events| && events[n].Refresh? && events[n].drawn == Some(text)
    requires Tracks(hash, st, events, n, events[n].t, events[n].text) && hash(text) !in st.Of(events[n].t)
    requires Resolution(hash, st, events[n].t, events[n].text, events[n].at, events[n].used).1.Ok?
    ensures var m' := Refreshed(hash, st, events[n]).Of(events[n].t);
            hash(text) in m' && Belongs(m'[hash(text)], events, n)
  {
    var e := events[n];
    RefreshStores(hash, st, e, text);
    hide ValidateBearerTokenValue, Refreshed, Resolution, Plausible;
    var was := st.Of(e.t)[hash(e.text)];
    var i: nat :| Live(events, i, n, e.t, e.text) && Belongs(was, events, i);
    var now := Refreshed(hash, st, e).Of(e.t)[hash(text)];
    assert SameTerms(now, was.ownerID, was.name, was.scope);
    assert IssuedFor(events, n, now.ownerID, now.name, now.scope);
  }

  lemma RefreshStores(hash: Digest, st: TokenState, e: Event, text: string)
    requires Injective(hash) && e.Refresh? && e.drawn == Some(text) && hash(text) !in st.Of(e.t)
    ensures var m' := Refreshed(hash, st, e).Of(e.t);
            if Resolution(hash, st, e.t, e.text, e.at, e.used).1.Ok?
            then hash(text) in m' && hash(e.text) in st.Of(e.t) && m'[hash(text)].expiresAt == ExpiryOf(e)
                 && (var was := st.Of(e.t)[hash(e.text)];
                     NormalName(was.name) && KnownScope(was.scope) ==> SameTerms(m'[hash(text)], was.ownerID, was.name, was.scope))
            else hash(text) !in m'
  {
    hide ValidateBearerTokenValue;
    if Resolution(hash, st, e.t, e.text, e.at, e.used).1.Ok? { assert hash(e.text) in st.Of(e.t) && text != e.text; }
  }

  lemma {:induction false} RunTracks(hash: Digest, events: seq<Event>, n: nat, t: TokenOwner, text: string)
    requires Plausible(events) && Injective(hash) && n <= |events|
    ensures Tracks(hash, Run(hash, events[..n]), events, n, t, text)
    decreases n
  {
    hide Tracks, Apply, Plausible;
    if n == 0 {
      NothingTracked(hash, events, t, text);
    } else {
      var e, st := events[n - 1], Run(hash, events[..n - 1]);
      assert events[..n][..n - 1] == events[..n - 1];
      assert Run(hash, events[..n]) == Apply(hash, st, e);
      RunTracks(hash, events, n - 1, t, text);
      RunTracks(hash, events, n - 1, e.t, e.text);
      EventKeepsTrack(hash, st, events, n - 1, t, text);
    }
  }

  lemma NothingTracked(hash: Digest, events: seq<Event>, t: TokenOwner, text: string)
    ensures Tracks(hash, Run(hash, events[..0]), events, 0, t, text)
  {
  }

  lemma EventKeepsTrack(hash: Digest, st: TokenState, events: seq<Event>, n: nat, t: TokenOwner, text: string)
    requires Plausible(events) && Injective(hash) && n < |events|
    requires Tracks(hash, st, events, n, t, text) && Tracks(hash, st, events, n, events[n].t, events[n].text)
    ensures Tracks(hash, Apply(hash, st, events[n]), events, n + 1, t, text)
  {
    hide Tracks, Resolution, Plausible, ValidateBearerTokenValue;
    var e := events[n];
    if !Concerns(e, t, text) && Drawn(e) != Some((t, text)) {
      OtherKeepsTrack(hash, st, events, n, t, text);
    } else if e.Refresh? && e.drawn == Some(text) && e.t == t {
      SuccessorIsTracked(hash, st, events, n, text);
    } else {
      match e
      case Create(_, _, _, _, _, _, _) => CreateKeepsTrack(hash, st, events, n);
      case Resolve(_, _, _, used) => ResolveKeepsTrack(hash, st, events, n, used);
      case Logout(_, _, _) => LogoutKeepsTrack(hash, st, events, n);
      case Refresh(_, _, _, used, drawn, _, _) =>
        if drawn.Some? { RefreshedIsGone(hash, st, events, n); } else { ResolveKeepsTrack(hash, st, events, n, used); }
    }
  }

  /** Over every run, a resolve succeeds exactly when its value was issued for that owner type, as a new token or
      as the successor of one that was usable when refreshed, was neither logged out nor refreshed since, and has
      not expired. */
  lemma ResolveSucceedsIff(hash: Digest, events: seq<Event>, n: nat)
    requires Plausible(events) && Injective(hash) && n < |events| && events[n].Resolve?
    ensures Resolution(hash, Run(hash, events[..n]), events[n].t, events[n].text, events[n].at, events[n].used).1.Ok?
            <==> Usable(events, n, events[n].t, events[n].text, events[n].at)
  {
    RunTracks(hash, events, n, events[n].t, events[n].text);
    ResolvesIff(hash, Run(hash, events[..n]), events, n, events[n].t, events[n].text, events[n].used);
  }

  /** Over every run, a resolve that succeeds answers a token of the owner, name and scope it was first created with,
      however often it was refreshed since, and of exactly the expiry of its last issue. */
  lemma ResolveAnswersOwner(hash: Digest, events: seq<Event>, n: nat)
    requires Plausible(events) && Injective(hash) && n < |events| && events[n].Resolve?
    requires Resolution(hash, Run(hash, events[..n]), events[n].t, events[n].text, events[n].at, events[n].used).1.Ok?
    ensures var (e, st) := (events[n], Run(hash, events[..n]));
            var token := Resolution(hash, st, e.t, e.text, e.at, e.used).1.value;
            && token.lastUsedAt == e.used
            && exists i: nat :: Live(events, i, n, e.t, e.text) && token.expiresAt == ExpiryOf(events[i])
                                && IssuedFor(events, i, token.ownerID, token.name, token.scope)
  {
    hide ValidateBearerTokenValue, Run;
    var e := events[n];
    RunTracks(hash, events, n, e.t, e.text);
    var m, h := Run(hash, events[..n]).Of(e.t), hash(e.text);
    var i: nat :| Live(events, i, n, e.t, e.text) && m[h].expiresAt == ExpiryOf(events[i]) && Belongs(m[h], events, i);
  }
}
