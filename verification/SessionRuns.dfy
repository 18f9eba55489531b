/** Whole runs of login, resolve and logout: which resolves succeed, said without the store. */
module SessionRuns {
  import opened Sessions

  function Run(c: SessionConfig, hash: Digest, events: seq<Event>): SessionState {
    if events == [] then SessionState(map[], map[])
    else Apply(c, hash, Run(c, hash, events[..|events| - 1]), events[|events| - 1])
  }

  /** The last clock reading of an event; for a successful resolve the lifetime restarts there. */
  function LastReading(e: Event): Time {
    if e.Resolve? then e.again else e.at
  }

  /** What a run may be: the clock never goes back and every issued token is new and not blank. */
  ghost predicate Plausible(events: seq<Event>) {
    && (forall i :: 0 <= i < |events| ==> events[i].at <= LastReading(events[i]))
    && (forall i, j :: 0 <= i < j < |events| ==> LastReading(events[i]) <= events[j].at)
    && (forall i :: 0 <= i < |events| && events[i].Login? ==> !Blank(events[i].token))
    && (forall i, j :: 0 <= i < j < |events| && events[i].Login? && events[j].Login? ==>
          events[i].kind != events[j].kind || events[i].token != events[j].token)
  }

  predicate Concerns(e: Event, kind: SessionKind, token: string) {
    e.kind == kind && e.token == token
  }

  /** Time `t` falls within the lifetime counted from the login `i`, or, when activity extends
      sessions, from some activity between `i` and `n`. */
  ghost predicate InTime(c: SessionConfig, events: seq<Event>, i: nat, n: nat, t: Time)
    requires i < n <= |events|
  {
    if c.extendOnActivity
    then exists p :: i <= p < n && Activity(events[p], events[i].kind, events[i].token)
                     && t < LastReading(events[p]) + c.TTL(events[i].kind)
    else t < events[i].at + c.TTL(events[i].kind)
  }

  predicate Activity(e: Event, kind: SessionKind, token: string) {
    !e.Logout? && Concerns(e, kind, token)
  }

  /** The session issued by event `i` is still usable before event `n`: no logout since, and every
      resolve since came in time. */
  ghost predicate Alive(c: SessionConfig, events: seq<Event>, i: nat, n: nat, kind: SessionKind, token: string) {
    && i < n <= |events|
    && events[i].Login? && Concerns(events[i], kind, token)
    && (forall m :: i < m < n && Concerns(events[m], kind, token) ==>
          !events[m].Logout? && (events[m].Resolve? ==> InTime(c, events, i, m, events[m].at)))
  }

  /** The map entry of a token says exactly what the history says. */
  ghost predicate Tracks(c: SessionConfig, hash: Digest, st: SessionState, events: seq<Event>, n: nat,
                         kind: SessionKind, token: string)
    requires n <= |events|
  {
    var m, h := st.Of(kind), hash(token);
    if h in m then
      && m[h].kind == kind && m[h].tokenHash == h
      && exists i: nat :: Alive(c, events, i, n, kind, token) && Deadline(c, events, i, n, m[h].expiresAt) && Carries(m[h], events[i])
    else
      forall i :: !Alive(c, events, i, n, kind, token)
  }

  /** The session is that of the login: whose it is, where it came from and when it was created. */
  predicate Carries(s: Session, login: Event) {
    login.Login? && s.subjectID == login.subjectID && s.origin == login.origin && s.createdAt == login.at
  }

  ghost predicate Deadline(c: SessionConfig, events: seq<Event>, i: nat, n: nat, expiresAt: Time)
    requires i < n <= |events|
  {
    forall t: Time :: InTime(c, events, i, n, t) <==> t < expiresAt
  }

  /** An event about another session changes neither side. */
  lemma OtherEvent(c: SessionConfig, events: seq<Event>, i: nat, n: nat, next: nat, kind: SessionKind, token: string)
    requires n < |events| && next == n + 1 && !Concerns(events[n], kind, token)
    ensures Alive(c, events, i, next, kind, token) <==> Alive(c, events, i, n, kind, token)
    ensures Alive(c, events, i, n, kind, token) ==> forall t: Time :: InTime(c, events, i, next, t) <==> InTime(c, events, i, n, t)
  {
  }

  lemma OtherKeepsTrack(c: SessionConfig, hash: Digest, st: SessionState, events: seq<Event>, n: nat,
                        kind: SessionKind, token: string)
    requires Injective(hash) && n < |events| && !Concerns(events[n], kind, token)
    requires Tracks(c, hash, st, events, n, kind, token)
    requires Tracks(c, hash, st, events, n, events[n].kind, events[n].token)
    ensures Tracks(c, hash, Apply(c, hash, st, events[n]), events, n + 1, kind, token)
  {
    var st' := Apply(c, hash, st, events[n]);
    var h := hash(token);
    assert h in st'.Of(kind) <==> h in st.Of(kind);
    assert h in st.Of(kind) ==> st'.Of(kind)[h] == st.Of(kind)[h];
    var next := n + 1;
    forall i: nat ensures Alive(c, events, i, next, kind, token) <==> Alive(c, events, i, n, kind, token) {
      OtherEvent(c, events, i, n, next, kind, token);
    }
    if h in st.Of(kind) {
      var i: nat :| Alive(c, events, i, n, kind, token) && Deadline(c, events, i, n, st.Of(kind)[h].expiresAt)
               && Carries(st.Of(kind)[h], events[i]);
      OtherEvent(c, events, i, n, next, kind, token);
      assert Deadline(c, events, i, next, st.Of(kind)[h].expiresAt);
    }
  }

  lemma LoginKeepsTrack(c: SessionConfig, hash: Digest, st: SessionState, events: seq<Event>, n: nat)
    requires n < |events| && events[n].Login?
    ensures Tracks(c, hash, Apply(c, hash, st, events[n]), events, n + 1, events[n].kind, events[n].token)
  {
    var e := events[n];
    var s := NewSession(c, hash, e.kind, e.token, e.subjectID, e.origin, e.at);
    assert Apply(c, hash, st, e).Of(e.kind)[hash(e.token)] == s;
    assert Alive(c, events, n, n + 1, e.kind, e.token);
    assert Deadline(c, events, n, n + 1, s.expiresAt);
  }

  lemma OneLogin(c: SessionConfig, events: seq<Event>, i: nat, j: nat, n: nat, kind: SessionKind, token: string)
    requires Plausible(events) && Alive(c, events, i, n, kind, token)
    requires Alive(c, events, j, n, kind, token) || (Alive(c, events, j, n + 1, kind, token) && n < |events| && !events[n].Login?)
    ensures i == j
  {
  }

  lemma LogoutKeepsTrack(c: SessionConfig, hash: Digest, st: SessionState, events: seq<Event>, n: nat)
    requires Plausible(events) && n < |events| && events[n].Logout?
    requires Tracks(c, hash, st, events, n, events[n].kind, events[n].token)
    ensures Tracks(c, hash, Apply(c, hash, st, events[n]), events, n + 1, events[n].kind, events[n].token)
  {
    var e := events[n];
    var next := n + 1;
    forall i: nat ensures !Alive(c, events, i, next, e.kind, e.token) {}
    if Blank(e.token) {
      forall i: nat ensures !Alive(c, events, i, n, e.kind, e.token) {}
    }
  }

  lemma ResolveKeepsTrack(c: SessionConfig, hash: Digest, st: SessionState, events: seq<Event>, n: nat)
    requires Plausible(events) && n < |events| && events[n].Resolve?
    requires Tracks(c, hash, st, events, n, events[n].kind, events[n].token)
    ensures Tracks(c, hash, Apply(c, hash, st, events[n]), events, n + 1, events[n].kind, events[n].token)
    ensures var (kind, token) := (events[n].kind, events[n].token);
            Resolved(c, hash, st, kind, token, events[n].at, events[n].again).1.Live?
            <==> exists i: nat :: Alive(c, events, i, n, kind, token) && InTime(c, events, i, n, events[n].at)
  {
    var e := events[n];
    var h := hash(e.token);
    var m := st.Of(e.kind);
    var next := n + 1;
    if h in m {
      var i: nat :| Alive(c, events, i, n, e.kind, e.token) && Deadline(c, events, i, n, m[h].expiresAt) && Carries(m[h], events[i]);
      forall j: nat | Alive(c, events, j, n, e.kind, e.token) ensures j == i { OneLogin(c, events, i, j, n, e.kind, e.token); }
      forall j: nat | Alive(c, events, j, next, e.kind, e.token) ensures j == i { OneLogin(c, events, i, j, n, e.kind, e.token); }
      assert InTime(c, events, i, n, e.at) <==> e.at < m[h].expiresAt;
      if e.at < m[h].expiresAt {
        ResolveExtends(c, events, i, n, m[h].expiresAt);
      }
    } else {
      forall i: nat ensures !Alive(c, events, i, next, e.kind, e.token) {
        assert !Alive(c, events, i, n, e.kind, e.token);
      }
    }
  }

  lemma ResolveExtends(c: SessionConfig, events: seq<Event>, i: nat, n: nat, expiresAt: Time)
    requires Plausible(events) && n < |events| && events[n].Resolve?
    requires Alive(c, events, i, n, events[n].kind, events[n].token)
    requires Deadline(c, events, i, n, expiresAt) && events[n].at < expiresAt
    ensures Alive(c, events, i, n + 1, events[n].kind, events[n].token)
    ensures Deadline(c, events, i, n + 1, if c.extendOnActivity then events[n].again + c.TTL(events[n].kind) else expiresAt)
  {
    assert InTime(c, events, i, n, events[n].at);
    var next := n + 1;
    if c.extendOnActivity {
      assert Activity(events[n], events[i].kind, events[i].token);
      forall t: Time ensures InTime(c, events, i, next, t) <==> t < events[n].again + c.TTL(events[n].kind) {
        if t < events[n].again + c.TTL(events[n].kind) { assert InTime(c, events, i, next, t); }
        if InTime(c, events, i, next, t) {
          var p :| i <= p < next && Activity(events[p], events[i].kind, events[i].token)
                   && t < LastReading(events[p]) + c.TTL(events[i].kind);
          assert p == n || LastReading(events[p]) <= events[n].at <= events[n].again;
        }
      }
      assert Deadline(c, events, i, next, events[n].again + c.TTL(events[n].kind));
    } else {
      forall t: Time ensures InTime(c, events, i, next, t) <==> t < expiresAt {
        assert InTime(c, events, i, n, t) <==> t < expiresAt;
      }
      assert Deadline(c, events, i, next, expiresAt);
    }
  }

  lemma {:induction false} RunTracks(c: SessionConfig, hash: Digest, events: seq<Event>, n: nat, kind: SessionKind,
                                     token: string)
    requires Plausible(events) && Injective(hash) && n <= |events|
    ensures Tracks(c, hash, Run(c, hash, events[..n]), events, n, kind, token)
    decreases n
  {
    if n > 0 {
      var e := events[n - 1];
      var st := Run(c, hash, events[..n - 1]);
      assert events[..n][..n - 1] == events[..n - 1];
      assert Run(c, hash, events[..n]) == Apply(c, hash, st, e);
      RunTracks(c, hash, events, n - 1, e.kind, e.token);
      if !Concerns(e, kind, token) {
        RunTracks(c, hash, events, n - 1, kind, token);
        OtherKeepsTrack(c, hash, st, events, n - 1, kind, token);
      } else {
        match e
        case Login(_, _, _, _, _) => LoginKeepsTrack(c, hash, st, events, n - 1);
        case Resolve(_, _, _, _) => ResolveKeepsTrack(c, hash, st, events, n - 1);
        case Logout(_, _, _) => LogoutKeepsTrack(c, hash, st, events, n - 1);
      }
    }
  }

  predicate Succeeds(c: SessionConfig, hash: Digest, events: seq<Event>, n: nat)
    requires n < |events| && events[n].Resolve?
  {
    Resolved(c, hash, Run(c, hash, events[..n]), events[n].kind, events[n].token, events[n].at, events[n].again).1.Live?
  }

  /** Over every run, a resolve succeeds exactly when its token was issued for that kind, was not logged
      out since, no resolve since came too late, and the lifetime counted from the last activity (or
      from the login, when activity does not extend) has not run out. */
  lemma ResolveSucceedsIff(c: SessionConfig, hash: Digest, events: seq<Event>, n: nat)
    requires Plausible(events) && Injective(hash)
    requires n < |events| && events[n].Resolve?
    ensures Succeeds(c, hash, events, n) <==>
              exists i: nat :: Alive(c, events, i, n, events[n].kind, events[n].token) && InTime(c, events, i, n, events[n].at)
  {
    RunTracks(c, hash, events, n, events[n].kind, events[n].token);
    ResolveKeepsTrack(c, hash, Run(c, hash, events[..n]), events, n);
  }

  /** Over every run, a resolve that succeeds answers the session of the login that issued the token: its subject,
      origin and creation time; with activity extension its lifetime restarts, by the lifetime of its kind. */
  lemma ResolveAnswersLogin(c: SessionConfig, hash: Digest, events: seq<Event>, n: nat)
    requires Plausible(events) && Injective(hash)
    requires n < |events| && events[n].Resolve? && Succeeds(c, hash, events, n)
    ensures var e := events[n];
            var s := Resolved(c, hash, Run(c, hash, events[..n]), e.kind, e.token, e.at, e.again).1.session;
            && s.kind == e.kind && s.tokenHash == hash(e.token)
            && (exists i: nat :: Alive(c, events, i, n, e.kind, e.token) && s.subjectID == events[i].subjectID
                            && s.origin == events[i].origin && s.createdAt == events[i].at)
            && (c.extendOnActivity ==> s.lastSeenAt == e.again
                                       && s.expiresAt == e.again + (if e.kind == AdminSession then c.adminTTL else c.userTTL))
  {
    var e := events[n];
    RunTracks(c, hash, events, n, e.kind, e.token);
    var m, h := Run(c, hash, events[..n]).Of(e.kind), hash(e.token);
    var i: nat :| Alive(c, events, i, n, e.kind, e.token) && Deadline(c, events, i, n, m[h].expiresAt) && Carries(m[h], events[i]);
  }

  /** Without activity extension a session ends a fixed time after its login, by the lifetime of its kind. */
  lemma FixedLifetime(c: SessionConfig, hash: Digest, events: seq<Event>, n: nat)
    requires Plausible(events) && Injective(hash) && !c.extendOnActivity
    requires n < |events| && events[n].Resolve? && Succeeds(c, hash, events, n)
    ensures exists i: nat :: Alive(c, events, i, n, events[n].kind, events[n].token)
                        && events[n].at < events[i].at + (if events[n].kind == AdminSession then c.adminTTL else c.userTTL)
  {
    ResolveSucceedsIff(c, hash, events, n);
  }

  /** Once a resolve of an issued token failed, no later resolve of it succeeds. */
  lemma FailureIsFinal(c: SessionConfig, hash: Digest, events: seq<Event>, login: nat, first: nat, later: nat)
    requires Plausible(events) && Injective(hash)
    requires login < first < later < |events|
    requires events[login].Login? && events[first].Resolve? && events[later].Resolve?
    requires Concerns(events[first], events[login].kind, events[login].token)
    requires Concerns(events[later], events[login].kind, events[login].token)
    requires !Succeeds(c, hash, events, first)
    ensures !Succeeds(c, hash, events, later)
  {
    var kind, token := events[login].kind, events[login].token;
    ResolveSucceedsIff(c, hash, events, first);
    ResolveSucceedsIff(c, hash, events, later);
    forall i: nat ensures !Alive(c, events, i, later, kind, token) {
      if Alive(c, events, i, later, kind, token) {
        OneIssue(events, i, login);
        AliveEarlier(c, events, i, first, later);
        assert false;
      }
    }
  }

  lemma OneIssue(events: seq<Event>, i: nat, j: nat)
    requires Plausible(events) && i < |events| && j < |events| && events[i].Login? && events[j].Login?
    requires Concerns(events[i], events[j].kind, events[j].token)
    ensures i == j
  {
  }

  lemma AliveEarlier(c: SessionConfig, events: seq<Event>, i: nat, first: nat, later: nat)
    requires i < first < later <= |events| && events[first].Resolve?
    requires Alive(c, events, i, later, events[first].kind, events[first].token)
    ensures Alive(c, events, i, first, events[first].kind, events[first].token) && InTime(c, events, i, first, events[first].at)
  {
  }
}
