/** Sessions and tokens under interleaving: the resolve, refresh and logout calls cut at their separately
    locked store calls. Only which digests are live matters here, for one kind of session or one owner type. */
module CredentialRaces {
  import opened Wrappers
  import opened TokenGenerator
  import Sessions
  import Tokens

  type Digest = string

  /** What a request holds between two of its store calls. */
  datatype Local =
    | Idle
    | Found(digest: Digest, refreshing: bool)
    | Stale(digest: Digest)
    | Resolved(digest: Digest)
    | Issued(previous: Digest, drawn: Digest)
    | RollingBack(drawn: Digest)

  /** `GiveUp` is a refresh whose draws fail or keep coming out the same. */
  datatype Action =
    | Login(digest: Digest)
    | Find(digest: Digest, refreshing: bool)
    | FindExpired(digest: Digest)
    | WriteBack
    | DropExpired
    | Draw(digest: Digest)
    | GiveUp
    | DropOld
    | RollBack
    | Logout(digest: Digest)

  datatype Step = Step(request: int, action: Action)

  /** `writesBack` says whether a plain resolve saves what it found: always for tokens, and for sessions when
      activity extends them. `handed` is auxiliary: the digests of the values that clients were given. A client can only
      present those. */
  datatype System = System(writesBack: bool, live: set<Digest>, locals: map<int, Local>, handed: set<Digest>)

  function Initial(writesBack: bool): System { System(writesBack, {}, map[], {}) }

  function LocalOf(s: System, r: int): Local {
    if r in s.locals then s.locals[r] else Idle
  }

  function Put(s: System, r: int, l: Local): System {
    s.(locals := s.locals[r := l])
  }

  /** One locked store call of one request. A step that the request cannot take changes nothing. */
  function Next(s: System, step: Step): System {
    var r := step.request;
    match (step.action, LocalOf(s, r))
    case (Login(d), Idle) => s.(live := s.live + {d}, handed := s.handed + {d})
    case (Find(d, refreshing), Idle) =>
      if d in s.handed && d in s.live && (refreshing || s.writesBack) then Put(s, r, Found(d, refreshing)) else s
    case (FindExpired(d), Idle) => if d in s.handed && d in s.live then Put(s, r, Stale(d)) else s
    case (WriteBack, Found(d, refreshing)) => Put(s.(live := s.live + {d}), r, if refreshing then Resolved(d) else Idle)
    case (DropExpired, Stale(d)) => Put(s.(live := s.live - {d}), r, Idle)
    case (Draw(n), Resolved(was)) => Put(s.(live := s.live + {n}), r, if n == was then Resolved(was) else Issued(was, n))
    case (GiveUp, Resolved(_)) => Put(s, r, Idle)
    case (DropOld, Issued(was, n)) =>
      if was in s.live then Put(s.(live := s.live - {was}, handed := s.handed + {n}), r, Idle)
      else Put(s, r, RollingBack(n))
    case (RollBack, RollingBack(n)) => Put(s.(live := s.live - {n}), r, Idle)
    case (Logout(d), Idle) => s.(live := s.live - {d})
    case _ => s
  }

  function Continue(s: System, steps: seq<Step>): System {
    if steps == [] then s else Next(Continue(s, steps[..|steps| - 1]), steps[|steps| - 1])
  }

  function Exec(w: bool, steps: seq<Step>): System { Continue(Initial(w), steps) }

  /** What a request holds about a client's own credential, the client was handed. */
  predicate LocalOK(handed: set<Digest>, l: Local) {
    match l
    case Idle => true
    case Found(d, _) => d in handed
    case Stale(d) => d in handed
    case Resolved(d) => d in handed
    case Issued(was, _) => was in handed
    case RollingBack(_) => true
  }

  predicate Holds(l: Local, d: Digest) {
    (l.Issued? || l.RollingBack?) && l.drawn == d
  }

  ghost predicate Accounted(s: System, d: Digest) {
    d in s.handed || exists r :: r in s.locals && Holds(s.locals[r], d)
  }

  ghost predicate NoStray(s: System) {
    && (forall r :: r in s.locals ==> LocalOK(s.handed, s.locals[r]))
    && (forall d :: d in s.live ==> Accounted(s, d))
  }

  lemma StepLeavesNoStray(s: System, step: Step)
    requires NoStray(s)
    ensures NoStray(Next(s, step))
  {
    var s', r := Next(s, step), step.request;
    var l := LocalOf(s, r);
    forall d | d in s'.live
      ensures Accounted(s', d)
    {
      if d !in s'.handed {
        if d in s.live {
          var q :| q in s.locals && Holds(s.locals[q], d);
          assert q in s'.locals && Holds(s'.locals[q], d);
        } else {
          assert Holds(s'.locals[r], d);
        }
      }
    }
  }

  /** Under every interleaving no refresh leaves a stray token behind: whatever is live was handed to a
      client, or is held by a refresh that still has to hand it out or roll it back. */
  lemma {:induction false} NoStrayCredential(w: bool, steps: seq<Step>)
    ensures NoStray(Exec(w, steps))
    ensures (forall r :: LocalOf(Exec(w, steps), r).Idle?) ==> Exec(w, steps).live <= Exec(w, steps).handed
  {
    if steps != [] {
      NoStrayCredential(w, steps[..|steps| - 1]);
      StepLeavesNoStray(Exec(w, steps[..|steps| - 1]), steps[|steps| - 1]);
    }
    var s := Exec(w, steps);
    if forall r :: LocalOf(s, r).Idle? {
      assert forall r :: r in s.locals ==> s.locals[r] == LocalOf(s, r);
      forall d | d in s.live ensures d in s.handed { assert Accounted(s, d); }
    }
  }

  /** What one step can do to one digest. */
  datatype Effect = Issuing | Reviving | Granting | LoggingOut | Expiring | Undoing

  /** A revival is a write-back of a credential that is no longer there. */
  predicate Has(s: System, step: Step, d: Digest, e: Effect) {
    var l := LocalOf(s, step.request);
    match e
    case Issuing => d !in s.live && ((step.action == Login(d) && l.Idle?) || (step.action == Draw(d) && l.Resolved?))
    case Reviving => d !in s.live && step.action.WriteBack? && l.Found? && l.digest == d
    case Granting => d in s.live && step.action.DropOld? && l.Issued? && l.previous == d
    case LoggingOut => d in s.live && step.action == Logout(d) && l.Idle?
    case Expiring => d in s.live && step.action.DropExpired? && l == Stale(d)
    case Undoing => d in s.live && step.action.RollBack? && l == RollingBack(d)
  }

  function Tally(w: bool, steps: seq<Step>, d: Digest, e: Effect): nat {
    if steps == [] then 0
    else
      var init, last := steps[..|steps| - 1], steps[|steps| - 1];
      Tally(w, init, d, e) + if Has(Exec(w, init), last, d, e) then 1 else 0
  }

  function Removals(w: bool, steps: seq<Step>, d: Digest): nat {
    Tally(w, steps, d, Granting) + Tally(w, steps, d, LoggingOut) + Tally(w, steps, d, Expiring) + Tally(w, steps, d, Undoing)
  }

  /** Under every interleaving each credential balances: it came to life once per issue and per revival,
      and it ended once per granted refresh, logout, expiry and roll-back. */
  lemma {:induction false} Conservation(w: bool, steps: seq<Step>, d: Digest)
    ensures Tally(w, steps, d, Issuing) + Tally(w, steps, d, Reviving)
            == Removals(w, steps, d) + if d in Exec(w, steps).live then 1 else 0
  {
    if steps != [] {
      var init, last := steps[..|steps| - 1], steps[|steps| - 1];
      Conservation(w, init, d);
      StepBalances(Exec(w, init), last, d);
    }
  }

  function Occurs(s: System, step: Step, d: Digest, e: Effect): nat { if Has(s, step, d, e) then 1 else 0 }

  lemma StepBalances(s: System, step: Step, d: Digest)
    ensures (if d in s.live then 1 else 0) + Occurs(s, step, d, Issuing) + Occurs(s, step, d, Reviving)
            == Occurs(s, step, d, Granting) + Occurs(s, step, d, LoggingOut) + Occurs(s, step, d, Expiring)
               + Occurs(s, step, d, Undoing) + if d in Next(s, step).live then 1 else 0
  {
  }

  /** How often a run drew this digest, for a login or in a refresh. */
  function Drawn(steps: seq<Step>, d: Digest): nat {
    if steps == [] then 0
    else
      var action := steps[|steps| - 1].action;
      Drawn(steps[..|steps| - 1], d) + if action == Login(d) || action == Draw(d) then 1 else 0
  }

  lemma {:induction false} IssuedAtMostDrawn(w: bool, steps: seq<Step>, d: Digest)
    ensures Tally(w, steps, d, Issuing) <= Drawn(steps, d)
  {
    if steps != [] { IssuedAtMostDrawn(w, steps[..|steps| - 1], d); }
  }

  predicate Removed(s: System, step: Step, d: Digest) {
    Has(s, step, d, Granting) || Has(s, step, d, LoggingOut) || Has(s, step, d, Expiring) || Has(s, step, d, Undoing)
  }

  predicate BringsBack(s: System, step: Step, d: Digest) {
    Has(s, step, d, Issuing) || Has(s, step, d, Reviving)
  }

  lemma LiveStep(s: System, step: Step, d: Digest)
    ensures d in Next(s, step).live <==> BringsBack(s, step, d) || (d in s.live && !Removed(s, step, d))
  {
    StepBalances(s, step, d);
  }

  predicate Draws(step: Step, d: Digest) { step.action == Login(d) || step.action == Draw(d) }

  ghost predicate NotDrawn(steps: seq<Step>, d: Digest) {
    forall k :: 0 <= k < |steps| ==> !Draws(steps[k], d)
  }

  /** Some request looked the credential up and has not written it back yet. */
  ghost predicate Pending(s: System, d: Digest) {
    exists r :: r in s.locals && s.locals[r].Found? && s.locals[r].digest == d
  }

  ghost predicate StaysDead(s: System, d: Digest) {
    forall more :: NotDrawn(more, d) ==> d !in Continue(s, more).live
  }

  lemma DeadStep(s: System, step: Step, d: Digest)
    requires d !in s.live && !Pending(s, d) && !Draws(step, d)
    ensures d !in Next(s, step).live && !Pending(Next(s, step), d)
  {
    forall r | r in Next(s, step).locals
      ensures !(Next(s, step).locals[r].Found? && Next(s, step).locals[r].digest == d)
    {
      if r in s.locals && r != step.request { assert Next(s, step).locals[r] == s.locals[r]; }
    }
  }

  lemma {:induction false} DeadContinues(s: System, more: seq<Step>, d: Digest)
    requires d !in s.live && !Pending(s, d) && NotDrawn(more, d)
    ensures d !in Continue(s, more).live && !Pending(Continue(s, more), d)
  {
    if more != [] {
      DeadContinues(s, more[..|more| - 1], d);
      DeadStep(Continue(s, more[..|more| - 1]), more[|more| - 1], d);
    }
  }

  /** A dead credential stays dead under every continuation that does not draw it again exactly when no
      request is between looking it up and writing it back. */
  lemma RemovalIsFinalIff(s: System, d: Digest)
    requires d !in s.live
    ensures StaysDead(s, d) <==> !Pending(s, d)
  {
    if Pending(s, d) {
      var r :| r in s.locals && s.locals[r].Found? && s.locals[r].digest == d;
      var more := [Step(r, WriteBack)];
      assert more[..0] == [] && Continue(s, more) == Next(s, more[0]);
      assert NotDrawn(more, d) && d in Continue(s, more).live;
    } else {
      forall more | NotDrawn(more, d) ensures d !in Continue(s, more).live { DeadContinues(s, more, d); }
    }
  }

  /** A step of a session run without extension: nothing is refreshed either. */
  predicate OfPlainSession(step: Step) { step.action.Find? ==> !step.action.refreshing }

  lemma {:induction false} NothingPending(steps: seq<Step>)
    requires forall k :: 0 <= k < |steps| ==> OfPlainSession(steps[k])
    ensures var s := Exec(false, steps); !s.writesBack && forall r :: r in s.locals ==> !s.locals[r].Found?
  {
    if steps != [] {
      var n := |steps| - 1;
      NothingPending(steps[..n]);
      assert Exec(false, steps) == Next(Exec(false, steps[..n]), steps[n]);
    }
  }

  /** Sessions that activity does not extend never come back: every removal is final. */
  lemma PlainSessionRemovalIsFinal(steps: seq<Step>, d: Digest)
    requires forall k :: 0 <= k < |steps| ==> OfPlainSession(steps[k])
    requires d !in Exec(false, steps).live
    ensures StaysDead(Exec(false, steps), d)
  {
    NothingPending(steps);
    RemovalIsFinalIff(Exec(false, steps), d);
  }

  /** A logout is final exactly when no resolve or refresh of the credential is in flight at that moment. */
  lemma LogoutIsFinalIff(s: System, r: int, d: Digest)
    requires LocalOf(s, r).Idle?
    ensures StaysDead(Next(s, Step(r, Logout(d))), d) <==> !Pending(s, d)
  {
    RemovalIsFinalIff(Next(s, Step(r, Logout(d))), d);
  }

  /** So is the removal of the old token at the end of a refresh. */
  lemma RotationIsFinalIff(s: System, r: int, d: Digest, n: Digest)
    requires LocalOf(s, r) == Issued(d, n) && d in s.live
    ensures StaysDead(Next(s, Step(r, DropOld)), d) <==> !Pending(s, d)
  {
    var s' := Next(s, Step(r, DropOld));
    RemovalIsFinalIff(s', d);
    assert forall q :: q in s.locals && q != r ==> q in s'.locals && s'.locals[q] == s.locals[q];
    assert forall q :: q in s'.locals && q != r ==> q in s.locals;
  }

  /** Whenever a step of the run removed the credential, no resolve or refresh of it was in flight. */
  ghost predicate QuietRemovals(w: bool, steps: seq<Step>, d: Digest) {
    forall k :: 0 <= k < |steps| && Removed(Exec(w, steps[..k]), steps[k], d) ==> !Pending(Exec(w, steps[..k]), d)
  }

  lemma QuietStep(s: System, step: Step, d: Digest)
    requires d in s.live || !Pending(s, d)
    requires Removed(s, step, d) ==> !Pending(s, d)
    ensures d in Next(s, step).live || !Pending(Next(s, step), d)
    ensures !Has(s, step, d, Reviving)
  {
    var s' := Next(s, step);
    if d !in s'.live {
      LiveStep(s, step, d);
      forall r | r in s'.locals ensures !(s'.locals[r].Found? && s'.locals[r].digest == d) {
        if r in s.locals && r != step.request { assert s'.locals[r] == s.locals[r]; }
      }
    }
  }

  lemma {:induction false} QuietMeansNoRevival(w: bool, steps: seq<Step>, d: Digest)
    requires QuietRemovals(w, steps, d)
    ensures d in Exec(w, steps).live || !Pending(Exec(w, steps), d)
    ensures Tally(w, steps, d, Reviving) == 0
  {
    if steps != [] {
      var n := |steps| - 1;
      var init := steps[..n];
      forall k | 0 <= k < n && Removed(Exec(w, init[..k]), init[k], d) ensures !Pending(Exec(w, init[..k]), d) {
        assert init[..k] == steps[..k] && init[k] == steps[k];
      }
      QuietMeansNoRevival(w, init, d);
      QuietStep(Exec(w, init), steps[n], d);
    }
  }

  /** A credential drawn once, and never removed while a resolve or refresh of it is in flight, ends at most
      once: of all granted refreshes and effective logouts of it only one ever happens, and then it is dead. */
  lemma EndsAtMostOnce(w: bool, steps: seq<Step>, d: Digest)
    requires Drawn(steps, d) <= 1 && QuietRemovals(w, steps, d)
    ensures Tally(w, steps, d, Granting) + Tally(w, steps, d, LoggingOut) + (if d in Exec(w, steps).live then 1 else 0) <= 1
  {
    Conservation(w, steps, d);
    IssuedAtMostDrawn(w, steps, d);
    QuietMeansNoRevival(w, steps, d);
  }

  lemma ExecAppend(w: bool, steps: seq<Step>, step: Step)
    ensures Exec(w, steps + [step]) == Next(Exec(w, steps), step)
  {
    assert (steps + [step])[..|steps|] == steps;
  }

  /** Step `k` of `mid`, run after `pre`, removed the credential and no later step brought it back. */
  ghost predicate LastRemoval(w: bool, pre: seq<Step>, mid: seq<Step>, d: Digest, k: int) {
    && 0 <= k < |mid| && Removed(Exec(w, pre + mid[..k]), mid[k], d)
    && forall m :: k < m < |mid| ==> !BringsBack(Exec(w, pre + mid[..m]), mid[m], d)
  }

  lemma LastRemovalStep(w: bool, pre: seq<Step>, mid: seq<Step>, d: Digest)
    requires mid != []
    ensures var n := |mid| - 1;
            (exists k :: LastRemoval(w, pre, mid, d, k))
            <==> Removed(Exec(w, pre + mid[..n]), mid[n], d)
                 || (!BringsBack(Exec(w, pre + mid[..n]), mid[n], d) && exists k :: LastRemoval(w, pre, mid[..n], d, k))
  {
    hide Exec, Removed, BringsBack;
    var n := |mid| - 1;
    var init := mid[..n];
    assert forall k :: 0 <= k < n ==> init[..k] == mid[..k] && init[k] == mid[k];
    if k :| LastRemoval(w, pre, mid, d, k) { assert k < n ==> LastRemoval(w, pre, init, d, k); }
    if Removed(Exec(w, pre + mid[..n]), mid[n], d) { assert LastRemoval(w, pre, mid, d, n); }
    if !BringsBack(Exec(w, pre + mid[..n]), mid[n], d) {
      if k :| LastRemoval(w, pre, init, d, k) { assert LastRemoval(w, pre, mid, d, k); }
    }
  }

  lemma OthersKeepFound(s: System, step: Step, r: int, l: Local)
    requires LocalOf(s, r) == l && step.request != r
    ensures LocalOf(Next(s, step), r) == l
  {
  }

  /** The write-back of a request that looked a live credential up is a revival exactly when one of the steps
      in between removed the credential and none after that brought it back. */
  lemma {:induction false} RevivalIff(w: bool, pre: seq<Step>, mid: seq<Step>, r: int, d: Digest, refreshing: bool)
    requires LocalOf(Exec(w, pre), r) == Found(d, refreshing) && d in Exec(w, pre).live
    requires forall k :: 0 <= k < |mid| ==> mid[k].request != r
    ensures LocalOf(Exec(w, pre + mid), r) == Found(d, refreshing)
    ensures Has(Exec(w, pre + mid), Step(r, WriteBack), d, Reviving) <==> exists k :: LastRemoval(w, pre, mid, d, k)
    decreases |mid|
  {
    hide Exec, Next, Removed, BringsBack, LastRemoval, LocalOf;
    if mid == [] {
      assert pre + mid == pre;
      NoStepNoRemoval(w, pre, d);
    } else {
      var n := |mid| - 1;
      var init := mid[..n];
      RevivalIff(w, pre, init, r, d, refreshing);
      OthersKeepFound(Exec(w, pre + init), mid[n], r, Found(d, refreshing));
      ExecAppend(w, pre + init, mid[n]);
      assert pre + mid == pre + init + [mid[n]];
      LastRemovalStep(w, pre, mid, d);
      LiveStep(Exec(w, pre + init), mid[n], d);
      NeverBoth(Exec(w, pre + init), mid[n], d);
    }
  }

  lemma NoStepNoRemoval(w: bool, pre: seq<Step>, d: Digest)
    ensures !exists k :: LastRemoval(w, pre, [], d, k)
  {
  }

  lemma NeverBoth(s: System, step: Step, d: Digest)
    ensures !(Removed(s, step, d) && BringsBack(s, step, d))
  {
  }

  /** A revival does happen: a refresh that looked the token up before another refresh replaced it writes it
      back, and is granted as well, so one token turns into two. */
  lemma RefreshedTwice(s: System, d: Digest, m: Digest, n: Digest)
    requires LocalOf(s, 0).Idle? && LocalOf(s, 1).Idle? && d in s.live && d in s.handed && m != d && n != d
    ensures var both := Next(Next(s, Step(0, Find(d, true))), Step(1, Find(d, true)));
            var one := Next(Next(Next(both, Step(1, WriteBack)), Step(1, Draw(m))), Step(1, DropOld));
            var two := Next(Next(Next(one, Step(0, WriteBack)), Step(0, Draw(n))), Step(0, DropOld));
            two.live == s.live - {d} + {m, n} && two.handed == s.handed + {m, n}
  {
    var both := Next(Next(s, Step(0, Find(d, true))), Step(1, Find(d, true)));
    assert LocalOf(both, 0) == LocalOf(both, 1) == Found(d, true);
    var one := Next(Next(Next(both, Step(1, WriteBack)), Step(1, Draw(m))), Step(1, DropOld));
    assert one.live == s.live - {d} + {m} && one.handed == s.handed + {m} && LocalOf(one, 0) == Found(d, true);
  }

  /** A revival also undoes a logout: a resolve that looked the credential up before leaves it live. */
  lemma LogoutUndone(s: System, d: Digest)
    requires s.writesBack && LocalOf(s, 0).Idle? && LocalOf(s, 1).Idle? && d in s.live && d in s.handed
    ensures Next(Next(Next(s, Step(0, Find(d, false))), Step(1, Logout(d))), Step(0, WriteBack)).live == s.live
  {
    var out := Next(Next(s, Step(0, Find(d, false))), Step(1, Logout(d)));
    assert out.live == s.live - {d} && LocalOf(out, 0) == Found(d, false);
  }

  /** A resolve that nobody interrupts moves the live digests exactly as the atomic one does. */
  lemma UninterruptedResolve(s: System, r: int, hash: Tokens.Digest, st: Tokens.TokenState, t: TokenOwner, text: string,
                             checkedAt: Tokens.Time, usedAt: Tokens.Time)
    requires s.writesBack && LocalOf(s, r).Idle? && s.live == st.Of(t).Keys && hash(text) in s.handed
    requires ValidateBearerTokenValue(text, t) == None
    ensures var h := hash(text);
            var expired := h in st.Of(t) && st.Of(t)[h].IsExpired(checkedAt);
            var found := Next(s, Step(r, if expired then FindExpired(h) else Find(h, false)));
            var done := Next(found, Step(r, if expired then DropExpired else WriteBack));
            done.live == Tokens.Resolution(hash, st, t, text, checkedAt, usedAt).0.Of(t).Keys && LocalOf(done, r).Idle?
  {
    hide ValidateBearerTokenValue;
    var h := hash(text);
    if h in st.Of(t) {
      assert LocalOf(Next(s, Step(r, Find(h, false))), r) == Found(h, false);
      assert LocalOf(Next(s, Step(r, FindExpired(h))), r) == Stale(h);
    }
  }

  lemma UninterruptedLogout(s: System, r: int, st: Tokens.TokenState, t: TokenOwner, h: Digest)
    requires LocalOf(s, r).Idle? && s.live == st.Of(t).Keys
    ensures Next(s, Step(r, Logout(h))).live == st.With(t, st.Of(t) - {h}).Of(t).Keys
  {
  }

  /** So does a refresh: resolve, save a token under another digest, delete the old one. */
  lemma UninterruptedRefresh(s: System, r: int, hash: Tokens.Digest, st: Tokens.TokenState, t: TokenOwner, text: string,
                             drawn: string, ttl: int, checkedAt: Tokens.Time, usedAt: Tokens.Time, now: Tokens.Time)
    requires LocalOf(s, r).Idle? && s.live == st.Of(t).Keys && hash(text) in s.handed && hash(drawn) != hash(text)
    requires Tokens.Resolution(hash, st, t, text, checkedAt, usedAt).1.Ok?
    ensures var h := hash(text);
            var (used, resolved) := Tokens.Resolution(hash, st, t, text, checkedAt, usedAt);
            var was := resolved.value;
            var saved := Tokens.Saved(used, Tokens.NewToken(hash, t, was.ownerID, was.name, was.scope, drawn, ttl, now));
            var held := Next(Next(s, Step(r, Find(h, true))), Step(r, WriteBack));
            Next(Next(held, Step(r, Draw(hash(drawn)))), Step(r, DropOld)).live
            == saved.With(t, saved.Of(t) - {h}).Of(t).Keys
  {
    hide ValidateBearerTokenValue;
    assert hash(text) in st.Of(t);
    hide Next, LocalOf;
    RefreshMovesLive(s, r, hash(text), hash(drawn));
  }

  lemma RefreshMovesLive(s: System, r: int, h: Digest, n: Digest)
    requires LocalOf(s, r).Idle? && h in s.live && h in s.handed && n != h
    ensures var held := Next(Next(s, Step(r, Find(h, true))), Step(r, WriteBack));
            Next(Next(held, Step(r, Draw(n))), Step(r, DropOld)).live == s.live + {n} - {h}
  {
    var held := Next(Next(s, Step(r, Find(h, true))), Step(r, WriteBack));
    assert LocalOf(held, r) == Resolved(h) && held.live == s.live && held.handed == s.handed;
    var issued := Next(held, Step(r, Draw(n)));
    assert LocalOf(issued, r) == Issued(h, n) && issued.live == s.live + {n};
  }

  /** A stored session carries its own kind and digest, as every issued one does. */
  predicate Filed(st: Sessions.SessionState, kind: Sessions.SessionKind, h: Digest) {
    h in st.Of(kind) ==> st.Of(kind)[h].kind == kind && st.Of(kind)[h].tokenHash == h
  }

  /** The same for sessions, whether activity extends them or not. */
  lemma UninterruptedSessionResolve(s: System, r: int, c: Sessions.SessionConfig, hash: Sessions.Digest,
                                    st: Sessions.SessionState,
                                    kind: Sessions.SessionKind, token: string, now: Sessions.Time, again: Sessions.Time)
    requires s.writesBack == c.extendOnActivity && LocalOf(s, r).Idle? && s.live == st.Of(kind).Keys && hash(token) in s.handed
    requires !Sessions.Blank(token) && Filed(st, kind, hash(token))
    ensures var h := hash(token);
            var expired := h in st.Of(kind) && st.Of(kind)[h].IsExpired(now);
            var found := Next(s, Step(r, if expired then FindExpired(h) else Find(h, false)));
            var done := Next(found, Step(r, if expired then DropExpired else WriteBack));
            done.live == Sessions.Resolved(c, hash, st, kind, token, now, again).0.Of(kind).Keys && LocalOf(done, r).Idle?
  {
    var h := hash(token);
    if h in st.Of(kind) {
      assert s.writesBack ==> LocalOf(Next(s, Step(r, Find(h, false))), r) == Found(h, false);
      assert LocalOf(Next(s, Step(r, FindExpired(h))), r) == Stale(h);
    }
  }

  lemma UninterruptedSessionLogout(s: System, r: int, hash: Sessions.Digest, st: Sessions.SessionState,
                                   kind: Sessions.SessionKind, token: string)
    requires LocalOf(s, r).Idle? && s.live == st.Of(kind).Keys && !Sessions.Blank(token)
    ensures Next(s, Step(r, Logout(hash(token)))).live == Sessions.LoggedOut(hash, st, kind, token).0.Of(kind).Keys
  {
  }
}
