/**
 The shared token refresh: the response interceptor of `api` (frontend/src/boot/axios.ts)
 together with the lock of the auth store (frontend/src/stores/auth.store.ts), as a state
 machine over the points where a promise settles.  `authApi` has no interceptors, so the
 refresh call itself is one POST that settles, and so are a login and a second factor.
 `fetchMe`, `ensureSession` and `loadSession` are requests with code of the stores that runs
 after they settle.  No other code assigns the status.
 */
module AuthRefresh {
  import opened Basics
  import opened StableSort

  // ---------------------------------------------------------------- paths

  const ME_PATH: string := "/auth/me/"

  const SESSION_PATH: string := "/auth/bootstrap/session/"

  const REFRESH_EXEMPT: seq<string> :=
    ["/auth/login/", "/auth/refresh/", "/auth/logout/", "/auth/bootstrap/", "/sync/enroll/", "/sync/batch/"]

  const CONTEXT_EXEMPT: seq<string> :=
    ["/auth/login/", "/auth/refresh/", "/auth/logout/", "/auth/me/", "/auth/me/acl/", "/auth/bootstrap/",
     "/auth/password/", "/sync/enroll/", "/sync/batch/", "/schema/"]

  predicate HasPrefixIn(path: string, prefixes: seq<string>) {
    exists i :: 0 <= i < |prefixes| && prefixes[i] <= path
  }

  predicate IsRefreshExempt(path: string) {
    HasPrefixIn(path, REFRESH_EXEMPT)
  }

  predicate IsContextExempt(path: string) {
    HasPrefixIn(path, CONTEXT_EXEMPT)
  }

  lemma {:induction false} Prefixes(path: string)
    ensures ME_PATH == "/auth/me/" && SESSION_PATH == "/auth/bootstrap/session/"
    ensures IsRefreshExempt(path) <==>
      || "/auth/login/" <= path || "/auth/refresh/" <= path || "/auth/logout/" <= path || "/auth/bootstrap/" <= path
      || "/sync/enroll/" <= path || "/sync/batch/" <= path
    ensures IsContextExempt(path) <==>
      || "/auth/login/" <= path || "/auth/refresh/" <= path || "/auth/logout/" <= path || "/auth/bootstrap/" <= path
      || "/auth/me/" <= path || "/auth/me/acl/" <= path || "/auth/password/" <= path
      || "/sync/enroll/" <= path || "/sync/batch/" <= path || "/schema/" <= path
  {
    RefreshPrefix(path);
    ContextPrefix(path);
  }

  lemma {:induction false} RefreshPrefix(path: string)
    ensures IsRefreshExempt(path) <==>
      || REFRESH_EXEMPT[0] <= path || REFRESH_EXEMPT[1] <= path || REFRESH_EXEMPT[2] <= path
      || REFRESH_EXEMPT[3] <= path || REFRESH_EXEMPT[4] <= path || REFRESH_EXEMPT[5] <= path
  {
  }

  lemma {:induction false} ContextPrefix(path: string)
    ensures IsContextExempt(path) <==>
      || CONTEXT_EXEMPT[0] <= path || CONTEXT_EXEMPT[1] <= path || CONTEXT_EXEMPT[2] <= path
      || CONTEXT_EXEMPT[3] <= path || CONTEXT_EXEMPT[4] <= path || CONTEXT_EXEMPT[5] <= path
      || CONTEXT_EXEMPT[6] <= path || CONTEXT_EXEMPT[7] <= path || CONTEXT_EXEMPT[8] <= path || CONTEXT_EXEMPT[9] <= path
  {
  }

  // ---------------------------------------------------------------- state

  datatype Status = Anonymous | Authenticated | Refreshing | TwoFactor

  /** Where a request stands.  `Waiting(f)` awaits the promise of flight `f`; `code` is the HTTP
      status of the error it was rejected with, or 0. */
  datatype Phase = Sent | Waiting(flight: nat) | Resolved | Rejected(code: nat)

  /** What the stores still do once the request has settled: the rest of `fetchMe`, after it the
      rest of `ensureSession` if that called it; or the rest of `loadSession`, for the router guard
      or for a page. */
  datatype Then = Nothing | FetchMe(ensuring: bool) | EnsureSession | LoadSession(guarded: bool)

  /** A request issued through `api`.  `retry` and `skip` are the flags that the interceptors put
      on its config; `sends` and `joined` record what happened to it. */
  datatype Request = Request(
    path: string, phase: Phase, retry: bool, skip: bool, after: Then, sends: nat, joined: Option<nat>)

  /** How the transport settles a request. */
  datatype Answer = Success | HttpError(status: nat) | NoConfig

  /** How the backend answers a login or a second factor. */
  datatype SignInAnswer = Accepted | SecondFactor | Refused

  /** Flight f is the refresh POST that request `starters[f]` started; `signingIn` counts the logins
      and second factors under way; `hydrated` is set by the first request or navigation. */
  datatype Session = Session(
    status: Status,
    hydrated: bool,
    context: bool,
    signingIn: nat,
    lock: Option<nat>,
    posting: set<nat>,
    outcomes: map<nat, Answer>,
    starters: seq<nat>,
    requests: seq<Request>)

  const INIT: Session := Session(Anonymous, false, false, 0, None, {}, map[], [], [])

  datatype Event =
    | Issue(path: string, after: Then)
    | Respond(r: nat, answer: Answer)
    | Settle(flight: nat, answer: Answer)
    | Resume(r: nat)
    | Continue(r: nat)
    | SignIn
    | SignedIn(reply: SignInAnswer)
    | InitFromStorage
    | Logout
    | HardClear
    | SetContext(context: bool)

  predicate HasSettled(q: Request) {
    q.phase.Resolved? || q.phase.Rejected?
  }

  /** Which requests the stores follow up. */
  predicate Follows(path: string, after: Then) {
    match after
    case Nothing => true
    case FetchMe(_) => path == ME_PATH
    case LoadSession(_) => path == SESSION_PATH
    case EnsureSession => false
  }

  /** Any path may be requested without a follow-up. */
  lemma {:induction false} AnyPathMayBeIssued(s: Session, path: string)
    ensures Enabled(s, Issue(path, Nothing))
    ensures Enabled(s, Issue("/auth/me/", FetchMe(true))) && Enabled(s, Issue("/auth/me/", FetchMe(false)))
    ensures Enabled(s, Issue("/auth/bootstrap/session/", LoadSession(true)))
    ensures Enabled(s, Issue("/auth/bootstrap/session/", LoadSession(false)))
  {
  }

  predicate Enabled(s: Session, e: Event) {
    match e
    case Issue(path, after) => Follows(path, after)
    case Respond(r, _) => r < |s.requests| && s.requests[r].phase == Sent
    case Settle(f, _) => f in s.posting
    case Resume(r) => r < |s.requests| && s.requests[r].phase.Waiting? && s.requests[r].phase.flight in s.outcomes
    case Continue(r) => r < |s.requests| && HasSettled(s.requests[r]) && s.requests[r].after != Nothing
    case SignedIn(_) => s.signingIn > 0
    case _ => true
  }

  // ---------------------------------------------------------------- the source's pieces

  /** `hardClearLocal`, as far as the protocol sees it; the lock is not touched. */
  function Cleared(s: Session): Session {
    s.(status := Anonymous, context := false)
  }

  /** `initFromStorage`. */
  function Hydrated(s: Session): Session {
    if s.hydrated then s else s.(status := Anonymous, hydrated := true)
  }

  /** The rest of the request interceptor, followed by the send unless it rejects (missing context). */
  function Dispatch(s: Session, q: Request): Request {
    var flagged := if IsRefreshExempt(q.path) then q.(skip := true) else q;
    if !IsContextExempt(q.path) && !s.context then flagged.(phase := Rejected(0))
    else flagged.(phase := Sent, sends := q.sends + 1)
  }

  /** `refresh()` called for request `r`: join the flight under way or start one. */
  function Refresh(s: Session, r: nat): (Session, nat) {
    match s.lock
    case Some(f) => (s, f)
    case None =>
      var f := |s.starters|;
      (s.(status := Refreshing, lock := Some(f), posting := s.posting + {f}, starters := s.starters + [r]), f)
  }

  function ErrorCode(answer: Answer): nat {
    if answer.HttpError? then answer.status else 0
  }

  /** The rejected-response interceptor. */
  function OnError(s: Session, r: nat, answer: Answer): Session
    requires r < |s.requests|
  {
    var q := s.requests[r];
    if answer.HttpError? && answer.status == 401 && !IsRefreshExempt(q.path) && !q.retry && !q.skip then
      var (s', f) := Refresh(s, r);
      s'.(requests := s.requests[r := q.(retry := true, phase := Waiting(f), joined := Some(f))])
    else
      s.(requests := s.requests[r := q.(phase := Rejected(ErrorCode(answer)))])
  }

  /** Cleared after a 401 or a 403. */
  function ClearedIfDenied(s: Session, q: Request): Session {
    if q.phase.Rejected? && q.phase.code in {401, 403} then Cleared(s) else s
  }

  /** The stores' code after the `await` of a settled request; the router guard clears the session
      when its `loadSession` is denied. */
  function Continued(s: Session, q: Request): Session {
    match q.after
    case FetchMe(_) => if q.phase.Resolved? then s.(status := Authenticated) else ClearedIfDenied(s, q)
    case LoadSession(guarded) =>
      if q.phase.Resolved? then s.(status := Authenticated) else if guarded then ClearedIfDenied(s, q) else s
    case EnsureSession => s.(status := if q.phase.Resolved? then Authenticated else Anonymous)
    case Nothing => s
  }

  function NextThen(after: Then): Then {
    if after.FetchMe? && after.ensuring then EnsureSession else Nothing
  }

  function Apply(s: Session, e: Event): Session
    requires Enabled(s, e)
  {
    match e
    case Issue(path, after) =>
      Hydrated(s).(requests := s.requests + [Dispatch(s, Request(path, Sent, false, false, after, 0, None))])
    case Respond(r, answer) =>
      if answer.Success? then s.(requests := s.requests[r := s.requests[r].(phase := Resolved)])
      else OnError(s, r, answer)
    case Settle(f, answer) =>
      s.(status := if answer.Success? then Authenticated else s.status,
         lock := None, posting := s.posting - {f}, outcomes := s.outcomes[f := answer])
    case Resume(r) =>
      var q := s.requests[r];
      var answer := s.outcomes[q.phase.flight];
      if answer.Success? then Hydrated(s).(requests := s.requests[r := Dispatch(s, q)])
      else Cleared(s).(requests := s.requests[r := q.(phase := Rejected(ErrorCode(answer)))])
    case Continue(r) =>
      var q := s.requests[r];
      Continued(s, q).(requests := s.requests[r := q.(after := NextThen(q.after))])
    case Logout => Cleared(s)
    case HardClear => Cleared(s)
    case SignIn => s.(signingIn := s.signingIn + 1)
    case SignedIn(reply) =>
      s.(signingIn := s.signingIn - 1,
         status := match reply case Accepted => Authenticated case SecondFactor => TwoFactor case Refused => s.status)
    case InitFromStorage => Hydrated(s)
    case SetContext(context) => s.(context := context)
  }

  predicate Legal(s: Session, es: seq<Event>)
    decreases es
  {
    es == [] || (Enabled(s, es[0]) && Legal(Apply(s, es[0]), es[1..]))
  }

  function Exec(s: Session, es: seq<Event>): Session
    requires Legal(s, es)
    decreases es
  {
    if es == [] then s else Exec(Apply(s, es[0]), es[1..])
  }

  // ---------------------------------------------------------------- the invariant

  /** At most one refresh POST is under way, and the lock is held exactly while it is. */
  ghost predicate LockOk(s: Session) {
    s.posting == if s.lock.Some? then {s.lock.value} else {}
  }

  /** Every flight is either under way or settled. */
  ghost predicate FlightsOk(s: Session) {
    && (forall f :: f in s.posting ==> f < |s.starters| && f !in s.outcomes)
    && (forall f :: f in s.outcomes ==> f < |s.starters|)
    && (forall f :: 0 <= f < |s.starters| ==> f in s.posting || f in s.outcomes)
  }

  /** A request was started by at most one flight each, and joined the flight it started. */
  ghost predicate StartersOk(s: Session) {
    forall f :: 0 <= f < |s.starters| ==> s.starters[f] < |s.requests| && s.requests[s.starters[f]].joined == Some(f)
  }

  ghost predicate RequestOk(s: Session, q: Request) {
    && (q.phase.Waiting? ==> q.joined == Some(q.phase.flight) && q.sends == 1)
    && (q.joined.Some? <==> q.retry)
    && (q.joined.Some? ==> q.joined.value < |s.starters| && !IsRefreshExempt(q.path))
    && (q.sends == 2 ==> q.joined.Some? && q.joined.value in s.outcomes && s.outcomes[q.joined.value].Success?)
    && q.sends <= 2
    && (q.phase == Sent && !q.retry ==> q.sends == 1)
    && (q.phase == Sent && q.retry ==> q.sends == 2)
    && (q.skip <==> IsRefreshExempt(q.path))
    && (q.after.FetchMe? ==> q.path == ME_PATH)
    && (q.after.LoadSession? ==> q.path == SESSION_PATH)
    && (q.after.EnsureSession? ==> HasSettled(q))
  }

  ghost predicate Inv(s: Session) {
    && LockOk(s) && FlightsOk(s) && StartersOk(s)
    && forall r :: 0 <= r < |s.requests| ==> RequestOk(s, s.requests[r])
  }

  /** A step that settles nothing and starts nothing keeps what is known of a request. */
  lemma {:induction false} StillOk(s: Session, s': Session, q: Request)
    requires RequestOk(s, q) && |s.starters| <= |s'.starters|
    requires forall f :: f in s.outcomes ==> f in s'.outcomes && s'.outcomes[f] == s.outcomes[f]
    ensures RequestOk(s', q)
  {
  }

  /** A step on one request keeps what is known of the others. */
  lemma {:induction false} OthersStillOk(s: Session, s': Session, r: nat)
    requires forall i :: 0 <= i < |s.requests| ==> RequestOk(s, s.requests[i])
    requires r < |s.requests| == |s'.requests| && s'.outcomes == s.outcomes && |s.starters| <= |s'.starters|
    requires forall i :: 0 <= i < |s.requests| && i != r ==> s'.requests[i] == s.requests[i]
    requires RequestOk(s', s'.requests[r])
    ensures forall i :: 0 <= i < |s'.requests| ==> RequestOk(s', s'.requests[i])
  {
    hide RequestOk;
    forall i | 0 <= i < |s'.requests|
      ensures RequestOk(s', s'.requests[i])
    {
      if i != r {
        StillOk(s, s', s.requests[i]);
      }
    }
  }

  /** A step that only changes the status, the context and one request, but not what that joined. */
  lemma {:induction false} OneRequestKeeps(s: Session, s': Session, r: nat, q: Request)
    requires Inv(s) && r < |s.requests| && s'.requests == s.requests[r := q] && q.joined == s.requests[r].joined
    requires s'.lock == s.lock && s'.posting == s.posting && s'.outcomes == s.outcomes && s'.starters == s.starters
    requires RequestOk(s', q)
    ensures Inv(s')
  {
    hide RequestOk;
    OthersStillOk(s, s', r);
  }

  /** A first 401 joins the flight under way or starts one. */
  lemma {:induction false} JoinKeeps(s: Session, r: nat)
    requires Inv(s) && r < |s.requests| && s.requests[r].phase == Sent
    requires !s.requests[r].retry && !s.requests[r].skip && !IsRefreshExempt(s.requests[r].path)
    ensures Inv(OnError(s, r, HttpError(401)))
  {
    hide IsRefreshExempt;
    var s' := OnError(s, r, HttpError(401));
    assert RequestOk(s, s.requests[r]);
    assert RequestOk(s', s'.requests[r]);
    JoinLock(s, r);
    hide RequestOk;
    OthersStillOk(s, s', r);
  }

  lemma {:induction false} JoinLock(s: Session, r: nat)
    requires LockOk(s) && FlightsOk(s) && StartersOk(s) && r < |s.requests| && s.requests[r].joined == None
    requires !s.requests[r].retry && !s.requests[r].skip && !IsRefreshExempt(s.requests[r].path)
    ensures var s' := OnError(s, r, HttpError(401));
      LockOk(s') && FlightsOk(s') && StartersOk(s')
  {
    hide IsRefreshExempt;
  }

  lemma {:induction false} RespondKeeps(s: Session, r: nat, answer: Answer)
    requires Inv(s) && Enabled(s, Respond(r, answer))
    ensures Inv(Apply(s, Respond(r, answer)))
  {
    hide IsRefreshExempt, Inv;
    var q := s.requests[r];
    SettledOk(s, r);
    if answer == HttpError(401) && !q.retry && !q.skip && !IsRefreshExempt(q.path) {
      JoinKeeps(s, r);
    } else {
      var s' := Apply(s, Respond(r, answer));
      OneRequestKeeps(s, s', r, s'.requests[r]);
    }
  }

  /** An answer that ends a request is always in order. */
  lemma {:induction false} SettledOk(s: Session, r: nat)
    requires Inv(s) && r < |s.requests| && s.requests[r].phase == Sent
    ensures forall s': Session, phase: Phase ::
              (phase.Resolved? || phase.Rejected?) && s'.outcomes == s.outcomes && s'.starters == s.starters
              ==> RequestOk(s', s.requests[r].(phase := phase))
  {
    hide IsRefreshExempt;
    assert RequestOk(s, s.requests[r]);
  }

  lemma {:induction false} ResumeKeeps(s: Session, r: nat)
    requires Inv(s) && Enabled(s, Resume(r))
    ensures Inv(Apply(s, Resume(r)))
  {
    hide IsRefreshExempt, IsContextExempt;
    var s' := Apply(s, Resume(r));
    assert RequestOk(s, s.requests[r]);
    assert RequestOk(s', s'.requests[r]);
    hide Inv, RequestOk;
    OneRequestKeeps(s, s', r, s'.requests[r]);
  }

  lemma {:induction false} ContinueKeeps(s: Session, r: nat)
    requires Inv(s) && Enabled(s, Continue(r))
    ensures Inv(Apply(s, Continue(r)))
  {
    hide IsRefreshExempt;
    var q := s.requests[r];
    var q' := q.(after := NextThen(q.after));
    assert RequestOk(s, q);
    assert RequestOk(s, q');
    hide Inv, RequestOk;
    ContinueChanges(s, r);
    SameOk(s, Apply(s, Continue(r)), q');
    OneRequestKeeps(s, Apply(s, Continue(r)), r, q');
  }

  lemma {:induction false} ContinueChanges(s: Session, r: nat)
    requires Enabled(s, Continue(r))
    ensures var s' := Apply(s, Continue(r));
      && s'.requests == s.requests[r := s.requests[r].(after := NextThen(s.requests[r].after))]
      && s'.lock == s.lock && s'.posting == s.posting && s'.outcomes == s.outcomes && s'.starters == s.starters
      && s'.signingIn == s.signingIn
  {
  }

  lemma {:induction false} SameOk(s: Session, s': Session, q: Request)
    requires s'.outcomes == s.outcomes && s'.starters == s.starters && RequestOk(s, q)
    ensures RequestOk(s', q)
  {
  }

  lemma {:induction false} WaitingSentOnce(s: Session, r: nat)
    requires Inv(s) && r < |s.requests| && s.requests[r].phase.Waiting?
    ensures s.requests[r].sends == 1
  {
    assert RequestOk(s, s.requests[r]);
  }

  lemma {:induction false} StepKeeps(s: Session, e: Event)
    requires Inv(s) && Enabled(s, e)
    ensures Inv(Apply(s, e))
  {
    hide IsRefreshExempt, IsContextExempt;
    var s' := Apply(s, e);
    match e
    case Respond(r, answer) => RespondKeeps(s, r, answer);
    case Resume(r) => ResumeKeeps(s, r);
    case Continue(r) => ContinueKeeps(s, r);
    case _ =>
      forall i | 0 <= i < |s'.requests|
        ensures RequestOk(s', s'.requests[i])
      {
        if i < |s.requests| {
          StillOk(s, s', s.requests[i]);
        }
      }
  }

  lemma {:induction false} RunKeeps(s: Session, es: seq<Event>)
    requires Inv(s) && Legal(s, es)
    ensures Inv(Exec(s, es))
    decreases es
  {
    if es != [] {
      StepKeeps(s, es[0]);
      RunKeeps(Apply(s, es[0]), es[1..]);
    }
  }

  // ---------------------------------------------------------------- results for every run

  /** At most one refresh POST is in flight, and `refreshInFlight` is set exactly while it is. */
  lemma {:induction false} OneFlightAtATime(es: seq<Event>)
    requires Legal(INIT, es)
    ensures var s := Exec(INIT, es);
      && |s.posting| <= 1
      && (s.lock.Some? <==> s.posting != {})
      && (s.lock.Some? ==> s.posting == {s.lock.value})
  {
    RunKeeps(INIT, es);
  }

  /** A settled flight keeps its outcome, so all its waiters read the same one. */
  lemma {:induction false} OutcomeIsFinal(s: Session, es: seq<Event>, f: nat)
    requires Inv(s) && Legal(s, es) && f in s.outcomes
    ensures f in Exec(s, es).outcomes && Exec(s, es).outcomes[f] == s.outcomes[f]
    decreases es
  {
    hide Inv, Apply, Enabled;
    if es != [] {
      StepKeeps(s, es[0]);
      OutcomeStays(s, es[0], f);
      OutcomeIsFinal(Apply(s, es[0]), es[1..], f);
    }
  }

  lemma {:induction false} OutcomeStays(s: Session, e: Event, f: nat)
    requires Inv(s) && Enabled(s, e) && f in s.outcomes
    ensures f in Apply(s, e).outcomes && Apply(s, e).outcomes[f] == s.outcomes[f]
  {
    hide IsRefreshExempt, IsContextExempt;
  }

  /** Every request is sent at most twice, a second time only after its own flight succeeded;
      one that joined a failed flight was sent once; exempt paths never join a flight. */
  lemma {:induction false} SentAtMostTwice(es: seq<Event>, r: nat)
    requires Legal(INIT, es) && r < |Exec(INIT, es).requests|
    ensures var s := Exec(INIT, es);
      var q := s.requests[r];
      && q.sends <= 2
      && (q.sends == 2 ==> q.joined.Some? && q.joined.value in s.outcomes && s.outcomes[q.joined.value].Success?)
      && (q.joined.Some? && q.joined.value in s.outcomes && !s.outcomes[q.joined.value].Success? ==> q.sends <= 1)
      && (IsRefreshExempt(q.path) ==> q.joined == None && q.sends <= 1)
  {
    RunKeeps(INIT, es);
    assert RequestOk(Exec(INIT, es), Exec(INIT, es).requests[r]);
  }

  /** Different naturals below n are at most n. */
  lemma {:induction false} Pigeonhole(xs: seq<nat>, n: nat)
    requires forall i :: 0 <= i < |xs| ==> xs[i] < n
    requires forall i, j :: 0 <= i < j < |xs| ==> xs[i] != xs[j]
    ensures |xs| <= n
    decreases n
  {
    assert xs == [] || xs[0] < n;
    if n == 0 {
    } else if k :| 0 <= k < |xs| && xs[k] == n - 1 {
      Pigeonhole(xs[..k] + xs[k + 1..], n - 1);
    } else {
      Pigeonhole(xs, n - 1);
    }
  }

  /** There are no more refresh POSTs than requests. */
  lemma {:induction false} RefreshesAtMostRequests(es: seq<Event>)
    requires Legal(INIT, es)
    ensures |Exec(INIT, es).starters| <= |Exec(INIT, es).requests|
  {
    RunKeeps(INIT, es);
    var s := Exec(INIT, es);
    forall i, j | 0 <= i < j < |s.starters|
      ensures s.starters[i] != s.starters[j]
    {
      assert s.requests[s.starters[i]].joined == Some(i) && s.requests[s.starters[j]].joined == Some(j);
    }
    Pigeonhole(s.starters, |s.requests|);
  }

  /** `/auth/refresh/` sent through `api` never waits for a refresh and never starts one. */
  lemma {:induction false} RefreshPathStartsNone(es: seq<Event>, r: nat)
    requires Legal(INIT, es) && r < |Exec(INIT, es).requests| && "/auth/refresh/" <= Exec(INIT, es).requests[r].path
    ensures var s := Exec(INIT, es);
      s.requests[r].joined == None && s.requests[r].sends <= 1 && r !in s.starters
  {
    assert REFRESH_EXEMPT[1] <= Exec(INIT, es).requests[r].path;
    SentAtMostTwice(es, r);
    RunKeeps(INIT, es);
  }

  // ---------------------------------------------------------------- every run ends

  /** What a request may still do. */
  function Work(q: Request): nat {
    PhaseWork(q) + if q.after.Nothing? then 0 else if q.after.FetchMe? && q.after.ensuring then 2 else 1
  }

  function PhaseWork(q: Request): nat {
    match q.phase
    case Sent => if q.retry then 1 else 4
    case Waiting(_) => 2
    case _ => 0
  }

  function WorkOf(qs: seq<Request>): nat {
    if qs == [] then 0 else Work(qs[0]) + WorkOf(qs[1..])
  }

  function Remaining(s: Session): nat {
    WorkOf(s.requests) + |s.posting| + s.signingIn
  }

  /** What a step may add to it. */
  function StartedWork(e: Event): nat {
    if e.Issue? then 6 else if e.SignIn? then 1 else 0
  }

  predicate IsProtocolStep(e: Event) {
    e.Respond? || e.Settle? || e.Resume? || e.Continue? || e.SignedIn?
  }

  lemma {:induction false} WorkUpdate(qs: seq<Request>, r: nat, q: Request)
    requires r < |qs|
    ensures WorkOf(qs[r := q]) + Work(qs[r]) == WorkOf(qs) + Work(q)
  {
    if r == 0 {
      assert qs[0 := q][1..] == qs[1..];
    } else {
      assert qs[r := q][1..] == qs[1..][r - 1 := q];
      WorkUpdate(qs[1..], r - 1, q);
    }
  }

  lemma {:induction false} WorkAppend(qs: seq<Request>, q: Request)
    ensures WorkOf(qs + [q]) == WorkOf(qs) + Work(q)
  {
    if qs == [] {
      assert qs + [q] == [q];
    } else {
      assert (qs + [q])[1..] == qs[1..] + [q];
      WorkAppend(qs[1..], q);
    }
  }

  /** Each settling promise uses up work; only a new request or login adds some. */
  lemma {:induction false} StepUsesWork(s: Session, e: Event)
    requires Inv(s) && Enabled(s, e)
    ensures IsProtocolStep(e) ==> Remaining(Apply(s, e)) < Remaining(s)
    ensures Remaining(Apply(s, e)) <= Remaining(s) + StartedWork(e)
  {
    match e
    case Issue(path, after) => WorkAppend(s.requests, Dispatch(s, Request(path, Sent, false, false, after, 0, None)));
    case Respond(r, answer) => RespondUsesWork(s, r, answer);
    case Resume(r) => ResumeUsesWork(s, r);
    case Continue(r) => ContinueUsesWork(s, r);
    case _ =>
  }

  lemma {:induction false} RespondUsesWork(s: Session, r: nat, answer: Answer)
    requires Inv(s) && Enabled(s, Respond(r, answer))
    ensures Remaining(Apply(s, Respond(r, answer))) < Remaining(s)
  {
    hide IsRefreshExempt, IsContextExempt, WorkOf, Inv;
    var s' := Apply(s, Respond(r, answer));
    WorkUpdate(s.requests, r, s'.requests[r]);
    assert s'.requests == s.requests[r := s'.requests[r]];
  }

  lemma {:induction false} ResumeUsesWork(s: Session, r: nat)
    requires Inv(s) && Enabled(s, Resume(r))
    ensures Remaining(Apply(s, Resume(r))) < Remaining(s)
  {
    hide IsRefreshExempt, IsContextExempt, WorkOf;
    var s' := Apply(s, Resume(r));
    assert RequestOk(s, s.requests[r]);
    WorkUpdate(s.requests, r, s'.requests[r]);
    assert s'.requests == s.requests[r := s'.requests[r]];
  }

  lemma {:induction false} ContinueUsesWork(s: Session, r: nat)
    requires Enabled(s, Continue(r))
    ensures Remaining(Apply(s, Continue(r))) < Remaining(s)
  {
    hide IsRefreshExempt, IsContextExempt, WorkOf;
    WorkUpdate(s.requests, r, s.requests[r].(after := NextThen(s.requests[r].after)));
  }

  predicate IsSignIn(e: Event) { e.SignIn? }

  lemma {:induction false} RunUsesWork(s: Session, es: seq<Event>)
    requires Inv(s) && Legal(s, es)
    ensures |s.requests| <= |Exec(s, es).requests|
    ensures Remaining(Exec(s, es)) + |Filter(IsProtocolStep, es)|
         <= Remaining(s) + 6 * (|Exec(s, es).requests| - |s.requests|) + |Filter(IsSignIn, es)|
    decreases es
  {
    hide Inv, Enabled, Apply, Remaining, IsProtocolStep;
    if es != [] {
      StepUsesWork(s, es[0]);
      IssuesAreRequests(s, es[0]);
      StepKeeps(s, es[0]);
      RunUsesWork(Apply(s, es[0]), es[1..]);
    }
  }

  lemma {:induction false} IssuesAreRequests(s: Session, e: Event)
    requires Enabled(s, e)
    ensures |Apply(s, e).requests| == |s.requests| + (if e.Issue? then 1 else 0)
  {
    hide IsRefreshExempt, IsContextExempt;
  }

  /** For R requests and L logins at most 6R + L promises settle or continue: no run goes on for ever. */
  lemma {:induction false} RunsEnd(es: seq<Event>)
    requires Legal(INIT, es)
    ensures |Filter((e: Event) => e.Respond? || e.Settle? || e.Resume? || e.Continue? || e.SignedIn?, es)|
         <= 6 * |Exec(INIT, es).requests| + |Filter((e: Event) => e.SignIn?, es)|
  {
    RunUsesWork(INIT, es);
    FilterSame(IsProtocolStep, (e: Event) => e.Respond? || e.Settle? || e.Resume? || e.Continue? || e.SignedIn?, es);
    FilterSame(IsSignIn, (e: Event) => e.SignIn?, es);
  }

  /** As long as a request is not finished, something can still settle or continue. */
  lemma {:induction false} NeverStuck(es: seq<Event>, r: nat) returns (next: Event)
    requires Legal(INIT, es) && r < |Exec(INIT, es).requests|
    requires !HasSettled(Exec(INIT, es).requests[r]) || Exec(INIT, es).requests[r].after != Nothing
    ensures IsProtocolStep(next) && Enabled(Exec(INIT, es), next)
  {
    RunKeeps(INIT, es);
    var s := Exec(INIT, es);
    var q := s.requests[r];
    assert RequestOk(s, q);
    if HasSettled(q) {
      next := Continue(r);
    } else if q.phase == Sent {
      next := Respond(r, Success);
    } else if q.phase.flight in s.outcomes {
      next := Resume(r);
    } else {
      next := Settle(q.phase.flight, Success);
    }
  }
}
