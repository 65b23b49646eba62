/** When a logout sticks: what is under way can make the session authenticated again. */
module AuthLogout {
  import opened Basics
  import opened AuthRefresh

  /** No login and no request begins: only what is under way settles. */
  predicate Passive(es: seq<Event>) {
    forall e :: e in es ==> !e.Issue? && !e.SignIn?
  }

  /** The request may still start a refresh, or the rest of `fetchMe`, `ensureSession` or
      `loadSession` is to run on a request that has not failed. */
  predicate CanRevive(s: Session, q: Request) {
    || (q.phase == Sent && !q.retry && !IsRefreshExempt(q.path))
    || (q.after.FetchMe? && (q.phase == Sent || q.phase == Resolved || WaitsForSuccess(s, q)))
    || (q.after.EnsureSession? && q.phase == Resolved)
    || (q.after.LoadSession? && (q.phase == Sent || q.phase == Resolved))
  }

  predicate WaitsForSuccess(s: Session, q: Request) {
    q.phase.Waiting? && q.phase.flight in s.outcomes && s.outcomes[q.phase.flight].Success?
  }

  /** What is under way can make the session authenticated again. */
  predicate Revivable(s: Session) {
    s.lock.Some? || s.signingIn > 0 || exists r :: 0 <= r < |s.requests| && CanRevive(s, s.requests[r])
  }

  /** Signed out, with nothing under way that could change that. */
  ghost predicate SignedOut(s: Session) {
    Inv(s) && s.status != Authenticated && !Revivable(s)
  }

  lemma {:induction false} RespondStaysOut(s: Session, r: nat, answer: Answer)
    requires SignedOut(s) && Enabled(s, Respond(r, answer))
    ensures SignedOut(Apply(s, Respond(r, answer)))
  {
    hide IsRefreshExempt, IsContextExempt;
    RespondKeeps(s, r, answer);
    assert RequestOk(s, s.requests[r]) && !CanRevive(s, s.requests[r]);
    OthersStayDead(s, Apply(s, Respond(r, answer)), r);
  }

  lemma {:induction false} ResumeStaysOut(s: Session, r: nat)
    requires SignedOut(s) && Enabled(s, Resume(r))
    ensures SignedOut(Apply(s, Resume(r)))
  {
    hide IsRefreshExempt, IsContextExempt;
    SessionPathIsExempt();
    ResumeKeeps(s, r);
    assert RequestOk(s, s.requests[r]) && !CanRevive(s, s.requests[r]);
    OthersStayDead(s, Apply(s, Resume(r)), r);
  }

  lemma {:induction false} ContinueStaysOut(s: Session, r: nat)
    requires SignedOut(s) && Enabled(s, Continue(r))
    ensures SignedOut(Apply(s, Continue(r)))
  {
    hide IsRefreshExempt, IsContextExempt;
    ContinueKeeps(s, r);
    assert RequestOk(s, s.requests[r]) && !CanRevive(s, s.requests[r]);
    OthersStayDead(s, Apply(s, Continue(r)), r);
  }

  /** A step on one request leaves the others unable to revive the session. */
  lemma {:induction false} OthersStayDead(s: Session, s': Session, r: nat)
    requires !Revivable(s) && r < |s.requests| == |s'.requests| && s'.outcomes == s.outcomes && s'.lock == None
    requires s'.signingIn == s.signingIn
    requires forall i :: 0 <= i < |s.requests| && i != r ==> s'.requests[i] == s.requests[i]
    requires !CanRevive(s', s'.requests[r])
    ensures !Revivable(s')
  {
    hide IsRefreshExempt;
    forall i | 0 <= i < |s'.requests|
      ensures !CanRevive(s', s'.requests[i])
    {
      if i != r {
        assert !CanRevive(s, s.requests[i]);
      }
    }
  }

  lemma {:induction false} StepStaysOut(s: Session, e: Event)
    requires SignedOut(s) && Enabled(s, e) && !e.Issue? && !e.SignIn?
    ensures SignedOut(Apply(s, e))
  {
    hide IsRefreshExempt, IsContextExempt;
    match e
    case Respond(r, answer) => RespondStaysOut(s, r, answer);
    case Resume(r) => ResumeStaysOut(s, r);
    case Continue(r) => ContinueStaysOut(s, r);
    case Settle(_, _) => assert false;
    case Issue(_, _) => assert false;
    case SignIn => assert false;
    case SignedIn(_) => assert false;
    case _ =>
      StepKeeps(s, e);
      SameRequestsStayDead(s, Apply(s, e));
  }

  lemma {:induction false} SameRequestsStayDead(s: Session, s': Session)
    requires !Revivable(s) && s'.requests == s.requests && s'.outcomes == s.outcomes && s'.lock == s.lock
    requires s'.signingIn == s.signingIn
    ensures !Revivable(s')
  {
    hide CanRevive;
    forall i | 0 <= i < |s'.requests|
      ensures !CanRevive(s', s'.requests[i])
    {
      SameAbility(s, s', s.requests[i]);
    }
  }

  lemma {:induction false} SameAbility(s: Session, s': Session, q: Request)
    requires s'.outcomes == s.outcomes
    ensures CanRevive(s', q) == CanRevive(s, q)
  {
  }

  lemma {:induction false} RunStaysOut(s: Session, es: seq<Event>)
    requires SignedOut(s) && Legal(s, es) && Passive(es)
    ensures Exec(s, es).status != Authenticated
    decreases es
  {
    if es != [] {
      assert es[0] in es;
      StepStaysOut(s, es[0]);
      RunStaysOut(Apply(s, es[0]), es[1..]);
    }
  }

  // ---------------------------------------------------------------- bringing a session back

  lemma {:induction false} NoEvents(s: Session)
    ensures Legal(s, []) && Exec(s, []) == s
  {
  }

  lemma {:induction false} Prepend(s: Session, e: Event, es: seq<Event>)
    requires Enabled(s, e) && Legal(Apply(s, e), es)
    ensures Legal(s, [e] + es) && Exec(s, [e] + es) == Exec(Apply(s, e), es)
  {
    assert ([e] + es)[1..] == es;
  }

  lemma {:induction false} MeNeedsNoContext()
    ensures IsContextExempt(ME_PATH)
  {
    assert CONTEXT_EXEMPT[3] <= ME_PATH;
  }

  lemma {:induction false} SessionPathIsExempt()
    ensures IsRefreshExempt(SESSION_PATH) && IsContextExempt(SESSION_PATH)
  {
    assert REFRESH_EXEMPT[3] <= SESSION_PATH;
    assert CONTEXT_EXEMPT[5] <= SESSION_PATH;
  }

  /** A login under way is accepted. */
  lemma {:induction false} ReviveBySignIn(s: Session) returns (es: seq<Event>)
    requires s.signingIn > 0
    ensures Legal(s, es) && Passive(es) && Exec(s, es).status == Authenticated
  {
    es := [SignedIn(Accepted)] + [];
    NoEvents(Apply(s, SignedIn(Accepted)));
    Prepend(s, SignedIn(Accepted), []);
  }

  /** A settled flight, if there is one under way. */
  lemma {:induction false} ReviveByFlight(s: Session) returns (es: seq<Event>)
    requires Inv(s) && s.lock.Some?
    ensures Legal(s, es) && Passive(es) && Exec(s, es).status == Authenticated
  {
    var e := Settle(s.lock.value, Success);
    es := [e] + [];
    NoEvents(Apply(s, e));
    Prepend(s, e, []);
  }

  /** The rest of `fetchMe`, `ensureSession` or `loadSession` after a success. */
  lemma {:induction false} ReviveByContinue(s: Session, r: nat) returns (es: seq<Event>)
    requires r < |s.requests| && s.requests[r].phase == Resolved && s.requests[r].after != Nothing
    ensures Legal(s, es) && Passive(es) && Exec(s, es).status == Authenticated
  {
    es := [Continue(r)] + [];
    NoEvents(Apply(s, Continue(r)));
    Prepend(s, Continue(r), []);
  }

  /** A request of `fetchMe` or `loadSession` that is on its way succeeds. */
  lemma {:induction false} ReviveBySuccess(s: Session, r: nat) returns (es: seq<Event>)
    requires r < |s.requests| && s.requests[r].phase == Sent && s.requests[r].after != Nothing
    ensures Legal(s, es) && Passive(es) && Exec(s, es).status == Authenticated
  {
    var e := Respond(r, Success);
    var rest := ReviveByContinue(Apply(s, e), r);
    es := [e] + rest;
    Prepend(s, e, rest);
  }

  /** A request of `fetchMe` whose refresh succeeded is sent again. */
  lemma {:induction false} ReviveByResume(s: Session, r: nat) returns (es: seq<Event>)
    requires Inv(s) && r < |s.requests| && s.requests[r].after.FetchMe? && WaitsForSuccess(s, s.requests[r])
    ensures Legal(s, es) && Passive(es) && Exec(s, es).status == Authenticated
  {
    hide IsContextExempt, IsRefreshExempt;
    assert RequestOk(s, s.requests[r]);
    MeNeedsNoContext();
    var rest := ReviveBySuccess(Apply(s, Resume(r)), r);
    es := [Resume(r)] + rest;
    Prepend(s, Resume(r), rest);
  }

  /** A first 401 starts a refresh, which succeeds. */
  lemma {:induction false} ReviveByRefresh(s: Session, r: nat) returns (es: seq<Event>)
    requires Inv(s) && s.lock == None && r < |s.requests|
    requires s.requests[r].phase == Sent && !s.requests[r].retry && !IsRefreshExempt(s.requests[r].path)
    ensures Legal(s, es) && Passive(es) && Exec(s, es).status == Authenticated
  {
    hide IsRefreshExempt;
    assert RequestOk(s, s.requests[r]);
    var e := Respond(r, HttpError(401));
    RespondKeeps(s, r, HttpError(401));
    var rest := ReviveByFlight(Apply(s, e));
    es := [e] + rest;
    Prepend(s, e, rest);
  }

  lemma {:induction false} Revive(s: Session) returns (es: seq<Event>)
    requires Inv(s) && Revivable(s)
    ensures Legal(s, es) && Passive(es) && Exec(s, es).status == Authenticated
  {
    if s.lock.Some? {
      es := ReviveByFlight(s);
    } else if s.signingIn > 0 {
      es := ReviveBySignIn(s);
    } else {
      var r :| 0 <= r < |s.requests| && CanRevive(s, s.requests[r]);
      var q := s.requests[r];
      if q.phase == Sent && !q.retry && !IsRefreshExempt(q.path) {
        es := ReviveByRefresh(s, r);
      } else if q.phase == Sent {
        es := ReviveBySuccess(s, r);
      } else if q.phase == Resolved {
        es := ReviveByContinue(s, r);
      } else {
        es := ReviveByResume(s, r);
      }
    }
  }

  // ---------------------------------------------------------------- main results

  /** A logout sticks, until a login or a request begins, exactly when at that moment no login and
      no refresh is in flight, no request can still start a refresh, and no request of `fetchMe`,
      `ensureSession` or `loadSession` can still succeed. */
  lemma {:induction false} LogoutSticks(before: seq<Event>)
    requires Legal(INIT, before)
    ensures var s := Exec(INIT, before);
      (forall es :: Legal(Apply(s, Logout), es) && Passive(es) ==> Exec(Apply(s, Logout), es).status != Authenticated)
      <==> !Revivable(s)
  {
    RunKeeps(INIT, before);
    var s := Exec(INIT, before);
    var out := Apply(s, Logout);
    StepKeeps(s, Logout);
    if Revivable(s) {
      assert Revivable(out) by {
        if !Revivable(out) {
          SameRequestsStayDead(out, s);
        }
      }
      var es := Revive(out);
    } else {
      SameRequestsStayDead(s, out);
      forall es | Legal(out, es) && Passive(es)
        ensures Exec(out, es).status != Authenticated
      {
        RunStaysOut(out, es);
      }
    }
  }

  /** There are three ways to become authenticated: a login or second factor that is accepted, a
      refresh that succeeds, and the rest of `fetchMe`, `ensureSession` or `loadSession` after its
      request succeeded. */
  lemma {:induction false} AuthenticatedHasACause(s: Session, e: Event)
    requires Enabled(s, e) && s.status != Authenticated && Apply(s, e).status == Authenticated
    ensures e == SignedIn(Accepted) || (e.Settle? && e.answer.Success?)
         || (e.Continue? && s.requests[e.r].phase == Resolved && !s.requests[e.r].after.Nothing?)
  {
  }

  /** The run that one request makes. */
  lemma {:induction false} SentFirst(path: string, after: Then) returns (before: seq<Event>)
    requires Follows(path, after) && IsContextExempt(path)
    ensures Legal(INIT, before) && Exec(INIT, before).starters == [] && |Exec(INIT, before).requests| == 1
    ensures Exec(INIT, before).requests[0].phase == Sent && Exec(INIT, before).requests[0].after == after
  {
    hide IsContextExempt, IsRefreshExempt;
    var e := Issue(path, after);
    before := [e] + [];
    NoEvents(Apply(INIT, e));
    Prepend(INIT, e, []);
  }

  /** A logout while `fetchMe`, or the `loadSession` of a navigation, waits for its answer is
      undone, with no refresh at all. */
  lemma {:induction false} LogoutCanBeOverruled(loading: bool) returns (before: seq<Event>, es: seq<Event>)
    ensures Legal(INIT, before) && Exec(INIT, before).starters == []
    ensures |Exec(INIT, before).requests| == 1
    ensures Exec(INIT, before).requests[0].after == if loading then LoadSession(true) else FetchMe(false)
    ensures var out := Apply(Exec(INIT, before), Logout);
      Legal(out, es) && Passive(es) && Exec(out, es).status == Authenticated
  {
    hide IsContextExempt, IsRefreshExempt;
    MeNeedsNoContext();
    SessionPathIsExempt();
    before := SentFirst(if loading then SESSION_PATH else ME_PATH, if loading then LoadSession(true) else FetchMe(false));
    es := ReviveBySuccess(Apply(Exec(INIT, before), Logout), 0);
  }
}
