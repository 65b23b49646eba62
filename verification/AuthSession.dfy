/**
 The auth store and the two interceptors in their own form: actions that assign the store's
 fields and flags that are set on a request's config.  Every method is one step of AuthRefresh.
 */
module AuthSession {
  import opened Basics
  import opened AuthRefresh

  class Client {
    var status: Status
    var hydrated: bool
    var context: bool
    var signingIn: nat
    var refreshInFlight: Option<nat>
    var posting: set<nat>
    var outcomes: map<nat, Answer>
    var starters: seq<nat>
    var requests: seq<Request>

    function Snapshot(): Session
      reads this
    {
      Session(status, hydrated, context, signingIn, refreshInFlight, posting, outcomes, starters, requests)
    }

    ghost predicate Valid()
      reads this
    {
      Inv(Snapshot())
    }

    constructor ()
      ensures Valid() && Snapshot() == INIT
    {
      status, hydrated, context, signingIn, refreshInFlight := Anonymous, false, false, 0, None;
      posting, outcomes, starters, requests := {}, map[], [], [];
    }

    /** `initFromStorage`: a session starts signed out, once. */
    method InitFromStorage()
      requires Valid()
      modifies this`status, this`hydrated
      ensures Valid() && Snapshot() == Apply(old(Snapshot()), Event.InitFromStorage)
      ensures hydrated && status == if old(hydrated) then old(status) else Anonymous
    {
      StepKeeps(Snapshot(), Event.InitFromStorage);
      if hydrated {
        return;
      }
      status := Anonymous;
      hydrated := true;
    }

    /** `login` and `verifyTwoFactor` up to their `await`. */
    method SignIn()
      requires Valid()
      modifies this`signingIn
      ensures Valid() && Snapshot() == Apply(old(Snapshot()), Event.SignIn)
      ensures signingIn == old(signingIn) + 1
    {
      StepKeeps(Snapshot(), Event.SignIn);
      signingIn := signingIn + 1;
    }

    /** The rest of them: an answer is taken whatever happened to the session meanwhile. */
    method AfterSignIn(reply: SignInAnswer)
      requires Valid() && signingIn > 0
      modifies this`signingIn, this`status
      ensures Valid() && Snapshot() == Apply(old(Snapshot()), SignedIn(reply))
      ensures reply.Accepted? ==> status == Authenticated
      ensures reply.SecondFactor? ==> status == TwoFactor
      ensures reply.Refused? ==> status == old(status)
    {
      StepKeeps(Snapshot(), SignedIn(reply));
      signingIn := signingIn - 1;
      match reply
      case Accepted => status := Authenticated;
      case SecondFactor => status := TwoFactor;
      case Refused =>
    }

    /** `hardClearLocal`: the lock stays as it is. */
    method HardClearLocal()
      requires Valid()
      modifies this`status, this`context
      ensures Valid() && Snapshot() == Apply(old(Snapshot()), HardClear)
    {
      StepKeeps(Snapshot(), HardClear);
      status := Anonymous;
      context := false;
    }

    /** The synchronous part of `refresh`: at most one POST is ever under way. */
    method Refresh(r: nat) returns (flight: nat)
      requires Valid()
      modifies this`status, this`refreshInFlight, this`posting, this`starters
      ensures (Snapshot(), flight) == AuthRefresh.Refresh(old(Snapshot()), r)
      ensures refreshInFlight == Some(flight) && posting == {flight}
      ensures old(refreshInFlight).Some? ==> starters == old(starters)
    {
      if refreshInFlight.Some? {
        return refreshInFlight.value;
      }
      flight := |starters|;
      status := Refreshing;
      refreshInFlight := Some(flight);
      posting := posting + {flight};
      starters := starters + [r];
    }

    /** The end of the refresh: `try` sets the status, `finally` releases the lock. */
    method SettleRefresh(flight: nat, answer: Answer)
      requires Valid() && flight in posting
      modifies this`status, this`refreshInFlight, this`posting, this`outcomes
      ensures Valid() && Snapshot() == Apply(old(Snapshot()), Settle(flight, answer))
      ensures refreshInFlight == None && posting == {}
    {
      StepKeeps(Snapshot(), Settle(flight, answer));
      if answer.Success? {
        status := Authenticated;
      }
      refreshInFlight := None;
      posting := posting - {flight};
      outcomes := outcomes[flight := answer];
    }

    /** The request interceptor and the send: a path that is exempt from refreshing is flagged, a
        request that lacks its context is rejected unsent, any other is sent once more. */
    method Send(q: Request) returns (sent: Request)
      requires Valid()
      modifies this`status, this`hydrated
      ensures hydrated && status == if old(hydrated) then old(status) else Anonymous
      ensures sent == q.(skip := sent.skip, phase := sent.phase, sends := sent.sends)
      ensures sent.skip <==> q.skip || IsRefreshExempt(q.path)
      ensures !IsContextExempt(q.path) && !context ==> sent.phase == Phase.Rejected(0) && sent.sends == q.sends
      ensures IsContextExempt(q.path) || context ==> sent.phase == Sent && sent.sends == q.sends + 1
    {
      hide IsRefreshExempt, IsContextExempt;
      InitFromStorage();
      sent := q;
      if IsRefreshExempt(sent.path) {
        sent := sent.(skip := true);
      }
      if !IsContextExempt(sent.path) {
        if !context {
          return sent.(phase := Phase.Rejected(0));
        }
      }
      sent := sent.(phase := Sent, sends := sent.sends + 1);
    }

    /** A request by any caller of `api`, or by `fetchMe` or `loadSession`: sent once, unless it
        lacks its context. */
    method IssueRequest(path: string, after: Then)
      requires Valid() && Follows(path, after)
      modifies this`status, this`hydrated, this`requests
      ensures Valid() && Snapshot() == Apply(old(Snapshot()), Issue(path, after))
      ensures |requests| == |old(requests)| + 1 && requests[..|old(requests)|] == old(requests)
      ensures var q := requests[|requests| - 1];
        && q.path == path && q.after == after && !q.retry && q.joined == None
        && (q.skip <==> IsRefreshExempt(path))
        && (if IsContextExempt(path) || context then q.phase == Sent && q.sends == 1
            else q.phase == Phase.Rejected(0) && q.sends == 0)
    {
      hide IsRefreshExempt, IsContextExempt, Inv;
      StepKeeps(Snapshot(), Issue(path, after));
      var q := Send(Request(path, Sent, false, false, after, 0, None));
      requests := requests + [q];
    }

    /** The response interceptors, up to the first `await`: only a first 401 on a path that is not
        exempt waits, and then for the flight that holds the lock. */
    method OnResponse(r: nat, answer: Answer)
      requires Valid() && r < |requests| && requests[r].phase == Sent
      modifies this
      ensures Valid() && Snapshot() == Apply(old(Snapshot()), Respond(r, answer))
      ensures |requests| == |old(requests)| && forall i :: 0 <= i < |requests| && i != r ==> requests[i] == old(requests)[i]
      ensures requests[r].phase.Resolved? <==> answer == Success
      ensures requests[r].phase.Waiting? <==>
        var q := old(requests)[r];
        answer == HttpError(401) && !q.retry && !q.skip && !IsRefreshExempt(q.path)
      ensures requests[r].phase.Rejected? ==> requests[r].phase.code == if answer.HttpError? then answer.status else 0
      ensures requests[r].phase.Waiting? ==> requests[r].retry && refreshInFlight == Some(requests[r].phase.flight)
      ensures !requests[r].phase.Waiting? ==> unchanged(`status, `refreshInFlight, `posting, `starters)
    {
      hide IsRefreshExempt, Inv;
      StepKeeps(Snapshot(), Respond(r, answer));
      var original := requests[r];
      if answer.Success? {
        requests := requests[r := original.(phase := Resolved)];
        return;
      }
      if answer.NoConfig? {
        requests := requests[r := original.(phase := Phase.Rejected(ErrorCode(answer)))];
        return;
      }
      if answer.status == 401 && IsRefreshExempt(original.path) {
        requests := requests[r := original.(phase := Phase.Rejected(ErrorCode(answer)))];
        return;
      }
      if answer.status == 401 && !original.retry && !original.skip {
        var flight := Refresh(r);
        requests := requests[r := original.(retry := true, phase := Waiting(flight), joined := Some(flight))];
        return;
      }
      requests := requests[r := original.(phase := Phase.Rejected(ErrorCode(answer)))];
    }

    /** After the `await`: send again, or clear the session and reject. */
    method AfterRefresh(r: nat)
      requires Valid() && r < |requests| && requests[r].phase.Waiting? && requests[r].phase.flight in outcomes
      modifies this
      ensures Valid() && Snapshot() == Apply(old(Snapshot()), Resume(r))
      ensures var q, answer := old(requests)[r], outcomes[old(requests)[r].phase.flight];
        && |requests| == |old(requests)|
        && (answer.Success? && (IsContextExempt(q.path) || context) ==> requests[r].phase == Sent && requests[r].sends == 2)
        && (answer.Success? && !IsContextExempt(q.path) && !context ==>
              requests[r].phase == Phase.Rejected(0) && requests[r].sends == 1)
        && (!answer.Success? ==>
              && status == Anonymous && !context
              && requests[r].phase == Phase.Rejected(if answer.HttpError? then answer.status else 0)
              && requests[r].sends == 1)
      ensures unchanged(`refreshInFlight, `posting, `outcomes, `starters)
    {
      hide IsRefreshExempt, IsContextExempt, Inv;
      StepKeeps(Snapshot(), Resume(r));
      var original := requests[r];
      WaitingSentOnce(Snapshot(), r);
      var answer := outcomes[original.phase.flight];
      if answer.Success? {
        var again := Send(original);
        requests := requests[r := again];
      } else {
        HardClearLocal();
        requests := requests[r := original.(phase := Phase.Rejected(ErrorCode(answer)))];
      }
    }

    /** The rest of `fetchMe`: authenticated after a success, cleared after a 401 or 403. */
    method AfterMe(r: nat)
      requires Valid() && r < |requests| && HasSettled(requests[r]) && requests[r].after.FetchMe?
      modifies this
      ensures Valid() && Snapshot() == Apply(old(Snapshot()), Continue(r))
      ensures var q := old(requests)[r];
        && (q.phase.Resolved? ==> status == Authenticated)
        && (q.phase.Rejected? ==> status == if q.phase.code in {401, 403} then Anonymous else old(status))
        && requests == old(requests)[r := q.(after := if q.after.ensuring then EnsureSession else Nothing)]
    {
      hide Inv;
      StepKeeps(Snapshot(), Continue(r));
      var me := requests[r];
      if me.phase.Resolved? {
        status := Authenticated;
      } else if me.phase.code in {401, 403} {
        HardClearLocal();
      }
      requests := requests[r := me.(after := NextThen(me.after))];
    }

    /** The rest of `ensureSession`: its `try` and its `catch`. */
    method AfterEnsure(r: nat)
      requires Valid() && r < |requests| && HasSettled(requests[r]) && requests[r].after.EnsureSession?
      modifies this
      ensures Valid() && Snapshot() == Apply(old(Snapshot()), Continue(r))
      ensures status == if requests[r].phase == Resolved then Authenticated else Anonymous
      ensures requests == old(requests)[r := old(requests)[r].(after := Nothing)]
    {
      hide Inv;
      StepKeeps(Snapshot(), Continue(r));
      var me := requests[r];
      status := if me.phase.Resolved? then Authenticated else Anonymous;
      requests := requests[r := me.(after := Nothing)];
    }

    /** The rest of `loadSession`, with the router guard's `catch` if that called it: authenticated
        after a success, signed out when the guard is denied. */
    method AfterSession(r: nat)
      requires Valid() && r < |requests| && HasSettled(requests[r]) && requests[r].after.LoadSession?
      modifies this
      ensures Valid() && Snapshot() == Apply(old(Snapshot()), Continue(r))
      ensures var q := old(requests)[r];
        && (q.phase.Resolved? ==> status == Authenticated)
        && (q.phase.Rejected? ==>
              status == if q.after.guarded && q.phase.code in {401, 403} then Anonymous else old(status))
        && requests == old(requests)[r := q.(after := Nothing)]
    {
      hide Inv;
      StepKeeps(Snapshot(), Continue(r));
      var loading := requests[r];
      if loading.phase.Resolved? {
        status := Authenticated;
      } else if loading.after.guarded && loading.phase.code in {401, 403} {
        HardClearLocal();
      }
      requests := requests[r := loading.(after := Nothing)];
    }
  }
}
