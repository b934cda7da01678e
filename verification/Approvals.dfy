/**
 One approval of app/gateway.py under concurrency.  Each step below is the code a task runs
 between two suspension points; steps of the resolving calls, the timeout, server
 notifications, disconnects and turn completion interleave in any order.
 */
module Approvals {
  import opened Bytes
  import opened JsonValues
  import opened Permissions

  datatype Status = Waiting | Responding | Resolved | Cancelled

  datatype Kind = Command | FileChange | PermissionRequest

  /** The immutable part of an approval. */
  datatype Request = Request(kind: Kind, permissions: Json, available: seq<string>)

  /** What is sent to the app-server. */
  datatype Answer = Decided(decision: string) | Granted(permissions: Json, sessionScope: bool) | GrantedNothing

  /** Where a call of `resolve_approval` is suspended. */
  datatype Call =
    | Queued(decision: string, granted: Option<Json>)  // waiting for the lock
    | Announcing(answer: Answer)                       // status published, response not sent yet
    | Sending(answer: Answer)                          // inside client.respond
    | Failing                                          // the response failed
    | Finishing                                        // the response was sent
    | Cancelling                                       // cancelled: it resumes with CancelledError, which ends it

  datatype Timer = Sleeping | Firing(call: nat) | Stopped

  datatype State = State(
    status: Status,
    holder: Option<nat>,
    calls: map<nat, Call>,
    timer: Timer,
    delivered: seq<Answer>)

  datatype Event =
    | UserCalls(id: nat, decision: string, granted: Option<Json>)
    | TimeoutExpires(id: nat)
    | TakesLock(id: nat)
    | StartsSending(id: nat)
    | SendSucceeds(id: nat)
    | SendFails(id: nat)
    | Returns(id: nat)
    | IsCancelled(id: nat)
    | ServerResolved
    | Disconnected
    | TurnCompleted

  const DECISIONS: set<string> := {"accept", "acceptForSession", "decline", "cancel"}

  /** Python's `value or {}`. */
  function OrEmpty(p: Json): (q: Json) {
    if p in {JNull, JBool(false), JInt(0), JFloat("0.0"), JFloat("-0.0"), JStr(""), JArr([]), JObj(map[])} then JObj(map[]) else p
  }

  /** `_approval_result`: None is the policy error. */
  function AnswerFor(request: Request, decision: string, granted: Option<Json>): (answer: Option<Answer>) {
    if request.kind != PermissionRequest then Some(Decided(decision))
    else if decision in {"decline", "cancel"} then Some(GrantedNothing)
    else
      var chosen := if granted.None? then request.permissions else granted.value;
      if chosen.JObj? && IsSubset(chosen, OrEmpty(request.permissions))
      then Some(Granted(chosen, decision == "acceptForSession"))
      else None
  }

  /** The checks made under the lock, before the status changes. */
  function Checked(request: Request, status: Status, decision: string, granted: Option<Json>): (answer: Option<Answer>) {
    if status != Waiting || decision !in DECISIONS || decision !in request.available then None
    else AnswerFor(request, decision, granted)
  }

  function Init(): (s: State) {
    State(Waiting, None, map[], Sleeping, [])
  }

  /** Cancelling the timeout task, which may itself be the call that resolves the approval. */
  function Cancel(timer: Timer, calls: map<nat, Call>): (calls': map<nat, Call>) {
    if timer.Firing? && timer.call in calls then calls[timer.call := Cancelling] else calls
  }

  /** Resolving from outside: a server notification or the end of the turn, or a disconnect. */
  function Settle(s: State, status: Status): (s': State) {
    if s.status in {Waiting, Responding}
    then s.(status := status, timer := Stopped, calls := Cancel(s.timer, s.calls))
    else s
  }

  /** A call ends; if it is the timeout's, that task ends with it. */
  function Drop(s: State, id: nat): (s': State) {
    s.(calls := map k | k in s.calls && k != id :: s.calls[k],
       holder := if s.holder == Some(id) then None else s.holder,
       timer := if s.timer == Firing(id) then Stopped else s.timer)
  }

  predicate Enabled(s: State, e: Event) {
    match e
    case UserCalls(id, _, _) => id !in s.calls
    case TimeoutExpires(id) => s.timer == Sleeping && id !in s.calls
    case TakesLock(id) => s.holder == None && id in s.calls && s.calls[id].Queued?
    case StartsSending(id) => id in s.calls && s.calls[id].Announcing?
    case SendSucceeds(id) => id in s.calls && s.calls[id].Sending?
    case SendFails(id) => id in s.calls && s.calls[id].Sending?
    case Returns(id) => id in s.calls && (s.calls[id].Failing? || s.calls[id].Finishing?)
    case IsCancelled(id) => id in s.calls
    case _ => true
  }

  function Step(request: Request, s: State, e: Event): (s': State)
    requires Enabled(s, e)
  {
    match e
    case UserCalls(id, decision, granted) => s.(calls := s.calls[id := Queued(decision, granted)])
    case TimeoutExpires(id) =>
      if s.status == Waiting
      then s.(calls := s.calls[id := Queued("cancel", None)], timer := Firing(id))
      else s.(timer := Stopped)
    case TakesLock(id) =>
      var call := s.calls[id];
      (match Checked(request, s.status, call.decision, call.granted)
       case None => Drop(s, id)
       case Some(answer) =>
         s.(status := Responding, holder := Some(id), calls := s.calls[id := Announcing(answer)]))
    case StartsSending(id) => s.(calls := s.calls[id := Sending(s.calls[id].answer)])
    case SendSucceeds(id) =>
      var sent := s.(status := Resolved, calls := s.calls[id := Finishing],
                     delivered := s.delivered + [s.calls[id].answer]);
      if s.timer == Firing(id) then sent else sent.(timer := Stopped, calls := Cancel(s.timer, sent.calls))
    case SendFails(id) => s.(status := Waiting, calls := s.calls[id := Failing])
    case Returns(id) => Drop(s, id)
    case IsCancelled(id) => Drop(s, id)
    case ServerResolved => Settle(s, Resolved)
    case Disconnected => Settle(s, Cancelled)
    case TurnCompleted => Settle(s, Resolved)
  }

  /** An answer the gate may give to the request. */
  ghost predicate IsLegal(request: Request, answer: Answer) {
    match answer
    case Decided(decision) =>
      request.kind != PermissionRequest && decision in DECISIONS && decision in request.available
    case GrantedNothing => request.kind == PermissionRequest
    case Granted(permissions, _) =>
      request.kind == PermissionRequest &&
      IsSubset(permissions, OrEmpty(request.permissions))
  }

  /** The call has passed the checks, and its response has neither been sent nor failed. */
  predicate Answers(s: State, id: nat) {
    id in s.calls && (s.calls[id].Announcing? || s.calls[id].Sending?)
  }

  /** What every reachable state satisfies. */
  ghost predicate Inv(request: Request, s: State) {
    && (forall id :: id in s.calls && !s.calls[id].Queued? && !s.calls[id].Cancelling? ==> s.holder == Some(id))
    && (s.timer.Firing? ==> s.timer.call in s.calls && !s.calls[s.timer.call].Cancelling?)
    && (s.timer.Firing? && Answers(s, s.timer.call) ==> s.status == Responding)
    && (s.holder.Some? ==> s.holder.value in s.calls && !s.calls[s.holder.value].Queued?)
    && (forall id :: id in s.calls && s.calls[id].Announcing? ==> IsLegal(request, s.calls[id].answer))
    && (forall id :: id in s.calls && s.calls[id].Sending? ==> IsLegal(request, s.calls[id].answer))
    && (forall answer :: answer in s.delivered ==> IsLegal(request, answer))
    && |s.delivered| <= 1
    && (s.delivered != [] ==>
        s.status == Resolved && (s.holder.Some? ==> s.calls[s.holder.value].Finishing?))
  }

  /** What passes the checks is legal, and only a waiting approval's checks pass. */
  lemma CheckedIsLegal(request: Request, status: Status, call: Call)
    requires call.Queued? && Checked(request, status, call.decision, call.granted).Some?
    ensures status == Waiting && IsLegal(request, Checked(request, status, call.decision, call.granted).value)
  {
    hide IsSubset, OrEmpty;
  }

  lemma SettleKeepsInv(request: Request, s: State, status: Status)
    requires Inv(request, s) && status in {Resolved, Cancelled}
    ensures Inv(request, Settle(s, status))
  {
    hide IsLegal;
  }

  lemma DropKeepsInv(request: Request, s: State, id: nat)
    requires Inv(request, s) && id in s.calls
    ensures Inv(request, Drop(s, id))
  {
    hide IsLegal;
  }

  lemma TakingKeepsInv(request: Request, s: State, id: nat)
    requires Inv(request, s) && Enabled(s, TakesLock(id))
    requires Checked(request, s.status, s.calls[id].decision, s.calls[id].granted).Some?
    ensures Inv(request, Step(request, s, TakesLock(id)))
  {
    CheckedIsLegal(request, s.status, s.calls[id]);
    hide Checked, IsLegal;
    assert forall k :: k in s.calls ==> s.calls[k].Queued? || s.calls[k].Cancelling?;
  }

  lemma StepKeepsInv(request: Request, s: State, e: Event)
    requires Inv(request, s) && Enabled(s, e)
    ensures Inv(request, Step(request, s, e))
  {
    hide Checked, IsLegal, Settle, Drop;
    match e
    case TakesLock(id) =>
      if Checked(request, s.status, s.calls[id].decision, s.calls[id].granted).Some? {
        TakingKeepsInv(request, s, id);
      } else {
        DropKeepsInv(request, s, id);
      }
    case SendSucceeds(id) =>
      assert s.holder == Some(id) && s.delivered == [];
    case Returns(id) => DropKeepsInv(request, s, id);
    case IsCancelled(id) => DropKeepsInv(request, s, id);
    case ServerResolved => SettleKeepsInv(request, s, Resolved);
    case Disconnected => SettleKeepsInv(request, s, Cancelled);
    case TurnCompleted => SettleKeepsInv(request, s, Resolved);
    case _ =>
  }

  // -------------------------------------------------------------- the object

  /** The approval object and the tasks suspended in its code; each method is one step. */
  class Approval {
    const request: Request
    var status: Status
    var holder: Option<nat>
    var calls: map<nat, Call>
    var timer: Timer
    /** The responses the app-server client has returned from. */
    var delivered: seq<Answer>

    ghost function View(): (s: State)
      reads this
    {
      State(status, holder, calls, timer, delivered)
    }

    /** `handle_server_request` creates the approval and starts its timeout. */
    constructor (request: Request)
      ensures this.request == request && View() == Init()
    {
      this.request, status, holder, calls, timer, delivered := request, Waiting, None, map[], Sleeping, [];
    }

    method CallResolve(id: nat, decision: string, granted: Option<Json>)
      requires Enabled(View(), UserCalls(id, decision, granted))
      modifies this
      ensures View() == Step(request, old(View()), UserCalls(id, decision, granted))
    {
      calls := calls[id := Queued(decision, granted)];
    }

    /** `_expire_approval` after its sleep. */
    method Expire(id: nat)
      requires Enabled(View(), TimeoutExpires(id))
      modifies this
      ensures View() == Step(request, old(View()), TimeoutExpires(id))
    {
      if status == Waiting {
        calls := calls[id := Queued("cancel", None)];
        timer := Firing(id);
      } else {
        timer := Stopped;
      }
    }

    /** The start of the locked part of `resolve_approval`, up to announcing the answer. */
    method BeginAnswer(id: nat) returns (accepted: bool)
      requires Enabled(View(), TakesLock(id))
      modifies this
      ensures View() == Step(request, old(View()), TakesLock(id))
      ensures accepted <==> status == Responding && holder == Some(id)
    {
      var Queued(decision, granted) := calls[id];
      accepted := false;
      if status == Waiting && decision in DECISIONS && decision in request.available {
        var answer := AnswerFor(request, decision, granted);
        if answer.Some? {
          status := Responding;
          holder := Some(id);
          calls := calls[id := Announcing(answer.value)];
          return true;
        }
      }
      calls := map k | k in calls && k != id :: calls[k];
      timer := if timer == Firing(id) then Stopped else timer;
    }

    method BeginSend(id: nat)
      requires Enabled(View(), StartsSending(id))
      modifies this`calls
      ensures View() == Step(request, old(View()), StartsSending(id))
    {
      calls := calls[id := Sending(calls[id].answer)];
    }

    /** `client.respond` returned. */
    method SendReturned(id: nat)
      requires Enabled(View(), SendSucceeds(id))
      modifies this
      ensures View() == Step(request, old(View()), SendSucceeds(id))
    {
      delivered := delivered + [calls[id].answer];
      calls := calls[id := Finishing];
      status := Resolved;
      if timer != Firing(id) {
        CancelTimer();
      }
    }

    /** `client.respond` raised. */
    method SendRaised(id: nat)
      requires Enabled(View(), SendFails(id))
      modifies this
      ensures View() == Step(request, old(View()), SendFails(id))
    {
      calls := calls[id := Failing];
      status := Waiting;
    }

    /** The call leaves, by returning or by being cancelled, and gives the lock back if it held it. */
    method Leave(id: nat)
      requires Enabled(View(), IsCancelled(id))
      modifies this
      ensures View() == Step(request, old(View()), IsCancelled(id))
      ensures old(Enabled(View(), Returns(id))) ==> View() == Step(request, old(View()), Returns(id))
    {
      if holder == Some(id) {
        holder := None;
      }
      if timer == Firing(id) {
        timer := Stopped;
      }
      calls := map k | k in calls && k != id :: calls[k];
    }

    /** `_resolve_server_request`, `_clear_pending_approvals` and, with Cancelled, `handle_disconnect`. */
    method SettleAs(outcome: Status)
      modifies this
      ensures View() == Settle(old(View()), outcome)
    {
      if status in {Waiting, Responding} {
        status := outcome;
        CancelTimer();
      }
    }

    /** `approval.timeout_task.cancel()`: the task gets a CancelledError where it is suspended. */
    method CancelTimer()
      modifies this`timer, this`calls
      ensures timer == Stopped && calls == Cancel(old(timer), old(calls))
    {
      if timer.Firing? && timer.call in calls {
        calls := calls[timer.call := Cancelling];
      }
      timer := Stopped;
    }
  }

  // ------------------------------------------------------------------- runs

  /** The state after some events; None when one of them cannot happen where it stands. */
  function RunFrom(request: Request, s: State, events: seq<Event>): (end: Option<State>)
    decreases |events|
  {
    if events == [] then Some(s)
    else if Enabled(s, events[0]) then RunFrom(request, Step(request, s, events[0]), events[1..])
    else None
  }

  lemma {:induction false} RunKeepsInv(request: Request, s: State, events: seq<Event>)
    requires Inv(request, s) && RunFrom(request, s, events).Some?
    ensures Inv(request, RunFrom(request, s, events).value)
    decreases |events|
  {
    if events != [] {
      StepKeepsInv(request, s, events[0]);
      RunKeepsInv(request, Step(request, s, events[0]), events[1..]);
    }
  }

  lemma {:induction false} DeliveredStays(request: Request, s: State, events: seq<Event>)
    requires Inv(request, s) && s.delivered != [] && RunFrom(request, s, events).Some?
    ensures var end := RunFrom(request, s, events).value;
            end.status == Resolved && end.delivered == s.delivered
    decreases |events|
  {
    if events != [] {
      StepKeepsInv(request, s, events[0]);
      DeliveredStays(request, Step(request, s, events[0]), events[1..]);
    }
  }

  /**
   Over every run: at most one response is delivered, it is a legal answer to the request, and
   from its delivery on the approval stays resolved with nothing more delivered.
   */
  lemma DeliveredOnce(request: Request, before: seq<Event>, after: seq<Event>)
    requires RunFrom(request, Init(), before).Some?
    requires RunFrom(request, RunFrom(request, Init(), before).value, after).Some?
    ensures var mid := RunFrom(request, Init(), before).value;
            var end := RunFrom(request, mid, after).value;
            && |end.delivered| <= 1
            && (forall answer :: answer in end.delivered ==> IsLegal(request, answer))
            && (mid.delivered != [] ==> end.status == Resolved && end.delivered == mid.delivered)
  {
    var mid := RunFrom(request, Init(), before).value;
    RunKeepsInv(request, Init(), before);
    RunKeepsInv(request, mid, after);
    if mid.delivered != [] {
      DeliveredStays(request, mid, after);
    }
  }

  /** A step makes a settled approval wait again exactly when it is a failed response. */
  lemma ReopensOnlyAfterFailure(request: Request, s: State, e: Event)
    requires Inv(request, s) && Enabled(s, e) && s.status != Waiting
    ensures Step(request, s, e).status == Waiting <==> e.SendFails?
    ensures e.SendFails? ==> s.delivered == [] && s.holder == Some(e.id)
  {
  }

  // ---------------------------------------------------------------- the life of a call

  /** Where a call stands decides what it can do next; it can be cancelled anywhere. */
  lemma CallCan(request: Request, s: State, id: nat)
    requires id in s.calls
    ensures var place := s.calls[id];
            && (Enabled(s, TakesLock(id)) <==> place.Queued? && s.holder == None)
            && (Enabled(s, StartsSending(id)) <==> place.Announcing?)
            && (Enabled(s, SendSucceeds(id)) <==> place.Sending?) && (Enabled(s, SendFails(id)) <==> place.Sending?)
            && (Enabled(s, Returns(id)) <==> place.Failing? || place.Finishing?)
            && Enabled(s, IsCancelled(id))
  {
  }

  /** Nobody else than its own call changes a response under way, but for the timeout's when it is cancelled. */
  lemma CallKeepsAnswer(request: Request, s: State, e: Event, id: nat)
    requires Inv(request, s) && Enabled(s, e) && Answers(s, id) && s.timer != Firing(id)
    requires e !in {StartsSending(id), SendSucceeds(id), SendFails(id), IsCancelled(id)}
    ensures id in Step(request, s, e).calls && Step(request, s, e).calls[id] == s.calls[id]
  {
    hide Checked, IsLegal;
  }

  /** The timeout expires at most once in a run, and it expires only where its timer sleeps. */
  lemma {:induction false} ExpiresOnce(request: Request, s: State, events: seq<Event>)
    requires RunFrom(request, s, events).Some?
    ensures s.timer != Sleeping ==> forall i :: 0 <= i < |events| ==> !events[i].TimeoutExpires?
    ensures forall i, j :: 0 <= i < j < |events| && events[i].TimeoutExpires? ==> !events[j].TimeoutExpires?
    decreases |events|
  {
    if events != [] {
      var s' := Step(request, s, events[0]);
      ExpiresOnce(request, s', events[1..]);
      TimerWakes(request, s, events[0]);
      hide Step, Enabled;
      assert forall i :: 0 < i < |events| ==> events[i] == events[1..][i - 1];
    }
  }

  lemma TimerWakes(request: Request, s: State, e: Event)
    requires Enabled(s, e)
    ensures s.timer != Sleeping || e.TimeoutExpires? ==> Step(request, s, e).timer != Sleeping
    ensures e.TimeoutExpires? ==> s.timer == Sleeping
  {
    hide Checked;
  }

  /** An approval nobody answers is cancelled by its timeout, if it may be, and its lock is free again. */
  lemma TimeoutCancels(request: Request, id: nat)
    requires "cancel" in request.available
    ensures var events := [TimeoutExpires(id), TakesLock(id), StartsSending(id), SendSucceeds(id), Returns(id)];
            var end := RunFrom(request, Init(), events);
            && end.Some? && end.value.status == Resolved && end.value.holder == None && end.value.timer == Stopped
            && end.value.delivered == [if request.kind == PermissionRequest then GrantedNothing else Decided("cancel")]
  {
    var s1 := Step(request, Init(), TimeoutExpires(id));
    assert s1.calls[id] == Queued("cancel", None) && s1.status == Waiting;
    AnswerOfDecision(request, Waiting, "cancel", None);
    var s2 := Step(request, s1, TakesLock(id));
    var s3 := Step(request, s2, StartsSending(id));
    var s4 := Step(request, s3, SendSucceeds(id));
    var s5 := Step(request, s4, Returns(id));
    hide Checked, Step;
    RunOfFive(request, Init(), TimeoutExpires(id), TakesLock(id), StartsSending(id), SendSucceeds(id), Returns(id));
  }

  lemma RunOfFive(request: Request, s: State, a: Event, b: Event, c: Event, d: Event, e: Event)
    requires Enabled(s, a)
    requires var s1 := Step(request, s, a);
             && Enabled(s1, b)
             && (var s2 := Step(request, s1, b);
                 && Enabled(s2, c)
                 && (var s3 := Step(request, s2, c);
                     Enabled(s3, d) && Enabled(Step(request, s3, d), e)))
    ensures RunFrom(request, s, [a, b, c, d, e]) ==
              Some(Step(request, Step(request, Step(request, Step(request, Step(request, s, a), b), c), d), e))
  {
    hide Step, Enabled;
    assert [a, b, c, d, e][1..] == [b, c, d, e] && [b, c, d, e][1..] == [c, d, e];
    assert [c, d, e][1..] == [d, e] && [d, e][1..] == [e] && [e][1..] == [];
    var s1 := Step(request, s, a);
    var s2 := Step(request, s1, b);
    var s3 := Step(request, s2, c);
    var s4 := Step(request, s3, d);
    assert RunFrom(request, Step(request, s4, e), []) == Some(Step(request, s4, e));
    assert RunFrom(request, s4, [e]) == Some(Step(request, s4, e));
    assert RunFrom(request, s3, [d, e]) == Some(Step(request, s4, e));
    assert RunFrom(request, s2, [c, d, e]) == Some(Step(request, s4, e));
    assert RunFrom(request, s1, [b, c, d, e]) == Some(Step(request, s4, e));
  }

  /** One that was answered or settled before is left alone when its timer expires. */
  lemma LateTimeoutDoesNothing(request: Request, s: State, id: nat)
    requires Enabled(s, TimeoutExpires(id)) && s.status != Waiting
    ensures Step(request, s, TimeoutExpires(id)) == s.(timer := Stopped)
  {
  }

  // ------------------------------------------------------------- what is answered

  /** What a permission decision is about: the permissions given with it, or else those requested. */
  function Chosen(request: Request, granted: Option<Json>): (p: Json) {
    match granted case None => request.permissions case Some(p) => p
  }

  /** A decision the request offers, with permissions it may grant. */
  ghost predicate IsAcceptable(request: Request, decision: string, granted: Option<Json>) {
    && decision in {"accept", "acceptForSession", "decline", "cancel"} && decision in request.available
    && (request.kind == PermissionRequest && decision in {"accept", "acceptForSession"} ==>
          Chosen(request, granted).JObj? && IsSubset(Chosen(request, granted), OrEmpty(request.permissions)))
  }

  /** The checks pass exactly for an acceptable decision on a waiting approval, and what each is answered with. */
  lemma AnswerOfDecision(request: Request, status: Status, decision: string, granted: Option<Json>)
    ensures var answer := Checked(request, status, decision, granted);
            && (answer.Some? <==> status == Waiting && IsAcceptable(request, decision, granted))
            && (answer.Some? && request.kind != PermissionRequest ==> answer.value == Decided(decision))
            && (answer.Some? && request.kind == PermissionRequest ==>
                && (decision in {"decline", "cancel"} ==> answer.value == GrantedNothing)
                && (decision == "accept" ==> answer.value == Granted(Chosen(request, granted), false))
                && (decision == "acceptForSession" ==> answer.value == Granted(Chosen(request, granted), true)))
  {
    hide IsSubset, OrEmpty;
  }

  /** A request that names no permissions, by null or another empty value, is granted none: of `accept`, only an empty object passes. */
  lemma NothingRequested(request: Request, granted: Option<Json>)
    requires request.kind == PermissionRequest
    requires request.permissions in
      {JNull, JBool(false), JInt(0), JFloat("0.0"), JFloat("-0.0"), JStr(""), JArr([]), JObj(map[])}
    ensures Checked(request, Waiting, "accept", granted).Some? <==>
              "accept" in request.available && Chosen(request, granted) == JObj(map[])
  {
    AnswerOfDecision(request, Waiting, "accept", granted);
    NoPermissions(request.permissions);
    OnlyEmpty(Chosen(request, granted));
    hide Checked, OrEmpty, Chosen;
  }

  lemma NoPermissions(p: Json)
    requires p in {JNull, JBool(false), JInt(0), JFloat("0.0"), JFloat("-0.0"), JStr(""), JArr([]), JObj(map[])}
    ensures OrEmpty(p) == JObj(map[])
  {
  }

  lemma OnlyEmpty(p: Json)
    ensures p.JObj? && IsSubset(p, JObj(map[])) <==> p == JObj(map[])
  {
    if p.JObj? && IsSubset(p, JObj(map[])) {
      assert forall k :: k !in p.fields;
      assert p.fields == map[];
    }
  }

  /** The answer is the one to a decision some call made: a user's, or the cancel of the timeout. */
  ghost predicate IsDecided(request: Request, past: seq<Event>, answer: Answer) {
    exists i :: 0 <= i < |past| && Decides(request, past[i], answer)
  }

  ghost predicate Decides(request: Request, e: Event, answer: Answer) {
    match e
    case UserCalls(_, decision, granted) => Checked(request, Waiting, decision, granted) == Some(answer)
    case TimeoutExpires(_) => Checked(request, Waiting, "cancel", None) == Some(answer)
    case _ => false
  }

  ghost predicate WasCalled(past: seq<Event>, call: Call)
    requires call.Queued?
  {
    exists i :: 0 <= i < |past| && Calls(past[i], call)
  }

  ghost predicate Calls(e: Event, call: Call)
    requires call.Queued?
  {
    (e.UserCalls? && e.decision == call.decision && e.granted == call.granted)
    || (e.TimeoutExpires? && call.decision == "cancel" && call.granted == None)
  }

  /** Everything queued, under way or delivered comes from a call among the past events. */
  ghost predicate IsTraced(request: Request, past: seq<Event>, s: State) {
    && (forall id :: id in s.calls && s.calls[id].Queued? ==> WasCalled(past, s.calls[id]))
    && (forall id :: Answers(s, id) ==> IsDecided(request, past, s.calls[id].answer))
    && (forall answer :: answer in s.delivered ==> IsDecided(request, past, answer))
  }

  lemma TraceGrows(request: Request, past: seq<Event>, e: Event)
    ensures forall answer :: IsDecided(request, past, answer) ==> IsDecided(request, past + [e], answer)
    ensures forall call: Call :: call.Queued? && WasCalled(past, call) ==> WasCalled(past + [e], call)
  {
    hide Decides, Calls;
    forall answer | IsDecided(request, past, answer) ensures IsDecided(request, past + [e], answer) {
      var i :| 0 <= i < |past| && Decides(request, past[i], answer);
      assert (past + [e])[i] == past[i];
    }
    forall call: Call | call.Queued? && WasCalled(past, call) ensures WasCalled(past + [e], call) {
      var i :| 0 <= i < |past| && Calls(past[i], call);
      assert (past + [e])[i] == past[i];
    }
  }

  lemma LastCalls(past: seq<Event>, e: Event, call: Call)
    requires call.Queued? && Calls(e, call)
    ensures WasCalled(past + [e], call)
  {
    assert (past + [e])[|past|] == e;
  }

  /** A queued call that passes the checks decides its answer. */
  lemma CallDecides(request: Request, past: seq<Event>, call: Call)
    requires call.Queued? && WasCalled(past, call) && Checked(request, Waiting, call.decision, call.granted).Some?
    ensures IsDecided(request, past, Checked(request, Waiting, call.decision, call.granted).value)
  {
    hide Checked;
    var i :| 0 <= i < |past| && Calls(past[i], call);
    assert Decides(request, past[i], Checked(request, Waiting, call.decision, call.granted).value);
  }

  lemma StepKeepsTrace(request: Request, past: seq<Event>, s: State, e: Event)
    requires IsTraced(request, past, s) && Enabled(s, e)
    ensures IsTraced(request, past + [e], Step(request, s, e))
  {
    TraceGrows(request, past, e);
    hide WasCalled, IsDecided;
    match e
    case UserCalls(id, decision, granted) => LastCalls(past, e, Queued(decision, granted));
    case TimeoutExpires(id) => LastCalls(past, e, Queued("cancel", None));
    case TakesLock(id) =>
      var call := s.calls[id];
      if Checked(request, s.status, call.decision, call.granted).Some? {
        CheckedIsLegal(request, s.status, call);
        CallDecides(request, past, call);
      }
      hide Checked;
    case SendSucceeds(id) =>
      assert Answers(s, id);
    case _ =>
      hide Checked;
  }

  lemma {:induction false} RunKeepsTrace(request: Request, past: seq<Event>, s: State, events: seq<Event>)
    requires IsTraced(request, past, s) && RunFrom(request, s, events).Some?
    ensures IsTraced(request, past + events, RunFrom(request, s, events).value)
    decreases |events|
  {
    hide IsTraced, Step;
    if events == [] {
      assert past + events == past;
    } else {
      StepKeepsTrace(request, past, s, events[0]);
      RunKeepsTrace(request, past + [events[0]], Step(request, s, events[0]), events[1..]);
      assert past + [events[0]] + events[1..] == past + events;
    }
  }

  /**
   Over every run, a delivered answer is the one to an acceptable decision made in that run.  So a grant for
   the session was decided by a user's `acceptForSession`, one for the turn by a user's `accept`, each
   with the permissions of that call; and a command or file change is answered with a decision made.
   */
  lemma DeliveredWasDecided(request: Request, events: seq<Event>, answer: Answer)
    requires RunFrom(request, Init(), events).Some? && answer in RunFrom(request, Init(), events).value.delivered
    ensures match answer
            case Granted(permissions, sessionScope) =>
              exists i :: 0 <= i < |events| && events[i].UserCalls? && Chosen(request, events[i].granted) == permissions
                && events[i].decision == if sessionScope then "acceptForSession" else "accept"
            case GrantedNothing =>
              exists i :: 0 <= i < |events| &&
                (events[i].TimeoutExpires? || (events[i].UserCalls? && events[i].decision in {"decline", "cancel"}))
            case Decided(decision) =>
              exists i :: 0 <= i < |events| &&
                ((events[i].TimeoutExpires? && decision == "cancel") || (events[i].UserCalls? && events[i].decision == decision))
  {
    RunKeepsTrace(request, [], Init(), events);
    assert [] + events == events;
    hide RunFrom;
    var i :| 0 <= i < |events| && Decides(request, events[i], answer);
    match events[i]
    case UserCalls(_, decision, granted) => AnswerOfDecision(request, Waiting, decision, granted);
    case TimeoutExpires(_) => AnswerOfDecision(request, Waiting, "cancel", None);
    case _ =>
  }

  // ----------------------------------------------------- is a resolution final?

  predicate IsSettled(s: State) {
    s.status in {Resolved, Cancelled}
  }

  /** Some call's response is in flight. */
  ghost predicate InFlight(s: State) {
    exists id :: Answers(s, id)
  }

  lemma QuietStep(request: Request, s: State, e: Event)
    requires Inv(request, s) && IsSettled(s) && !InFlight(s) && Enabled(s, e)
    ensures var s' := Step(request, s, e);
            IsSettled(s') && !InFlight(s') && s'.delivered == s.delivered
  {
    var s' := Step(request, s, e);
    assert !Answers(s, if e.SendSucceeds? || e.SendFails? || e.StartsSending? then e.id else 0);
    assert e.TakesLock? ==> Checked(request, s.status, s.calls[e.id].decision, s.calls[e.id].granted) == None;
    forall id ensures !Answers(s', id) {
      assert !Answers(s, id);
    }
  }

  lemma {:induction false} SettledForGood(request: Request, s: State, events: seq<Event>)
    requires Inv(request, s) && IsSettled(s) && !InFlight(s) && RunFrom(request, s, events).Some?
    ensures IsSettled(RunFrom(request, s, events).value)
    ensures RunFrom(request, s, events).value.delivered == s.delivered
    decreases |events|
  {
    if events != [] {
      var s' := Step(request, s, events[0]);
      StepKeepsInv(request, s, events[0]);
      QuietStep(request, s, events[0]);
      SettledForGood(request, s', events[1..]);
    }
  }

  lemma InFlightCanReopen(request: Request, s: State, id: nat)
    requires Answers(s, id)
    ensures exists events :: RunFrom(request, s, events).Some?
              && RunFrom(request, s, events).value.status == Waiting
  {
    if s.calls[id].Sending? {
      var s1 := Step(request, s, SendFails(id));
      assert RunFrom(request, s1, []) == Some(s1);
      assert [SendFails(id)][1..] == [];
      assert RunFrom(request, s, [SendFails(id)]) == Some(s1);
    } else {
      var s1 := Step(request, s, StartsSending(id));
      var s2 := Step(request, s1, SendFails(id));
      assert RunFrom(request, s2, []) == Some(s2);
      var events := [StartsSending(id), SendFails(id)];
      assert events[1..] == [SendFails(id)] && [SendFails(id)][1..] == [];
      assert RunFrom(request, s1, events[1..]) == Some(s2);
      assert RunFrom(request, s, events) == Some(s2);
    }
  }

  /**
   A settled approval is so for good exactly when no response is in flight: one that then fails
   makes the approval wait again.
   */
  lemma SettledIsFinalIffNothingInFlight(request: Request, s: State)
    requires Inv(request, s) && IsSettled(s)
    ensures InFlight(s) <==>
              exists events :: RunFrom(request, s, events).Some?
                && RunFrom(request, s, events).value.status == Waiting
  {
    if InFlight(s) {
      var id :| Answers(s, id);
      InFlightCanReopen(request, s, id);
    } else {
      forall events | RunFrom(request, s, events).Some?
        ensures RunFrom(request, s, events).value.status != Waiting
      {
        SettledForGood(request, s, events);
      }
    }
  }

  predicate Settles(e: Event) {
    e in {ServerResolved, Disconnected, TurnCompleted}
  }

  /** A response in flight that is not the timeout's own. */
  ghost predicate UserAnswers(s: State) {
    exists id :: Answers(s, id) && s.timer != Firing(id)
  }

  /** Settling cancels the timeout's own response, and leaves the others in flight. */
  lemma SettlingLeavesUserAnswers(request: Request, s: State, e: Event)
    requires Inv(request, s) && Settles(e) && !IsSettled(s)
    ensures IsSettled(Step(request, s, e)) && (InFlight(Step(request, s, e)) <==> UserAnswers(s))
  {
    var s' := Step(request, s, e);
    assert s.status.Waiting? || s.status.Responding?;
    if InFlight(s') {
      var id :| Answers(s', id);
      assert Answers(s, id) && s.timer != Firing(id);
    }
    if UserAnswers(s) {
      var id :| Answers(s, id) && s.timer != Firing(id);
      assert Answers(s', id);
    }
  }

  /**
   Resolving from outside, by the server, a disconnect or the end of the turn, is final exactly when
   no response of a user's call is in flight; the timeout's own response is cancelled with its timer.
   */
  lemma SettlingIsFinalIffNoUserAnswers(request: Request, s: State, e: Event)
    requires Inv(request, s) && Settles(e) && !IsSettled(s)
    ensures UserAnswers(s) <==>
              exists events :: RunFrom(request, Step(request, s, e), events).Some?
                && RunFrom(request, Step(request, s, e), events).value.status == Waiting
  {
    StepKeepsInv(request, s, e);
    SettlingLeavesUserAnswers(request, s, e);
    SettledIsFinalIffNothingInFlight(request, Step(request, s, e));
  }

  /** In particular, nothing the timeout has begun to send can fail afterwards. */
  lemma TimeoutAnswerIsCancelled(request: Request, s: State, e: Event, events: seq<Event>)
    requires Inv(request, s) && Settles(e) && s.timer.Firing? && Answers(s, s.timer.call)
    requires RunFrom(request, Step(request, s, e), events).Some?
    ensures IsSettled(RunFrom(request, Step(request, s, e), events).value)
    ensures RunFrom(request, Step(request, s, e), events).value.delivered == []
  {
    StepKeepsInv(request, s, e);
    SettlingLeavesUserAnswers(request, s, e);
    SettledForGood(request, Step(request, s, e), events);
  }

  /** Such a state is reached: the server resolves the request while the user's answer is sent. */
  lemma ServerResolutionCanBeUndone()
    ensures var request := Request(Command, JNull, ["accept"]);
            var events := [UserCalls(0, "accept", None), TakesLock(0), StartsSending(0), ServerResolved];
            var end := RunFrom(request, Init(), events);
            end.Some? && end.value.status == Resolved && InFlight(end.value)
  {
    var request := Request(Command, JNull, ["accept"]);
    var s1 := Step(request, Init(), UserCalls(0, "accept", None));
    assert "accept" in request.available;
    var s2 := Step(request, s1, TakesLock(0));
    var s3 := Step(request, s2, StartsSending(0));
    var s4 := Step(request, s3, ServerResolved);
    assert Answers(s4, 0) && s4.status == Resolved;
    var e4 := [ServerResolved];
    var e3 := [StartsSending(0)] + e4;
    var e2 := [TakesLock(0)] + e3;
    var e1 := [UserCalls(0, "accept", None)] + e2;
    assert e4[1..] == [] && e3[1..] == e4 && e2[1..] == e3 && e1[1..] == e2;
    assert RunFrom(request, s3, e4) == Some(s4);
    assert RunFrom(request, s2, e3) == Some(s4);
    assert RunFrom(request, s1, e2) == Some(s4);
    assert RunFrom(request, Init(), e1) == Some(s4);
    assert e1 == [UserCalls(0, "accept", None), TakesLock(0), StartsSending(0), ServerResolved];
  }

  /**
   A waiting approval can be answered: whoever takes its lock with an accepted decision gets,
   undisturbed, to a resolved approval with exactly that answer delivered and the lock free.
   */
  lemma UndisturbedCallDelivers(request: Request, s: State, id: nat)
    requires Inv(request, s) && Enabled(s, TakesLock(id))
    requires Checked(request, s.status, s.calls[id].decision, s.calls[id].granted).Some?
    ensures var answer := Checked(request, s.status, s.calls[id].decision, s.calls[id].granted).value;
            var s1 := Step(request, s, TakesLock(id));
            && Enabled(s1, StartsSending(id))
            && (var s2 := Step(request, s1, StartsSending(id));
                && Enabled(s2, SendSucceeds(id))
                && (var s3 := Step(request, s2, SendSucceeds(id));
                    && s3.delivered == [answer] && s3.status == Resolved
                    && Enabled(s3, Returns(id)) && Step(request, s3, Returns(id)).holder == None))
  {
  }
}
