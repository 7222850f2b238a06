/** What interleavings come to in terms of the steps themselves: the action and session a call was begun with,
    and the times and greetings that arrived. */
module HubHistory {
  import opened Prelude
  import opened Hub
  import opened HubProtocol

  // ---------------------------------------------------------------- sessions by name

  /** Call `c` was begun with this action and session. */
  ghost predicate Begun(steps: seq<Step>, c: nat, action: string, session: string) {
    exists i :: 0 <= i < |steps| && steps[i] == Begin(c, action, session) && Enabled(After(steps[..i]), steps[i])
  }

  /** No name and the name "default" are one session. */
  predicate SameSession(a: string, b: string) {
    a == b || (a in {"", "default"} && b in {"", "default"})
  }

  /** Past the queue and not returned. */
  predicate Inside(p: Caller) {
    !p.Queued? && !p.Returned?
  }

  /** The session name a call queues under, or none if it needs no session. */
  function KeyOf(action: string, session: string): Option<string> {
    if action == "annotations" then None else if session == "" then Some("default") else Some(session)
  }

  /** The call wants or holds this session and no other. */
  predicate Attached(p: Caller, key: Option<string>) {
    match p
    case Queued(wants) => key == Some(wants)
    case Releasing(holds) => key == Some(holds)
    case Returned => true
    case _ => p.key == key
  }

  lemma BeginAttaches(s: State, step: Step)
    requires CallerEnabled(s, step) && step.Begin?
    ensures step.c in CallerNext(s, step).callers
    ensures Attached(CallerNext(s, step).callers[step.c], KeyOf(step.action, step.session))
  {
    assert step == Begin(step.c, step.action, step.session);
    BeginPuts(s, step.c, step.action, step.session);
    hide CallerNext;
  }

  lemma BeginPuts(s: State, c: nat, action: string, session: string)
    requires CallerEnabled(s, Begin(c, action, session))
    ensures CallerNext(s, Begin(c, action, session)).callers == s.callers[c := Started(action, session)]
  {
    hide SessionIndependent, SessionKey, WithSemaphore;
  }

  function Started(action: string, session: string): Caller {
    if SessionIndependent(action) then Checking(None) else Queued(SessionKey(session))
  }

  /** Where a call goes from one step to the next, and that nobody else moves. */
  predicate Moves(s: State, t: State, c: nat) {
    && c in s.callers && c in t.callers && t.callers == s.callers[c := t.callers[c]]
    && (s.callers[c].Queued? ==> t.callers[c] == Returned || t.callers[c] == Checking(Some(s.callers[c].wants)))
    && (s.callers[c].Releasing? || s.callers[c].Returned? ==> t.callers[c] == Returned)
    && (Underway(s.callers[c]) ==>
          t.callers[c] == Finished(s.callers[c].key) || (Underway(t.callers[c]) && t.callers[c].key == s.callers[c].key))
  }

  predicate Underway(p: Caller) {
    !p.Queued? && !p.Releasing? && !p.Returned?
  }

  lemma EntersAndLeaves(s: State, step: Step)
    requires CallerEnabled(s, step) && (step.Acquire? || step.GiveUpQueue? || step.Release?)
    ensures Moves(s, CallerNext(s, step), step.c)
  {
    hide SessionIndependent, SessionKey, WithSemaphore, SubmissionFor, Registered, Dropped, Leave, HasRoom, Finished;
  }

  lemma GoesOnWaiting(s: State, step: Step)
    requires CallerEnabled(s, step) && (step.Check? || step.Wake? || step.GiveUpWait?)
    ensures Moves(s, CallerNext(s, step), step.c)
  {
    hide SessionIndependent, SessionKey, WithSemaphore, SubmissionFor, Registered, Dropped, Leave, HasRoom, Finished;
  }

  lemma GoesOnSubmitting(s: State, step: Step)
    requires CallerEnabled(s, step) && step.Register?
    ensures Moves(s, CallerNext(s, step), step.c)
  {
    hide SubmissionFor, Registered, HasRoom, Finished;
  }

  lemma GoesOnCalling(s: State, step: Step)
    requires CallerEnabled(s, step) && (step.Write? || step.Receive? || step.Deadline? || step.Drop?)
    ensures Moves(s, CallerNext(s, step), step.c)
  {
    hide SessionIndependent, SessionKey, WithSemaphore, SubmissionFor, Registered, Dropped, HasRoom, Finished;
  }

  lemma MovesKeepKey(s: State, t: State, c: nat, key: Option<string>)
    requires Moves(s, t, c) && Attached(s.callers[c], key)
    ensures Attached(t.callers[c], key)
  {}

  lemma CallerKeepsKey(s: State, step: Step, c: nat, key: Option<string>)
    requires CallerEnabled(s, step) && c in s.callers && Attached(s.callers[c], key)
    ensures c in CallerNext(s, step).callers && Attached(CallerNext(s, step).callers[c], key)
  {
    CallerStepsAreCallers(s, step);
    if step.Begin? {
      BeginLeavesOthers(s, step);
    } else {
      hide CallerNext, CallerEnabled, Attached;
      if step.Acquire? || step.GiveUpQueue? || step.Release? {
        EntersAndLeaves(s, step);
      } else if step.Check? || step.Wake? || step.GiveUpWait? {
        GoesOnWaiting(s, step);
      } else if step.Register? {
        GoesOnSubmitting(s, step);
      } else {
        GoesOnCalling(s, step);
      }
      if c == step.c {
        MovesKeepKey(s, CallerNext(s, step), c, key);
      }
    }
  }

  lemma CallerStepsAreCallers(s: State, step: Step)
    requires CallerEnabled(s, step)
    ensures step.Begin? || step.Acquire? || step.GiveUpQueue? || step.Release? || step.Check? || step.Wake? || step.GiveUpWait?
            || step.Register? || step.Write? || step.Receive? || step.Deadline? || step.Drop?
    ensures step.Begin? ==> step.c !in s.callers
  {}

  lemma BeginLeavesOthers(s: State, step: Step)
    requires CallerEnabled(s, step) && step.Begin?
    ensures forall c :: c in s.callers ==> c in CallerNext(s, step).callers && CallerNext(s, step).callers[c] == s.callers[c]
  {
    hide SessionIndependent, SessionKey, WithSemaphore;
  }

  lemma HandlersLeaveCallers(s: State, step: Step)
    requires HandlerEnabled(s, step)
    ensures HandlerNext(s, step).callers == s.callers
  {
    hide Accepts, Flushed, FlushedOne, Counted, HasRoom;
  }

  lemma {:induction false} KeyKept(steps: seq<Step>, c: nat, action: string, session: string)
    requires Begun(steps, c, action, session)
    ensures c in After(steps).callers && Attached(After(steps).callers[c], KeyOf(action, session))
    decreases |steps|
  {
    var i :| 0 <= i < |steps| && steps[i] == Begin(c, action, session) && Enabled(After(steps[..i]), steps[i]);
    var n := |steps| - 1;
    var s, step := After(steps[..n]), steps[n];
    hide CallerNext, HandlerNext, HandlerEnabled, KeyOf, Attached;
    if i == n {
      BeginAttaches(s, step);
    } else {
      assert steps[..n][..i] == steps[..i];
      hide CallerEnabled;
      assert Begun(steps[..n], c, action, session);
      KeyKept(steps[..n], c, action, session);
      if CallerEnabled(s, step) {
        CallerKeepsKey(s, step, c, KeyOf(action, session));
      } else if HandlerEnabled(s, step) {
        HandlersLeaveCallers(s, step);
      }
    }
  }

  lemma InsideHolds(p: Caller, key: string)
    requires Inside(p) && Attached(p, Some(key))
    ensures Holds(p, key)
  {}

  lemma SameKey(a: string, s: string, b: string, t: string)
    requires a != "annotations" && b != "annotations" && SameSession(s, t)
    ensures KeyOf(a, s) == KeyOf(b, t) && KeyOf(a, s).Some?
  {}

  /** Session exclusion by name: of the calls begun for one session, other than "annotations", at most one is past
      the queue and not returned, and at most one is pending. */
  lemma OneInsidePerSession(steps: seq<Step>, c: nat, a: string, session: string, d: nat, b: string, session': string)
    requires Begun(steps, c, a, session) && Begun(steps, d, b, session') && c != d
    requires a != "annotations" && b != "annotations" && SameSession(session, session')
    ensures var s := After(steps);
            && c in s.callers && d in s.callers && !(Inside(s.callers[c]) && Inside(s.callers[d]))
            && forall i, j :: i in s.hub.pending && j in s.hub.pending ==> !(Has(s.callers[c], i) && Has(s.callers[d], j))
  {
    KeyKept(steps, c, a, session);
    KeyKept(steps, d, b, session');
    SameKey(a, session, b, session');
    var s, key := After(steps), KeyOf(a, session).value;
    if Inside(s.callers[c]) && Inside(s.callers[d]) {
      InsideHolds(s.callers[c], key);
      InsideHolds(s.callers[d], key);
      SessionExclusion(steps, c, d, key);
    }
    hide After, Begun;
  }

  /** An "annotations" call is never queued on a session and never holds one. */
  lemma AnnotationsNeverWait(steps: seq<Step>, c: nat, session: string)
    requires Begun(steps, c, "annotations", session)
    ensures var s := After(steps);
            c in s.callers && !s.callers[c].Queued? && !s.callers[c].Releasing? && forall k :: !Holds(s.callers[c], k)
  {
    KeyKept(steps, c, "annotations", session);
    hide After, Begun;
  }

  // ---------------------------------------------------------------- newcomers

  /** When the connection was last heard of: the time of the last takeover or message. */
  function LastHeard(steps: seq<Step>): int
    decreases |steps|
  {
    if steps == [] then 0
    else
      var n := |steps| - 1;
      var s, step := After(steps[..n]), steps[n];
      if !Enabled(s, step) then LastHeard(steps[..n])
      else match step
        case Activity(_, now) => now
        case Connect(h, now) => if After(steps).hub.conn == Some(h) then now else LastHeard(steps[..n])
        case _ => LastHeard(steps[..n])
  }

  lemma CallersLeaveActivity(s: State, step: Step)
    requires CallerEnabled(s, step)
    ensures CallerNext(s, step).hub.lastActivity == s.hub.lastActivity
    ensures CallerNext(s, step).hub.compatible == s.hub.compatible && CallerNext(s, step).hub.extProtocol == s.hub.extProtocol
  {
    hide SubmissionFor, SessionKey, SessionIndependent, Finished, HasRoom;
  }

  lemma HandlersAndActivity(s: State, step: Step)
    requires HandlerEnabled(s, step)
    ensures var t := HandlerNext(s, step);
            match step
            case Activity(_, now) => t.hub.lastActivity == now
            case Connect(h, now) => t.hub.lastActivity == if Accepts(s.hub, now) then now else s.hub.lastActivity
            case _ => t.hub.lastActivity == s.hub.lastActivity
  {
    hide Accepts, Counted, HasRoom;
  }

  /** A connecting handler is new, so it owns the connection afterwards exactly if it took over. */
  lemma ConnectTakesOver(s: State, h: nat, now: int)
    requires HandlerEnabled(s, Connect(h, now)) && Inv(s)
    ensures HandlerNext(s, Connect(h, now)).hub.conn == Some(h) <==> Accepts(s.hub, now)
  {
    hide Accepts, ChannelsOk, OwnersOk, SessionsOk, WaitersOk;
  }

  lemma {:induction false} HeardIsActivity(steps: seq<Step>)
    ensures After(steps).hub.lastActivity == LastHeard(steps)
    decreases |steps|
  {
    if steps != [] {
      var n := |steps| - 1;
      var s, step := After(steps[..n]), steps[n];
      HeardIsActivity(steps[..n]);
      EveryInterleavingKeepsInv(steps[..n]);
      hide CallerNext, HandlerNext, Accepts, Inv;
      if CallerEnabled(s, step) {
        CallersLeaveActivity(s, step);
        CallerStepsAreOwn(s, step);
      } else if HandlerEnabled(s, step) {
        hide HandlerEnabled, CallerEnabled;
        HandlersAndActivity(s, step);
        if step.Connect? {
          ConnectTakesOver(s, step.h, step.now);
        }
      }
    }
  }

  lemma CallerStepsAreOwn(s: State, step: Step)
    requires CallerEnabled(s, step)
    ensures !step.Connect? && !step.Activity? && !step.Greet?
  {}

  /** A newcomer takes over if and only if nobody owns the connection or its owner has not been heard of for 50
      seconds; otherwise it is refused and the hub stays as it is. */
  lemma TakesOverIffSilent(steps: seq<Step>, h: nat, now: int)
    requires Enabled(After(steps), Connect(h, now))
    ensures var s := After(steps); var t := Next(s, Connect(h, now));
            && (t.hub.conn == Some(h) <==> s.hub.conn.None? || now - LastHeard(steps) >= 50 * 1_000_000_000)
            && (t.hub.conn != Some(h) ==> t.hub == s.hub && t.handlers == s.handlers[h := Gone])
  {
    HeardIsActivity(steps);
    EveryInterleavingKeepsInv(steps);
    ConnectTakesOver(After(steps), h, now);
    hide Inv, LastHeard, After;
  }

  // ---------------------------------------------------------------- greetings

  /** The protocol of the last greeting since the last takeover. */
  function LastGreeting(steps: seq<Step>): Option<int>
    decreases |steps|
  {
    if steps == [] then None
    else
      var n := |steps| - 1;
      var s, step := After(steps[..n]), steps[n];
      if !Enabled(s, step) then LastGreeting(steps[..n])
      else match step
        case Greet(_, protocol) => Some(protocol)
        case Connect(h, _) => if After(steps).hub.conn == Some(h) then None else LastGreeting(steps[..n])
        case _ => LastGreeting(steps[..n])
  }

  /** What the hub remembers of it. */
  predicate Remembers(v: View, greeting: Option<int>) {
    match greeting
    case None => v.conn.Some? ==> v.compatible
    case Some(p) => (v.compatible <==> p == 2) && v.extProtocol == p
  }

  lemma CallersLeaveConnection(s: State, step: Step)
    requires CallerEnabled(s, step)
    ensures CallerNext(s, step).hub.conn == s.hub.conn
  {
    hide SubmissionFor, SessionKey, SessionIndependent, Finished, HasRoom;
    CallersLeaveHandlers(s, step);
  }

  lemma HandlersAndGreeting(s: State, step: Step, greeting: Option<int>)
    requires HandlerEnabled(s, step) && Remembers(s.hub, greeting)
    ensures Remembers(HandlerNext(s, step).hub,
                      match step
                      case Greet(_, protocol) => Some(protocol)
                      case Connect(_, now) => if Accepts(s.hub, now) then None else greeting
                      case _ => greeting)
  {
    hide Accepts;
    if step.Greet? || step.Connect? {
      hide HasRoom, Flushed;
    } else {
      OtherHandlerSteps(s, step);
      hide HandlerNext, HandlerEnabled;
      if step.Disconnect? || step.FlushOne? || step.FlushEnd? {
        EndsKeepGreeting(s, step);
      } else {
        MessagesKeepGreeting(s, step);
      }
    }
  }

  lemma OtherHandlerSteps(s: State, step: Step)
    requires HandlerEnabled(s, step)
    ensures step.Greet? || step.Connect? || step.Disconnect? || step.FlushOne? || step.FlushEnd?
            || step.Activity? || step.Result? || step.Deliver?
  {}

  /** What a greeting is remembered by is as it was, or the connection is gone. */
  predicate KeepsGreeting(v: View, v': View) {
    v'.compatible == v.compatible && v'.extProtocol == v.extProtocol && (v'.conn == v.conn || v'.conn.None?)
  }

  lemma EndsKeepGreeting(s: State, step: Step)
    requires HandlerEnabled(s, step) && (step.Disconnect? || step.FlushOne? || step.FlushEnd?)
    ensures KeepsGreeting(s.hub, HandlerNext(s, step).hub)
  {
    hide HasRoom, Counted, Accepts;
  }

  lemma MessagesKeepGreeting(s: State, step: Step)
    requires HandlerEnabled(s, step) && (step.Activity? || step.Result? || step.Deliver?)
    ensures KeepsGreeting(s.hub, HandlerNext(s, step).hub)
  {
    hide HasRoom, Counted, Accepts;
  }

  lemma {:induction false} GreetingRemembered(steps: seq<Step>)
    ensures Remembers(After(steps).hub, LastGreeting(steps))
    decreases |steps|
  {
    if steps != [] {
      var n := |steps| - 1;
      var s, step := After(steps[..n]), steps[n];
      GreetingRemembered(steps[..n]);
      EveryInterleavingKeepsInv(steps[..n]);
      hide CallerNext, HandlerNext, Accepts, Inv;
      if CallerEnabled(s, step) {
        CallersLeaveActivity(s, step);
        CallersLeaveConnection(s, step);
        CallerStepsAreOwn(s, step);
      } else if HandlerEnabled(s, step) {
        hide HandlerEnabled, CallerEnabled, Remembers;
        HandlersAndGreeting(s, step, LastGreeting(steps[..n]));
        if step.Connect? {
          ConnectTakesOver(s, step.h, step.now);
        }
      }
    }
  }

  /** Which calls are submitted: those that find a connection whose last greeting, if there was one since the last
      takeover, was of protocol 2. The others are told that there is no extension, or which side to update. */
  lemma SubmittedIffCompatible(steps: seq<Step>)
    ensures var v := After(steps).hub; var g := LastGreeting(steps);
            SubmissionFor(v) == if v.conn.None? then NoExtension
                                else if g.Some? && g.value < 2 then Mismatch(true)
                                else if g.Some? && g.value > 2 then Mismatch(false)
                                else Submitted(v.issued + 1)
  {
    GreetingRemembered(steps);
    ConnectionAndWakeUps(steps);
    hide LastGreeting, After;
  }

  /** A call that looks for a connection goes on if and only if there is one; otherwise it waits, if waiting is
      configured, or gives up. */
  lemma GoesOnIffConnected(steps: seq<Step>, c: nat, wait: bool)
    requires Enabled(After(steps), Check(c, wait))
    ensures var s := After(steps); var p := Next(s, Check(c, wait)).callers[c];
            && (p.Ready? <==> s.hub.conn.Some?) && (p.Parked? <==> s.hub.conn.None? && wait)
            && (!p.Ready? && !p.Parked? ==> p.Releasing? || p.Returned?)
  {
    ConnectionAndWakeUps(steps);
    hide After;
  }

  /** A call that registers goes on to send exactly then, under the next number, pending from now on. */
  lemma RegistersIffCompatible(steps: seq<Step>, c: nat)
    requires Enabled(After(steps), Register(c))
    ensures var s := After(steps); var t := Next(s, Register(c)); var g := LastGreeting(steps);
            if s.hub.conn.Some? && (g.None? || g == Some(2)) then
              t.callers[c] == Sending(s.callers[c].key, s.hub.issued + 1) && t.hub.pending == s.hub.pending + {s.hub.issued + 1}
            else
              t.hub == s.hub && (t.callers[c].Releasing? || t.callers[c].Returned?)
  {
    SubmittedIffCompatible(steps);
    hide LastGreeting, After, SubmissionFor;
  }

  // ---------------------------------------------------------------- where answers come from

  /** The calls the extension answered while they were pending. */
  function Answered(steps: seq<Step>): set<nat>
    decreases |steps|
  {
    if steps == [] then {}
    else
      var n := |steps| - 1;
      Answered(steps[..n]) + AnsweredBy(After(steps[..n]), steps[n])
  }

  function AnsweredBy(s: State, step: Step): set<nat> {
    if step.Result? && HandlerEnabled(s, step) && step.id in s.hub.pending then {step.id} else {}
  }

  /** Every envelope on a channel or about to be sent says truly whether the extension wrote it, and no pending call
      is answered. */
  ghost predicate Truthful(answered: set<nat>, pending: set<nat>, chans: map<nat, seq<Envelope>>, handlers: map<nat, Handler>) {
    && (forall id :: id in answered ==> id in chans && id !in pending)
    && (forall id, k :: id in chans && 0 <= k < |chans[id]| ==> (chans[id][k].fromExtension <==> id in answered))
    && (forall h :: h in handlers && handlers[h].Delivering? ==>
          handlers[h].e.fromExtension && handlers[h].e.id in answered)
  }

  /** What callers do to the channels: take from them, leave `pending`, or add a new empty one. */
  ghost predicate Takes(v: View, v': View) {
    && (forall id :: id in v'.pending ==> id in v.pending || id == v.issued + 1)
    && (forall id :: id in v.chans ==> id in v'.chans)
    && forall id :: id in v'.chans ==>
         if id == v.issued + 1 then v'.chans[id] == []
         else id in v.chans && (v'.chans[id] == v.chans[id] || (v.chans[id] != [] && v'.chans[id] == v.chans[id][1..]))
  }

  lemma SubmittingTakes(s: State, c: nat)
    requires CallerEnabled(s, Register(c)) && s.hub.issued + 1 !in s.hub.chans
    ensures Takes(s.hub, CallerNext(s, Register(c)).hub)
  {
    hide Finished;
  }

  lemma LeavingTakes(s: State, step: Step)
    requires CallerEnabled(s, step) && (step.Receive? || step.Drop?) && s.hub.issued + 1 !in s.hub.chans
    ensures Takes(s.hub, CallerNext(s, step).hub)
  {
    hide Finished, Counted;
  }

  lemma MovingTakes(s: State, step: Step)
    requires CallerEnabled(s, step) && !step.Register? && !step.Receive? && !step.Drop? && s.hub.issued + 1 !in s.hub.chans
    ensures Takes(s.hub, CallerNext(s, step).hub)
  {
    hide CallerNext, CallerEnabled;
    if step.Begin? || step.Acquire? || step.Release? {
      SessionsLeaveChannels(s, step);
    } else {
      MovesLeaveChannels(s, step);
    }
  }

  lemma SessionsLeaveChannels(s: State, step: Step)
    requires CallerEnabled(s, step) && (step.Begin? || step.Acquire? || step.Release?)
    ensures CallerNext(s, step).hub.pending == s.hub.pending && CallerNext(s, step).hub.chans == s.hub.chans
  {
    hide SessionKey, SessionIndependent, HasRoom;
  }

  lemma MovesLeaveChannels(s: State, step: Step)
    requires CallerEnabled(s, step) && !step.Begin? && !step.Acquire? && !step.Release?
    requires !step.Register? && !step.Receive? && !step.Drop?
    ensures CallerNext(s, step).hub == s.hub
  {
    hide Finished, HasRoom;
  }

  lemma TakingIsTruthful(answered: set<nat>, v: View, v': View, handlers: map<nat, Handler>)
    requires Takes(v, v') && Truthful(answered, v.pending, v.chans, handlers) && v.issued + 1 !in v.chans
    ensures Truthful(answered, v'.pending, v'.chans, handlers)
  {}

  lemma CallerStepTruthful(s: State, step: Step, answered: set<nat>)
    requires CallerEnabled(s, step) && s.hub.issued + 1 !in s.hub.chans
    requires Truthful(answered, s.hub.pending, s.hub.chans, s.handlers)
    ensures var t := CallerNext(s, step); Truthful(answered, t.hub.pending, t.hub.chans, t.handlers)
  {
    CallersLeaveHandlers(s, step);
    hide CallerNext, CallerEnabled, Truthful, Takes;
    if step.Register? {
      SubmittingTakes(s, step.c);
    } else if step.Receive? || step.Drop? {
      LeavingTakes(s, step);
    } else {
      MovingTakes(s, step);
    }
    TakingIsTruthful(answered, s.hub, CallerNext(s, step).hub, s.handlers);
  }

  lemma ResultTruthful(s: State, h: nat, id: nat, answered: set<nat>)
    requires HandlerEnabled(s, Result(h, id)) && Truthful(answered, s.hub.pending, s.hub.chans, s.handlers)
    requires forall i :: i in s.hub.pending ==> i in s.hub.chans && s.hub.chans[i] == []
    ensures var t := HandlerNext(s, Result(h, id));
            Truthful(answered + AnsweredBy(s, Result(h, id)), t.hub.pending, t.hub.chans, t.handlers)
  {
    hide Counted;
  }

  lemma SendingTruthful(s: State, step: Step, answered: set<nat>)
    requires HandlerEnabled(s, step) && (step.Deliver? || step.FlushOne?)
    requires Truthful(answered, s.hub.pending, s.hub.chans, s.handlers)
    ensures var t := HandlerNext(s, step); Truthful(answered, t.hub.pending, t.hub.chans, t.handlers)
  {
    hide Counted;
  }

  lemma OtherwiseTruthful(s: State, step: Step, answered: set<nat>)
    requires HandlerEnabled(s, step) && !step.Result? && !step.Deliver? && !step.FlushOne?
    requires Truthful(answered, s.hub.pending, s.hub.chans, s.handlers)
    ensures var t := HandlerNext(s, step); Truthful(answered, t.hub.pending, t.hub.chans, t.handlers)
  {
    OtherHandlerSteps(s, step);
    hide Truthful, HandlerNext, HandlerEnabled;
    if step.Disconnect? || step.FlushEnd? {
      EndsLeaveChannels(s, step);
    } else if step.Connect? {
      ArrivalsLeaveChannels(s, step.h, step.now);
    } else {
      MessagesLeaveChannels(s, step);
    }
    FewerDeliveries(answered, s.hub.pending, s.hub.chans, s.handlers, HandlerNext(s, step).handlers);
  }

  /** Nothing on the channels changes, and nobody claims a call. */
  ghost predicate LeavesChannels(s: State, t: State) {
    && t.hub.pending == s.hub.pending && t.hub.chans == s.hub.chans
    && forall h :: h in t.handlers && t.handlers[h].Delivering? ==> h in s.handlers && t.handlers[h] == s.handlers[h]
  }

  lemma EndsLeaveChannels(s: State, step: Step)
    requires HandlerEnabled(s, step) && (step.Disconnect? || step.FlushEnd?)
    ensures LeavesChannels(s, HandlerNext(s, step))
  {
    hide HasRoom, Counted, Accepts, FlushedOne;
  }

  lemma ArrivalsLeaveChannels(s: State, h: nat, now: int)
    requires HandlerEnabled(s, Connect(h, now))
    ensures LeavesChannels(s, HandlerNext(s, Connect(h, now)))
  {
    hide Accepts;
  }

  lemma MessagesLeaveChannels(s: State, step: Step)
    requires HandlerEnabled(s, step) && (step.Activity? || step.Greet?)
    ensures LeavesChannels(s, HandlerNext(s, step))
  {
    hide HasRoom, Counted, Accepts, FlushedOne, Flushed;
  }

  lemma FewerDeliveries(answered: set<nat>, pending: set<nat>, chans: map<nat, seq<Envelope>>, handlers: map<nat, Handler>,
                        handlers': map<nat, Handler>)
    requires Truthful(answered, pending, chans, handlers)
    requires forall h :: h in handlers' && handlers'[h].Delivering? ==> h in handlers && handlers'[h] == handlers[h]
    ensures Truthful(answered, pending, chans, handlers')
  {}

  lemma {:induction false} AnswersAreTruthful(steps: seq<Step>)
    ensures var s := After(steps); Truthful(Answered(steps), s.hub.pending, s.hub.chans, s.handlers)
    decreases |steps|
  {
    if steps != [] {
      var n := |steps| - 1;
      var s, step := After(steps[..n]), steps[n];
      AnswersAreTruthful(steps[..n]);
      EveryInterleavingKeepsInv(steps[..n]);
      PendingAreEmpty(s);
      hide Truthful, Inv, CallerNext, HandlerNext, CallerEnabled, HandlerEnabled, AnsweredBy;
      OnlyResultsAnswer(s, step);
      if CallerEnabled(s, step) {
        CallerStepTruthful(s, step, Answered(steps[..n]));
      } else if HandlerEnabled(s, step) {
        if step.Result? {
          ResultTruthful(s, step.h, step.id, Answered(steps[..n]));
        } else if step.Deliver? || step.FlushOne? {
          SendingTruthful(s, step, Answered(steps[..n]));
        } else {
          OtherwiseTruthful(s, step, Answered(steps[..n]));
        }
      }
    }
  }

  lemma OnlyResultsAnswer(s: State, step: Step)
    ensures CallerEnabled(s, step) || !HandlerEnabled(s, step) || !step.Result? ==> AnsweredBy(s, step) == {}
  {}

  lemma PendingAreEmpty(s: State)
    requires Inv(s)
    ensures s.hub.issued + 1 !in s.hub.chans
    ensures forall i :: i in s.hub.pending ==> i in s.hub.chans && s.hub.chans[i] == []
  {
    hide OwnersOk, SessionsOk, ConnectionOk, WaitersOk;
  }

  /** The answer a caller receives is the extension's own if and only if the extension answered that call while it
      was pending; otherwise it is the error made up when the extension disconnected. */
  lemma AnswerIsGenuine(steps: seq<Step>, c: nat)
    requires CallerEnabled(After(steps), Receive(c))
    ensures var s := After(steps); var e := s.hub.chans[s.callers[c].id][0];
            e.id == s.callers[c].id && (e.fromExtension <==> e.id in Answered(steps))
  {
    AnswersAreTruthful(steps);
    RepliesMatch(steps, c);
  }
}
