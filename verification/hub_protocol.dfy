/** All interleavings of the hub's callers and connection handlers. One step is one critical section,
    one channel or semaphore operation, or one wake-up; the flush of a closing connection holds the
    mutex over many steps. */
module HubProtocol {
  import opened Prelude
  import opened Hub

  /** Where a call is. The key is the session whose semaphore it holds or wants, if any. */
  datatype Caller =
    | Queued(wants: string)                        // in acquireSession's select
    | Checking(key: Option<string>)                // about to look at the connection
    | Parked(key: Option<string>, seen: nat)       // waiting for state-changed channel `seen` to close
    | Ready(key: Option<string>)                   // saw a connection, about to register
    | Sending(key: Option<string>, id: nat)        // registered, writing the request
    | Waiting(key: Option<string>, id: nat)        // waiting for its reply or its deadline
    | Dropping(key: Option<string>, id: nat)       // gave up, about to leave `pending`
    | Releasing(holds: string)                     // deferred release of the session
    | Returned

  datatype Handler =
    | Serving
    | Delivering(e: Envelope)      // claimed a call, about to send on its channel
    | Flushing                     // closing, holds the mutex
    | Gone                         // closed, or refused on arrival

  /** `mutex` is the handler that holds the mutex across steps. The last four fields are history: who
      registered a call, who last took a session, how often a call left `pending`, and how many
      envelopes were sent on its channel. */
  datatype State = State(
    hub: View, callers: map<nat, Caller>, handlers: map<nat, Handler>, mutex: Option<nat>,
    owner: map<nat, nat>, holder: map<string, nat>, left: map<nat, nat>, sent: map<nat, nat>)

  const Start := State(Initial, map[], map[], None, map[], map[], map[], map[])

  datatype Step =
    | Begin(c: nat, action: string, session: string)
    | Acquire(c: nat)
    | GiveUpQueue(c: nat)
    | Check(c: nat, wait: bool)     // `wait` is false when no reconnect wait is configured
    | Wake(c: nat)
    | GiveUpWait(c: nat)
    | Register(c: nat)
    | Write(c: nat, ok: bool)
    | Receive(c: nat)
    | Deadline(c: nat)
    | Drop(c: nat)
    | Release(c: nat)
    | Connect(h: nat, now: int)
    | Activity(h: nat, now: int)
    | Greet(h: nat, protocol: int)
    | Result(h: nat, id: nat)
    | Deliver(h: nat)
    | Disconnect(h: nat)
    | FlushOne(h: nat, id: nat)
    | FlushEnd(h: nat)

  predicate Free(s: State) { s.mutex.None? }

  predicate CallerEnabled(s: State, step: Step) {
    match step
    case Begin(c, _, _) => c !in s.callers && Free(s)
    case Acquire(c) => c in s.callers && s.callers[c].Queued?
                       && s.callers[c].wants in s.hub.tokens && s.hub.tokens[s.callers[c].wants] < 1
    case GiveUpQueue(c) => c in s.callers && s.callers[c].Queued?
    case Check(c, _) => c in s.callers && s.callers[c].Checking? && Free(s)
    case Wake(c) => c in s.callers && s.callers[c].Parked? && s.callers[c].seen < s.hub.changes
    case GiveUpWait(c) => c in s.callers && s.callers[c].Parked?
    case Register(c) => c in s.callers && s.callers[c].Ready? && Free(s)
    case Write(c, _) => c in s.callers && s.callers[c].Sending?
    case Receive(c) => c in s.callers && s.callers[c].Waiting?
                       && s.callers[c].id in s.hub.chans && s.hub.chans[s.callers[c].id] != []
    case Deadline(c) => c in s.callers && s.callers[c].Waiting?
    case Drop(c) => c in s.callers && s.callers[c].Dropping? && Free(s)
    case Release(c) => c in s.callers && s.callers[c].Releasing? && Free(s)
                       && s.callers[c].holds in s.hub.tokens && s.hub.tokens[s.callers[c].holds] > 0
    case _ => false
  }

  predicate HandlerEnabled(s: State, step: Step) {
    match step
    case Connect(h, _) => h !in s.handlers && Free(s)
    case Activity(h, _) => h in s.handlers && s.handlers[h].Serving? && Free(s)
    case Greet(h, _) => h in s.handlers && s.handlers[h].Serving? && Free(s)
    case Result(h, _) => h in s.handlers && s.handlers[h].Serving? && Free(s)
    case Deliver(h) => h in s.handlers && s.handlers[h].Delivering? && HasRoom(s.hub, s.handlers[h].e.id)
    case Disconnect(h) => h in s.handlers && s.handlers[h].Serving? && Free(s)
    case FlushOne(h, id) => h in s.handlers && s.handlers[h].Flushing? && id in s.hub.pending && HasRoom(s.hub, id)
    case FlushEnd(h) => h in s.handlers && s.handlers[h].Flushing? && s.hub.pending == {}
    case _ => false
  }

  predicate Enabled(s: State, step: Step) {
    CallerEnabled(s, step) || HandlerEnabled(s, step)
  }

  /** Leaving a call: the deferred release, if it is bound to a session. */
  function Finished(key: Option<string>): Caller {
    match key case None => Returned case Some(k) => Releasing(k)
  }

  function Move(s: State, c: nat, p: Caller): State {
    s.(callers := s.callers[c := p])
  }

  function Counted(m: map<nat, nat>, id: nat): map<nat, nat> {
    m[id := 1 + if id in m then m[id] else 0]
  }

  function Leave(s: State, id: nat): State {
    if id in s.hub.pending then s.(left := Counted(s.left, id)) else s
  }

  function CallerNext(s: State, step: Step): State
    requires CallerEnabled(s, step)
  {
    var p := if step.c in s.callers then s.callers[step.c] else Returned;
    match step
    case Begin(c, action, session) =>
      if SessionIndependent(action) then Move(s, c, Checking(None))
      else Move(s, c, Queued(SessionKey(session))).(hub := WithSemaphore(s.hub, SessionKey(session)))
    case Acquire(c) =>
      Move(s, c, Checking(Some(p.wants))).(hub := s.hub.(tokens := s.hub.tokens[p.wants := s.hub.tokens[p.wants] + 1]),
                                           holder := s.holder[p.wants := c])
    case GiveUpQueue(c) => Move(s, c, Returned)
    case Check(c, wait) =>
      if s.hub.connected && s.hub.conn.Some? then Move(s, c, Ready(p.key))
      else if wait then Move(s, c, Parked(p.key, s.hub.changes))
      else Move(s, c, Finished(p.key))
    case Wake(c) => Move(s, c, Checking(p.key))
    case GiveUpWait(c) => Move(s, c, Finished(p.key))
    case Register(c) =>
      if SubmissionFor(s.hub).Submitted? then
        Move(s, c, Sending(p.key, s.hub.issued + 1)).(hub := Registered(s.hub), owner := s.owner[s.hub.issued + 1 := c])
      else Move(s, c, Finished(p.key))
    case Write(c, ok) => Move(s, c, if ok then Waiting(p.key, p.id) else Dropping(p.key, p.id))
    case Receive(c) =>
      Move(s, c, Finished(p.key)).(hub := s.hub.(chans := s.hub.chans[p.id := s.hub.chans[p.id][1..]]))
    case Deadline(c) => Move(s, c, Dropping(p.key, p.id))
    case Drop(c) => Move(Leave(s, p.id), c, Finished(p.key)).(hub := Dropped(s.hub, p.id))
    case Release(c) =>
      Move(s, c, Returned).(hub := s.hub.(tokens := s.hub.tokens[p.holds := s.hub.tokens[p.holds] - 1]))
  }

  function HandlerNext(s: State, step: Step): State
    requires HandlerEnabled(s, step)
  {
    match step
    case Connect(h, now) =>
      if Accepts(s.hub, now) then s.(hub := Attach(s.hub, h, now), handlers := s.handlers[h := Serving])
      else s.(handlers := s.handlers[h := Gone])
    case Activity(h, now) => s.(hub := s.hub.(lastActivity := now))
    case Greet(h, protocol) => s.(hub := s.hub.(extProtocol := protocol, compatible := protocol == PROTOCOL_VERSION))
    case Result(h, id) =>
      if id in s.hub.pending then
        Leave(s, id).(hub := Dropped(s.hub, id), handlers := s.handlers[h := Delivering(Envelope(id, true))])
      else s
    case Deliver(h) =>
      s.(hub := Sent(s.hub, s.handlers[h].e.id, s.handlers[h].e), handlers := s.handlers[h := Serving],
         sent := Counted(s.sent, s.handlers[h].e.id))
    case Disconnect(h) =>
      if s.hub.conn == Some(h) then
        s.(hub := Detach(s.hub), handlers := s.handlers[h := Flushing], mutex := Some(h))
      else s.(handlers := s.handlers[h := Gone])
    case FlushOne(h, id) => Leave(s, id).(hub := FlushedOne(s.hub, id), sent := Counted(s.sent, id))
    case FlushEnd(h) => s.(handlers := s.handlers[h := Gone], mutex := None)
  }

  function Next(s: State, step: Step): State
    requires Enabled(s, step)
  {
    if CallerEnabled(s, step) then CallerNext(s, step) else HandlerNext(s, step)
  }

  /** The state after an interleaving; a step that is not enabled does not happen. */
  function After(steps: seq<Step>): State
    decreases |steps|
  {
    if steps == [] then Start
    else
      var s := After(steps[..|steps| - 1]);
      if Enabled(s, steps[|steps| - 1]) then Next(s, steps[|steps| - 1]) else s
  }

  // ---------------------------------------------------------------- what every interleaving keeps

  predicate Has(p: Caller, id: nat) {
    (p.Sending? || p.Waiting? || p.Dropping?) && p.id == id
  }

  predicate Holds(p: Caller, key: string) {
    match p
    case Queued(_) => false
    case Releasing(k) => k == key
    case Returned => false
    case _ => p.key == Some(key)
  }

  /** Every number up to `issued` entered `pending` once; it is still there or left once. Nothing was
      ever sent to a call that is pending or claimed, one envelope at most to any other, and a channel
      holds at most its own envelope. */
  ghost predicate ChannelsOk(issued: nat, pending: set<nat>, chans: map<nat, seq<Envelope>>,
                             left: map<nat, nat>, sent: map<nat, nat>, handlers: map<nat, Handler>) {
    && (forall id :: id in chans <==> 1 <= id <= issued)
    && (forall id :: id in pending ==> id in chans && id !in left && id !in sent)
    && (forall id :: id in chans && id !in pending ==> id in left)
    && (forall id :: id in left ==> id in chans && left[id] == 1)
    && (forall id :: id in sent ==> id in chans && sent[id] == 1)
    && (forall id :: id in chans && chans[id] != [] ==> id in sent && |chans[id]| == 1 && chans[id][0].id == id)
    && (forall h :: h in handlers && handlers[h].Delivering? ==> Claimed(left, sent, handlers[h].e.id))
    && (forall g, h :: g in handlers && h in handlers && handlers[g].Delivering? && handlers[h].Delivering? && g != h ==>
          handlers[g].e.id != handlers[h].e.id)
  }

  predicate Claimed(left: map<nat, nat>, sent: map<nat, nat>, id: nat) {
    id in left && id !in sent
  }

  /** A pending call belongs to a caller still inside it, and no two callers share a number. */
  ghost predicate OwnersOk(issued: nat, pending: set<nat>, owner: map<nat, nat>, callers: map<nat, Caller>) {
    && (forall id :: id in pending ==> id in owner && owner[id] in callers && Has(callers[owner[id]], id))
    && (forall c, id: nat {:trigger Has(callers[c], id)} :: c in callers && Has(callers[c], id) ==> id <= issued && id in owner && owner[id] == c)
  }

  /** A semaphore holds one token exactly while one caller holds the session. */
  ghost predicate SessionsOk(tokens: map<string, nat>, holder: map<string, nat>, callers: map<nat, Caller>) {
    && (forall k :: k in tokens && tokens[k] != 0 ==>
          tokens[k] == 1 && k in holder && holder[k] in callers && Holds(callers[holder[k]], k))
    && (forall c, k :: c in callers && Holds(callers[c], k) ==> k in tokens && tokens[k] == 1 && k in holder && holder[k] == c)
    && (forall c :: c in callers && callers[c].Queued? ==> callers[c].wants in tokens)
  }

  ghost predicate ConnectionOk(conn: Option<nat>, connected: bool, pending: set<nat>, mutex: Option<nat>,
                               handlers: map<nat, Handler>) {
    && (connected <==> conn.Some?)
    && (mutex.None? && conn.None? ==> pending == {})
    && (mutex.Some? ==> conn.None? && mutex.value in handlers && handlers[mutex.value].Flushing?)
    && (forall h :: h in handlers && handlers[h].Flushing? ==> mutex == Some(h))
    && (conn.Some? ==> conn.value in handlers && !handlers[conn.value].Gone?)
  }

  /** No waiter is parked on the current state-changed channel while an extension is connected. */
  ghost predicate WaitersOk(changes: nat, connected: bool, callers: map<nat, Caller>) {
    forall c :: c in callers && callers[c].Parked? ==>
      callers[c].seen < changes || (callers[c].seen == changes && !connected)
  }

  ghost predicate Inv(s: State) {
    && ChannelsOk(s.hub.issued, s.hub.pending, s.hub.chans, s.left, s.sent, s.handlers)
    && OwnersOk(s.hub.issued, s.hub.pending, s.owner, s.callers)
    && SessionsOk(s.hub.tokens, s.holder, s.callers)
    && ConnectionOk(s.hub.conn, s.hub.connected, s.hub.pending, s.mutex, s.handlers)
    && WaitersOk(s.hub.changes, s.hub.connected, s.callers)
  }

  // ---------------------------------------------------------------- the callers' steps

  /** A caller that moves without taking or giving up a session. */
  lemma SessionsMove(tokens: map<string, nat>, holder: map<string, nat>, callers: map<nat, Caller>, c: nat, p: Caller)
    requires SessionsOk(tokens, holder, callers)
    requires c in callers && !p.Queued? && forall k :: Holds(p, k) <==> Holds(callers[c], k)
    ensures SessionsOk(tokens, holder, callers[c := p])
  {}

  lemma SessionsQueue(tokens: map<string, nat>, holder: map<string, nat>, callers: map<nat, Caller>, c: nat, k: string)
    requires SessionsOk(tokens, holder, callers) && c !in callers
    ensures SessionsOk(if k in tokens then tokens else tokens[k := 0], holder, callers[c := Queued(k)])
    ensures SessionsOk(tokens, holder, callers[c := Checking(None)])
  {}

  lemma SessionsAcquire(tokens: map<string, nat>, holder: map<string, nat>, callers: map<nat, Caller>, c: nat, k: string)
    requires SessionsOk(tokens, holder, callers) && c in callers && callers[c] == Queued(k)
    requires k in tokens && tokens[k] < 1
    ensures SessionsOk(tokens[k := tokens[k] + 1], holder[k := c], callers[c := Checking(Some(k))])
  {}

  lemma SessionsRelease(tokens: map<string, nat>, holder: map<string, nat>, callers: map<nat, Caller>, c: nat, k: string)
    requires SessionsOk(tokens, holder, callers) && c in callers && callers[c] == Releasing(k)
    ensures k in tokens && tokens[k] == 1
    ensures SessionsOk(tokens[k := tokens[k] - 1], holder, callers[c := Returned])
  {
    assert Holds(callers[c], k);
  }

  /** A caller that moves and keeps its call number, or gives up one that is not pending. */
  lemma OwnersMove(issued: nat, pending: set<nat>, owner: map<nat, nat>, callers: map<nat, Caller>, c: nat, p: Caller)
    requires OwnersOk(issued, pending, owner, callers)
    requires c in callers ==> forall id: nat :: Has(callers[c], id) ==> Has(p, id) || id !in pending
    requires forall id: nat :: Has(p, id) ==> c in callers && Has(callers[c], id)
    ensures OwnersOk(issued, pending, owner, callers[c := p])
  {
    var callers' := callers[c := p];
    forall id | id in pending ensures id in owner && owner[id] in callers' && Has(callers'[owner[id]], id) {
      assert Has(callers[owner[id]], id);
    }
  }

  lemma OwnersRegister(issued: nat, pending: set<nat>, owner: map<nat, nat>, callers: map<nat, Caller>, c: nat, p: Caller)
    requires OwnersOk(issued, pending, owner, callers) && (forall id :: id in pending ==> id <= issued)
    requires c in callers && (forall id: nat :: !Has(callers[c], id))
    requires p.Sending? && p.id == issued + 1
    ensures OwnersOk(issued + 1, pending + {issued + 1}, owner[issued + 1 := c], callers[c := p])
  {
    var callers', owner' := callers[c := p], owner[issued + 1 := c];
    assert Has(p, issued + 1);
    forall id | id in pending + {issued + 1}
      ensures id in owner' && owner'[id] in callers' && Has(callers'[owner'[id]], id)
    {
      if id in pending {
        assert Has(callers[owner[id]], id);
      }
    }
    forall d, id: nat | d in callers' && Has(callers'[d], id)
      ensures id <= issued + 1 && id in owner' && owner'[id] == d
    {
      if d == c {
        assert callers'[d] == p && Has(p, id);
        assert id == issued + 1;
      } else {
        assert callers'[d] == callers[d] && Has(callers[d], id);
        assert id <= issued;
      }
    }
  }

  /** Calls may leave `pending` freely as far as ownership goes. */
  lemma OwnersShrink(issued: nat, pending: set<nat>, owner: map<nat, nat>, callers: map<nat, Caller>, fewer: set<nat>)
    requires OwnersOk(issued, pending, owner, callers) && fewer <= pending
    ensures OwnersOk(issued, fewer, owner, callers)
  {}

  lemma WaitersMove(changes: nat, connected: bool, callers: map<nat, Caller>, c: nat, p: Caller)
    requires WaitersOk(changes, connected, callers)
    requires p.Parked? ==> p.seen == changes && !connected
    ensures WaitersOk(changes, connected, callers[c := p])
  {}

  /** A caller that moves while the hub and all history stay as they are. */
  lemma MoveKept(s: State, c: nat, p: Caller)
    requires Inv(s) && c in s.callers
    requires !p.Queued? && forall k :: Holds(p, k) <==> Holds(s.callers[c], k)
    requires forall id: nat :: Has(s.callers[c], id) ==> Has(p, id) || id !in s.hub.pending
    requires forall id: nat :: Has(p, id) ==> Has(s.callers[c], id)
    requires p.Parked? ==> p.seen == s.hub.changes && !s.hub.connected
    ensures Inv(Move(s, c, p))
  {
    hide ChannelsOk, OwnersOk, SessionsOk, ConnectionOk, WaitersOk;
    SessionsMove(s.hub.tokens, s.holder, s.callers, c, p);
    OwnersMove(s.hub.issued, s.hub.pending, s.owner, s.callers, c, p);
    WaitersMove(s.hub.changes, s.hub.connected, s.callers, c, p);
  }

  lemma BeginKept(s: State, c: nat, action: string, session: string)
    requires Inv(s) && CallerEnabled(s, Begin(c, action, session))
    ensures Inv(CallerNext(s, Begin(c, action, session)))
  {
    hide ChannelsOk, OwnersOk, SessionsOk, ConnectionOk, WaitersOk;
    var p := if SessionIndependent(action) then Checking(None) else Queued(SessionKey(session));
    SessionsQueue(s.hub.tokens, s.holder, s.callers, c, SessionKey(session));
    OwnersMove(s.hub.issued, s.hub.pending, s.owner, s.callers, c, p);
    WaitersMove(s.hub.changes, s.hub.connected, s.callers, c, p);
  }

  lemma SemaphoreKept(s: State, step: Step)
    requires Inv(s) && CallerEnabled(s, step) && (step.Acquire? || step.Release?)
    ensures Inv(CallerNext(s, step))
  {
    hide ChannelsOk, OwnersOk, SessionsOk, ConnectionOk, WaitersOk;
    var c := step.c;
    var p := if step.Acquire? then Checking(Some(s.callers[c].wants)) else Returned;
    if step.Acquire? {
      SessionsAcquire(s.hub.tokens, s.holder, s.callers, c, s.callers[c].wants);
    } else {
      SessionsRelease(s.hub.tokens, s.holder, s.callers, c, s.callers[c].holds);
    }
    OwnersMove(s.hub.issued, s.hub.pending, s.owner, s.callers, c, p);
    WaitersMove(s.hub.changes, s.hub.connected, s.callers, c, p);
  }

  lemma ChannelsRegister(issued: nat, pending: set<nat>, chans: map<nat, seq<Envelope>>,
                         left: map<nat, nat>, sent: map<nat, nat>, handlers: map<nat, Handler>)
    requires ChannelsOk(issued, pending, chans, left, sent, handlers)
    ensures forall id :: id in pending ==> id <= issued
    ensures ChannelsOk(issued + 1, pending + {issued + 1}, chans[issued + 1 := []], left, sent, handlers)
  {}

  lemma ConnectionRegister(conn: Option<nat>, connected: bool, pending: set<nat>, id: nat, mutex: Option<nat>,
                           handlers: map<nat, Handler>)
    requires ConnectionOk(conn, connected, pending, mutex, handlers) && connected
    ensures ConnectionOk(conn, connected, pending + {id}, mutex, handlers)
  {}

  /** The state after registering, with the caller's new place `p`. */
  function Registering(s: State, c: nat, p: Caller): State {
    Move(s, c, p).(hub := Registered(s.hub), owner := s.owner[s.hub.issued + 1 := c])
  }

  lemma RegisterKept(s: State, c: nat)
    requires Inv(s) && CallerEnabled(s, Register(c)) && SubmissionFor(s.hub).Submitted?
    ensures Inv(CallerNext(s, Register(c)))
  {
    hide Inv, Registered;
    var p := Sending(s.callers[c].key, s.hub.issued + 1);
    RegisteringKept(s, c, p);
  }

  lemma RegisteringKept(s: State, c: nat, p: Caller)
    requires Inv(s) && s.hub.connected && c in s.callers && s.callers[c].Ready?
    requires p == Sending(s.callers[c].key, s.hub.issued + 1)
    ensures Inv(Registering(s, c, p))
  {
    var v := s.hub;
    hide ChannelsOk, OwnersOk, SessionsOk, ConnectionOk, WaitersOk;
    ConnectionRegister(v.conn, v.connected, v.pending, v.issued + 1, s.mutex, s.handlers);
    ChannelsRegister(v.issued, v.pending, v.chans, s.left, s.sent, s.handlers);
    OwnersRegister(v.issued, v.pending, s.owner, s.callers, c, p);
    SessionsMove(v.tokens, s.holder, s.callers, c, p);
    WaitersMove(v.changes, v.connected, s.callers, c, p);
  }

  lemma ChannelsReceive(issued: nat, pending: set<nat>, chans: map<nat, seq<Envelope>>,
                        left: map<nat, nat>, sent: map<nat, nat>, handlers: map<nat, Handler>, id: nat)
    requires ChannelsOk(issued, pending, chans, left, sent, handlers) && id in chans && chans[id] != []
    ensures ChannelsOk(issued, pending, chans[id := chans[id][1..]], left, sent, handlers)
  {}

  /** A reply is only received once it was sent, and then the call is no longer pending. */
  lemma ReceiveKept(s: State, c: nat)
    requires Inv(s) && CallerEnabled(s, Receive(c))
    ensures Inv(CallerNext(s, Receive(c)))
  {
    var v := s.hub;
    var id := s.callers[c].id;
    hide OwnersOk, SessionsOk, ConnectionOk, WaitersOk;
    ChannelsReceive(v.issued, v.pending, v.chans, s.left, s.sent, s.handlers, id);
    hide ChannelsOk;
    MoveKept(s, c, Finished(s.callers[c].key));
  }

  /** A call claimed from `pending`, or dropped from it, leaves it for the only time. */
  lemma ChannelsLeave(issued: nat, pending: set<nat>, chans: map<nat, seq<Envelope>>,
                      left: map<nat, nat>, sent: map<nat, nat>, handlers: map<nat, Handler>, id: nat)
    requires ChannelsOk(issued, pending, chans, left, sent, handlers)
    ensures ChannelsOk(issued, pending - {id}, chans, if id in pending then Counted(left, id) else left, sent, handlers)
  {}

  lemma DropKept(s: State, c: nat)
    requires Inv(s) && CallerEnabled(s, Drop(c))
    ensures Inv(CallerNext(s, Drop(c)))
  {
    var v := s.hub;
    var p, id := Finished(s.callers[c].key), s.callers[c].id;
    assert ConnectionOk(v.conn, v.connected, v.pending - {id}, s.mutex, s.handlers);
    hide ChannelsOk, OwnersOk, SessionsOk, ConnectionOk, WaitersOk;
    ChannelsLeave(v.issued, v.pending, v.chans, s.left, s.sent, s.handlers, id);
    OwnersShrink(v.issued, v.pending, s.owner, s.callers, v.pending - {id});
    OwnersMove(v.issued, v.pending - {id}, s.owner, s.callers, c, p);
    SessionsMove(v.tokens, s.holder, s.callers, c, p);
    WaitersMove(v.changes, v.connected, s.callers, c, p);
  }

  lemma CallerStepKept(s: State, step: Step)
    requires Inv(s) && CallerEnabled(s, step)
    ensures Inv(CallerNext(s, step))
  {
    hide Inv;
    match step {
      case Begin(c, action, session) => BeginKept(s, c, action, session);
      case Acquire(_) => SemaphoreKept(s, step);
      case Release(_) => SemaphoreKept(s, step);
      case Receive(c) => ReceiveKept(s, c);
      case Drop(c) => DropKept(s, c);
      case Register(c) =>
        if SubmissionFor(s.hub).Submitted? {
          RegisterKept(s, c);
        } else {
          MoveKept(s, c, Finished(s.callers[c].key));
        }
      case Check(c, _) => CheckKept(s, step);
      case GiveUpQueue(c) => MoveKept(s, c, Returned);
      case Wake(c) => MoveKept(s, c, Checking(s.callers[c].key));
      case GiveUpWait(c) => MoveKept(s, c, Finished(s.callers[c].key));
      case Write(c, ok) => MoveKept(s, c, CallerNext(s, step).callers[c]);
      case Deadline(c) => MoveKept(s, c, Dropping(s.callers[c].key, s.callers[c].id));
    }
  }

  /** Parking is only possible on the current channel and without a connection. */
  lemma CheckKept(s: State, step: Step)
    requires Inv(s) && CallerEnabled(s, step) && step.Check?
    ensures Inv(CallerNext(s, step))
  {
    assert s.hub.connected <==> s.hub.conn.Some?;
    hide ChannelsOk, OwnersOk, SessionsOk, ConnectionOk, WaitersOk;
    var key := s.callers[step.c].key;
    if s.hub.connected {
      MoveKept(s, step.c, Ready(key));
    } else if step.wait {
      MoveKept(s, step.c, Parked(key, s.hub.changes));
    } else {
      MoveKept(s, step.c, Finished(key));
    }
  }

  // ---------------------------------------------------------------- the handlers' steps

  lemma ChannelsHandler(issued: nat, pending: set<nat>, chans: map<nat, seq<Envelope>>,
                        left: map<nat, nat>, sent: map<nat, nat>, handlers: map<nat, Handler>, h: nat, p: Handler)
    requires ChannelsOk(issued, pending, chans, left, sent, handlers) && !p.Delivering?
    ensures ChannelsOk(issued, pending, chans, left, sent, handlers[h := p])
  {}

  /** Every state change closes the channel all waiters are parked on. */
  lemma WaitersChange(changes: nat, connected: bool, callers: map<nat, Caller>, now: bool)
    requires WaitersOk(changes, connected, callers)
    ensures WaitersOk(changes + 1, now, callers)
  {}

  lemma ConnectionAttach(conn: Option<nat>, connected: bool, pending: set<nat>, handlers: map<nat, Handler>, h: nat)
    requires ConnectionOk(conn, connected, pending, None, handlers) && h !in handlers
    ensures ConnectionOk(Some(h), true, pending, None, handlers[h := Serving])
    ensures ConnectionOk(conn, connected, pending, None, handlers[h := Gone])
  {}

  lemma ConnectKept(s: State, h: nat, now: int)
    requires Inv(s) && HandlerEnabled(s, Connect(h, now))
    ensures Inv(HandlerNext(s, Connect(h, now)))
  {
    var v := s.hub;
    hide ChannelsOk, OwnersOk, SessionsOk, ConnectionOk, WaitersOk;
    assert s.mutex == None;
    WaitersChange(v.changes, v.connected, s.callers, true);
    ConnectionAttach(v.conn, v.connected, v.pending, s.handlers, h);
    ChannelsHandler(v.issued, v.pending, v.chans, s.left, s.sent, s.handlers, h, Serving);
    ChannelsHandler(v.issued, v.pending, v.chans, s.left, s.sent, s.handlers, h, Gone);
  }

  lemma ConnectionDetach(conn: Option<nat>, connected: bool, pending: set<nat>, mutex: Option<nat>,
                         handlers: map<nat, Handler>, h: nat)
    requires ConnectionOk(conn, connected, pending, mutex, handlers)
    requires h in handlers && handlers[h].Serving? && mutex == None
    ensures if conn == Some(h) then ConnectionOk(None, false, pending, Some(h), handlers[h := Flushing])
            else ConnectionOk(conn, connected, pending, mutex, handlers[h := Gone])
  {}

  lemma DisconnectKept(s: State, h: nat)
    requires Inv(s) && HandlerEnabled(s, Disconnect(h))
    ensures Inv(HandlerNext(s, Disconnect(h)))
  {
    var v := s.hub;
    hide ChannelsOk, OwnersOk, SessionsOk, ConnectionOk, WaitersOk;
    WaitersChange(v.changes, v.connected, s.callers, false);
    ConnectionDetach(v.conn, v.connected, v.pending, s.mutex, s.handlers, h);
    ChannelsHandler(v.issued, v.pending, v.chans, s.left, s.sent, s.handlers, h, Flushing);
    ChannelsHandler(v.issued, v.pending, v.chans, s.left, s.sent, s.handlers, h, Gone);
  }

  lemma FlushEndKept(s: State, h: nat)
    requires Inv(s) && HandlerEnabled(s, FlushEnd(h))
    ensures Inv(HandlerNext(s, FlushEnd(h)))
  {
    var v := s.hub;
    assert ConnectionOk(v.conn, v.connected, v.pending, None, s.handlers[h := Gone]);
    hide ChannelsOk, OwnersOk, SessionsOk, ConnectionOk, WaitersOk;
    ChannelsHandler(v.issued, v.pending, v.chans, s.left, s.sent, s.handlers, h, Gone);
  }

  lemma ChannelsClaim(issued: nat, pending: set<nat>, chans: map<nat, seq<Envelope>>,
                      left: map<nat, nat>, sent: map<nat, nat>, handlers: map<nat, Handler>, h: nat, id: nat)
    requires ChannelsOk(issued, pending, chans, left, sent, handlers) && id in pending
    ensures ChannelsOk(issued, pending - {id}, chans, Counted(left, id), sent, handlers[h := Delivering(Envelope(id, true))])
  {}

  lemma ResultKept(s: State, h: nat, id: nat)
    requires Inv(s) && HandlerEnabled(s, Result(h, id)) && id in s.hub.pending
    ensures Inv(HandlerNext(s, Result(h, id)))
  {
    var v := s.hub;
    var s' := HandlerNext(s, Result(h, id));
    assert ConnectionOk(s'.hub.conn, s'.hub.connected, s'.hub.pending, s'.mutex, s'.handlers);
    hide ChannelsOk, OwnersOk, SessionsOk, ConnectionOk, WaitersOk;
    ChannelsClaim(v.issued, v.pending, v.chans, s.left, s.sent, s.handlers, h, id);
    OwnersShrink(v.issued, v.pending, s.owner, s.callers, v.pending - {id});
  }

  lemma ChannelsDeliver(issued: nat, pending: set<nat>, chans: map<nat, seq<Envelope>>,
                        left: map<nat, nat>, sent: map<nat, nat>, handlers: map<nat, Handler>, h: nat)
    requires ChannelsOk(issued, pending, chans, left, sent, handlers)
    requires h in handlers && handlers[h].Delivering?
    ensures var e := handlers[h].e;
            && e.id in chans && chans[e.id] == []
            && ChannelsOk(issued, pending, chans[e.id := chans[e.id] + [e]], left, Counted(sent, e.id), handlers[h := Serving])
  {}

  lemma DeliverKept(s: State, h: nat)
    requires Inv(s) && HandlerEnabled(s, Deliver(h))
    ensures Inv(HandlerNext(s, Deliver(h)))
  {
    var s' := HandlerNext(s, Deliver(h));
    assert ConnectionOk(s'.hub.conn, s'.hub.connected, s'.hub.pending, s'.mutex, s'.handlers);
    hide ChannelsOk, OwnersOk, SessionsOk, ConnectionOk, WaitersOk;
    ChannelsDeliver(s.hub.issued, s.hub.pending, s.hub.chans, s.left, s.sent, s.handlers, h);
  }

  lemma ChannelsFlush(issued: nat, pending: set<nat>, chans: map<nat, seq<Envelope>>,
                      left: map<nat, nat>, sent: map<nat, nat>, handlers: map<nat, Handler>, id: nat)
    requires ChannelsOk(issued, pending, chans, left, sent, handlers) && id in pending
    ensures id in chans && chans[id] == []
    ensures ChannelsOk(issued, pending - {id}, chans[id := chans[id] + [Envelope(id, false)]],
                       Counted(left, id), Counted(sent, id), handlers)
  {}

  lemma FlushKept(s: State, h: nat, id: nat)
    requires Inv(s) && HandlerEnabled(s, FlushOne(h, id))
    ensures Inv(HandlerNext(s, FlushOne(h, id)))
  {
    var v := s.hub;
    assert ConnectionOk(v.conn, v.connected, v.pending - {id}, s.mutex, s.handlers);
    hide ChannelsOk, OwnersOk, SessionsOk, ConnectionOk, WaitersOk;
    ChannelsFlush(v.issued, v.pending, v.chans, s.left, s.sent, s.handlers, id);
    OwnersShrink(v.issued, v.pending, s.owner, s.callers, v.pending - {id});
  }

  lemma HandlerStepKept(s: State, step: Step)
    requires Inv(s) && HandlerEnabled(s, step)
    ensures Inv(HandlerNext(s, step))
  {
    match step {
      case Connect(h, now) => ConnectKept(s, h, now);
      case Result(h, id) =>
        if id in s.hub.pending {
          ResultKept(s, h, id);
        }
      case Deliver(h) => DeliverKept(s, h);
      case Disconnect(h) => DisconnectKept(s, h);
      case FlushEnd(h) => FlushEndKept(s, h);
      case FlushOne(h, id) => FlushKept(s, h, id);
      case _ =>
        hide ChannelsOk, OwnersOk, SessionsOk, ConnectionOk, WaitersOk;
    }
  }

  // ---------------------------------------------------------------- main results

  /** The invariant holds after every interleaving. */
  lemma {:induction false} EveryInterleavingKeepsInv(steps: seq<Step>)
    ensures Inv(After(steps))
    decreases |steps|
  {
    if steps != [] {
      var n := |steps| - 1;
      EveryInterleavingKeepsInv(steps[..n]);
      var s := After(steps[..n]);
      hide Inv, CallerNext, HandlerNext, CallerEnabled, HandlerEnabled;
      if CallerEnabled(s, steps[n]) {
        CallerStepKept(s, steps[n]);
      } else if HandlerEnabled(s, steps[n]) {
        HandlerStepKept(s, steps[n]);
      }
    }
  }

  /** No blocked sender: whoever is about to send on a reply channel, the flush under the mutex included,
      finds room. */
  lemma NoBlockedSender(steps: seq<Step>, h: nat)
    requires h in After(steps).handlers
    ensures var s := After(steps);
            && (s.handlers[h].Delivering? ==> HandlerEnabled(s, Deliver(h)))
            && (s.handlers[h].Flushing? ==> forall id :: id in s.hub.pending ==> HandlerEnabled(s, FlushOne(h, id)))
  {
    EveryInterleavingKeepsInv(steps);
    var s := After(steps);
    if s.handlers[h].Delivering? {
      assert Claimed(s.left, s.sent, s.handlers[h].e.id);
    }
  }

  /** Every call number entered `pending` once and is still there or left once, and its channel gets at
      most one envelope over the whole run. */
  lemma EntersAndLeavesOnce(steps: seq<Step>, id: nat)
    requires 1 <= id <= After(steps).hub.issued
    ensures var s := After(steps);
            && (if id in s.hub.pending then id !in s.left && id !in s.sent else id in s.left && s.left[id] == 1)
            && (id in s.sent ==> s.sent[id] == 1)
  {
    EveryInterleavingKeepsInv(steps);
  }

  /** A caller that receives gets the answer to its own call. */
  lemma RepliesMatch(steps: seq<Step>, c: nat)
    requires CallerEnabled(After(steps), Receive(c))
    ensures var s := After(steps);
            s.hub.chans[s.callers[c].id][0].id == s.callers[c].id
  {
    EveryInterleavingKeepsInv(steps);
  }

  /** Session exclusion: one holder per session, the semaphore counts it, and its release never blocks. */
  lemma SessionExclusion(steps: seq<Step>, c: nat, d: nat, key: string)
    requires c in After(steps).callers && Holds(After(steps).callers[c], key)
    ensures var s := After(steps);
            && key in s.hub.tokens && s.hub.tokens[key] == 1
            && (d in s.callers && Holds(s.callers[d], key) ==> d == c)
            && (s.callers[c].Releasing? && Free(s) ==> CallerEnabled(s, Release(c)))
  {
    EveryInterleavingKeepsInv(steps);
    var s := After(steps);
    hide After, ChannelsOk, OwnersOk, SessionsOk, ConnectionOk, WaitersOk;
    HolderIsUnique(s.hub.tokens, s.holder, s.callers, c, d, key);
  }

  lemma HolderIsUnique(tokens: map<string, nat>, holder: map<string, nat>, callers: map<nat, Caller>, c: nat, d: nat, k: string)
    requires SessionsOk(tokens, holder, callers) && c in callers && Holds(callers[c], k)
    ensures k in tokens && tokens[k] == 1
    ensures d in callers && Holds(callers[d], k) ==> d == c
  {}

  lemma OwnerOf(issued: nat, pending: set<nat>, owner: map<nat, nat>, callers: map<nat, Caller>, id: nat)
    requires OwnersOk(issued, pending, owner, callers) && id in pending
    ensures id in owner && owner[id] in callers && Has(callers[owner[id]], id)
  {}

  /** Every pending call belongs to a caller that is inside it, and of one session at most one call is
      pending. */
  lemma OnePendingPerSession(steps: seq<Step>, i: nat, j: nat)
    requires i in After(steps).hub.pending && j in After(steps).hub.pending
    ensures var s := After(steps);
            && i in s.owner && s.owner[i] in s.callers && Has(s.callers[s.owner[i]], i)
            && j in s.owner && s.owner[j] in s.callers && Has(s.callers[s.owner[j]], j)
            && (s.callers[s.owner[i]].key.Some? && s.callers[s.owner[i]].key == s.callers[s.owner[j]].key ==> i == j)
  {
    EveryInterleavingKeepsInv(steps);
    var s := After(steps);
    hide After, ChannelsOk, OwnersOk, SessionsOk, ConnectionOk, WaitersOk;
    OwnerOf(s.hub.issued, s.hub.pending, s.owner, s.callers, i);
    OwnerOf(s.hub.issued, s.hub.pending, s.owner, s.callers, j);
    var c, d := s.owner[i], s.owner[j];
    if s.callers[c].key.Some? && s.callers[c].key == s.callers[d].key {
      HolderIsUnique(s.hub.tokens, s.holder, s.callers, c, d, s.callers[c].key.value);
    }
  }

  /** A session nobody holds has an empty semaphore, so a queued caller can take it. */
  lemma FreeSessionCanBeTaken(steps: seq<Step>, c: nat)
    requires c in After(steps).callers && After(steps).callers[c].Queued?
    requires forall d :: d in After(steps).callers ==> !Holds(After(steps).callers[d], After(steps).callers[c].wants)
    ensures CallerEnabled(After(steps), Acquire(c))
  {
    EveryInterleavingKeepsInv(steps);
  }

  /** Connection state: connected exactly while a connection is owned; nothing is pending without one once
      the mutex is free; and while one is owned every parked waiter can wake up. */
  lemma ConnectionAndWakeUps(steps: seq<Step>)
    ensures var s := After(steps);
            && (s.hub.connected <==> s.hub.conn.Some?)
            && (Free(s) && s.hub.conn.None? ==> s.hub.pending == {})
            && (s.hub.connected ==> forall c :: c in s.callers && s.callers[c].Parked? ==> CallerEnabled(s, Wake(c)))
  {
    EveryInterleavingKeepsInv(steps);
  }

  /** A handler that registered but does not own the connection: refused, or taken over. */
  predicate Superseded(s: State, h: nat) {
    h in s.handlers && s.hub.conn != Some(h)
  }

  lemma MovesLeaveHandlers(s: State, step: Step)
    requires CallerEnabled(s, step)
    requires !step.Begin? && !step.Acquire? && !step.Register? && !step.Receive? && !step.Drop? && !step.Release?
    ensures CallerNext(s, step).handlers == s.handlers && CallerNext(s, step).hub.conn == s.hub.conn
  {
    hide Finished, HasRoom;
  }

  lemma CallersLeaveHandlers(s: State, step: Step)
    requires CallerEnabled(s, step)
    ensures CallerNext(s, step).handlers == s.handlers && CallerNext(s, step).hub.conn == s.hub.conn
  {
    hide SubmissionFor, SessionKey, SessionIndependent, Finished, HasRoom;
    if step.Begin? || step.Acquire? || step.Register? {
      assert CallerNext(s, step).handlers == s.handlers;
    } else if step.Receive? || step.Drop? || step.Release? {
      assert CallerNext(s, step).handlers == s.handlers;
    } else {
      MovesLeaveHandlers(s, step);
    }
  }

  lemma HandlersStay(s: State, step: Step, h: nat)
    requires HandlerEnabled(s, step) && Superseded(s, h)
    ensures Superseded(HandlerNext(s, step), h)
  {
    hide Flushed, Accepts, Counted, HasRoom;
  }

  lemma StepKeepsSuperseded(s: State, step: Step, h: nat)
    requires Superseded(s, h) && Enabled(s, step)
    ensures Superseded(Next(s, step), h)
  {
    hide CallerNext, CallerEnabled, HandlerNext, HandlerEnabled;
    if CallerEnabled(s, step) {
      CallersLeaveHandlers(s, step);
    } else {
      HandlersStay(s, step, h);
    }
  }

  /** Once superseded, always superseded: a handler that does not own the connection after some steps does
      not own it after any continuation, and when it then exits, the hub, with its connection, its pending
      table and its reply channels, and the mutex stay as they are. */
  lemma {:induction false} SupersededExitIsSilent(steps: seq<Step>, more: seq<Step>, h: nat)
    requires Superseded(After(steps), h)
    ensures var s := After(steps + more);
            && Superseded(s, h)
            && (Enabled(s, Disconnect(h)) ==>
                  Next(s, Disconnect(h)).hub == s.hub && Next(s, Disconnect(h)).mutex == s.mutex
                  && Superseded(Next(s, Disconnect(h)), h))
    decreases |more|
  {
    if more == [] {
      assert steps + more == steps;
    } else {
      var n := |more| - 1;
      var all := steps + more;
      assert all[..|all| - 1] == steps + more[..n] && all[|all| - 1] == more[n];
      hide Next, Enabled;
      SupersededExitIsSilent(steps, more[..n], h);
      var s := After(steps + more[..n]);
      if Enabled(s, more[n]) {
        StepKeepsSuperseded(s, more[n], h);
      }
    }
    if Enabled(After(steps + more), Disconnect(h)) {
      ExitIsSilent(After(steps + more), h);
      StepKeepsSuperseded(After(steps + more), Disconnect(h), h);
    }
  }

  lemma ExitIsSilent(s: State, h: nat)
    requires Superseded(s, h) && Enabled(s, Disconnect(h))
    ensures Next(s, Disconnect(h)).hub == s.hub && Next(s, Disconnect(h)).mutex == s.mutex
  {}

  /** When every call has returned, nothing is left behind: no pending entry and no token taken. */
  lemma NothingLeaks(steps: seq<Step>)
    requires forall c :: c in After(steps).callers ==> After(steps).callers[c].Returned?
    ensures After(steps).hub.pending == {}
    ensures forall k :: k in After(steps).hub.tokens ==> After(steps).hub.tokens[k] == 0
  {
    EveryInterleavingKeepsInv(steps);
  }
}
