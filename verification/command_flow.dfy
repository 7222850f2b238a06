/** Navigation commands on their way through the daemon under one fixed rule: reserve a slot, wait for
    it, call the browser, then keep the slot or give it back. Any number of commands interleave; each
    step is one critical section of the limiter or one event seen by a single command. */
module CommandFlow {
  import opened Prelude
  import opened SlidingWindow

  datatype Phase =
    | Waiting(at: int)        // slot reserved, timer running
    | Calling(at: int)        // slot due, the browser call is under way
    | Cancelled(at: int)      // context done while waiting, slot not yet given back
    | RollingBack(at: int)    // call failed and the reservation is marked done, slot not yet given back
    | Succeeded(at: int)      // call succeeded and the reservation is committed
    | Failed                  // slot given back
    | Rejected                // never had a slot

  datatype Step =
    | Arrive(now: int, deadline: Option<int>)
    | TimerFires(i: nat)
    | ContextDone(i: nat)
    | DropCancelled(i: nat)
    | CallSucceeds(i: nat)
    | CallFails(i: nat)
    | DropRolledBack(i: nat)
    | RollbackAgain(i: nat)   // a further rollback of a settled reservation

  /** The limiter's list with its history, and every command that ever arrived. */
  datatype State = State(ledger: Ledger, commands: seq<Phase>)

  const Start := State(Fresh, [])

  predicate Enabled(s: State, step: Step) {
    match step
    case Arrive(now, _) => now >= s.ledger.clock
    case TimerFires(i) => i < |s.commands| && s.commands[i].Waiting?
    case ContextDone(i) => i < |s.commands| && s.commands[i].Waiting?
    case DropCancelled(i) => i < |s.commands| && s.commands[i].Cancelled?
    case CallSucceeds(i) => i < |s.commands| && s.commands[i].Calling?
    case CallFails(i) => i < |s.commands| && s.commands[i].Calling?
    case DropRolledBack(i) => i < |s.commands| && s.commands[i].RollingBack?
    case RollbackAgain(i) => i < |s.commands| && (s.commands[i].Succeeded? || s.commands[i].Failed?)
  }

  /** The phase a command starts in. */
  function Entry(ledger: Ledger, max: nat, w: int, now: int, deadline: Option<int>): Phase
    requires max > 0
  {
    var slot := Slot(Prune(ledger.recorded, w, now), max, w, now);
    if Refused(slot, deadline) then Rejected else if slot > now then Waiting(slot) else Calling(slot)
  }

  function Next(s: State, step: Step, max: nat, w: int): State
    requires max > 0 && Enabled(s, step)
  {
    match step
    case Arrive(now, deadline) =>
      State(Apply(s.ledger, Reserve(now, deadline), max, w),
            s.commands + [Entry(s.ledger, max, w, now, deadline)])
    case TimerFires(i) => s.(commands := s.commands[i := Calling(s.commands[i].at)])
    case ContextDone(i) => s.(commands := s.commands[i := Cancelled(s.commands[i].at)])
    case DropCancelled(i) =>
      State(Apply(s.ledger, Release(s.commands[i].at), max, w), s.commands[i := Failed])
    case CallSucceeds(i) => s.(commands := s.commands[i := Succeeded(s.commands[i].at)])
    case CallFails(i) => s.(commands := s.commands[i := RollingBack(s.commands[i].at)])
    case DropRolledBack(i) =>
      State(Apply(s.ledger, Release(s.commands[i].at), max, w), s.commands[i := Failed])
    case RollbackAgain(i) => s
  }

  /** The state after an interleaving; a step that is not enabled does not happen. */
  function After(steps: seq<Step>, max: nat, w: int): State
    requires max > 0
    decreases |steps|
  {
    if steps == [] then Start
    else
      var s := After(steps[..|steps| - 1], max, w);
      if Enabled(s, steps[|steps| - 1]) then Next(s, steps[|steps| - 1], max, w) else s
  }

  /** A navigation that succeeded or is still in progress holds its slot. */
  predicate Holds(p: Phase, t: int) {
    !p.Failed? && !p.Rejected? && p.at == t
  }

  function Holders(commands: seq<Phase>, t: int): nat {
    if commands == [] then 0
    else Holders(commands[..|commands| - 1], t) + (if Holds(commands[|commands| - 1], t) then 1 else 0)
  }

  lemma {:induction false} HoldersAfterUpdate(commands: seq<Phase>, i: nat, p: Phase, t: int)
    requires i < |commands|
    ensures Holders(commands[i := p], t)
            == Holders(commands, t) - (if Holds(commands[i], t) then 1 else 0) + (if Holds(p, t) then 1 else 0)
    decreases |commands|
  {
    var n := |commands| - 1;
    assert commands[i := p][..n] == if i < n then commands[..n][i := p] else commands[..n];
    if i < n {
      HoldersAfterUpdate(commands[..n], i, p, t);
    }
  }

  lemma HoldersAfterArrival(commands: seq<Phase>, p: Phase, t: int)
    ensures Holders(commands + [p], t) == Holders(commands, t) + (if Holds(p, t) then 1 else 0)
  {
    assert (commands + [p])[..|commands|] == commands;
  }

  lemma {:induction false} PruneCounts(g: seq<int>, w: int, now: int, t: int)
    ensures multiset(Prune(g, w, now))[t] == if t + w > now then multiset(g)[t] else 0
    decreases |g|
  {
    if g != [] {
      var n := |g| - 1;
      PruneCounts(g[..n], w, now, t);
      assert g == g[..n] + [g[n]];
    }
  }

  lemma RemoveCounts(g: seq<int>, at: int, t: int)
    ensures multiset(RemoveLast(g, at))[t] == if t == at && multiset(g)[t] > 0 then multiset(g)[t] - 1 else multiset(g)[t]
  {
    if at in g {
      var k := RemoveLastAt(g, at);
      assert g == g[..k] + [at] + g[k + 1..];
    } else {
      RemoveAbsent(g, at);
    }
  }

  /** The history of unreleased grants is, as a multiset, the slots held; the recorded list is the part
      of it that is not too old. */
  ghost predicate Conserved(s: State, w: int) {
    && (forall t :: multiset(s.ledger.live)[t] == Holders(s.commands, t))
    && (forall t :: multiset(s.ledger.recorded)[t] == if t + w > s.ledger.clock then Holders(s.commands, t) else 0)
  }

  lemma ArrivalConserves(s: State, now: int, deadline: Option<int>, max: nat, w: int)
    requires max > 0 && w > 0 && Conserved(s, w) && Enabled(s, Arrive(now, deadline))
    ensures Conserved(Next(s, Arrive(now, deadline), max, w), w)
  {
    var s' := Next(s, Arrive(now, deadline), max, w);
    var p := Entry(s.ledger, max, w, now, deadline);
    hide Prune, Holders;
    forall t
      ensures multiset(s'.ledger.live)[t] == Holders(s'.commands, t)
      ensures multiset(s'.ledger.recorded)[t] == if t + w > s'.ledger.clock then Holders(s'.commands, t) else 0
    {
      HoldersAfterArrival(s.commands, p, t);
      PruneCounts(s.ledger.recorded, w, now, t);
    }
  }

  lemma ReleaseConserves(s: State, i: nat, max: nat, w: int)
    requires max > 0 && w > 0 && Conserved(s, w)
    requires i < |s.commands| && !s.commands[i].Failed? && !s.commands[i].Rejected?
    ensures Conserved(State(Apply(s.ledger, Release(s.commands[i].at), max, w), s.commands[i := Failed]), w)
  {
    var at := s.commands[i].at;
    var s' := State(Apply(s.ledger, Release(at), max, w), s.commands[i := Failed]);
    hide RemoveLast, Holders;
    forall t
      ensures multiset(s'.ledger.live)[t] == Holders(s'.commands, t)
      ensures multiset(s'.ledger.recorded)[t] == if t + w > s'.ledger.clock then Holders(s'.commands, t) else 0
    {
      RemoveCounts(s.ledger.live, at, t);
      RemoveCounts(s.ledger.recorded, at, t);
      HoldersAfterUpdate(s.commands, i, Failed, t);
    }
  }

  lemma StepConserves(s: State, step: Step, max: nat, w: int)
    requires max > 0 && w > 0 && Conserved(s, w) && Enabled(s, step)
    ensures Conserved(Next(s, step, max, w), w)
  {
    match step
    case Arrive(now, deadline) => ArrivalConserves(s, now, deadline, max, w);
    case DropCancelled(i) => ReleaseConserves(s, i, max, w);
    case DropRolledBack(i) => ReleaseConserves(s, i, max, w);
    case RollbackAgain(_) =>
    case _ =>
      var s' := Next(s, step, max, w);
      forall t ensures Holders(s'.commands, t) == Holders(s.commands, t) {
        HoldersAfterUpdate(s.commands, step.i, s'.commands[step.i], t);
      }
  }

  /** Slot conservation over every interleaving. */
  lemma {:induction false} SlotsConserved(steps: seq<Step>, max: nat, w: int)
    requires max > 0 && w > 0
    ensures Conserved(After(steps, max, w), w)
    decreases |steps|
  {
    if steps != [] {
      var n := |steps| - 1;
      SlotsConserved(steps[..n], max, w);
      var p := After(steps[..n], max, w);
      if Enabled(p, steps[n]) {
        StepConserves(p, steps[n], max, w);
      }
    } else {
      assert forall t :: multiset(Fresh.live)[t] == 0 && multiset(Fresh.recorded)[t] == 0;
    }
  }

  /** Once every command is settled, what is on record is the recent successes and nothing else. */
  lemma SettledRecord(steps: seq<Step>, max: nat, w: int, t: int)
    requires max > 0 && w > 0
    requires forall p :: p in After(steps, max, w).commands ==> p.Succeeded? || p.Failed? || p.Rejected?
    ensures var s := After(steps, max, w);
            t in s.ledger.recorded <==> t + w > s.ledger.clock && Succeeded(t) in s.commands
  {
    var s := After(steps, max, w);
    SlotsConserved(steps, max, w);
    HolderExists(s.commands, t);
    assert t in s.ledger.recorded <==> multiset(s.ledger.recorded)[t] > 0;
  }

  lemma {:induction false} HolderExists(commands: seq<Phase>, t: int)
    ensures Holders(commands, t) > 0 <==> exists p :: p in commands && Holds(p, t)
    decreases |commands|
  {
    if commands != [] {
      var n := |commands| - 1;
      HolderExists(commands[..n], t);
      assert commands == commands[..n] + [commands[n]];
    }
  }

  /** With one slot per window, the navigations that succeeded or are in progress keep the window bound
      whatever failures, cancellations and rollbacks are mixed in. */
  lemma SingleSlotNavigationsBounded(steps: seq<Step>, w: int)
    requires w > 0
    ensures WindowBound(After(steps, 1, w).ledger.live, 1, w) && Conserved(After(steps, 1, w), w)
  {
    SlotsConserved(steps, 1, w);
    SingleSlotInv(steps, w);
    BoundIsSpacing(After(steps, 1, w).ledger.live, 1, w);
  }

  lemma {:induction false} SingleSlotInv(steps: seq<Step>, w: int)
    requires w > 0
    ensures Inv(After(steps, 1, w).ledger, 1, w)
    decreases |steps|
  {
    if steps != [] {
      var n := |steps| - 1;
      SingleSlotInv(steps[..n], w);
      var p := After(steps[..n], 1, w);
      if Enabled(p, steps[n]) {
        match steps[n] {
          case Arrive(now, deadline) => ReserveKeepsInv(p.ledger, Reserve(now, deadline), 1, w);
          case DropCancelled(i) => ReleaseKeepsInv(p.ledger, p.commands[i].at, 1, w);
          case DropRolledBack(i) => ReleaseKeepsInv(p.ledger, p.commands[i].at, 1, w);
          case _ =>
        }
      }
    }
  }
}

/** One navigation command, start to finish, on the limiter object itself. */
module NavigateCommand {
  import opened Prelude
  import CommandFlow
  import opened SlidingWindow
  import opened RateLimiter

  type File = map<string, seq<int>>

  datatype Reply = RateLimited(wait: int) | Aborted | CallFailed | Ok

  /** What other commands make of the file while this one waits. */
  method OthersRun(limiter: Limiter, others: File -> File)
    modifies limiter`grants
    ensures limiter.grants == others(old(limiter.grants))
  {
    limiter.grants := others(limiter.grants);
  }

  /** What the outside world does is given: `cancelled`, the request's context ends before the slot is due;
      `callOk`, the browser accepts the navigation; and what other commands make of the file, `duringWait`
      until the slot is due and `duringCall` until the browser has answered. */
  method HandleNavigate(limiter: Limiter, host: string, now: int, deadline: Option<int>, cancelled: bool, callOk: bool,
                        duringWait: File -> File, duringCall: File -> File)
    returns (reply: Reply)
    modifies limiter`grants
    ensures (host == "" || Chosen(old(limiter.rules), host, None)) ==>
              limiter.grants == duringCall(old(limiter.grants)) && reply == if callOk then Ok else CallFailed
    ensures forall i: nat :: host != "" && Chosen(old(limiter.rules), host, Some(i)) ==>
              if !Limits(limiter.rules[i]) then
                limiter.grants == duringCall(old(limiter.grants)) && reply == if callOk then Ok else CallFailed
              else
                Settles(old(limiter.grants), limiter.grants, limiter.rules[i], now, deadline, cancelled, callOk, duringWait, duringCall, reply)
  {
    hide FileAfterReserve, FileAfterRemove, SlotFor, Domains.Normal;
    var reserved := limiter.ReserveLocked(host, now, deadline);
    var reservation: Reservation? := null;
    match reserved {
      case Unlimited =>
      case WouldExceed(wait) =>
        reply := RateLimited(wait);
        return;
      case Granted(key, grantAt, wait) =>
        OthersRun(limiter, duringWait);
        reservation := limiter.AwaitSlot(key, grantAt, wait, cancelled);
        if reservation == null {
          reply := Aborted;
          return;
        }
    }
    OthersRun(limiter, duringCall);
    if callOk {
      if reservation != null {
        reservation.Commit();
      }
      reply := Ok;
    } else {
      if reservation != null {
        reservation.Rollback();
      }
      reply := CallFailed;
    }
  }

  /** The file a command finds when it settles: what others made of the file with its slot. */
  function FileFound(before: File, r: Rule, now: int, deadline: Option<int>, duringWait: File -> File, duringCall: File -> File,
                     reply: Reply): File
    requires Limits(r)
  {
    var filed := FileAfterReserve(before, r, now, deadline);
    match reply
    case RateLimited(_) => filed
    case Aborted => duringWait(filed)
    case _ => duringCall(duringWait(filed))
  }

  /** The reply, and what settling does to the file found: nothing after a success or a refusal, and
      otherwise the command's own slot is taken out. */
  ghost predicate Settles(before: File, after: File, r: Rule, now: int, deadline: Option<int>, cancelled: bool, callOk: bool,
                          duringWait: File -> File, duringCall: File -> File, reply: Reply)
    requires Limits(r)
  {
    var slot := SlotFor(before, r, now);
    var found := FileFound(before, r, now, deadline, duringWait, duringCall, reply);
    && reply == (if Refused(slot, deadline) then RateLimited(slot - now) else if slot > now && cancelled then Aborted
                 else if callOk then Ok else CallFailed)
    && after == if reply.Aborted? || reply.CallFailed? then FileAfterRemove(found, Domains.Normal(r.domain), slot) else found
  }

  function Alone(file: File): File {
    file
  }

  /** With no other command in between, a command that does not succeed leaves its key's list just pruned;
      one that does adds its slot; other keys never change. */
  lemma OutcomeOnFile(before: File, after: File, r: Rule, now: int, deadline: Option<int>, cancelled: bool, callOk: bool,
                      reply: Reply, other: string)
    requires Limits(r) && Settles(before, after, r, now, deadline, cancelled, callOk, Alone, Alone, reply)
    ensures var key := Domains.Normal(r.domain);
            var kept := Prune(GrantsFor(before, key), r.window * SECOND, now);
            && GrantsFor(after, key) == (if reply == Ok then kept + [SlotFor(before, r, now)] else kept)
            && (other != key ==> GrantsFor(after, other) == GrantsFor(before, other))
  {
    hide RemoveLast, Prune, Domains.Normal;
    if !Refused(SlotFor(before, r, now), deadline) {
      ReserveThenRemove(before, r, now, deadline);
    }
  }

  /** Whatever other commands do meanwhile, settling takes out of the file found at most one grant, the
      command's own, and only when the navigation did not happen. */
  lemma SettlingTakesOwnSlot(before: File, after: File, r: Rule, now: int, deadline: Option<int>, cancelled: bool, callOk: bool,
                             duringWait: File -> File, duringCall: File -> File, reply: Reply, key: string, t: int)
    requires Limits(r) && Settles(before, after, r, now, deadline, cancelled, callOk, duringWait, duringCall, reply)
    ensures var found := FileFound(before, r, now, deadline, duringWait, duringCall, reply);
            var slot := SlotFor(before, r, now); var had := multiset(GrantsFor(found, key))[t];
            multiset(GrantsFor(after, key))[t] ==
              if (reply.Aborted? || reply.CallFailed?) && key == Domains.Normal(r.domain) && t == slot && had > 0
              then had - 1 else had
  {
    var found := FileFound(before, r, now, deadline, duringWait, duringCall, reply);
    var slot := SlotFor(before, r, now);
    hide FileFound;
    CommandFlow.RemoveCounts(GrantsFor(found, Domains.Normal(r.domain)), slot, t);
    hide RemoveLast, Prune, Domains.Normal, SlotFor;
  }
}
