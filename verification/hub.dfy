/** The hub: one extension connection, the calls waiting for its answers, one semaphore per session, and
    a channel that is closed whenever the connection state changes. */
module Hub {
  import opened Prelude

  /** Nanoseconds without an inbound message after which a newcomer may take over. */
  const STALE_AFTER := 50_000_000_000

  const PROTOCOL_VERSION := 2

  /** An answer to call `id`, from the extension or made up when it disconnects. */
  datatype Envelope = Envelope(id: nat, fromExtension: bool)

  /** The hub's fields, and the channels behind `pending` and `sessLocks`: `chans[id]` is the buffer of
      the reply channel made for call `id` (capacity 1), `tokens[key]` the content of a session's
      semaphore (capacity 1). `changes` numbers the state-changed channels; those before the current
      one are closed. */
  datatype View = View(
    conn: Option<nat>, connected: bool, compatible: bool, extProtocol: int, lastActivity: int,
    issued: nat, pending: set<nat>, chans: map<nat, seq<Envelope>>, tokens: map<string, nat>, changes: nat)

  const Initial := View(None, false, false, 0, 0, 0, {}, map[], map[], 0)

  function SessionKey(session: string): string {
    if session == "" then "default" else session
  }

  /** Actions that never touch a tab do not queue on a session. */
  predicate SessionIndependent(action: string) {
    action == "annotations"
  }

  // ---------------------------------------------------------------- the critical sections, as functions

  function WithSemaphore(v: View, key: string): View {
    if key in v.tokens then v else v.(tokens := v.tokens[key := 0])
  }

  predicate Accepts(v: View, now: int) {
    v.conn.None? || now - v.lastActivity >= STALE_AFTER
  }

  function Attach(v: View, conn: nat, now: int): View {
    v.(conn := Some(conn), connected := true, compatible := true, lastActivity := now, changes := v.changes + 1)
  }

  function Detach(v: View): View {
    v.(conn := None, connected := false, changes := v.changes + 1)
  }

  function Registered(v: View): View {
    var id := v.issued + 1;
    v.(issued := id, pending := v.pending + {id}, chans := v.chans[id := []])
  }

  function Dropped(v: View, id: nat): View {
    v.(pending := v.pending - {id})
  }

  predicate HasRoom(v: View, id: nat) {
    id in v.chans && |v.chans[id]| < 1
  }

  function Sent(v: View, id: nat, e: Envelope): View
    requires id in v.chans
  {
    v.(chans := v.chans[id := v.chans[id] + [e]])
  }

  function FlushedOne(v: View, id: nat): View
    requires id in v.chans
  {
    Dropped(Sent(v, id, Envelope(id, false)), id)
  }

  function Flushed(v: View): View {
    v.(pending := {},
       chans := map id | id in v.chans ::
         if id in v.pending then v.chans[id] + [Envelope(id, false)] else v.chans[id])
  }

  datatype Submission = NoExtension | Mismatch(updateExtension: bool) | Submitted(id: nat)

  function SubmissionFor(v: View): Submission {
    if !v.connected || v.conn.None? then NoExtension
    else if !v.compatible then Mismatch(v.extProtocol < PROTOCOL_VERSION)
    else Submitted(v.issued + 1)
  }

  class HubObject {
    var conn: Option<nat>
    var connected: bool
    var compatible: bool
    var extProtocol: int
    var lastActivity: int
    var issued: nat
    var pending: set<nat>
    var chans: map<nat, seq<Envelope>>
    var tokens: map<string, nat>
    var changes: nat

    function Now(): View
      reads this
    {
      View(conn, connected, compatible, extProtocol, lastActivity, issued, pending, chans, tokens, changes)
    }

    /** Every pending call has an empty reply channel, so a send to it cannot block. */
    ghost predicate Valid()
      reads this
    {
      forall id :: id in pending ==> id <= issued && id in chans && chans[id] == []
    }

    constructor ()
      ensures Valid() && Now() == Initial
    {
      conn, connected, compatible, extProtocol, lastActivity := None, false, false, 0, 0;
      issued, pending, chans, tokens, changes := 0, {}, map[], map[], 0;
    }

    method LookUpSemaphore(key: string)
      requires Valid()
      modifies this`tokens
      ensures Valid() && Now() == WithSemaphore(old(Now()), key)
    {
      if key !in tokens {
        tokens := tokens[key := 0];
      }
    }

    method NotifyStateChanged()
      modifies this`changes
      ensures changes == old(changes) + 1
    {
      changes := changes + 1;
    }

    /** A new connection: refused while the current one is alive, otherwise it takes over. */
    method Enter(newcomer: nat, now: int) returns (accepted: bool)
      requires Valid()
      modifies this
      ensures Valid() && accepted == Accepts(old(Now()), now)
      ensures Now() == if accepted then Attach(old(Now()), newcomer, now) else old(Now())
    {
      if conn.Some? && now - lastActivity < STALE_AFTER {
        return false;
      }
      conn, connected, compatible, lastActivity := Some(newcomer), true, true, now;
      NotifyStateChanged();
      return true;
    }

    /** The end of a connection. Only the current one lets go of the hub and answers the pending calls. */
    method Exit(leaving: nat)
      requires Valid()
      modifies this
      ensures Valid()
      ensures Now() == if old(conn) == Some(leaving) then Flushed(Detach(old(Now()))) else old(Now())
    {
      if conn == Some(leaving) {
        conn, connected := None, false;
        NotifyStateChanged();
        FlushPending();
      }
    }

    /** Answers every pending call; the sends happen with the mutex held. */
    method FlushPending()
      requires Valid()
      modifies this`pending, this`chans
      ensures Valid() && Now() == Flushed(old(Now()))
    {
      while pending != {}
        invariant pending <= old(pending)
        invariant chans.Keys == old(chans).Keys
        invariant forall id :: id in chans ==>
                    chans[id] == if id in old(pending) && id !in pending then old(chans)[id] + [Envelope(id, false)]
                                 else old(chans)[id]
        decreases pending
      {
        var id :| id in pending;
        assert HasRoom(Now(), id);
        chans := chans[id := chans[id] + [Envelope(id, false)]];
        pending := pending - {id};
      }
      assert chans == Flushed(old(Now())).chans;
    }

    method Touch(now: int)
      requires Valid()
      modifies this`lastActivity
      ensures Valid() && lastActivity == now
    {
      lastActivity := now;
    }

    method Hello(protocol: int)
      requires Valid()
      modifies this`compatible, this`extProtocol
      ensures Valid() && extProtocol == protocol && (compatible <==> protocol == PROTOCOL_VERSION)
    {
      extProtocol, compatible := protocol, protocol == PROTOCOL_VERSION;
    }

    /** A result claims its call under the mutex and is delivered outside it; unknown ids are ignored. */
    method HandleResult(id: nat) returns (known: bool)
      requires Valid()
      modifies this`pending, this`chans
      ensures Valid() && known == (id in old(pending))
      ensures Now() == if known then Sent(Dropped(old(Now()), id), id, Envelope(id, true)) else old(Now())
    {
      known := id in pending;
      pending := pending - {id};
      if known {
        assert HasRoom(Now(), id);
        chans := chans[id := chans[id] + [Envelope(id, true)]];
      } else {
        assert pending == old(pending);
      }
    }

    /** Enters a call in `pending` under a number never used before. */
    method Submit() returns (r: Submission)
      requires Valid()
      modifies this`issued, this`pending, this`chans
      ensures Valid() && r == SubmissionFor(old(Now()))
      ensures Now() == if r.Submitted? then Registered(old(Now())) else old(Now())
    {
      if !connected || conn.None? {
        return NoExtension;
      }
      if !compatible {
        return Mismatch(extProtocol < PROTOCOL_VERSION);
      }
      issued := issued + 1;
      chans := chans[issued := []];
      pending := pending + {issued};
      return Submitted(issued);
    }

    method DropPending(id: nat)
      requires Valid()
      modifies this`pending
      ensures Valid() && Now() == Dropped(old(Now()), id)
    {
      pending := pending - {id};
    }
  }
}
