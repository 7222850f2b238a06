/** The theory of the sliding-window limiter: what the grant list of one domain means, over every
    run of reservations and releases under one rule (at most `max` grants per `w` units of time). */
module SlidingWindow {
  import opened Prelude

  // ---------------------------------------------------------------- the two pure steps of the code

  /** What survives pruning: the grants that can still constrain a new one. */
  function Prune(g: seq<int>, w: int, now: int): seq<int> {
    if g == [] then []
    else
      var rest := Prune(g[..|g| - 1], w, now);
      if g[|g| - 1] + w > now then rest + [g[|g| - 1]] else rest
  }

  /** The time chosen for a new grant, given the pruned list. */
  function Slot(kept: seq<int>, max: nat, w: int, now: int): int
    requires max > 0
  {
    if |kept| >= max && kept[|kept| - max] + w > now then kept[|kept| - max] + w else now
  }

  predicate Refused(slot: int, deadline: Option<int>) {
    deadline.Some? && slot > deadline.value
  }

  /** The recorded list after a reservation, refused or not. */
  function AfterReserve(g: seq<int>, max: nat, w: int, now: int, deadline: Option<int>): seq<int>
    requires max > 0
  {
    var kept := Prune(g, w, now);
    var slot := Slot(kept, max, w, now);
    if Refused(slot, deadline) then kept else kept + [slot]
  }

  /** Drops the last occurrence of `t`, if there is one. */
  function RemoveLast(g: seq<int>, t: int): seq<int> {
    if g == [] then []
    else if g[|g| - 1] == t then g[..|g| - 1]
    else RemoveLast(g[..|g| - 1], t) + [g[|g| - 1]]
  }

  // ---------------------------------------------------------------- what the limiter is for

  /** How many grants lie in the half-open interval (lo, hi]. */
  function Count(h: seq<int>, lo: int, hi: int): nat {
    if h == [] then 0
    else Count(h[..|h| - 1], lo, hi) + (if lo < h[|h| - 1] <= hi then 1 else 0)
  }

  function InWindow(h: seq<int>, a: int, w: int): nat {
    Count(h, a, a + w)
  }

  /** Every half-open interval of length `w` holds at most `max` grants. (Time is integral, so the
      intervals closed on the left are the same intervals shifted by one.) */
  ghost predicate WindowBound(h: seq<int>, max: nat, w: int) {
    forall a: int :: InWindow(h, a, w) <= max
  }

  ghost predicate Sorted(h: seq<int>) {
    forall i, j :: 0 <= i < j < |h| ==> h[i] <= h[j]
  }

  ghost predicate Spaced(h: seq<int>, max: nat, w: int) {
    forall i, j :: 0 <= i && i + max <= j < |h| ==> h[i] + w <= h[j]
  }

  lemma {:induction false} CountAtMost(h: seq<int>, lo: int, hi: int, from: nat, to: nat)
    requires from <= to
    requires forall i :: 0 <= i < |h| && lo < h[i] <= hi ==> from <= i < to
    ensures Count(h, lo, hi) <= to - from
    decreases |h|
  {
    if h != [] {
      var n := |h| - 1;
      if lo < h[n] <= hi {
        CountAtMost(h[..n], lo, hi, from, n);
      } else {
        CountAtMost(h[..n], lo, hi, from, to);
      }
    }
  }

  lemma {:induction false} CountAtLeast(h: seq<int>, lo: int, hi: int, from: nat, to: nat)
    requires from <= to <= |h|
    requires forall i :: from <= i < to ==> lo < h[i] <= hi
    ensures Count(h, lo, hi) >= to - from
    decreases |h|
  {
    if h != [] {
      var n := |h| - 1;
      CountAtLeast(h[..n], lo, hi, if from < n then from else n, if to < n then to else n);
    }
  }

  /** For a sorted history the window bound is exactly the spacing of grants `max` apart. */
  lemma BoundIsSpacing(h: seq<int>, max: nat, w: int)
    requires Sorted(h) && max > 0 && w > 0
    ensures WindowBound(h, max, w) <==> Spaced(h, max, w)
  {
    if Spaced(h, max, w) {
      forall a: int ensures InWindow(h, a, w) <= max {
        SpacedWindow(h, max, w, a, 0);
      }
    }
    if WindowBound(h, max, w) {
      forall i, j | 0 <= i && i + max <= j < |h| ensures h[i] + w <= h[j] {
        assert InWindow(h, h[i] - 1, w) <= max;
        if h[i] + w > h[j] {
          CountAtLeast(h, h[i] - 1, h[i] - 1 + w, i, j + 1);
        }
      }
    }
  }

  lemma {:induction false} SpacedWindow(h: seq<int>, max: nat, w: int, a: int, k: nat)
    requires Sorted(h) && Spaced(h, max, w)
    requires k <= |h| && forall i :: 0 <= i < k ==> h[i] <= a
    ensures Count(h, a, a + w) <= max
    decreases |h| - k
  {
    if k == |h| {
      CountAtMost(h, a, a + w, 0, 0);
    } else if h[k] <= a {
      SpacedWindow(h, max, w, a, k + 1);
    } else {
      CountAtMost(h, a, a + w, k, k + max);
    }
  }

  /** Pruning a sorted list cuts a prefix off it. */
  lemma {:induction false} PruneIsSuffix(g: seq<int>, w: int, now: int) returns (k: nat)
    requires Sorted(g)
    ensures k <= |g| && Prune(g, w, now) == g[k..]
    ensures forall i :: 0 <= i < |g| ==> (g[i] + w > now <==> i >= k)
  {
    if g == [] {
      k := 0;
    } else {
      var n := |g| - 1;
      k := PruneIsSuffix(g[..n], w, now);
      hide Sorted;
      if g[n] + w > now {
        SuffixAndLast(g, k);
      } else {
        OldToTheEnd(g, w, now);
        k := n + 1;
      }
    }
  }

  lemma OldToTheEnd(g: seq<int>, w: int, now: int)
    requires Sorted(g) && g != [] && g[|g| - 1] + w <= now
    ensures forall i :: 0 <= i < |g| ==> g[i] + w <= now
  {}

  lemma SuffixAndLast(g: seq<int>, k: nat)
    requires k < |g|
    ensures g[..|g| - 1][k..] + [g[|g| - 1]] == g[k..]
  {}

  // ---------------------------------------------------------------- runs

  /** `recorded` is the list the code keeps; `live` is every grant ever issued and not released, in
      the order of issue, pruned ones included; `clock` is the last clock reading. */
  datatype Ledger = Ledger(recorded: seq<int>, live: seq<int>, clock: int)

  datatype Event =
    | Reserve(now: int, deadline: Option<int>)
    | Release(at: int)

  const Fresh: Ledger := Ledger([], [], 0)

  function Apply(s: Ledger, e: Event, max: nat, w: int): Ledger
    requires max > 0
  {
    match e
    case Reserve(now, deadline) =>
      var slot := Slot(Prune(s.recorded, w, now), max, w, now);
      Ledger(AfterReserve(s.recorded, max, w, now, deadline),
             if Refused(slot, deadline) then s.live else s.live + [slot],
             now)
    case Release(at) =>
      s.(recorded := RemoveLast(s.recorded, at), live := RemoveLast(s.live, at))
  }

  function Run(s: Ledger, es: seq<Event>, max: nat, w: int): Ledger
    requires max > 0
    decreases |es|
  {
    if es == [] then s else Apply(Run(s, es[..|es| - 1], max, w), es[|es| - 1], max, w)
  }

  /** Clock readings do not decrease. */
  predicate InTime(s: Ledger, e: Event) {
    e.Reserve? ==> e.now >= s.clock
  }

  /** A caller can see this from the list and the clock before the call: the newest surviving grant is not
      in the future, or is at most a window after the grant `max` places from the end. */
  predicate Guarded(s: Ledger, e: Event, max: nat, w: int)
    requires max > 0
  {
    e.Reserve? ==>
      var kept := Prune(s.recorded, w, e.now);
      var n := |kept|;
      n == 0 || kept[n - 1] <= e.now || (n >= max && kept[n - 1] <= kept[n - max] + w)
  }

  /** In terms of the slot: it is not earlier than the newest surviving grant. */
  lemma GuardedBySlot(s: Ledger, e: Event, max: nat, w: int)
    requires max > 0 && e.Reserve?
    ensures var kept := Prune(s.recorded, w, e.now);
            Guarded(s, e, max, w) <==> kept == [] || kept[|kept| - 1] <= Slot(kept, max, w, e.now)
  {
    hide Prune;
  }

  /** The release, if it is one, takes the newest recorded grant (or one already pruned). */
  predicate NewestFirst(s: Ledger, e: Event) {
    e.Release? ==> e.at !in s.recorded || e.at == s.recorded[|s.recorded| - 1]
  }

  /** What every guarded run keeps: grant times in issue order never decrease, grants `max` apart lie
      at least a window apart, and the list kept is the newest part of the history, the rest being
      too old to matter. */
  ghost predicate Inv(s: Ledger, max: nat, w: int) {
    && Sorted(s.live) && Spaced(s.live, max, w)
    && |s.recorded| <= |s.live|
    && s.recorded == s.live[|s.live| - |s.recorded|..]
    && forall i :: 0 <= i < |s.live| - |s.recorded| ==> s.live[i] + w <= s.clock
  }

  /** Grant `j` was pushed to its time by the grant `max` places before it. */
  predicate Linked(h: seq<int>, j: nat, max: nat, w: int)
    requires j < |h|
  {
    j >= max && h[j] == h[j - max] + w
  }

  /** Every grant still in the future is linked. */
  ghost predicate Chained(s: Ledger, max: nat, w: int) {
    forall j {:trigger Linked(s.live, j, max, w)} ::
      0 <= j < |s.live| && s.live[j] > s.clock ==> Linked(s.live, j, max, w)
  }

  /** What survives pruning is the part of the history that is fresh at `now`. */
  lemma PrunedIsSuffixOfLive(s: Ledger, max: nat, w: int, now: int) returns (k: nat)
    requires Inv(s, max, w) && now >= s.clock
    ensures k <= |s.live| && Prune(s.recorded, w, now) == s.live[k..]
    ensures k >= |s.live| - |s.recorded|
    ensures forall i :: 0 <= i < |s.live| ==> (s.live[i] + w > now <==> i >= k)
  {
    var cut := |s.live| - |s.recorded|;
    SortedSuffix(s.live, cut);
    k := PruneIsSuffix(s.recorded, w, now);
    hide Prune, Sorted, Spaced;
    SuffixOfSuffix(s.live, cut, k);
    forall i | cut <= i < |s.live| ensures s.live[i] == s.recorded[i - cut] {}
    k := cut + k;
  }

  lemma SortedSuffix(h: seq<int>, cut: nat)
    requires Sorted(h) && cut <= |h|
    ensures Sorted(h[cut..])
  {}

  lemma SuffixOfSuffix(h: seq<int>, i: nat, j: nat)
    requires i + j <= |h|
    ensures h[i..][j..] == h[i + j..]
  {}

  /** The chosen slot is a window after every grant that is `max` or more places back. */
  lemma SlotClearsOldGrants(s: Ledger, max: nat, w: int, now: int)
    requires Inv(s, max, w) && now >= s.clock && max > 0 && w > 0
    ensures var slot := Slot(Prune(s.recorded, w, now), max, w, now);
            slot >= now && forall i :: 0 <= i && i + max <= |s.live| ==> s.live[i] + w <= slot
  {
    var k := PrunedIsSuffixOfLive(s, max, w, now);
  }

  lemma AppendKeepsSpacing(h: seq<int>, x: int, max: nat, w: int)
    requires Sorted(h) && Spaced(h, max, w)
    requires h != [] ==> h[|h| - 1] <= x
    requires max > 0
    requires forall i :: 0 <= i && i + max <= |h| ==> h[i] + w <= x
    ensures Sorted(h + [x]) && Spaced(h + [x], max, w)
  {}

  lemma GrantKeepsInv(h: seq<int>, k: nat, slot: int, max: nat, w: int, now: int)
    requires Sorted(h) && Spaced(h, max, w) && max > 0 && k <= |h|
    requires h != [] ==> h[|h| - 1] <= slot
    requires forall i :: 0 <= i && i + max <= |h| ==> h[i] + w <= slot
    requires forall i :: 0 <= i < k ==> h[i] + w <= now
    ensures Inv(Ledger(h[k..] + [slot], h + [slot], now), max, w)
  {
    AppendKeepsSpacing(h, slot, max, w);
    hide Sorted, Spaced;
    assert (h + [slot])[k..] == h[k..] + [slot];
  }

  lemma RefusalKeepsInv(h: seq<int>, k: nat, max: nat, w: int, now: int)
    requires Sorted(h) && Spaced(h, max, w) && k <= |h|
    requires forall i :: 0 <= i < k ==> h[i] + w <= now
    ensures Inv(Ledger(h[k..], h, now), max, w)
  {}

  lemma ReserveKeepsInv(s: Ledger, e: Event, max: nat, w: int)
    requires Inv(s, max, w) && max > 0 && w > 0
    requires e.Reserve? && InTime(s, e) && Guarded(s, e, max, w)
    ensures Inv(Apply(s, e, max, w), max, w)
  {
    var k := PrunedIsSuffixOfLive(s, max, w, e.now);
    SlotClearsOldGrants(s, max, w, e.now);
    GuardedBySlot(s, e, max, w);
    assert Sorted(s.live) && Spaced(s.live, max, w);
    hide Inv, Sorted, Spaced, Prune, Slot, RemoveLast, Guarded;
    var slot := Slot(s.live[k..], max, w, e.now);
    if Refused(slot, e.deadline) {
      RefusalKeepsInv(s.live, k, max, w, e.now);
    } else {
      LastGrant(s.live, k, slot, w, e.now);
      GrantKeepsInv(s.live, k, slot, max, w, e.now);
    }
  }

  lemma LastGrant(h: seq<int>, k: nat, slot: int, w: int, now: int)
    requires k <= |h| && slot >= now && w > 0
    requires h[k..] == [] || h[k..][|h[k..]| - 1] <= slot
    requires forall i :: 0 <= i < |h| ==> (h[i] + w > now <==> i >= k)
    ensures h != [] ==> h[|h| - 1] <= slot
  {
    if k < |h| {
      assert h[k..][|h| - k - 1] == h[|h| - 1];
    }
  }

  // ---------------------------------------------------------------- releases

  /** Removing the last occurrence deletes one index and nothing else. */
  lemma {:induction false} RemoveLastAt(g: seq<int>, t: int) returns (k: nat)
    requires t in g
    ensures k < |g| && g[k] == t && forall i :: k < i < |g| ==> g[i] != t
    ensures RemoveLast(g, t) == Without(g, k)
    decreases |g|
  {
    var n := |g| - 1;
    if g[n] == t {
      k := n;
    } else {
      k := RemoveLastAt(g[..n], t);
      WithoutAndLast(g, k);
    }
  }

  lemma WithoutAndLast(g: seq<int>, k: nat)
    requires k < |g| - 1
    ensures Without(g[..|g| - 1], k) + [g[|g| - 1]] == Without(g, k)
  {
    var n := |g| - 1;
    assert g[..n][..k] == g[..k] && g[..n][k + 1..] + [g[n]] == g[k + 1..];
  }

  function Without(g: seq<int>, k: nat): seq<int>
    requires k < |g|
  {
    g[..k] + g[k + 1..]
  }

  lemma {:induction false} RemoveAbsent(g: seq<int>, t: int)
    requires t !in g
    ensures RemoveLast(g, t) == g
    decreases |g|
  {
    if g != [] {
      RemoveAbsent(g[..|g| - 1], t);
    }
  }

  /** Deleting any one grant keeps the history sorted and spaced. */
  lemma DeletionKeepsSpacing(h: seq<int>, k: nat, max: nat, w: int)
    requires k < |h| && Sorted(h) && Spaced(h, max, w)
    ensures Sorted(Without(h, k)) && Spaced(Without(h, k), max, w)
  {
    var d := Without(h, k);
    assert forall i :: 0 <= i < |d| ==> d[i] == h[if i < k then i else i + 1];
  }

  /** A release finds the same grant in a history `h` and in its newest part. */
  lemma ReleaseInSuffix(h: seq<int>, cut: nat, t: int) returns (k: nat)
    requires cut <= |h| && t in h
    ensures k < |h| && h[k] == t && RemoveLast(h, t) == Without(h, k)
    ensures forall i :: k < i < |h| ==> h[i] != t
    ensures t in h[cut..] ==> k >= cut && RemoveLast(h[cut..], t) == Without(h, k)[cut..]
    ensures t !in h[cut..] ==> k < cut && RemoveLast(h[cut..], t) == h[cut..] == Without(h, k)[cut - 1..]
  {
    k := RemoveLastAt(h, t);
    hide RemoveLast;
    var tail := h[cut..];
    if t in tail {
      var m := RemoveLastAt(tail, t);
      assert h[cut + m] == t;
      assert k >= cut && tail[k - cut] == t;
      assert Without(tail, m) == Without(h, k)[cut..];
    } else {
      RemoveAbsent(tail, t);
      assert forall i :: cut <= i < |h| ==> h[i] == tail[i - cut];
      assert tail == Without(h, k)[cut - 1..];
    }
  }

  lemma ReleaseKeepsInv(s: Ledger, at: int, max: nat, w: int)
    requires Inv(s, max, w) && max > 0 && w > 0
    ensures Inv(Apply(s, Release(at), max, w), max, w)
  {
    hide Sorted, Spaced, RemoveLast;
    if at in s.live {
      var k := ReleaseInSuffix(s.live, |s.live| - |s.recorded|, at);
      DeletionKeepsSpacing(s.live, k, max, w);
      var s' := Apply(s, Release(at), max, w);
      assert |s'.live| == |s.live| - 1;
      assert Inv(s', max, w);
    } else {
      assert at !in s.recorded;
      RemoveAbsent(s.recorded, at);
      RemoveAbsent(s.live, at);
    }
  }

  // ---------------------------------------------------------------- main results

  /** The run meets `InTime` and `Guarded` at every event. */
  ghost predicate GuardedRun(s: Ledger, es: seq<Event>, max: nat, w: int)
    requires max > 0
  {
    forall i :: 0 <= i < |es| ==>
      && InTime(Run(s, es[..i], max, w), es[i])
      && Guarded(Run(s, es[..i], max, w), es[i], max, w)
  }

  ghost predicate TimedRun(s: Ledger, es: seq<Event>, max: nat, w: int)
    requires max > 0
  {
    forall i :: 0 <= i < |es| ==> InTime(Run(s, es[..i], max, w), es[i])
  }

  lemma {:induction false} GuardedRunKeepsInv(es: seq<Event>, max: nat, w: int)
    requires max > 0 && w > 0 && GuardedRun(Fresh, es, max, w)
    ensures Inv(Run(Fresh, es, max, w), max, w)
    decreases |es|
  {
    if es != [] {
      var n := |es| - 1;
      var head := es[..n];
      assert forall i :: 0 <= i < n ==> head[..i] == es[..i];
      GuardedRunKeepsInv(head, max, w);
      var s := Run(Fresh, head, max, w);
      match es[n] {
        case Reserve(_, _) => ReserveKeepsInv(s, es[n], max, w);
        case Release(at) => ReleaseKeepsInv(s, at, max, w);
      }
    }
  }

  /** Releases of any kind, any `max`: as long as every reservation is guarded, all grants ever issued
      and not released keep the window bound, and they never go back in time. */
  lemma GuardedRunBounded(es: seq<Event>, max: nat, w: int)
    requires max > 0 && w > 0 && GuardedRun(Fresh, es, max, w)
    ensures WindowBound(Run(Fresh, es, max, w).live, max, w) && Sorted(Run(Fresh, es, max, w).live)
  {
    GuardedRunKeepsInv(es, max, w);
    BoundIsSpacing(Run(Fresh, es, max, w).live, max, w);
  }

  /** "Grants are monotonically non-decreasing" holds across a reservation exactly when it is
      guarded. */
  lemma MonotoneIffGuarded(s: Ledger, e: Event, max: nat, w: int)
    requires Inv(s, max, w) && max > 0 && w > 0
    requires e.Reserve? && InTime(s, e)
    requires !Refused(Slot(Prune(s.recorded, w, e.now), max, w, e.now), e.deadline)
    ensures Sorted(Apply(s, e, max, w).live) <==> Guarded(s, e, max, w)
  {
    var k := PrunedIsSuffixOfLive(s, max, w, e.now);
    GuardedBySlot(s, e, max, w);
    if Guarded(s, e, max, w) {
      ReserveKeepsInv(s, e, max, w);
    } else {
      hide Guarded, Prune, Slot, Spaced;
      var kept := Prune(s.recorded, w, e.now);
      var live' := Apply(s, e, max, w).live;
      assert kept[|kept| - 1] == live'[|s.live| - 1] > live'[|s.live|];
    }
  }

  /** Even the first unguarded reservation keeps the window bound: of the grants before it, only the
      `max - 1` newest can share a window with the new one. */
  lemma NextReserveStillBounded(s: Ledger, e: Event, max: nat, w: int)
    requires Inv(s, max, w) && max > 0 && w > 0 && e.Reserve? && InTime(s, e)
    ensures WindowBound(Apply(s, e, max, w).live, max, w)
  {
    SlotClearsOldGrants(s, max, w, e.now);
    BoundIsSpacing(s.live, max, w);
    var slot := Slot(Prune(s.recorded, w, e.now), max, w, e.now);
    var s' := Apply(s, e, max, w);
    if !Refused(slot, e.deadline) {
      assert s'.live[..|s.live|] == s.live;
      var n := |s.live|;
      var recent := if n + 1 < max then 0 else n + 1 - max;
      forall a: int ensures InWindow(s'.live, a, w) <= max {
        assert InWindow(s.live, a, w) <= max;
        if a < slot <= a + w {
          CountAtMost(s.live, a, a + w, recent, n);
        }
      }
    }
  }

  /** In a chained state every reservation is guarded. */
  lemma ChainedIsGuarded(s: Ledger, e: Event, max: nat, w: int)
    requires Inv(s, max, w) && Chained(s, max, w) && max > 0 && w > 0 && InTime(s, e)
    ensures Guarded(s, e, max, w)
  {
    if e.Reserve? {
      var k := PrunedIsSuffixOfLive(s, max, w, e.now);
      SlotClearsOldGrants(s, max, w, e.now);
      var n := |s.live|;
      if k < n && s.live[n - 1] > e.now {
        assert Linked(s.live, n - 1, max, w);
        assert s.live[n - max] >= s.live[n - 1 - max];
      }
    }
  }

  lemma ReserveKeepsChain(s: Ledger, e: Event, max: nat, w: int)
    requires Inv(s, max, w) && Chained(s, max, w) && max > 0 && w > 0
    requires e.Reserve? && InTime(s, e)
    ensures Chained(Apply(s, e, max, w), max, w)
  {
    var k := PrunedIsSuffixOfLive(s, max, w, e.now);
    hide Sorted, Spaced, Prune;
    var s' := Apply(s, e, max, w);
    forall j | 0 <= j < |s'.live| && s'.live[j] > s'.clock ensures Linked(s'.live, j, max, w) {
      if j < |s.live| {
        assert Linked(s.live, j, max, w);
      }
    }
  }

  /** Deleting grant `k` keeps the links of all grants whose predecessor comes after `k`. */
  lemma DeletionKeepsLink(h: seq<int>, k: nat, j: nat, max: nat, w: int)
    requires k < |h| && j < |h| - 1
    requires if j < k then Linked(h, j, max, w) else k < j + 1 - max && Linked(h, j + 1, max, w)
    ensures Linked(Without(h, k), j, max, w)
  {}

  lemma ReleaseKeepsChain(s: Ledger, at: int, max: nat, w: int)
    requires Inv(s, max, w) && Chained(s, max, w) && max > 0 && w > 0
    requires NewestFirst(s, Release(at))
    ensures Chained(Apply(s, Release(at), max, w), max, w)
  {
    var n := |s.live|;
    if at in s.live {
      var k := ReleaseInSuffix(s.live, n - |s.recorded|, at);
      hide RemoveLast, Spaced;
      assert at in s.recorded ==> s.live[n - 1] == at;
      assert at !in s.recorded ==> at + w <= s.clock;
      assert at in s.recorded ==> k == n - 1;
      forall j | 0 <= j < n - 1 && Without(s.live, k)[j] > s.clock ensures Linked(Without(s.live, k), j, max, w) {
        LinkSurvives(s, at, k, j, max, w);
      }
    } else {
      RemoveAbsent(s.live, at);
    }
  }

  lemma LinkSurvives(s: Ledger, at: int, k: nat, j: nat, max: nat, w: int)
    requires Sorted(s.live) && Chained(s, max, w) && max > 0 && w > 0
    requires k < |s.live| && j < |s.live| - 1 && s.live[k] == at
    requires k < |s.live| - 1 ==> at + w <= s.clock
    requires Without(s.live, k)[j] > s.clock
    ensures Linked(Without(s.live, k), j, max, w)
  {
    if j < k {
      assert Linked(s.live, j, max, w);
    } else {
      assert Linked(s.live, j + 1, max, w);
      assert k < j + 1 - max;
    }
    DeletionKeepsLink(s.live, k, j, max, w);
  }

  lemma StepKeepsChain(s: Ledger, e: Event, max: nat, w: int)
    requires Inv(s, max, w) && Chained(s, max, w) && max > 0 && w > 0
    requires InTime(s, e) && NewestFirst(s, e)
    ensures Inv(Apply(s, e, max, w), max, w) && Chained(Apply(s, e, max, w), max, w)
  {
    match e
    case Reserve(_, _) =>
      ChainedIsGuarded(s, e, max, w);
      ReserveKeepsInv(s, e, max, w);
      ReserveKeepsChain(s, e, max, w);
    case Release(at) =>
      ReleaseKeepsInv(s, at, max, w);
      ReleaseKeepsChain(s, at, max, w);
  }

  ghost predicate NewestFirstRun(s: Ledger, es: seq<Event>, max: nat, w: int)
    requires max > 0
  {
    forall i :: 0 <= i < |es| ==> NewestFirst(Run(s, es[..i], max, w), es[i])
  }

  lemma {:induction false} NewestFirstRunChained(es: seq<Event>, max: nat, w: int)
    requires max > 0 && w > 0 && TimedRun(Fresh, es, max, w) && NewestFirstRun(Fresh, es, max, w)
    ensures Inv(Run(Fresh, es, max, w), max, w) && Chained(Run(Fresh, es, max, w), max, w)
    decreases |es|
  {
    if es != [] {
      var n := |es| - 1;
      var head := es[..n];
      assert forall i :: 0 <= i < n ==> head[..i] == es[..i];
      NewestFirstRunChained(head, max, w);
      StepKeepsChain(Run(Fresh, head, max, w), es[n], max, w);
    }
  }

  /** Window bound, for any `max`, over every run whose releases take the newest recorded grant first;
      runs without releases are among them. */
  lemma NewestFirstRunBounded(es: seq<Event>, max: nat, w: int)
    requires max > 0 && w > 0 && TimedRun(Fresh, es, max, w) && NewestFirstRun(Fresh, es, max, w)
    ensures WindowBound(Run(Fresh, es, max, w).live, max, w) && Sorted(Run(Fresh, es, max, w).live)
  {
    NewestFirstRunChained(es, max, w);
    BoundIsSpacing(Run(Fresh, es, max, w).live, max, w);
  }

  /** Window bound and monotone grants over every run without a release, refusals and pruning
      included; `live` is then every grant ever issued. */
  lemma ReleaseFreeRunBounded(es: seq<Event>, max: nat, w: int)
    requires max > 0 && w > 0 && TimedRun(Fresh, es, max, w)
    requires forall i :: 0 <= i < |es| ==> es[i].Reserve?
    ensures WindowBound(Run(Fresh, es, max, w).live, max, w) && Sorted(Run(Fresh, es, max, w).live)
    ensures Chained(Run(Fresh, es, max, w), max, w)
  {
    NewestFirstRunBounded(es, max, w);
    NewestFirstRunChained(es, max, w);
  }

  /** For `max` = 1 the bound survives any releases at all. */
  lemma {:induction false} SingleSlotRunBounded(es: seq<Event>, w: int)
    requires w > 0 && TimedRun(Fresh, es, 1, w)
    ensures WindowBound(Run(Fresh, es, 1, w).live, 1, w) && Sorted(Run(Fresh, es, 1, w).live)
  {
    SingleSlotRunGuarded(es, w);
    GuardedRunBounded(es, 1, w);
  }

  lemma {:induction false} SingleSlotRunGuarded(es: seq<Event>, w: int)
    requires w > 0 && TimedRun(Fresh, es, 1, w)
    ensures GuardedRun(Fresh, es, 1, w)
    decreases |es|
  {
    if es != [] {
      var n := |es| - 1;
      var head := es[..n];
      assert forall i :: 0 <= i < n ==> head[..i] == es[..i];
      SingleSlotRunGuarded(head, w);
      forall i | 0 <= i < |es|
        ensures InTime(Run(Fresh, es[..i], 1, w), es[i]) && Guarded(Run(Fresh, es[..i], 1, w), es[i], 1, w)
      {
        if i < n {
          assert head[i] == es[i];
        }
      }
    }
  }

  lemma {:induction false} PruneNone(g: seq<int>, w: int, now: int)
    requires forall i :: 0 <= i < |g| ==> g[i] + w > now
    ensures Prune(g, w, now) == g
    decreases |g|
  {
    if g != [] {
      PruneNone(g[..|g| - 1], w, now);
    }
  }

  lemma ExtendRun(es: seq<Event>, e: Event, before: Ledger, after: Ledger, max: nat, w: int)
    requires max > 0 && TimedRun(Fresh, es, max, w) && Run(Fresh, es, max, w) == before
    requires InTime(before, e)
    requires e.Reserve? ==> forall i :: 0 <= i < |before.recorded| ==> before.recorded[i] + w > e.now
    requires if e.Reserve? then
               var slot := Slot(before.recorded, max, w, e.now);
               e.deadline.None? && after == Ledger(before.recorded + [slot], before.live + [slot], e.now)
             else
               after == Ledger(RemoveLast(before.recorded, e.at), RemoveLast(before.live, e.at), before.clock)
    ensures TimedRun(Fresh, es + [e], max, w) && Run(Fresh, es + [e], max, w) == after
  {
    var es' := es + [e];
    assert es'[..|es|] == es;
    assert forall i :: 0 <= i < |es| ==> es'[..i] == es[..i];
    if e.Reserve? {
      PruneNone(before.recorded, w, e.now);
    }
  }

  lemma TwoRemoved()
    ensures RemoveLast([0, 0, 10], 0) == [0, 10] && RemoveLast([0, 10], 0) == [10]
  {
    assert [0, 0, 10][..2] == [0, 0] && [0, 0][..1] == [0];
    assert [0, 10][..1] == [0];
  }

  lemma Grant(es: seq<Event>, h: seq<int>, max: nat, w: int)
    requires max > 0 && w > 0 && TimedRun(Fresh, es, max, w) && Run(Fresh, es, max, w) == Same(h)
    requires forall i :: 0 <= i < |h| ==> h[i] + w > 0
    ensures var next := h + [Slot(h, max, w, 0)]; var longer := es + [Reserve(0, None)];
            TimedRun(Fresh, longer, max, w) && Run(Fresh, longer, max, w) == Same(next)
  {
    ExtendRun(es, Reserve(0, None), Same(h), Same(h + [Slot(h, max, w, 0)]), max, w);
  }

  lemma GiveBack(es: seq<Event>, h: seq<int>, t: int, max: nat, w: int)
    requires max > 0 && TimedRun(Fresh, es, max, w) && Run(Fresh, es, max, w) == Same(h)
    ensures TimedRun(Fresh, es + [Release(t)], max, w) && Run(Fresh, es + [Release(t)], max, w) == Same(RemoveLast(h, t))
  {
    ExtendRun(es, Release(t), Same(h), Same(RemoveLast(h, t)), max, w);
  }

  /** Ten events at time 0: three reservations, the first two grants given back, three reservations, the
      newest of the latest times given back, one reservation. */
  function Troublesome(k: nat): Event {
    if k == 3 || k == 4 then Release(0) else if k == 8 then Release(20) else Reserve(0, None)
  }

  function Trouble(n: nat): seq<Event> {
    if n == 0 then [] else Trouble(n - 1) + [Troublesome(n - 1)]
  }

  ghost predicate Reaches(n: nat, h: seq<int>) {
    TimedRun(Fresh, Trouble(n), 2, 10) && Run(Fresh, Trouble(n), 2, 10) == Same(h)
  }

  lemma Granted(n: nat, h: seq<int>, t: int)
    requires Reaches(n, h) && Troublesome(n).Reserve? && t == Slot(h, 2, 10, 0)
    requires forall i :: 0 <= i < |h| ==> h[i] + 10 > 0
    ensures Reaches(n + 1, h + [t])
  {
    Grant(Trouble(n), h, 2, 10);
  }

  lemma GivenBack(n: nat, h: seq<int>, h': seq<int>)
    requires Reaches(n, h) && Troublesome(n).Release? && h' == RemoveLast(h, Troublesome(n).at)
    ensures Reaches(n + 1, h')
  {
    GiveBack(Trouble(n), h, Troublesome(n).at, 2, 10);
  }

  lemma FirstTwo()
    ensures Reaches(2, [0, 0])
  {
    assert Reaches(0, []);
    hide Reaches;
    Granted(0, [], 0);
    assert [] + [0] == [0];
    Granted(1, [0], 0);
    assert [0] + [0] == [0, 0];
  }

  lemma FirstFive()
    ensures Reaches(5, [10])
  {
    hide Reaches, RemoveLast;
    FirstTwo();
    Granted(2, [0, 0], 10);
    assert [0, 0] + [10] == [0, 0, 10];
    TwoRemoved();
    GivenBack(3, [0, 0, 10], [0, 10]);
    GivenBack(4, [0, 10], [10]);
  }

  lemma FirstSeven()
    ensures Reaches(7, [10, 0, 20])
  {
    hide Reaches;
    FirstFive();
    Granted(5, [10], 0);
    assert [10] + [0] == [10, 0];
    Granted(6, [10, 0], 20);
    assert [10, 0] + [20] == [10, 0, 20];
  }

  lemma AllTen()
    ensures Reaches(10, [10, 0, 10, 10])
  {
    hide Reaches, RemoveLast, InWindow;
    FirstSeven();
    Granted(7, [10, 0, 20], 10);
    assert [10, 0, 20] + [10] == [10, 0, 20, 10];
    ThreeInOneWindow();
    GivenBack(8, [10, 0, 20, 10], [10, 0, 10]);
    Granted(9, [10, 0, 10], 10);
    assert [10, 0, 10] + [10] == [10, 0, 10, 10];
  }

  lemma ThreeInOneWindow()
    ensures RemoveLast([10, 0, 20, 10], 20) == [10, 0, 10]
    ensures InWindow([10, 0, 10, 10], 0, 10) == 3
  {
    assert [10, 0][..1] == [10] && Count([10, 0], 0, 10) == 1;
    assert [10, 0, 10][..2] == [10, 0] && Count([10, 0, 10], 0, 10) == 2;
    assert [10, 0, 10, 10][..3] == [10, 0, 10];
    assert [10, 0, 20, 10][..3] == [10, 0, 20] && [10, 0, 20][..2] == [10, 0];
  }

  /** Releases out of order break the bound for `max` = 2: that run of ten events (window 10) ends with
      three grants at one instant. */
  lemma OutOfOrderReleasesBreakBound()
    ensures TimedRun(Fresh, Trouble(10), 2, 10)
    ensures Run(Fresh, Trouble(10), 2, 10).live == [10, 0, 10, 10]
    ensures !WindowBound(Run(Fresh, Trouble(10), 2, 10).live, 2, 10)
  {
    AllTen();
    ThreeInOneWindow();
    hide Run, TimedRun, RemoveLast, InWindow, Trouble;
  }

  /** A ledger at time 0 with nothing pruned. */
  function Same(h: seq<int>): Ledger {
    Ledger(h, h, 0)
  }

  // ---------------------------------------------------------------- the bound under any releases

  lemma {:induction false} CountRemoved(g: seq<int>, t: int, lo: int, hi: int)
    ensures Count(RemoveLast(g, t), lo, hi) == Count(g, lo, hi) - (if t in g && lo < t <= hi then 1 else 0)
    decreases |g|
  {
    if g != [] {
      var n := |g| - 1;
      assert g == g[..n] + [g[n]];
      if g[n] != t {
        CountRemoved(g[..n], t, lo, hi);
        CountAppended(RemoveLast(g[..n], t), g[n], lo, hi);
      }
    }
  }

  lemma {:induction false} CountPruned(g: seq<int>, w: int, now: int, lo: int, hi: int)
    requires lo >= now - w
    ensures Count(Prune(g, w, now), lo, hi) == Count(g, lo, hi)
    decreases |g|
  {
    if g != [] {
      var n := |g| - 1;
      CountPruned(g[..n], w, now, lo, hi);
      CountAppended(Prune(g[..n], w, now), g[n], lo, hi);
    }
  }

  lemma {:induction false} CountedIn(g: seq<int>, lo: int, hi: int)
    ensures Count(g, lo, hi) > 0 <==> exists x :: x in g && lo < x <= hi
    decreases |g|
  {
    if g != [] {
      var n := |g| - 1;
      CountedIn(g[..n], lo, hi);
      assert g == g[..n] + [g[n]];
      if lo < g[n] <= hi {
        assert g[n] in g;
      } else {
        forall x | x in g && lo < x <= hi ensures x in g[..n] {}
        forall x | x in g[..n] ensures x in g {}
      }
    }
  }

  /** The list kept and the whole history hold the same grants as far back as a window before the clock,
      whatever was released. */
  ghost predicate Agree(s: Ledger, w: int) {
    forall lo, hi {:trigger Count(s.live, lo, hi)} :: lo >= s.clock - w ==> Count(s.recorded, lo, hi) == Count(s.live, lo, hi)
  }

  lemma CountAppended(h: seq<int>, x: int, lo: int, hi: int)
    ensures Count(h + [x], lo, hi) == Count(h, lo, hi) + (if lo < x <= hi then 1 else 0)
  {
    assert (h + [x])[..|h|] == h;
  }

  lemma StepAgrees(s: Ledger, e: Event, max: nat, w: int)
    requires max > 0 && w > 0 && InTime(s, e) && Agree(s, w)
    ensures Agree(Apply(s, e, max, w), w)
  {
    var s' := Apply(s, e, max, w);
    forall lo, hi | lo >= s'.clock - w ensures Count(s'.recorded, lo, hi) == Count(s'.live, lo, hi) {
      assert Count(s.recorded, lo, hi) == Count(s.live, lo, hi);
      match e
      case Reserve(now, deadline) =>
        CountPruned(s.recorded, w, now, lo, hi);
        var kept := Prune(s.recorded, w, now);
        var slot := Slot(kept, max, w, now);
        CountAppended(kept, slot, lo, hi);
        CountAppended(s.live, slot, lo, hi);
      case Release(at) =>
        CountRemoved(s.recorded, at, lo, hi);
        CountRemoved(s.live, at, lo, hi);
        if lo < at {
          assert Count(s.recorded, at - 1, at) == Count(s.live, at - 1, at);
          CountedIn(s.recorded, at - 1, at);
          CountedIn(s.live, at - 1, at);
        }
    }
  }

  lemma {:induction false} TimedRunAgrees(es: seq<Event>, max: nat, w: int)
    requires max > 0 && w > 0 && TimedRun(Fresh, es, max, w)
    ensures Agree(Run(Fresh, es, max, w), w)
    decreases |es|
  {
    if es != [] {
      var n := |es| - 1;
      assert forall i :: 0 <= i < n ==> es[..n][..i] == es[..i];
      TimedRunAgrees(es[..n], max, w);
      StepAgrees(Run(Fresh, es[..n], max, w), es[n], max, w);
    }
  }

  /** A finite check on the surviving list alone: fewer than `max` grants in the window that ends at the
      slot, and in each that ends at a later grant and still contains the slot. */
  predicate Fits(kept: seq<int>, slot: int, max: nat, w: int) {
    && Count(kept, slot - w, slot) < max
    && forall g :: g in kept && slot <= g < slot + w ==> Count(kept, g - w, g) < max
  }

  lemma {:induction false} LatestWithin(g: seq<int>, lo: int, slot: int, hi: int) returns (e: int)
    requires lo < slot <= hi
    ensures slot <= e <= hi && (e == slot || e in g) && Count(g, lo, hi) == Count(g, lo, e)
    decreases |g|
  {
    e := slot;
    if g != [] {
      var n := |g| - 1;
      assert g == g[..n] + [g[n]];
      e := LatestWithin(g[..n], lo, slot, hi);
      if e < g[n] <= hi {
        CountUpTo(g[..n], lo, e, g[n], hi);
        e := g[n];
      }
    }
  }

  lemma {:induction false} CountUpTo(g: seq<int>, lo: int, e: int, mid: int, hi: int)
    requires e <= mid <= hi && Count(g, lo, e) == Count(g, lo, hi)
    ensures Count(g, lo, mid) == Count(g, lo, hi)
    decreases |g|
  {
    CountWider(g, lo, e, lo, mid);
    CountWider(g, lo, mid, lo, hi);
  }

  lemma {:induction false} CountWider(g: seq<int>, lo: int, hi: int, lo': int, hi': int)
    requires lo' <= lo && hi <= hi'
    ensures Count(g, lo, hi) <= Count(g, lo', hi')
    decreases |g|
  {
    if g != [] {
      CountWider(g[..|g| - 1], lo, hi, lo', hi');
    }
  }

  /** The check is about every window that contains the slot. */
  lemma FitsEveryWindow(kept: seq<int>, slot: int, max: nat, w: int)
    requires w > 0
    ensures Fits(kept, slot, max, w) <==> forall a: int :: a < slot <= a + w ==> InWindow(kept, a, w) < max
  {
    if Fits(kept, slot, max, w) {
      forall a: int | a < slot <= a + w ensures InWindow(kept, a, w) < max {
        var e := LatestWithin(kept, a, slot, a + w);
        CountWider(kept, a, e, e - w, e);
      }
    }
    if forall a: int :: a < slot <= a + w ==> InWindow(kept, a, w) < max {
      assert InWindow(kept, slot - w, w) < max;
      forall g | g in kept && slot <= g < slot + w ensures Count(kept, g - w, g) < max {
        assert InWindow(kept, g - w, w) < max;
      }
    }
  }

  /** When a reservation keeps the window bound, whatever was released before: if and only if the chosen
      slot fits the surviving list. */
  lemma BoundIffFits(s: Ledger, e: Event, max: nat, w: int)
    requires max > 0 && w > 0 && Agree(s, w) && e.Reserve? && InTime(s, e) && WindowBound(s.live, max, w)
    requires !Refused(Slot(Prune(s.recorded, w, e.now), max, w, e.now), e.deadline)
    ensures var kept := Prune(s.recorded, w, e.now);
            WindowBound(Apply(s, e, max, w).live, max, w) <==> Fits(kept, Slot(kept, max, w, e.now), max, w)
  {
    var kept := Prune(s.recorded, w, e.now);
    var slot := Slot(kept, max, w, e.now);
    assert slot >= e.now;
    FitsEveryWindow(kept, slot, max, w);
    forall a: int ensures InWindow(s.live + [slot], a, w) == InWindow(s.live, a, w) + (if a < slot <= a + w then 1 else 0)
      ensures a < slot <= a + w ==> InWindow(s.live, a, w) == InWindow(kept, a, w)
    {
      CountAppended(s.live, slot, a, a + w);
      if a < slot <= a + w {
        CountPruned(s.recorded, w, e.now, a, a + w);
        assert Count(s.recorded, a, a + w) == Count(s.live, a, a + w);
      }
    }
    hide Fits, Prune, Slot, Count;
    if WindowBound(s.live + [slot], max, w) {
      forall a: int | a < slot <= a + w ensures InWindow(kept, a, w) < max {
        assert InWindow(s.live + [slot], a, w) <= max;
      }
    }
    if Fits(kept, slot, max, w) {
      forall a: int ensures InWindow(s.live + [slot], a, w) <= max {
        assert InWindow(s.live, a, w) <= max;
      }
    }
  }

  lemma ReleaseKeepsBound(h: seq<int>, at: int, max: nat, w: int)
    requires WindowBound(h, max, w)
    ensures WindowBound(RemoveLast(h, at), max, w)
  {
    forall a: int ensures InWindow(RemoveLast(h, at), a, w) <= max {
      CountRemoved(h, at, a, a + w);
      assert InWindow(h, a, w) <= max;
    }
  }

  /** The event, if it is a reservation that is granted, gets a slot that fits. */
  predicate FitsIn(s: Ledger, e: Event, max: nat, w: int)
    requires max > 0
  {
    e.Reserve? ==>
      var kept := Prune(s.recorded, w, e.now);
      var slot := Slot(kept, max, w, e.now);
      Refused(slot, e.deadline) || Fits(kept, slot, max, w)
  }

  /** The bound holds after every event of the run. */
  ghost predicate BoundedThroughout(es: seq<Event>, max: nat, w: int)
    requires max > 0
    decreases |es|
  {
    WindowBound(Run(Fresh, es, max, w).live, max, w) && (es == [] || BoundedThroughout(es[..|es| - 1], max, w))
  }

  /** Every slot granted in the run fits. */
  predicate FitsThroughout(es: seq<Event>, max: nat, w: int)
    requires max > 0
    decreases |es|
  {
    es == [] ||
    (FitsThroughout(es[..|es| - 1], max, w) && FitsIn(Run(Fresh, es[..|es| - 1], max, w), es[|es| - 1], max, w))
  }

  /** The window bound under arbitrary releases, any `max`: over a whole run it holds after every event if
      and only if every granted slot fits the list it was chosen from. */
  lemma {:induction false} RunBoundedIffFits(es: seq<Event>, max: nat, w: int)
    requires max > 0 && w > 0 && TimedRun(Fresh, es, max, w)
    ensures BoundedThroughout(es, max, w) <==> FitsThroughout(es, max, w)
    decreases |es|
  {
    if es == [] {
      forall a: int ensures InWindow([], a, w) <= max {}
    } else {
      var n := |es| - 1;
      var s := Run(Fresh, es[..n], max, w);
      TimedHead(es, max, w);
      RunBoundedIffFits(es[..n], max, w);
      TimedRunAgrees(es[..n], max, w);
      assert Run(Fresh, es, max, w) == Apply(s, es[n], max, w);
      hide FitsIn, WindowBound, Agree, TimedRun, Run, Apply;
      if WindowBound(s.live, max, w) {
        LastStep(s, es[n], max, w);
      }
    }
  }

  lemma TimedHead(es: seq<Event>, max: nat, w: int)
    requires max > 0 && es != [] && TimedRun(Fresh, es, max, w)
    ensures TimedRun(Fresh, es[..|es| - 1], max, w)
    ensures InTime(Run(Fresh, es[..|es| - 1], max, w), es[|es| - 1])
  {
    var n := |es| - 1;
    assert forall i :: 0 <= i < n ==> es[..n][..i] == es[..i];
  }

  lemma LastStep(s: Ledger, e: Event, max: nat, w: int)
    requires max > 0 && w > 0 && Agree(s, w) && InTime(s, e) && WindowBound(s.live, max, w)
    ensures WindowBound(Apply(s, e, max, w).live, max, w) <==> FitsIn(s, e, max, w)
  {
    match e
    case Reserve(now, deadline) =>
      var slot := Slot(Prune(s.recorded, w, now), max, w, now);
      hide WindowBound, Fits;
      if !Refused(slot, deadline) {
        BoundIffFits(s, e, max, w);
      }
    case Release(at) => ReleaseKeepsBound(s.live, at, max, w);
  }

  // ---------------------------------------------------------------- new rules on old grants

  /** A rule change with grants on file, to any window and cap: the next slot keeps the new rule over the whole
      history, in the window that ends there, if and only if the list kept under the new window is full, so
      that its grants decide, or the grants of the last window, those on record and those already pruned, are
      fewer than the new cap. */
  lemma NewRuleKeptIff(s: Ledger, max: nat, w: int, max': nat, w': int, now: int)
    requires Inv(s, max, w) && max' > 0 && w' > 0
    ensures var kept := Prune(s.recorded, w', now); var slot := Slot(kept, max', w', now);
            var pruned := s.live[..|s.live| - |s.recorded|];
            && slot >= now
            && (Count(s.live, slot - w', slot) < max' <==>
                  |kept| >= max' || Count(pruned, now - w', now) + Count(s.recorded, now - w', now) < max')
  {
    var cut: nat := |s.live| - |s.recorded|;
    hide Sorted, Spaced, Prune, Slot, Count;
    RoomAfterPruning(s.live, cut, max', w', now);
  }

  lemma RoomAfterPruning(h: seq<int>, cut: nat, max: nat, w: int, now: int)
    requires Sorted(h) && cut <= |h| && max > 0
    ensures var kept := Prune(h[cut..], w, now); var slot := Slot(kept, max, w, now);
            && slot >= now
            && (Count(h, slot - w, slot) < max <==>
                  |kept| >= max || Count(h[..cut], now - w, now) + Count(h[cut..], now - w, now) < max)
  {
    hide Sorted, Prune, Count, Slot;
    var k := PruneOfSuffix(h, cut, w, now);
    SlotAfterSuffix(h, k, max, w, now);
    CountCut(h, cut, now - w, now);
  }

  lemma PruneOfSuffix(h: seq<int>, cut: nat, w: int, now: int) returns (k: nat)
    requires Sorted(h) && cut <= |h|
    ensures k <= |h| && Prune(h[cut..], w, now) == h[k..]
  {
    SortedSuffix(h, cut);
    var j := PruneIsSuffix(h[cut..], w, now);
    SuffixOfSuffix(h, cut, j);
    k := cut + j;
  }

  lemma SlotAfterSuffix(h: seq<int>, k: nat, max: nat, w: int, now: int)
    requires Sorted(h) && k <= |h| && max > 0
    ensures var slot := Slot(h[k..], max, w, now);
            && slot >= now
            && (Count(h, slot - w, slot) < max <==> |h[k..]| >= max || Count(h, now - w, now) < max)
  {
    hide Sorted, Count;
    if |h| - k >= max {
      FullSuffixDecides(h, k, max, w, now);
    }
  }

  lemma CountCut(h: seq<int>, cut: nat, lo: int, hi: int)
    requires cut <= |h|
    ensures Count(h, lo, hi) == Count(h[..cut], lo, hi) + Count(h[cut..], lo, hi)
  {
    CountConcat(h[..cut], h[cut..], lo, hi);
    hide Count;
    assert h == h[..cut] + h[cut..];
  }

  lemma {:induction false} CountConcat(g: seq<int>, h: seq<int>, lo: int, hi: int)
    ensures Count(g + h, lo, hi) == Count(g, lo, hi) + Count(h, lo, hi)
    decreases |h|
  {
    if h == [] {
      assert g + h == g;
    } else {
      var n := |h| - 1;
      CountConcat(g, h[..n], lo, hi);
      assert (g + h)[..|g + h| - 1] == g + h[..n];
    }
  }

  /** A list that is full when a suffix of the history is kept: the slot is a window after every grant `max` or
      more places back. */
  lemma FullSuffixDecides(h: seq<int>, from: nat, max: nat, w: int, now: int)
    requires Sorted(h) && from <= |h| && max > 0 && |h[from..]| >= max
    ensures var slot := Slot(h[from..], max, w, now); slot >= now && Count(h, slot - w, slot) < max
  {
    var n := |h|;
    var slot := Slot(h[from..], max, w, now);
    assert h[from..][n - from - max] == h[n - max];
    forall i | 0 <= i <= n - max ensures h[i] + w <= slot {}
    hide Slot, Sorted;
    CountAtMost(h, slot - w, slot, n - max + 1, n);
  }

  /** So a new window no longer than the old one always keeps the new rule: all that was pruned is too old
      for it. */
  lemma NewRuleSeesHistory(s: Ledger, max: nat, w: int, max': nat, w': int, now: int)
    requires Inv(s, max, w) && max' > 0 && 0 < w' <= w && now >= s.clock
    ensures var slot := Slot(Prune(s.recorded, w', now), max', w', now);
            slot >= now && Count(s.live, slot - w', slot) < max'
  {
    NewRuleKeptIff(s, max, w, max', w', now);
    hide Sorted, Spaced, Prune, Slot, Count;
    var kept, pruned := Prune(s.recorded, w', now), s.live[..|s.live| - |s.recorded|];
    CountAtMost(pruned, now - w', now, 0, 0);
    CountPruned(s.recorded, w', now, now - w', now);
    CountAtMost(kept, now - w', now, 0, |kept|);
  }

  /** A longer new window comes too late for what the old one already pruned: grants at 0 and 5 under one
      per unit, then two per ten units, and at time 6 a third grant within ten. */
  lemma LongerWindowForgets()
    ensures var s := Apply(Apply(Fresh, Reserve(0, None), 1, 1), Reserve(5, None), 1, 1);
            var slot := Slot(Prune(s.recorded, 10, 6), 2, 10, 6);
            s.live == [0, 5] && s.recorded == [5] && slot == 6 && !WindowBound(s.live + [slot], 2, 10)
  {
    TwoGrants();
    assert Prune([5], 10, 6) == [5];
    ThreeInTen();
    hide Apply, Prune, InWindow;
  }

  lemma TwoGrants()
    ensures Apply(Fresh, Reserve(0, None), 1, 1) == Ledger([0], [0], 0)
    ensures Apply(Ledger([0], [0], 0), Reserve(5, None), 1, 1) == Ledger([5], [0, 5], 5)
  {
    assert [] + [0] == [0];
    assert Prune([0], 1, 5) == [];
    assert [] + [5] == [5] && [0] + [5] == [0, 5];
  }

  lemma ThreeInTen()
    ensures [0, 5] + [6] == [0, 5, 6] && InWindow([0, 5, 6], -1, 10) == 3
  {
    CountAppended([0, 5], 6, -1, 9);
    CountAppended([0], 5, -1, 9);
    CountAppended([], 0, -1, 9);
    assert [] + [0] == [0] && [0] + [5] == [0, 5];
  }

  /** A time before the chosen slot already has `max` grants in the window that ends there. */
  lemma EarlierIsFull(s: Ledger, max: nat, w: int, now: int, t: int)
    requires Inv(s, max, w) && Chained(s, max, w) && max > 0 && w > 0 && now >= s.clock
    requires now <= t < Slot(Prune(s.recorded, w, now), max, w, now)
    ensures Count(s.live, t - w, t) == max
  {
    var k := PrunedIsSuffixOfLive(s, max, w, now);
    BoundIsSpacing(s.live, max, w);
    assert InWindow(s.live, t - w, w) <= max;
    hide Sorted, Spaced, Prune, WindowBound;
    var kept := Prune(s.recorded, w, now);
    var n := |s.live|;
    assert kept[|kept| - max] == s.live[n - max];
    var j := LastUpTo(s, max, w, t, n);
    CountAtLeast(s.live, t - w, t, j - max, j);
  }

  /** Earliest slot: the chosen time keeps the bound, and every earlier time from now on would put
      one grant too many into the window that ends there. */
  lemma SlotIsEarliest(s: Ledger, max: nat, w: int, now: int, t: int)
    requires Inv(s, max, w) && Chained(s, max, w) && max > 0 && w > 0 && now >= s.clock
    ensures var slot := Slot(Prune(s.recorded, w, now), max, w, now);
            && slot >= now
            && WindowBound(s.live + [slot], max, w)
            && (now <= t < slot ==> Count(s.live + [t], t - w, t) == max + 1 && !WindowBound(s.live + [t], max, w))
  {
    NextReserveStillBounded(s, Reserve(now, None), max, w);
    SlotClearsOldGrants(s, max, w, now);
    if now <= t < Slot(Prune(s.recorded, w, now), max, w, now) {
      EarlierIsFull(s, max, w, now, t);
      assert (s.live + [t])[..|s.live|] == s.live;
      assert InWindow(s.live + [t], t - w, w) == max + 1;
    }
  }

  /** When a request is refused, in terms of the history alone: if and only if it has a deadline and no time from
      now to the deadline would keep the bound. A granted time is one that does, and the earliest. */
  lemma RefusedIffNoTimeFits(es: seq<Event>, max: nat, w: int, now: int, deadline: Option<int>)
    requires max > 0 && w > 0 && TimedRun(Fresh, es, max, w) && forall i :: 0 <= i < |es| ==> es[i].Reserve?
    requires now >= Run(Fresh, es, max, w).clock
    ensures var s := Run(Fresh, es, max, w); var s' := Apply(s, Reserve(now, deadline), max, w);
            if s'.live == s.live then deadline.Some? && forall t :: now <= t <= deadline.value ==> !WindowBound(s.live + [t], max, w)
            else
              && |s'.live| == |s.live| + 1 && s'.live[..|s.live|] == s.live
              && var at := s'.live[|s.live|];
                 && at >= now && (deadline.Some? ==> at <= deadline.value) && WindowBound(s.live + [at], max, w)
                 && forall t :: now <= t < at ==> !WindowBound(s.live + [t], max, w)
  {
    var s := Run(Fresh, es, max, w);
    NewestFirstRunKeeps(es, max, w);
    forall t ensures var slot := Slot(Prune(s.recorded, w, now), max, w, now);
                     now <= t < slot ==> !WindowBound(s.live + [t], max, w)
    {
      SlotIsEarliest(s, max, w, now, t);
    }
    SlotIsEarliest(s, max, w, now, now);
    hide WindowBound, Run, Prune, Slot;
  }

  lemma NewestFirstRunKeeps(es: seq<Event>, max: nat, w: int)
    requires max > 0 && w > 0 && TimedRun(Fresh, es, max, w) && forall i :: 0 <= i < |es| ==> es[i].Reserve?
    ensures Inv(Run(Fresh, es, max, w), max, w) && Chained(Run(Fresh, es, max, w), max, w)
  {
    NewestFirstRunChained(es, max, w);
  }

  /** Whatever was released before: a granted time lies between now and the deadline, and what is kept on record,
      granted or not, can still share a window with a later grant. */
  lemma GrantedInTime(s: Ledger, max: nat, w: int, now: int, deadline: Option<int>)
    requires max > 0 && w > 0
    ensures var s' := Apply(s, Reserve(now, deadline), max, w);
            && (s'.live == s.live
                || (s'.live != [] && s'.live[..|s'.live| - 1] == s.live
                    && now <= s'.live[|s'.live| - 1] && (deadline.Some? ==> s'.live[|s'.live| - 1] <= deadline.value)))
            && (forall g :: g in s'.recorded ==> g + w > now)
  {
    PruneKeepsFresh(s.recorded, w, now);
    hide Prune;
  }

  lemma {:induction false} PruneKeepsFresh(g: seq<int>, w: int, now: int)
    ensures forall t :: t in Prune(g, w, now) ==> t in g && t + w > now
    decreases |g|
  {
    if g != [] {
      PruneKeepsFresh(g[..|g| - 1], w, now);
    }
  }

  /** The `max` grants that end at the last one not after `t` all lie within a window before `t`. */
  lemma {:induction false} LastUpTo(s: Ledger, max: nat, w: int, t: int, n: nat) returns (j: nat)
    requires Inv(s, max, w) && Chained(s, max, w) && max > 0 && w > 0
    requires n <= |s.live| && t >= s.clock && (forall i :: n <= i < |s.live| ==> s.live[i] > t)
    requires n >= max && s.live[n - max] > t - w
    ensures max <= j <= |s.live| && forall i :: j - max <= i < j ==> t - w < s.live[i] <= t
    decreases n
  {
    assert Sorted(s.live);
    hide Inv, Spaced;
    if s.live[n - 1] <= t {
      j := n;
    } else {
      assert Linked(s.live, n - 1, max, w);
      j := LastUpTo(s, max, w, t, n - 1);
    }
  }

  // ---------------------------------------------------------------- how long a caller waits

  /** Future grants in the recorded list. */
  function Future(g: seq<int>, now: int): nat {
    if g == [] then 0 else Future(g[..|g| - 1], now) + (if g[|g| - 1] > now then 1 else 0)
  }

  /** In a sorted list the future grants are the last ones. */
  lemma {:induction false} FutureIsTail(g: seq<int>, now: int)
    requires Sorted(g)
    ensures Future(g, now) <= |g|
    ensures forall i :: 0 <= i < |g| ==> (g[i] > now <==> i >= |g| - Future(g, now))
  {
    if g != [] {
      FutureIsTail(g[..|g| - 1], now);
    }
  }

  /** Going back along the chain from grant `i`, `k` steps to the first grant that is not in the
      future. */
  lemma {:induction false} ChainBack(s: Ledger, max: nat, w: int, i: nat) returns (r: nat, k: nat)
    requires Inv(s, max, w) && Chained(s, max, w) && max > 0 && i < |s.live|
    ensures r <= i && r == i - k * max
    ensures s.live[r] <= s.clock && s.live[i] == s.live[r] + k * w
    ensures k > 0 ==> r + max <= i && s.live[r + max] > s.clock && s.live[r] + w > s.clock
  {
    if s.live[i] <= s.clock {
      r, k := i, 0;
    } else {
      assert Linked(s.live, i, max, w);
      var k';
      r, k' := ChainBack(s, max, w, i - max);
      k := k' + 1;
      assert k * max == k' * max + max && k * w == k' * w + w;
    }
  }

  lemma MulMono(a: int, b: int, m: int)
    requires a <= b && m >= 0
    ensures a * m <= b * m
  {}

  lemma QuotientIs(f: nat, max: nat, k: nat)
    requires max > 0 && k * max <= f < k * max + max
    ensures f / max == k
  {
    var q := f / max;
    assert f == max * q + f % max;
    if q < k { MulMono(q + 1, k, max); }
    if q > k { MulMono(k + 1, q, max); }
  }

  /** The future grants are the `Future(recorded)` newest of the whole history; if there is one, more
      than `max` grants survive pruning. */
  lemma FutureOfHistory(s: Ledger, max: nat, w: int, now: int)
    requires Inv(s, max, w) && Chained(s, max, w) && max > 0 && w > 0 && now >= s.clock
    ensures var f := Future(s.recorded, now); var n := |s.live|;
            && f <= n
            && (forall i :: 0 <= i < n ==> (s.live[i] > now <==> i >= n - f))
            && (f > 0 ==> |Prune(s.recorded, w, now)| > max)
  {
    var f := Future(s.recorded, now);
    var n := |s.live|;
    var cut := n - |s.recorded|;
    FutureIsTail(s.recorded, now);
    var k := PrunedIsSuffixOfLive(s, max, w, now);
    hide Prune, Future, Sorted, Spaced;
    forall i | 0 <= i < n ensures s.live[i] > now <==> i >= n - f {
      if i >= cut {
        assert s.live[i] == s.recorded[i - cut];
      }
    }
    if f > 0 {
      FutureIsFull(s.live, k, max, w, now);
    }
  }

  lemma FutureIsFull(h: seq<int>, k: nat, max: nat, w: int, now: int)
    requires h != [] && Linked(h, |h| - 1, max, w) && h[|h| - 1] > now
    requires forall i :: 0 <= i < |h| ==> (h[i] + w > now <==> i >= k)
    ensures |h| - k > max
  {
    assert h[|h| - 1 - max] + w > now;
  }

  lemma StepsBack(s: Ledger, max: nat, w: int, now: int, f: nat) returns (q: nat)
    requires Inv(s, max, w) && Chained(s, max, w) && max > 0 && w > 0 && now >= s.clock
    requires max <= |s.live| && f <= |s.live| && forall i :: 0 <= i < |s.live| ==> (s.live[i] > now <==> i >= |s.live| - f)
    ensures q * max <= f < q * max + max
    ensures var after := s.live[|s.live| - max] + w - now;
            if after > 0 then q * w <= after <= q * w + w else q == 0
  {
    var n := |s.live|;
    var t := s.(clock := now);
    assert Inv(t, max, w) && Chained(t, max, w);
    hide Inv, Chained;
    var r;
    r, q := ChainBack(t, max, w, n - max);
    assert q > 0 ==> q * w >= w by {
      if q > 0 { MulMono(1, q, w); }
    }
  }

  /** The wait in terms of the number of whole steps `q` from the deciding grant back to the present. */
  lemma WaitSteps(s: Ledger, max: nat, w: int, now: int) returns (q: nat)
    requires Inv(s, max, w) && Chained(s, max, w) && max > 0 && w > 0 && now >= s.clock
    ensures var wait := Slot(Prune(s.recorded, w, now), max, w, now) - now;
            var f := Future(s.recorded, now);
            && q * max <= f < q * max + max
            && q * w <= wait <= q * w + w
            && (|Prune(s.recorded, w, now)| < max ==> wait == 0 && f == 0)
  {
    var n := |s.live|;
    var k := PrunedIsSuffixOfLive(s, max, w, now);
    FutureOfHistory(s, max, w, now);
    hide Sorted, Spaced, Prune, Future, Chained, Inv;
    if n - k >= max {
      assert s.live[k..][n - k - max] == s.live[n - max];
      q := StepsBack(s, max, w, now, Future(s.recorded, now));
    } else {
      q := 0;
    }
  }

  /** How long a caller waits: nothing while fewer than `max` grants survive pruning; otherwise, with
      `f` grants in the future, between floor(f / max) and floor(f / max) + 1 windows. */
  lemma WaitBound(s: Ledger, max: nat, w: int, now: int)
    requires Inv(s, max, w) && Chained(s, max, w) && max > 0 && w > 0 && now >= s.clock
    ensures var kept := Prune(s.recorded, w, now);
            var wait := Slot(kept, max, w, now) - now;
            var f := Future(s.recorded, now);
            && (|kept| < max ==> wait == 0 && f == 0)
            && (f / max) * w <= wait <= (f / max + 1) * w
  {
    var q := WaitSteps(s, max, w, now);
    var f := Future(s.recorded, now);
    hide Inv, Chained, Prune, Future, Slot;
    QuotientIs(f, max, q);
    assert (f / max + 1) * w == q * w + w;
  }
}
