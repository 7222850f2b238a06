/** The limiter object of the daemon: configured rules and, per domain, the list of grants. */
module RateLimiter {
  import opened Prelude
  import opened Domains
  import opened SlidingWindow

  /** Windows are configured in seconds and compared in nanoseconds. */
  const SECOND := 1_000_000_000

  datatype Rule = Rule(domain: string, max: int, window: int)

  datatype Reserved =
    | Unlimited                                  // no host, or no rule that limits it
    | WouldExceed(wait: int)
    | Granted(key: string, grantAt: int, wait: int)

  datatype Usage = Usage(domain: string, max: int, window: int, inUse: nat, wait: int)

  function Keys(rules: seq<Rule>): (ds: seq<string>)
    ensures |ds| == |rules|
    ensures forall i :: 0 <= i < |rules| ==> ds[i] == Normal(rules[i].domain)
  {
    seq(|rules|, i requires 0 <= i < |rules| => Normal(rules[i].domain))
  }

  /** The outcome of choosing a rule for a host: none matches, or the governing one. */
  ghost predicate Chosen(rules: seq<Rule>, host: string, choice: Option<nat>) {
    match choice
    case None => forall i :: 0 <= i < |rules| ==> !Matches(host, Keys(rules)[i])
    case Some(i) => Governs(Keys(rules), host, i)
  }

  lemma ChoiceIsUnique(rules: seq<Rule>, host: string, a: Option<nat>, b: Option<nat>)
    requires Chosen(rules, host, a) && Chosen(rules, host, b)
    ensures a == b
  {}

  predicate Limits(r: Rule) {
    r.max > 0 && r.window > 0
  }

  /** The rules that limit something, in order. */
  function InForce(rules: seq<Rule>): (r: seq<Rule>)
    ensures forall x :: x in r <==> x in rules && Limits(x) && x.domain != ""
  {
    if rules == [] then []
    else
      var n := |rules| - 1;
      assert rules == rules[..n] + [rules[n]];
      InForce(rules[..n]) + (if Limits(rules[n]) && rules[n].domain != "" then [rules[n]] else [])
  }

  /** The grants on file for a key; a key with no entry has none. */
  function GrantsFor(grants: map<string, seq<int>>, key: string): seq<int> {
    if key in grants then grants[key] else []
  }

  /** The limiter's file after a request at `now` under rule `r`: the key's list pruned and, unless
      refused, extended; every other key untouched. */
  function FileAfterReserve(grants: map<string, seq<int>>, r: Rule, now: int, deadline: Option<int>)
    : map<string, seq<int>>
    requires Limits(r)
  {
    var key := Normal(r.domain);
    grants[key := AfterReserve(GrantsFor(grants, key), r.max, r.window * SECOND, now, deadline)]
  }

  function FileAfterRemove(grants: map<string, seq<int>>, key: string, at: int): map<string, seq<int>> {
    var left := RemoveLast(GrantsFor(grants, key), at);
    if at !in GrantsFor(grants, key) then grants
    else if left == [] then grants - {key}
    else grants[key := left]
  }

  function SlotFor(grants: map<string, seq<int>>, r: Rule, now: int): int
    requires Limits(r)
  {
    var w := r.window * SECOND;
    Slot(Prune(GrantsFor(grants, Normal(r.domain)), w, now), r.max, w, now)
  }

  class Limiter {
    var rules: seq<Rule>
    var grants: map<string, seq<int>>

    constructor (configured: seq<Rule>)
      ensures rules == configured && grants == map[]
    {
      rules, grants := configured, map[];
    }

    /** Scans the rules keeping the longest match so far; a later rule must be strictly longer. */
    method MatchLocked(host: string) returns (choice: Option<nat>)
      ensures Chosen(rules, host, choice)
    {
      choice := None;
      var bestLen := -1;
      var ds := Keys(rules);
      for i := 0 to |rules|
        invariant match choice
                  case None => bestLen == -1 && forall j :: 0 <= j < i ==> !Matches(host, ds[j])
                  case Some(b) => b < i && bestLen == |ds[b]| && Governs(ds[..i], host, b)
      {
        var d := Normal(rules[i].domain);
        assert forall j :: 0 <= j < i ==> ds[..i + 1][j] == ds[..i][j];
        if Matches(host, d) && |d| > bestLen {
          choice, bestLen := Some(i), |d|;
        }
      }
      assert ds[..|rules|] == ds;
    }

    /** Drops the grants too old to matter. The kept ones are written back over the front of the very
        list being scanned, as in the source. */
    static method Compact(listed: seq<int>, window: int, now: int) returns (g: seq<int>)
      ensures g == Prune(listed, window, now)
    {
      var buf := listed;
      var k := 0;
      for i := 0 to |buf|
        invariant |buf| == |listed| && 0 <= k <= i
        invariant buf[..k] == Prune(listed[..i], window, now)
        invariant buf[i..] == listed[i..]
      {
        var t := buf[i];
        assert t == listed[i] && listed[..i + 1][..i] == listed[..i];
        assert buf[i + 1..] == listed[i + 1..];
        if t + window > now {
          buf := buf[k := t];
          k := k + 1;
          assert buf[..k] == buf[..k - 1] + [t];
        }
      }
      assert listed[..|listed|] == listed;
      g := buf[..k];
    }

    /** The part of a reservation that runs under the lock. */
    method ReserveLocked(host: string, now: int, deadline: Option<int>) returns (r: Reserved)
      modifies this`grants
      ensures (host == "" || Chosen(rules, host, None)) ==> r == Unlimited && grants == old(grants)
      ensures forall i: nat :: host != "" && Chosen(rules, host, Some(i)) && !Limits(rules[i]) ==>
                r == Unlimited && grants == old(grants)
      ensures forall i: nat :: host != "" && Chosen(rules, host, Some(i)) && Limits(rules[i]) ==>
                var slot := SlotFor(old(grants), rules[i], now);
                && grants == FileAfterReserve(old(grants), rules[i], now, deadline)
                && r == if Refused(slot, deadline) then WouldExceed(slot - now)
                        else Granted(Normal(rules[i].domain), slot, slot - now)
      ensures r.Unlimited? <==> host == "" || forall i: nat :: Chosen(rules, host, Some(i)) ==> rules[i].max <= 0 || rules[i].window <= 0
      ensures r.Granted? ==> r.wait == r.grantAt - now >= 0 && (deadline.Some? ==> r.grantAt <= deadline.value)
      ensures r.WouldExceed? ==> r.wait >= 0 && deadline.Some? && now + r.wait > deadline.value
    {
      if host == "" {
        return Unlimited;
      }
      var choice := MatchLocked(host);
      forall b | Chosen(rules, host, b) ensures b == choice {
        ChoiceIsUnique(rules, host, b, choice);
      }
      if choice.None? || rules[choice.value].max <= 0 || rules[choice.value].window <= 0 {
        return Unlimited;
      }
      r := ReserveUnder(rules[choice.value], now, deadline);
    }

    method ReserveUnder(rule: Rule, now: int, deadline: Option<int>) returns (r: Reserved)
      requires Limits(rule)
      modifies this`grants
      ensures var slot := SlotFor(old(grants), rule, now);
              && grants == FileAfterReserve(old(grants), rule, now, deadline)
              && r == if Refused(slot, deadline) then WouldExceed(slot - now)
                      else Granted(Normal(rule.domain), slot, slot - now)
      ensures r.Granted? ==> r.wait == r.grantAt - now >= 0 && (deadline.Some? ==> r.grantAt <= deadline.value)
      ensures r.WouldExceed? ==> r.wait >= 0 && deadline.Some? && now + r.wait > deadline.value
    {
      var window := rule.window * SECOND;
      var key := Normal(rule.domain);
      var g := Compact(GrantsFor(grants, key), window, now);
      hide Normal, Prune, GrantsFor;
      var grantAt := now;
      if |g| >= rule.max {
        var c := g[|g| - rule.max] + window;
        if c > grantAt {
          grantAt := c;
        }
      }
      var wait := grantAt - now;
      if deadline.Some? && grantAt > deadline.value {
        grants := grants[key := g];
        return WouldExceed(wait);
      }
      g := g + [grantAt];
      grants := grants[key := g];
      return Granted(key, grantAt, wait);
    }

    /** The part after the lock: wait for the timer, or give the slot back when the caller's context
        is done first (`cancelled`). Nobody waits for a slot that is due. */
    method AwaitSlot(key: string, grantAt: int, wait: int, cancelled: bool) returns (res: Reservation?)
      modifies this`grants
      ensures res == null <==> wait > 0 && cancelled
      ensures res == null ==> grants == FileAfterRemove(old(grants), key, grantAt)
      ensures res != null ==> grants == old(grants) && fresh(res) && !res.done
                              && res.limiter == this && res.key == key && res.grantAt == grantAt
    {
      if wait <= 0 {
        res := new Reservation(this, key, grantAt);
        return;
      }
      if cancelled {
        RemoveGrant(key, grantAt);
        return null;
      }
      res := new Reservation(this, key, grantAt);
    }

    method RemoveGrant(key: string, grantAt: int)
      modifies this`grants
      ensures grants == FileAfterRemove(old(grants), key, grantAt)
      ensures if grantAt in GrantsFor(old(grants), key) then key in grants <==> |old(grants)[key]| > 1 else grants == old(grants)
    {
      var g := GrantsFor(grants, key);
      var i := |g| - 1;
      while i >= 0
        invariant -1 <= i < |g|
        invariant grants == old(grants)
        invariant forall j :: i < j < |g| ==> g[j] != grantAt
      {
        if g[i] == grantAt {
          RemoveAtLast(g, grantAt, i);
          grants := grants[key := g[..i] + g[i + 1..]];
          if |grants[key]| == 0 {
            grants := grants - {key};
          }
          return;
        }
        i := i - 1;
      }
    }

    /** New rules, old grants: what the history is worth under a new rule is said by
        `NewRuleSeesHistory` and `LongerWindowForgets`. */
    method SetRules(configured: seq<Rule>)
      modifies this`rules
      ensures rules == configured && grants == old(grants)
    {
      rules := configured;
    }

    /** The same selection as `Compact`, into a fresh list. */
    static method Active(listed: seq<int>, window: int, now: int) returns (active: seq<int>)
      ensures active == Prune(listed, window, now)
    {
      active := [];
      for j := 0 to |listed|
        invariant active == Prune(listed[..j], window, now)
      {
        assert listed[..j + 1][..j] == listed[..j];
        if listed[j] + window > now {
          active := active + [listed[j]];
        }
      }
      assert listed[..|listed|] == listed;
    }

    /** Read-only report: one line for each rule in force, in the order of the rules. */
    method Status(now: int) returns (out: seq<Usage>)
      ensures |out| == |InForce(rules)| && forall k :: 0 <= k < |out| ==> Reports(InForce(rules)[k], out[k], now)
    {
      hide Reports;
      out := [];
      for i := 0 to |rules|
        invariant |out| == |InForce(rules[..i])|
        invariant forall k :: 0 <= k < |out| ==> Reports(InForce(rules[..i])[k], out[k], now)
      {
        assert rules[..i + 1][..i] == rules[..i];
        var rule := rules[i];
        if rule.max <= 0 || rule.window <= 0 || rule.domain == "" {
          continue;
        }
        var u := ReportOn(rule, now);
        out := out + [u];
      }
      assert rules[..|rules|] == rules;
    }

    method ReportOn(rule: Rule, now: int) returns (u: Usage)
      requires Limits(rule) && rule.domain != ""
      ensures Reports(rule, u, now)
    {
      hide Prune;
      var window := rule.window * SECOND;
      var listed := GrantsFor(grants, Normal(rule.domain));
      var active := Active(listed, window, now);
      var wait := 0;
      if |active| >= rule.max && |active| > 0 {
        var next := active[|active| - rule.max] + window;
        if next > now {
          wait := next - now;
        }
      }
      u := Usage(rule.domain, rule.max, rule.window, |active|, wait);
    }

    /** What a status line says: how many grants still count, and exactly how long a reservation made
        now under that rule would wait. */
    ghost predicate Reports(r: Rule, u: Usage, now: int)
      reads this`grants
    {
      && Limits(r) && r.domain != ""
      && u.domain == r.domain && u.max == r.max && u.window == r.window
      && u.inUse == |Prune(GrantsFor(grants, Normal(r.domain)), r.window * SECOND, now)|
      && u.wait == SlotFor(grants, r, now) - now
    }
  }

  lemma RemoveAtLast(g: seq<int>, t: int, i: nat)
    requires i < |g| && g[i] == t && forall j :: i < j < |g| ==> g[j] != t
    ensures RemoveLast(g, t) == g[..i] + g[i + 1..]
  {
    var k := RemoveLastAt(g, t);
    assert k == i;
  }

  /** A granted slot that can still be given back. */
  class Reservation {
    const limiter: Limiter
    const key: string
    const grantAt: int
    var done: bool

    constructor (limiter: Limiter, key: string, grantAt: int)
      ensures this.limiter == limiter && this.key == key && this.grantAt == grantAt && !done
    {
      this.limiter, this.key, this.grantAt, done := limiter, key, grantAt, false;
    }

    /** The file of grants should the reservation be rolled back now. */
    ghost function IfRolledBack(): map<string, seq<int>>
      reads this, limiter
    {
      if done then limiter.grants else FileAfterRemove(limiter.grants, key, grantAt)
    }

    /** From here on a rollback would change nothing. */
    method Commit()
      modifies this`done
      ensures done && IfRolledBack() == limiter.grants
    {
      done := true;
    }

    /** Gives the slot back once; after a commit or an earlier rollback it does nothing. */
    method Rollback()
      modifies this`done, limiter`grants
      ensures done && limiter.grants == old(IfRolledBack()) && IfRolledBack() == limiter.grants
      ensures limiter.grants == if old(done) then old(limiter.grants)
                                else FileAfterRemove(old(limiter.grants), key, grantAt)
    {
      if done {
        return;
      }
      done := true;
      limiter.RemoveGrant(key, grantAt);
    }
  }

  // ---------------------------------------------------------------- how the file and the theory meet

  /** On the list of its own key the limiter does what the theory's steps do. */
  lemma FileFollowsTheory(grants: map<string, seq<int>>, r: Rule, now: int, deadline: Option<int>, at: int, s: Ledger)
    requires Limits(r) && s.recorded == GrantsFor(grants, Normal(r.domain))
    ensures var key := Normal(r.domain);
            && GrantsFor(FileAfterReserve(grants, r, now, deadline), key)
               == Apply(s, Reserve(now, deadline), r.max, r.window * 1_000_000_000).recorded
            && GrantsFor(FileAfterRemove(grants, key, at), key)
               == Apply(s, Release(at), r.max, r.window * 1_000_000_000).recorded
  {
    if at !in s.recorded {
      RemoveAbsent(s.recorded, at);
    }
  }

  /** Traffic under one key never touches the list of another. */
  lemma KeysAreIndependent(grants: map<string, seq<int>>, r: Rule, now: int, deadline: Option<int>, at: int, other: string)
    requires Limits(r) && other != Normal(r.domain)
    ensures GrantsFor(FileAfterReserve(grants, r, now, deadline), other) == GrantsFor(grants, other)
    ensures GrantsFor(FileAfterRemove(grants, Normal(r.domain), at), other) == GrantsFor(grants, other)
  {}

  /** Giving back a slot just granted leaves the pruned list it was granted on. */
  lemma ReserveThenRemove(grants: map<string, seq<int>>, r: Rule, now: int, deadline: Option<int>)
    requires Limits(r) && !Refused(SlotFor(grants, r, now), deadline)
    ensures var key := Normal(r.domain);
            GrantsFor(FileAfterRemove(FileAfterReserve(grants, r, now, deadline), key, SlotFor(grants, r, now)), key)
            == Prune(GrantsFor(grants, key), r.window * SECOND, now)
  {
    var kept := Prune(GrantsFor(grants, Normal(r.domain)), r.window * SECOND, now);
    assert (kept + [SlotFor(grants, r, now)])[..|kept|] == kept;
  }
}
