/** What the tab tools do, as a relation between states, and what holds over every run of them: any sequence of
    commands of any sessions, with tabs closing in between. */
module TabSteps {
  import Domains
  import opened Prelude
  import opened TabLimits
  import opened Sessions
  import opened SessionBridge
  import opened TabTools

  /** What may happen in a run. Finding a tab is two commands: the query, which takes no lock and notes the
      host of the tab it picks, and later the locked part, which names a query by its number. The user may
      open tabs outside the groups and browse in tabs of their own, in no group and no record. */
  datatype Command =
    | Open(key: string, target: string, newTab: bool, title: Option<string>)
    | Query(tab: TabId)
    | Bind(key: string, query: nat)
    | Activate(key: string, id: Option<TabId>)
    | Close(key: string)
    | End(key: string, group: Option<GroupId>)
    | List(key: string)
    | UserOpens(host: string)
    | UserBrowses(tab: TabId, host: string)

  predicate UsesName(c: Command) {
    !c.Query? && !c.UserOpens? && !c.UserBrowses?
  }

  /** What a query saw, and the number of the command that made it. */
  datatype Seen = Seen(tab: TabId, host: string, since: nat)

  /** The one thing of consequence for the caps that a command does: bind a tab, or take it to a host. */
  datatype Act = Nothing | Binds(tab: TabId) | Places(tab: TabId, host: string)

  /** One command carried out: the queries so far, the number of the next tab and the state before it, the
      state `at` in which it acts, and the state after it. */
  datatype Entry = Entry(noted: seq<Seen>, nextTab: nat, before: View, outcome: Option<Outcome>, at: View, act: Act, after: View)

  predicate Idle(e: Entry) {
    e.act.Nothing? && e.at == e.before && e.after == e.before
  }

  function BoundTab(r: Option<Outcome>): Act {
    if r.Some? && r.value.Done? then Binds(r.value.tab) else Nothing
  }

  /** A tab of the user's own. */
  ghost predicate Users(v: View, t: TabId) {
    t in v.tabs && v.tabs[t].group.None? && !InSomeSession(v, t)
  }

  /** What carrying out the command may come to. */
  ghost predicate Step(c: Command, e: Entry, rules: seq<Rule>) {
    && (forall t :: t in e.before.tabs ==> t < e.nextTab)
    && match c
       case Open(key, target, newTab, _) => StepOpens(key, target, newTab, e, rules)
       case Query(_) => Idle(e)
       case Bind(key, q) =>
         if q >= |e.noted| then Idle(e)
         else e.act == BoundTab(e.outcome) && e.outcome.Some?
              && Finds(e.before, key, e.noted[q].tab, e.noted[q].host, rules, e.outcome.value, e.at, e.after)
       case Activate(key, id) =>
         e.act == BoundTab(e.outcome) && e.outcome.Some?
         && Activates(e.before, key, id, rules, e.outcome.value, e.at, e.after, e.nextTab)
       case Close(key) => Drifts(e, key) && Later(Opened(e.before, key), e.after)
       case End(key, group) =>
         && Drifts(e, key) && (group.None? ==> Ended(e.before, e.after, key))
         && (group.Some? && HasTab(e.after.tabs, group.value) ==> e.after.owned == e.before.owned)
       case List(key) => Drifts(e, key) && Covers(e.after, key)
       case UserOpens(host) =>
         && e.act == Places(e.nextTab, host) && !InSomeSession(e.before, e.nextTab)
         && e.at == e.before.(tabs := e.before.tabs[e.nextTab := Tab("", None)])
         && e.after == Placed(e.at, e.nextTab, host)
       case UserBrowses(tab, host) =>
         if Users(e.before, tab) then e.act == Places(tab, host) && e.at == e.before && e.after == Placed(e.at, tab, host)
         else Idle(e)
  }

  ghost predicate StepOpens(key: string, target: string, newTab: bool, e: Entry, rules: seq<Rule>) {
    && !e.act.Binds? && (e.act.Places? ==> e.act.host == target) && e.outcome.Some?
    && Opens(e.before, key, target, newTab, rules, e.outcome.value, e.at, PlacedTab(e.act), e.after, e.nextTab)
  }

  function PlacedTab(act: Act): Option<TabId> {
    if act.Places? then Some(act.tab) else None
  }

  ghost predicate Drifts(e: Entry, key: string) {
    e.act.Nothing? && e.at == e.after && Drift(e.before, e.after, key, e.nextTab) && TabsLater(e.before.tabs, e.after.tabs)
  }

  /** The tab, if any, that goes elsewhere though no session is bonded to it: one the user browses in, or the
      one in view, taken by a navigation that found its session without a tab. */
  function StrayTab(c: Command, e: Entry): Option<TabId> {
    if c.UserBrowses? || (c.Open? && Strayed(e.at, c.key)) then PlacedTab(e.act) else None
  }

  /** The command binds a tab that does not fit. */
  ghost predicate Misfit(e: Entry, rules: seq<Rule>) {
    e.act.Binds? && !BindFits(e.at, rules, e.act.tab)
  }

  // ---------------------------------------------------------------- one command

  lemma PlacedInOrder(a: View, at: View, t: TabId, host: string, n: nat)
    requires Steady(a, at, n) && t in at.tabs && t !in Managed(at)
    requires Shrunk(a, at)
    ensures Orderly(a, at) && Orderly(a, Placed(at, t, host)) && Carried(a, Placed(at, t, host), n, Some(t))
    ensures t >= n ==> Carried(a, Placed(at, t, host), n, None)
    ensures forall rules :: NoOverrun(a, at, rules) && NoOverrun(a, Placed(at, t, host), rules)
  {
    var b := Placed(at, t, host);
    SteadyCarries(a, at, n);
    PlacingIsOrderly(at, t, host);
    OrderlyTwice(a, at, b);
    PlacingCarries(at, t, host, n, Some(t));
    CarriedTwice(a, at, b, n, Some(t));
    if t >= n {
      PlacingCarries(at, t, host, n, None);
      CarriedTwice(a, at, b, n, None);
    }
    PlacingManagesNoOther(at, t, host);
    assert Shrunk(a, b) by {
      hide Managed;
    }
    hide Shrunk, NoOverrun;
    forall rules ensures NoOverrun(a, at, rules) && NoOverrun(a, b, rules) {
      ShrinkingOverrunsNothing(a, at, rules);
      ShrinkingOverrunsNothing(a, b, rules);
    }
  }

  lemma NotUsersManaged(v: View, t: TabId)
    requires Users(v, t)
    ensures t !in Managed(v)
  {}

  lemma NewTabIsNobodys(a: View, v: View, id: TabId)
    requires !InSomeSession(a, id) && v == a.(tabs := a.tabs[id := Tab("", None)])
    ensures id !in Managed(v)
  {
    assert InSomeSession(v, id) ==> InSomeSession(a, id);
  }

  lemma UserStepKeeps(c: Command, e: Entry, rules: seq<Rule>)
    requires Step(c, e, rules) && (c.UserOpens? || c.UserBrowses?)
    ensures Orderly(e.before, e.at) && Orderly(e.before, e.after)
    ensures Carried(e.before, e.after, e.nextTab, StrayTab(c, e))
    ensures NoOverrun(e.before, e.at, rules) && NoOverrun(e.before, e.after, rules)
  {
    hide Carried, Orderly, NoOverrun, Managed;
    if c.UserOpens? {
      CreatingIsSteady(e.before, e.nextTab);
      NewTabIsNobodys(e.before, e.at, e.nextTab);
      PlacedInOrder(e.before, e.at, e.nextTab, c.host, e.nextTab);
    } else {
      LaterNow(e.before);
      LaterIsSteady(e.before, e.before);
      LaterIsDrift(e.before, e.before);
      DriftKeeps(e.before, e.before, "", e.nextTab, rules);
      ShrinkingOverrunsNothing(e.before, e.before, rules);
      if Users(e.before, c.tab) {
        NotUsersManaged(e.before, c.tab);
        PlacedInOrder(e.before, e.at, c.tab, c.host, e.nextTab);
      }
    }
  }

  /** Every command that is not the user's, in terms of the state in which it acts. */
  lemma ToolStepKeeps(c: Command, e: Entry, rules: seq<Rule>)
    requires Step(c, e, rules) && !c.UserOpens? && !c.UserBrowses?
    ensures Orderly(e.before, e.at) && Orderly(e.before, e.after)
    ensures AllKept(e.before.sessions) ==> Carried(e.before, e.after, e.nextTab, StrayTab(c, e))
    ensures UsesName(c) ==> NoStranger(e.before, c.key) ==>
              NoOverrun(e.before, e.at, rules) && (!c.Bind? ==> NoOverrun(e.before, e.after, rules) && !Misfit(e, rules))
  {
    hide Carried, Orderly, NoOverrun, AllKept, NoStranger, Drift, Opens, Activates, Finds, Ended, Covers, Later, BindFits;
    LaterNow(e.before);
    LaterIsDrift(e.before, e.before);
    match c {
      case Query(_) => DriftKeeps(e.before, e.before, "", e.nextTab, rules);
      case Open(key, target, newTab, _) =>
        OpenedAt(e.before, key, target, newTab, rules, e.outcome.value, e.at, PlacedTab(e.act), e.after, e.nextTab);
        OpeningKeeps(e.before, key, target, newTab, rules, e.outcome.value, e.at, PlacedTab(e.act), e.after, e.nextTab);
      case Bind(key, q) =>
        if q < |e.noted| {
          FindingKeeps(e.before, key, e.noted[q].tab, e.noted[q].host, rules, e.outcome.value, e.at, e.after, e.nextTab);
        } else {
          DriftKeeps(e.before, e.before, key, e.nextTab, rules);
        }
      case Activate(key, id) =>
        ActivatedAt(e.before, key, id, rules, e.outcome.value, e.at, e.after, e.nextTab);
        ActivatingKeeps(e.before, key, id, rules, e.outcome.value, e.at, e.after, e.nextTab);
      case Close(key) => DriftKeeps(e.before, e.after, key, e.nextTab, rules);
      case End(key, _) => DriftKeeps(e.before, e.after, key, e.nextTab, rules);
      case List(key) => DriftKeeps(e.before, e.after, key, e.nextTab, rules);
    }
  }

  lemma OpenedAt(a: View, key: string, target: string, newTab: bool, rules: seq<Rule>, r: Outcome, at: View,
                 placed: Option<TabId>, b: View, n: nat)
    requires Opens(a, key, target, newTab, rules, r, at, placed, b, n)
    ensures Orderly(a, at)
  {
    hide Drift, Orderly, Placing, OpenOutcome, HostsKeptBut;
    DriftKeeps(a, at, key, n, rules);
  }

  lemma ActivatedAt(a: View, key: string, id: Option<TabId>, rules: seq<Rule>, r: Outcome, at: View, b: View, n: nat)
    requires Activates(a, key, id, rules, r, at, b, n)
    ensures Orderly(a, at)
  {
    hide Drift, Orderly, Room;
    DriftKeeps(a, at, key, n, rules);
  }

  lemma FindingKeeps(a: View, key: string, chosen: TabId, seen: string, rules: seq<Rule>, r: Outcome, at: View, b: View, n: nat)
    requires Finds(a, key, chosen, seen, rules, r, at, b)
    ensures Orderly(a, at) && Orderly(a, b) && forall lost :: Carried(a, b, n, lost)
    ensures NoStranger(a, key) ==> NoOverrun(a, at, rules)
  {
    hide Later, Orderly, Carried, Steady, Drift, Room, NoOverrun, NoStranger;
    LaterIsSteady(a, at);
    LaterIsDrift(a, at);
    DriftKeeps(a, at, key, n, rules);
    if r.Done? {
      BindingIsSteady(at, key, chosen);
      SteadyTwice(a, at, b, n);
      SteadyCarries(a, b, n);
    }
  }

  /** A command that starts with the caps kept keeps them up to the state it acts in, and after it they hold
      exactly when it bound no misfit. */
  lemma StepKeepsCaps(c: Command, e: Entry, rules: seq<Rule>)
    requires Step(c, e, rules) && Capped(e.before, rules) && (UsesName(c) ==> NoStranger(e.before, c.key))
    ensures Capped(e.at, rules) && (Capped(e.after, rules) <==> !Misfit(e, rules))
    ensures Misfit(e, rules) ==> c.Bind?
  {
    hide Capped, NoOverrun, NoStranger, Later, Opens, Activates, Drift, Ended, Covers, BindFits, Orderly, Carried, AllKept;
    if c.UserOpens? || c.UserBrowses? {
      UserStepKeeps(c, e, rules);
      NoOverrunKeepsCaps(e.before, e.at, rules);
      NoOverrunKeepsCaps(e.before, e.after, rules);
    } else if UsesName(c) {
      ToolStepKeeps(c, e, rules);
      NoOverrunKeepsCaps(e.before, e.at, rules);
      if !c.Bind? {
        NoOverrunKeepsCaps(e.before, e.after, rules);
      } else if e.act.Binds? {
        OrderlyKeeps(e.before, e.at, c.key);
        BindKeepsCaps(c.key, e.at, e.act.tab, rules);
      }
    }
  }

  lemma BindKeepsCaps(key: string, at: View, t: TabId, rules: seq<Rule>)
    requires NoStranger(at, key) && Capped(at, rules)
    ensures Capped(Bound(at, key, t), rules) <==> BindFits(at, rules, t)
  {
    BindingOverrunsIff(at, key, rules, t);
    hide BindFits, NoStranger, Bound, Load;
  }

  // ---------------------------------------------------------------- runs

  /** The state a run has reached before its command number `i`, and the queries made by then. */
  function Reached(start: View, trace: seq<Entry>, i: nat): View
    requires i <= |trace|
  {
    if i == 0 then start else trace[i - 1].after
  }

  function NotedAfter(c: Command, e: Entry, i: nat): seq<Seen> {
    if c.Query? && c.tab in e.before.tabs then e.noted + [Seen(c.tab, e.before.tabs[c.tab].host, i)] else e.noted
  }

  function Noted(commands: seq<Command>, trace: seq<Entry>, i: nat): seq<Seen>
    requires i <= |trace| == |commands|
  {
    if i == 0 then [] else NotedAfter(commands[i - 1], trace[i - 1], i - 1)
  }

  /** `trace` is a run of the commands from `start`: each entry is a step of its command, and between one entry
      and the next nothing but closings happen. */
  ghost predicate IsRun(start: View, commands: seq<Command>, trace: seq<Entry>, rules: seq<Rule>) {
    |trace| == |commands| && forall i: nat :: i < |trace| ==> Linked(start, commands, trace, rules, i)
  }

  ghost predicate Linked(start: View, commands: seq<Command>, trace: seq<Entry>, rules: seq<Rule>, i: nat)
    requires i < |trace| == |commands|
  {
    && Step(commands[i], trace[i], rules)
    && Later(Reached(start, trace, i), trace[i].before)
    && trace[i].noted == Noted(commands, trace, i)
    && (i > 0 ==> trace[i - 1].nextTab <= trace[i].nextTab)
  }

  /** No unowned group bears a name that a command uses. */
  ghost predicate NoStrangers(v: View, commands: seq<Command>) {
    forall c :: c in commands && UsesName(c) ==> NoStranger(v, c.key)
  }

  ghost predicate CapsHold(trace: seq<Entry>, rules: seq<Rule>) {
    forall e :: e in trace ==> Capped(e.before, rules) && Capped(e.at, rules) && Capped(e.after, rules)
  }

  ghost predicate AllFit(trace: seq<Entry>, rules: seq<Rule>) {
    forall e :: e in trace ==> !Misfit(e, rules)
  }

  predicate NoneStrays(commands: seq<Command>, trace: seq<Entry>)
    requires |trace| == |commands|
  {
    forall i: nat :: i < |trace| ==> StrayTab(commands[i], trace[i]).None?
  }

  lemma EmptyRun(start: View, rules: seq<Rule>)
    ensures IsRun(start, [], [], rules)
  {}

  lemma OneMoreStep(start: View, commands: seq<Command>, trace: seq<Entry>, rules: seq<Rule>, c: Command, e: Entry)
    requires IsRun(start, commands, trace, rules) && |trace| == |commands| && Step(c, e, rules)
    requires Later(Reached(start, trace, |trace|), e.before) && e.noted == Noted(commands, trace, |trace|)
    requires trace != [] ==> trace[|trace| - 1].nextTab <= e.nextTab
    ensures IsRun(start, commands + [c], trace + [e], rules)
  {
    hide Step, Later;
    forall i: nat | i < |trace| ensures Linked(start, commands + [c], trace + [e], rules, i) {
      assert Linked(start, commands, trace, rules, i);
    }
  }

  lemma StepIsOrderly(c: Command, e: Entry, rules: seq<Rule>)
    requires Step(c, e, rules)
    ensures Orderly(e.before, e.at) && Orderly(e.before, e.after)
    ensures AllKept(e.before.sessions) ==> Carried(e.before, e.after, e.nextTab, StrayTab(c, e))
  {
    hide Step, Orderly, Carried, NoOverrun;
    if c.UserOpens? || c.UserBrowses? {
      UserStepKeeps(c, e, rules);
    } else {
      ToolStepKeeps(c, e, rules);
    }
  }

  /** Whatever groups are named, ownership and the order of the records are kept throughout. */
  lemma {:induction false} RunIsOrderly(start: View, commands: seq<Command>, trace: seq<Entry>, rules: seq<Rule>, i: nat)
    requires IsRun(start, commands, trace, rules) && i <= |trace|
    ensures Orderly(start, Reached(start, trace, i))
    ensures i < |trace| ==> Orderly(start, trace[i].before) && Orderly(start, trace[i].at) && Orderly(start, trace[i].after)
    decreases i
  {
    hide Step, Orderly, Later;
    NothingHappened(start);
    if i > 0 {
      RunIsOrderly(start, commands, trace, rules, i - 1);
    }
    if i < |trace| {
      var e := trace[i];
      assert Linked(start, commands, trace, rules, i);
      PauseIsOrderly(Reached(start, trace, i), e.before);
      OrderlyTwice(start, Reached(start, trace, i), e.before);
      StepIsOrderly(commands[i], e, rules);
      OrderlyTwice(start, e.before, e.at);
      OrderlyTwice(start, e.before, e.after);
    }
  }

  lemma NothingHappened(a: View)
    ensures Orderly(a, a)
  {}

  lemma PauseIsOrderly(a: View, b: View)
    requires Later(a, b)
    ensures Orderly(a, b) && forall rules :: NoOverrun(a, b, rules)
    ensures forall n: nat, lost :: Carried(a, b, n, lost)
  {
    LaterIsSteady(a, b);
    hide Orderly, NoOverrun, Carried, Later, Steady, Shrunk;
    forall n: nat, lost ensures Orderly(a, b) && Carried(a, b, n, lost) {
      SteadyCarries(a, b, n);
    }
    SteadyCarries(a, b, 0);
    forall rules ensures NoOverrun(a, b, rules) {
      ShrinkingOverrunsNothing(a, b, rules);
    }
  }

  /** Up to the first misfit every state keeps the caps. */
  lemma {:induction false} CapsUpTo(start: View, commands: seq<Command>, trace: seq<Entry>, rules: seq<Rule>, i: nat)
    requires IsRun(start, commands, trace, rules) && NoStrangers(start, commands) && Capped(start, rules)
    requires i <= |trace| && forall j: nat :: j < i ==> !Misfit(trace[j], rules)
    ensures Capped(Reached(start, trace, i), rules)
    ensures i < |trace| ==> Capped(trace[i].before, rules) && Capped(trace[i].at, rules)
    ensures i < |trace| ==> (Capped(trace[i].after, rules) <==> !Misfit(trace[i], rules))
    ensures i < |trace| && Misfit(trace[i], rules) ==> commands[i].Bind?
    decreases i
  {
    hide Step, Orderly, Later, Capped, NoOverrun, NoStranger, Misfit, Carried;
    if i > 0 {
      CapsUpTo(start, commands, trace, rules, i - 1);
    }
    if i < |trace| {
      var e := trace[i];
      assert Linked(start, commands, trace, rules, i);
      PauseIsOrderly(Reached(start, trace, i), e.before);
      NoOverrunKeepsCaps(Reached(start, trace, i), e.before, rules);
      RunIsOrderly(start, commands, trace, rules, i);
      assert commands[i] in commands;
      if UsesName(commands[i]) {
        OrderlyKeeps(start, e.before, commands[i].key);
      }
      StepKeepsCaps(commands[i], e, rules);
    }
  }

  /** The caps over a run: they hold in every state, from one command to the next and within each, if and only
      if every tab bound in it fits. */
  lemma CapsHoldIffAllFit(start: View, commands: seq<Command>, trace: seq<Entry>, rules: seq<Rule>)
    requires IsRun(start, commands, trace, rules) && NoStrangers(start, commands) && Capped(start, rules)
    ensures CapsHold(trace, rules) <==> AllFit(trace, rules)
    ensures AllFit(trace, rules) ==> Capped(Reached(start, trace, |trace|), rules)
  {
    hide IsRun, Capped, Misfit, NoStrangers;
    if AllFit(trace, rules) {
      forall j: nat | j < |trace| ensures !Misfit(trace[j], rules) {
        assert trace[j] in trace;
      }
      CapsUpTo(start, commands, trace, rules, |trace|);
      forall e | e in trace ensures Capped(e.before, rules) && Capped(e.at, rules) && Capped(e.after, rules) {
        var i: nat :| i < |trace| && trace[i] == e;
        CapsUpTo(start, commands, trace, rules, i);
      }
    } else {
      var i := FirstMisfit(trace, rules);
      CapsUpTo(start, commands, trace, rules, i);
      assert trace[i] in trace;
    }
  }

  lemma {:induction false} FirstMisfit(trace: seq<Entry>, rules: seq<Rule>) returns (i: nat)
    requires !AllFit(trace, rules)
    ensures i < |trace| && Misfit(trace[i], rules) && forall j: nat :: j < i ==> !Misfit(trace[j], rules)
    decreases |trace|
  {
    hide Misfit;
    var n := |trace| - 1;
    if AllFit(trace[..n], rules) {
      i := n;
      assert trace == trace[..n] + [trace[n]];
      forall j: nat | j < i ensures !Misfit(trace[j], rules) {
        assert trace[..n][j] in trace[..n];
      }
    } else {
      i := FirstMisfit(trace[..n], rules);
      forall j: nat | j < i ensures !Misfit(trace[j], rules) {
        assert trace[..n][j] == trace[j];
      }
    }
  }

  // ---------------------------------------------------------------- where misfits come from

  /** What a query saw still holds, or the tab is bonded to a session, or gone. */
  ghost predicate Fresh(v: View, q: Seen) {
    q.tab in v.tabs ==> v.tabs[q.tab].host == q.host || Firm(v, q.tab)
  }

  lemma StayFresh(a: View, b: View, n: nat, lost: Option<TabId>, q: Seen)
    requires Carried(a, b, n, lost) && q.tab < n && lost != Some(q.tab)
    ensures Fresh(a, q) ==> Fresh(b, q)
  {
    hide Firm;
  }

  /** What a command notes holds before and after it. */
  lemma NotedMeans(c: Command, e: Entry, rules: seq<Rule>, i: nat, k: nat)
    requires Step(c, e, rules) && k < |NotedAfter(c, e, i)|
    ensures var q := NotedAfter(c, e, i)[k];
            if k < |e.noted| then q == e.noted[k] else q.since == i && q.tab < e.nextTab && Fresh(e.after, q)
  {
    hide Opens, Activates, Finds, Ended, Covers, Drift, Later, Firm, InSomeSession;
  }

  lemma {:induction false} NotedIsOld(start: View, commands: seq<Command>, trace: seq<Entry>, rules: seq<Rule>, i: nat, k: nat)
    requires IsRun(start, commands, trace, rules) && i < |trace| && k < |trace[i].noted|
    ensures trace[i].noted[k].tab < trace[i].nextTab && trace[i].noted[k].since < i
    decreases i
  {
    hide Step, Later;
    assert Linked(start, commands, trace, rules, i);
    if i > 0 {
      assert Linked(start, commands, trace, rules, i - 1);
      NotedMeans(commands[i - 1], trace[i - 1], rules, i - 1, k);
      if k < |trace[i - 1].noted| {
        NotedIsOld(start, commands, trace, rules, i - 1, k);
      }
    }
  }

  /** A query stays fresh until its tab strays. */
  lemma {:induction false} FreshUnlessStrayed(start: View, commands: seq<Command>, trace: seq<Entry>, rules: seq<Rule>, i: nat, k: nat)
    requires IsRun(start, commands, trace, rules) && AllKept(start.sessions) && i < |trace| && k < |trace[i].noted|
    requires var q := trace[i].noted[k];
             forall j: nat :: q.since < j < i ==> StrayTab(commands[j], trace[j]) != Some(q.tab)
    ensures Fresh(trace[i].before, trace[i].noted[k])
    decreases i
  {
    hide Fresh, Carried, Later, Orderly, AllKept, StrayTab, NoOverrun, Step;
    assert Linked(start, commands, trace, rules, i);
    if i > 0 {
      var q, e := trace[i].noted[k], trace[i - 1];
      var c := commands[i - 1];
      assert Linked(start, commands, trace, rules, i - 1);
      NotedIsOld(start, commands, trace, rules, i, k);
      NotedMeans(c, e, rules, i - 1, k);
      PauseIsOrderly(e.after, trace[i].before);
      StayFresh(e.after, trace[i].before, trace[i].nextTab, None, q);
      if k < |e.noted| {
        NotedIsOld(start, commands, trace, rules, i - 1, k);
        FreshUnlessStrayed(start, commands, trace, rules, i - 1, k);
        RunIsOrderly(start, commands, trace, rules, i - 1);
        OrderlyKeeps(start, e.before, "");
        StepIsOrderly(c, e, rules);
        assert StrayTab(c, e) != Some(q.tab);
        StayFresh(e.before, e.after, e.nextTab, StrayTab(c, e), q);
      }
    }
  }

  /** A misfit is a find whose very tab strayed between the query and the binding. */
  lemma MisfitStrayed(start: View, commands: seq<Command>, trace: seq<Entry>, rules: seq<Rule>, i: nat) returns (j: nat)
    requires IsRun(start, commands, trace, rules) && AllKept(start.sessions)
    requires i < |trace| && Misfit(trace[i], rules)
    ensures commands[i].Bind? && commands[i].query < |trace[i].noted|
    ensures var q := trace[i].noted[commands[i].query];
            q.tab == trace[i].act.tab && q.since < j < i && StrayTab(commands[j], trace[j]) == Some(q.tab)
  {
    var c, e := commands[i], trace[i];
    assert Linked(start, commands, trace, rules, i);
    OnlyBindsMisfit(c, e, rules);
    var q := e.noted[c.query];
    if j': nat :| q.since < j' < i && StrayTab(commands[j'], trace[j']) == Some(q.tab) {
      j := j';
    } else {
      hide Step, Misfit, Later;
      FreshUnlessStrayed(start, commands, trace, rules, i, c.query);
      FreshFinds(c, e, rules);
      assert false;
    }
  }

  lemma OnlyBindsMisfit(c: Command, e: Entry, rules: seq<Rule>)
    requires Step(c, e, rules) && Misfit(e, rules)
    ensures c.Bind? && c.query < |e.noted| && e.act == Binds(e.noted[c.query].tab)
  {
    hide Opens, Drift, Later, Ended, Covers, BindFits, Room, Activates;
    if c.Activate? {
      ActivatingKeeps(e.before, c.key, c.id, rules, e.outcome.value, e.at, e.after, e.nextTab);
    }
  }

  lemma FreshFinds(c: Command, e: Entry, rules: seq<Rule>)
    requires Step(c, e, rules) && c.Bind? && c.query < |e.noted| && Fresh(e.before, e.noted[c.query])
    ensures !Misfit(e, rules)
  {
    hide Later, BindFits, Room, Firm;
    if e.act.Binds? {
      SeenStillFits(e.before, e.at, rules, e.act.tab, e.noted[c.query].host);
    }
  }

  /** So the caps hold over every run without a find, and over every run in which no tab strays. */
  lemma CapsHoldWithoutStrays(start: View, commands: seq<Command>, trace: seq<Entry>, rules: seq<Rule>)
    requires IsRun(start, commands, trace, rules) && NoStrangers(start, commands) && Capped(start, rules) && AllKept(start.sessions)
    ensures (forall c :: c in commands ==> !c.Bind?) || NoneStrays(commands, trace) ==> CapsHold(trace, rules)
  {
    assert |trace| == |commands|;
    hide IsRun, Capped, NoStrangers, Misfit, CapsHold, AllKept;
    CapsHoldIffAllFit(start, commands, trace, rules);
    if !AllFit(trace, rules) {
      var i := FirstMisfit(trace, rules);
      var j := MisfitStrayed(start, commands, trace, rules, i);
      assert commands[i] in commands;
    }
  }

  // ---------------------------------------------------------------- a find that does not fit

  /** The browser of such a run: the user's tab 0 on o.c, and two blank tabs, of session m and of session p. */
  function Blank(): View {
    View(map[0 := Tab("o.c", None), 1 := Tab("", None), 2 := Tab("", None)], [], map[],
         map["m" := Session(None, Some(1), [1]), "p" := Session(None, Some(2), [2])])
  }

  /** Session p's tab was closed while a navigation checked its caps. */
  function Tabless(): View {
    View(map[0 := Tab("o.c", None), 1 := Tab("", None)], [], map[],
         map["m" := Session(None, Some(1), [1]), "p" := Session(None, None, [])])
  }

  /** That navigation then took the user's tab to s.c. */
  function Astray(): View {
    Placed(Tabless(), 0, "s.c")
  }

  /** Session m's tab went to s.c. */
  function Full(): View {
    Placed(Astray(), 1, "s.c")
  }

  const QUERIED := [Seen(0, "o.c", 0)]

  /** The commands: a query, two navigations and a find. */
  function StaleCommands(): (commands: seq<Command>)
    ensures |commands| == 4 && forall c :: c in commands ==> c.Query? || c.Open? || c.Bind?
  {
    [Query(0), Open("p", "s.c", false, None), Open("m", "s.c", false, None), Bind("f", 0)]
  }

  function StaleTrace(): (trace: seq<Entry>)
    ensures |trace| == 4
  {
    [Entry([], 3, Blank(), None, Blank(), Nothing, Blank()),
     Entry(QUERIED, 3, Blank(), Some(NoSuchTab), Tabless(), Places(0, "s.c"), Astray()),
     Entry(QUERIED, 3, Astray(), Some(Done(1)), Astray(), Places(1, "s.c"), Full()),
     Entry(QUERIED, 3, Full(), Some(Done(0)), Full(), Binds(0), Bound(Full(), "f", 0))]
  }

  /** A cap of one tab on s.c is broken by this run: the find checks o.c, where its query saw the tab and where
      no cap applies, and binds a second tab on s.c. */
  lemma StaleFindBreaksCap(rules: seq<Rule>)
    requires rules == [Rule("s.c", 1)]
    ensures IsRun(Blank(), StaleCommands(), StaleTrace(), rules)
    ensures NoStrangers(Blank(), StaleCommands()) && Capped(Blank(), rules) && AllKept(Blank().sessions)
    ensures StrayTab(StaleCommands()[1], StaleTrace()[1]) == Some(0)
    ensures Misfit(StaleTrace()[3], rules) && !Capped(StaleTrace()[3].after, rules)
  {
    OneRuleForSite(rules);
    BlankIsCapped(rules);
    FullMisfits(rules);
    StaleIsRun(rules);
    StaleFacts();
    hide Blank, Tabless, Astray, Full, Capped, BindFits, Bound, AllKept, Strayed, IsRun, Governs;
  }

  lemma StaleIsRun(rules: seq<Rule>)
    requires rules == [Rule("s.c", 1)] && Governs(rules, "s.c", 0) && forall j :: !Governs(rules, "o.c", j)
    ensures IsRun(Blank(), StaleCommands(), StaleTrace(), rules)
  {
    StaleFacts();
    hide Blank, Tabless, Astray, Full, Bound, Strayed, Later, Step, Governs;
    forall i: nat | i < 4 ensures Linked(Blank(), StaleCommands(), StaleTrace(), rules, i) {
      StaleStep(rules, i);
    }
    hide Linked, StaleCommands, StaleTrace;
  }

  lemma StaleFacts()
    ensures forall v, t :: v in {Blank(), Astray(), Full()} && t in v.tabs ==> t < 3
    ensures 0 in Blank().tabs && Blank().tabs[0].host == "o.c" && Blank().groups == []
    ensures Strayed(Tabless(), "p") && !Strayed(Astray(), "m")
  {}

  lemma StaleStep(rules: seq<Rule>, i: nat)
    requires rules == [Rule("s.c", 1)] && Governs(rules, "s.c", 0) && (forall j :: !Governs(rules, "o.c", j)) && i < 4
    ensures Step(StaleCommands()[i], StaleTrace()[i], rules)
    ensures Later(Reached(Blank(), StaleTrace(), i), StaleTrace()[i].before)
  {
    StaleFacts();
    hide Blank, Tabless, Astray, Full, Later, Opens, Finds, Bound, Governs;
    LaterNow(StaleTrace()[i].before);
    assert i == 0 || i == 1 || i == 2 || i == 3;
    if i == 1 {
      TablessOpens(rules);
    } else if i == 2 {
      AstrayOpens(rules);
    } else if i == 3 {
      FullFinds(rules);
    }
  }

  lemma OneRuleForSite(rules: seq<Rule>)
    requires rules == [Rule("s.c", 1)]
    ensures Governs(rules, "s.c", 0) && forall i :: !Governs(rules, "o.c", i)
  {
    assert Domains.Normal("s.c") == "s.c";
    assert !RuleMatches(rules, "o.c", 0);
    forall i ensures !Governs(rules, "o.c", i) {
      if Governs(rules, "o.c", i) {
        OneRuleGoverns(rules, "o.c", i, i);
      }
    }
  }

  /** Without groups the managed tabs are those on record. */
  lemma ManagedIsRecorded(v: View)
    requires v.groups == []
    ensures forall t :: t in Managed(v) <==> t in v.tabs && InSomeSession(v, t)
  {}

  lemma OnlyTabOne(v: View)
    requires v.groups == [] && v.tabs.Keys == {0, 1} && v.sessions == Tabless().sessions
    ensures Managed(v) == {1} && !InSomeSession(v, 0)
  {
    ManagedIsRecorded(v);
    assert 1 in v.sessions["m"].tabIds;
    hide Managed;
  }

  /** There is room for a host while no managed tab but the one left out has a host. */
  lemma RoomIfBlank(v: View, rules: seq<Rule>, target: string, except: Option<TabId>)
    requires forall t :: t in v.tabs && t in Managed(v) && except != Some(t) ==> v.tabs[t].host == ""
    requires rules == [Rule("s.c", 1)]
    ensures Room(v, rules, target, except)
  {
    hide Managed;
    forall r | Applies(rules, Some(target), r) ensures |CoveredTabs(v, Domains.Normal(r.domain), except)| < r.max {
      var i: nat :| Governs(rules, target, i) && r == rules[i];
      OneRuleGoverns(rules, target, i, i);
      assert CoveredTabs(v, Domains.Normal(r.domain), except) == {};
    }
  }

  lemma BlankIsCapped(rules: seq<Rule>)
    requires rules == [Rule("s.c", 1)]
    ensures Capped(Blank(), rules) && AllKept(Blank().sessions)
  {
    var v := Blank();
    ManagedIsRecorded(v);
    forall t | t in Managed(v) ensures v.tabs[t].host == "" {
      var k :| k in v.sessions && t in v.sessions[k].tabIds;
    }
    hide Managed;
    forall i: nat | i < |rules| ensures Load(v, rules, i) == 0 {
      NothingGovernsNoHost(rules, i);
      assert GovernedTabs(v, rules, i) == {};
    }
  }

  lemma LastTabGoes()
    ensures Later(Blank(), Tabless()) && TabsLater(Blank().tabs, Tabless().tabs)
  {}

  lemma TablessOpens(rules: seq<Rule>)
    requires rules == [Rule("s.c", 1)]
    ensures Opens(Blank(), "p", "s.c", false, rules, NoSuchTab, Tabless(), Some(0), Astray(), 3)
  {
    LastTabGoes();
    LaterIsDrift(Blank(), Tabless());
    OnlyTabOne(Tabless());
    hide Drift, Room, Managed, Later;
    RoomIfBlank(Tabless(), rules, "s.c", None);
  }

  lemma AstrayOpens(rules: seq<Rule>)
    requires rules == [Rule("s.c", 1)]
    ensures Opens(Astray(), "m", "s.c", false, rules, Done(1), Astray(), Some(1), Full(), 3)
  {
    LaterNow(Astray());
    LaterNow(Full());
    LaterIsDrift(Astray(), Astray());
    LaterIsDrift(Full(), Full());
    OnlyTabOne(Astray());
    hide Drift, Room, Managed;
    RoomIfBlank(Astray(), rules, "s.c", Some(1));
  }

  lemma FullFinds(rules: seq<Rule>)
    requires forall i :: !Governs(rules, "o.c", i)
    ensures Finds(Full(), "f", 0, "o.c", rules, Done(0), Full(), Bound(Full(), "f", 0))
  {
    LaterNow(Full());
    hide Later, Governs;
  }

  lemma FullMisfits(rules: seq<Rule>)
    requires rules == [Rule("s.c", 1)] && Governs(rules, "s.c", 0)
    ensures !BindFits(Full(), rules, 0) && !Capped(Bound(Full(), "f", 0), rules)
  {
    var v := Full();
    OnlyTabOne(v);
    BindingLoads(v, "f", rules, 0, 0);
    hide Managed, Governs, Bound;
    assert GovernedTabs(v, rules, 0) == {1};
    var i: nat := 0;
    assert Governs(rules, v.tabs[0].host, i) && !(i < |rules| && Load(v, rules, i) < rules[i].max);
    assert Load(Bound(v, "f", 0), rules, i) > rules[i].max;
  }
}
