/** Carrying out commands on one bridge: every method here comes to a step or a run of `TabSteps`. */
module TabRuns {
  import opened Prelude
  import opened TabLimits
  import opened Sessions
  import opened SessionBridge
  import opened TabTools
  import opened TabSteps

  /** The query half of finding a tab. */
  method Note(b: Bridge, tab: TabId, noted: seq<Seen>, number: nat) returns (more: seq<Seen>)
    ensures more == if tab in b.tabs then noted + [Seen(tab, b.tabs[tab].host, number)] else noted
  {
    more := if tab in b.tabs then noted + [Seen(tab, b.tabs[tab].host, number)] else noted;
  }

  /** The user opens a tab of their own. */
  method OpenOwn(b: Bridge, host: string) returns (ghost at: View)
    requires b.Valid()
    modifies b
    ensures b.Valid() && b.nextTab == old(b.nextTab) + 1
    ensures !InSomeSession(old(b.Now()), old(b.nextTab)) && at == old(b.Now()).(tabs := old(b.tabs)[old(b.nextTab) := Tab("", None)])
    ensures b.Now() == Placed(at, old(b.nextTab), host)
  {
    FreshInNoRecord(b.Now(), b.nextTab);
    var id := b.CreateTab();
    at := b.Now();
    b.SetHost(id, host);
  }

  /** The user goes elsewhere in a tab of their own. */
  method BrowseOwn(b: Bridge, tab: TabId, host: string) returns (gone: bool)
    requires b.Valid()
    modifies b
    ensures b.Valid() && b.nextTab == old(b.nextTab) && (gone <==> Users(old(b.Now()), tab))
    ensures b.Now() == if gone then Placed(old(b.Now()), tab, host) else old(b.Now())
  {
    gone := tab in b.tabs && b.tabs[tab].group.None? && forall k :: k in b.sessions ==> tab !in b.sessions[k].tabIds;
    if gone {
      b.SetHost(tab, host);
    }
  }

  /** One command, the number `number` of its run, with the queries made so far. */
  method Perform(b: Bridge, c: Command, noted: seq<Seen>, number: nat, rules: seq<Rule>)
    returns (more: seq<Seen>, ghost e: Entry)
    requires b.Valid() && forall q :: q in noted ==> q.tab < b.nextTab
    modifies b
    ensures b.Valid() && b.nextTab >= old(b.nextTab)
    ensures Step(c, e, rules) && e.before == old(b.Now()) && e.after == b.Now()
    ensures e.noted == noted && e.nextTab == old(b.nextTab)
    ensures more == NotedAfter(c, e, number) && forall q :: q in more ==> q.tab < b.nextTab
  {
    hide GroupsSound, UnheardSound, RecordsSound, Later, Opens, Activates, Finds, Drift, Ended, Covers, Orderly, NoOverrun, Carried,
      AllKept, NoStranger, InSomeSession, BindFits, Bound;
    ghost var a, n := b.Now(), b.nextTab;
    TabsBelow(a, n);
    hide TabsSound;
    more, e := noted, Entry(noted, n, a, None, a, Nothing, a);
    match c {
      case Query(tab) =>
        more := Note(b, tab, noted, number);
      case Bind(key, query) =>
        if query < |noted| {
          var r;
          ghost var at;
          r, at := FindTab(b, key, noted[query].tab, noted[query].host, rules);
          e := Entry(noted, n, a, Some(r), at, BoundTab(Some(r)), b.Now());
        }
      case Open(key, target, newTab, title) =>
        var r;
        ghost var at, placed;
        r, at, placed := Navigate(b, key, target, newTab, rules, title);
        e := Entry(noted, n, a, Some(r), at, if placed.Some? then Places(placed.value, target) else Nothing, b.Now());
      case Activate(key, id) =>
        var r;
        ghost var at;
        r, at := ActivateTab(b, key, id, rules);
        e := Entry(noted, n, a, Some(r), at, BoundTab(Some(r)), b.Now());
      case Close(key) =>
        var closed := CloseTab(b, key, rules);
        e := Entry(noted, n, a, None, b.Now(), Nothing, b.Now());
      case End(key, group) =>
        CloseSession(b, key, group, rules);
        e := Entry(noted, n, a, None, b.Now(), Nothing, b.Now());
      case List(key) =>
        var tabIds := ListTabs(b, key, rules);
        e := Entry(noted, n, a, None, b.Now(), Nothing, b.Now());
      case UserOpens(host) =>
        ghost var at := OpenOwn(b, host);
        e := Entry(noted, n, a, None, at, Places(n, host), b.Now());
      case UserBrowses(tab, host) =>
        var gone := BrowseOwn(b, tab, host);
        e := Entry(noted, n, a, None, a, if gone then Places(tab, host) else Nothing, b.Now());
    }
  }

  /** Any sequence of commands, tabs closing before, between and after them. What comes of it is a run in the
      sense of `IsRun`; the records are in order throughout, and the caps, if they held, hold throughout if
      and only if every tab bound fits. */
  method Run(b: Bridge, commands: seq<Command>, rules: seq<Rule>) returns (ghost trace: seq<Entry>)
    requires b.Valid()
    modifies b
    ensures b.Valid() && IsRun(old(b.Now()), commands, trace, rules)
    ensures Later(Reached(old(b.Now()), trace, |trace|), b.Now())
    ensures AllKept(old(b.sessions)) ==> AllKept(b.sessions)
    ensures NoStrangers(old(b.Now()), commands) && Capped(old(b.Now()), rules) ==>
              (CapsHold(trace, rules) <==> AllFit(trace, rules)) && (AllFit(trace, rules) ==> Capped(b.Now(), rules))
  {
    hide Step, Later, IsRun, CapsHold, AllFit, Capped, NoStrangers, AllKept, TabsSound, GroupsSound, UnheardSound, RecordsSound,
      Orderly, NoOverrun, Carried;
    ghost var start := b.Now();
    trace := [];
    var noted: seq<Seen> := [];
    EmptyRun(start, rules);
    assert commands[..0] == [];
    for i := 0 to |commands|
      invariant b.Valid() && |trace| == i && IsRun(start, commands[..i], trace, rules)
      invariant Reached(start, trace, i) == b.Now() && noted == Noted(commands[..i], trace, i)
      invariant forall q :: q in noted ==> q.tab < b.nextTab
      invariant i > 0 ==> trace[i - 1].nextTab <= b.nextTab
    {
      b.Await();
      ghost var e;
      noted, e := Perform(b, commands[i], noted, i, rules);
      OneMoreStep(start, commands[..i], trace, rules, commands[i], e);
      assert commands[..i + 1] == commands[..i] + [commands[i]];
      trace := trace + [e];
    }
    assert commands[..|commands|] == commands;
    ghost var reached := b.Now();
    b.Await();
    RunIsOrderly(start, commands, trace, rules, |trace|) by {
      RunHasLength(start, commands, trace, rules);
    }
    PauseIsOrderly(reached, b.Now());
    OrderlyTwice(start, reached, b.Now());
    OrderlyKeeps(start, b.Now(), "");
    if NoStrangers(start, commands) && Capped(start, rules) {
      CapsHoldIffAllFit(start, commands, trace, rules);
      NoOverrunKeepsCaps(reached, b.Now(), rules);
    }
  }

  lemma TabsBelow(v: View, nextTab: nat)
    requires TabsSound(v.tabs, v.groups, nextTab)
    ensures forall t :: t in v.tabs ==> t < nextTab
  {}

  lemma RunHasLength(start: View, commands: seq<Command>, trace: seq<Entry>, rules: seq<Rule>)
    requires IsRun(start, commands, trace, rules)
    ensures |trace| == |commands|
  {}
}
