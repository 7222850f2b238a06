/** The tools that open, find, activate and close tabs. With caps configured, navigating, finding and
    activating run one at a time, so each is one method here; tabs may still be closed while it waits.

    What a tool keeps of ownership and records (`Orderly`) it keeps however groups are named; what it keeps
    of the caps, when no unowned group bears the session's name (`NoStranger`). */
module TabTools {
  import opened Prelude
  import Domains
  import opened TabLimits
  import opened Sessions
  import opened SessionBridge

  datatype Outcome = Done(tab: TabId) | Refused | NotClosed | NoSuchTab | NoActiveTab

  /** Only the tab `y` is new or has a new host. */
  ghost predicate HostsKeptBut(a: View, b: View, y: Option<TabId>) {
    forall t :: t in b.tabs && y != Some(t) ==> t in a.tabs && b.tabs[t].host == a.tabs[t].host
  }

  /** What happens to the browser and the records while a tool named `key` neither navigates a tab of old nor
      binds one: tabs close, tabs are grouped, new ones from `n` on are blank; and if no unowned group bears
      the name, no tab with a host becomes managed. */
  ghost predicate Drift(a: View, b: View, key: string, n: nat) {
    Steady(a, b, n) && (NoStranger(a, key) ==> Shrunk(a, b))
  }

  lemma DriftTwice(a: View, b: View, c: View, key: string, n: nat)
    requires Drift(a, b, key, n) && Drift(b, c, key, n)
    ensures Drift(a, c, key, n)
  {
    hide Firm, AllKept, Managed;
  }

  lemma LaterIsDrift(a: View, b: View)
    requires Later(a, b)
    ensures forall key, n :: Drift(a, b, key, n)
  {
    LaterIsSteady(a, b);
    hide Shrunk, Steady;
  }

  lemma DriftKeeps(a: View, b: View, key: string, n: nat, rules: seq<Rule>)
    requires Drift(a, b, key, n)
    ensures Orderly(a, b) && forall lost :: Carried(a, b, n, lost)
    ensures NoStranger(a, key) ==> NoStranger(b, key) && NoOverrun(a, b, rules)
  {
    SteadyCarries(a, b, n);
    OrderlyKeeps(a, b, key);
    hide NoStranger, Steady, Shrunk, NoOverrun, Carried;
    if NoStranger(a, key) {
      ShrinkingOverrunsNothing(a, b, rules);
    }
  }

  // ---------------------------------------------------------------- navigating

  /** Navigating tab `y` from `at` on, where there is room for it: the session's active tab, and then tabs may
      close and a title be set; or, if the session has no tab, whichever tab the user is looking at, and then
      the tool fails at once. */
  ghost predicate Placing(at: View, key: string, target: string, rules: seq<Rule>, y: TabId, b: View, n: nat) {
    && y in at.tabs && key in at.sessions
    && if at.sessions[key].active.None? then
         Room(at, rules, target, None) && b == Placed(at, y, target)
       else
         at.sessions[key].active == Some(y) && Room(at, rules, target, Some(y))
         && Drift(Placed(at, y, target), b, key, n) && TabsLater(Placed(at, y, target).tabs, b.tabs)
  }

  /** What `Navigate` does from `a` to `b`; `placed` is the tab it navigates, in state `at`. */
  ghost predicate Opens(a: View, key: string, target: string, newTab: bool, rules: seq<Rule>, r: Outcome, at: View,
                        placed: Option<TabId>, b: View, n: nat) {
    && Drift(a, at, key, n) && HostsKeptBut(a, at, placed)
    && (placed.None? ==> b == at)
    && (placed.Some? ==> Placing(at, key, target, rules, placed.value, b, n))
    && OpenOutcome(a, key, target, newTab, rules, r, at, placed, n)
  }

  ghost predicate OpenOutcome(a: View, key: string, target: string, newTab: bool, rules: seq<Rule>, r: Outcome, at: View,
                              placed: Option<TabId>, n: nat) {
    var active := SessionOf(a.sessions, key).active;
    match r
    case Done(y) => placed == Some(y) && OwnTab(a, at, key, newTab, y, n)
    case Refused => placed.None? && (NoStranger(a, key) ==> NoPlace(a, key, target, rules, at.tabs))
    case NotClosed => placed.None? && newTab
    case NoSuchTab =>
      if placed.None? then !LivesOn(active, a.tabs, at.tabs) || at.tabs == map[]
      else Strayed(at, key) || OwnTab(a, at, key, newTab, placed.value, n)
    case NoActiveTab => false
  }

  /** The session has no tab to navigate. */
  predicate Strayed(at: View, key: string) {
    key in at.sessions && at.sessions[key].active.None?
  }

  /** The tab is the session's active one: with `newTab` the one numbered `n`, and without, the active one of
      before if that lives on. */
  predicate OwnTab(a: View, at: View, key: string, newTab: bool, y: TabId, n: nat) {
    var active := SessionOf(a.sessions, key).active;
    && key in at.sessions && at.sessions[key].active == Some(y)
    && (newTab ==> y == n)
    && (LivesOn(active, a.tabs, at.tabs) ==> !newTab && active == Some(y))
  }

  /** No room for the target with one tab left out at most, which is the session's active tab if that lives
      on. */
  ghost predicate NoPlace(a: View, key: string, target: string, rules: seq<Rule>, tabs: map<TabId, Tab>) {
    exists except :: !Room(a, rules, target, except) && LeftOut(SessionOf(a.sessions, key).active, except, a.tabs, tabs)
  }

  predicate LeftOut(active: Option<TabId>, except: Option<TabId>, before: map<TabId, Tab>, after: map<TabId, Tab>) {
    LivesOn(active, before, after) ==> except == active
  }

  predicate LivesOn(active: Option<TabId>, before: map<TabId, Tab>, after: map<TabId, Tab>) {
    StillActive(active, before) && StillActive(active, after)
  }

  lemma PlacingKeeps(at: View, key: string, target: string, rules: seq<Rule>, y: TabId, b: View, n: nat)
    requires Placing(at, key, target, rules, y, b, n)
    ensures Orderly(at, b) && (NoStranger(at, key) ==> NoOverrun(at, b, rules))
    ensures AllKept(at.sessions) ==> Carried(at, b, n, if Strayed(at, key) then Some(y) else None)
  {
    hide NoOverrun, Room, Orderly, Carried, Drift, NoStranger, AllKept;
    var p := Placed(at, y, target);
    PlacingIsOrderly(at, y, target);
    OrderlyKeeps(at, p, key);
    if Strayed(at, key) {
      PlacingOverrunsNothing(at, rules, target, None, y);
      PlacingCarries(at, y, target, n, Some(y));
    } else {
      PlacingOverrunsNothing(at, rules, target, Some(y), y);
      DriftKeeps(p, b, key, n, rules);
      OrderlyTwice(at, p, b);
      if NoStranger(at, key) {
        NoOverrunTwice(at, p, b, rules);
      }
      if AllKept(at.sessions) {
        ActiveIsFirm(at, key, y);
        PlacingCarries(at, y, target, n, None);
        CarriedTwice(at, p, b, n, None);
      }
    }
  }

  lemma OpeningKeeps(a: View, key: string, target: string, newTab: bool, rules: seq<Rule>, r: Outcome, at: View,
                     placed: Option<TabId>, b: View, n: nat)
    requires Opens(a, key, target, newTab, rules, r, at, placed, b, n)
    ensures Orderly(a, b) && (NoStranger(a, key) ==> NoOverrun(a, at, rules) && NoOverrun(a, b, rules))
    ensures AllKept(a.sessions) ==> Carried(a, b, n, if Strayed(at, key) then placed else None)
  {
    hide NoOverrun, Orderly, Carried, Drift, NoStranger, AllKept, Placing, OpenOutcome, HostsKeptBut;
    DriftKeeps(a, at, key, n, rules);
    if placed.Some? {
      PlacingKeeps(at, key, target, rules, placed.value, b, n);
      OrderlyTwice(a, at, b);
      OrderlyKeeps(a, at, key);
      if NoStranger(a, key) {
        NoOverrunTwice(a, at, b, rules);
      }
      if AllKept(a.sessions) {
        CarriedTwice(a, at, b, n, if Strayed(at, key) then placed else None);
      }
    }
  }

  /** Opens the target in the session's tab, or with `newTab` in a new one that replaces it. */
  method Navigate(b: Bridge, key: string, target: string, newTab: bool, rules: seq<Rule>, title: Option<string>)
    returns (r: Outcome, ghost at: View, ghost placed: Option<TabId>)
    requires b.Valid()
    modifies b
    ensures b.Valid() && key in b.sessions && b.nextTab >= old(b.nextTab)
    ensures Opens(old(b.Now()), key, target, newTab, rules, r, at, placed, b.Now(), old(b.nextTab))
    ensures Orderly(old(b.Now()), b.Now())
    ensures NoStranger(old(b.Now()), key) ==> NoOverrun(old(b.Now()), b.Now(), rules)
    ensures AllKept(old(b.sessions)) ==> Carried(old(b.Now()), b.Now(), old(b.nextTab), if Strayed(at, key) then placed else None)
    ensures r.Done? ==> HostsKeptBut(old(b.Now()), b.Now(), Some(r.tab)) && (r.tab in b.tabs ==> b.tabs[r.tab].host == target)
    ensures r.Refused? || r.NotClosed? ==> HostsKeptBut(old(b.Now()), b.Now(), None)
    ensures b.quiet ==> r.Done? || r.Refused? || r.NotClosed?
    ensures r.NotClosed? && b.obliging ==> !b.quiet && b.sessions[key].active.None?
    ensures b.quiet && !newTab ==> forall t :: t in old(b.tabs) ==> t in b.tabs
  {
    hide Shrunk, Steady, NoOverrun, Room, NoStranger, SessionOf, TabsSound, GroupsSound, UnheardSound, RecordsSound, Orderly,
      Carried, AllKept, HostsKeptBut, Opens, Placing, OpenOutcome, Later;
    ghost var a, n := b.Now(), b.nextTab;
    var acquired;
    ghost var except, m;
    acquired, except, m := b.AcquireTabForNavigation(key, newTab, rules, target);
    ghost var v := b.Now();
    at, placed := v, None;
    OnlyNewTab(a, v, n, b.nextTab, b.groups);
    match acquired {
      case TooMany =>
        r := Refused;
        RefusedOrNotClosed(a, key, target, newTab, rules, r, v, except, n);
      case CouldNotClose =>
        r := NotClosed;
        RefusedOrNotClosed(a, key, target, newTab, rules, r, v, except, n);
      case Acquired(tab) =>
        r, at, placed := GoTo(b, key, tab, target, rules, title, except);
        OpensInTab(a, key, target, newTab, rules, r, tab, v, at, placed, b.Now(), n, b.nextTab);
    }
    OpeningKeeps(a, key, target, newTab, rules, r, at, placed, b.Now(), n);
  }

  lemma RefusedOrNotClosed(a: View, key: string, target: string, newTab: bool, rules: seq<Rule>, r: Outcome, v: View,
                           except: Option<TabId>, n: nat)
    requires Drift(a, v, key, n) && HostsKeptBut(a, v, None) && (r.Refused? || (r.NotClosed? && newTab))
    requires r.Refused? && NoStranger(a, key) ==> !Room(a, rules, target, except)
    requires LeftOut(SessionOf(a.sessions, key).active, except, a.tabs, v.tabs)
    ensures Opens(a, key, target, newTab, rules, r, v, None, v, n)
  {
    hide Drift, HostsKeptBut, NoStranger, Room, LeftOut, SessionOf;
  }

  lemma OpensInTab(a: View, key: string, target: string, newTab: bool, rules: seq<Rule>, r: Outcome, tab: Option<TabId>, v: View,
                   at: View, placed: Option<TabId>, b: View, n: nat, m: nat)
    requires Drift(a, v, key, n) && Later(v, at) && n <= m && HostsKeptBut(a, v, Some(n))
    requires tab != Some(n) ==> HostsKeptBut(a, v, None)
    requires if placed.Some? then Placing(at, key, target, rules, placed.value, b, m) else b == at
    requires placed.None? && tab.Some? ==> tab.value !in at.tabs
    requires key in at.sessions
    requires if tab.None? then r.NoSuchTab? && (placed.Some? ==> Strayed(at, key))
             else placed.Some? ==> placed == tab && at.sessions[key].active == tab
    requires r.Done? ==> placed == Some(r.tab)
    requires r.Done? || r.NoSuchTab?
    requires newTab ==> tab == Some(n)
    requires var active := SessionOf(a.sessions, key).active;
             LivesOn(active, a.tabs, v.tabs) ==> !newTab && tab == active
    ensures Opens(a, key, target, newTab, rules, r, at, placed, b, n)
    ensures r.Done? ==> HostsKeptBut(a, b, Some(r.tab)) && (r.tab in b.tabs ==> b.tabs[r.tab].host == target)
  {
    hide Room, NoStranger, Shrunk, Steady, NoOverrun, SessionOf, SessionsLater;
    LaterIsDrift(v, at);
    DriftTwice(a, v, at, key, n);
    if placed.Some? {
      PlacingLess(at, key, target, rules, placed.value, b, m, n);
    }
  }

  /** The second half: the tab goes to the target. Should the session have no tab left by then, the browser
      takes the missing id for the tab the user is looking at, whoever's it is, and the tool then fails. */
  method GoTo(b: Bridge, key: string, tab: Option<TabId>, target: string, rules: seq<Rule>, title: Option<string>,
              ghost except: Option<TabId>)
    returns (r: Outcome, ghost at: View, ghost placed: Option<TabId>)
    requires b.Valid() && key in b.sessions && Room(b.Now(), rules, target, except)
    requires StillActive(except, b.tabs) ==> tab == except
    requires tab.None? || StillActive(tab, b.tabs) ==> b.sessions[key].active == tab
    modifies b
    ensures b.Valid() && key in b.sessions && b.nextTab == old(b.nextTab)
    ensures Later(old(b.Now()), at) && key in at.sessions && (placed.None? ==> b.Now() == at && (tab.Some? ==> tab.value !in at.tabs))
    ensures placed.Some? ==> Placing(at, key, target, rules, placed.value, b.Now(), b.nextTab)
    ensures placed.Some? && tab.Some? ==> placed == tab && at.sessions[key].active == tab
    ensures tab.None? ==> r.NoSuchTab? && (placed.Some? ==> Strayed(at, key))
    ensures r.Done? ==> placed == Some(r.tab)
    ensures r.Done? || r.NoSuchTab?
    ensures b.quiet && StillActive(tab, old(b.tabs)) ==> r.Done?
    ensures b.quiet ==> b.tabs.Keys == old(b.tabs).Keys
  {
    hide Shrunk, Steady, Room, NoStranger, TabsSound, GroupsSound, UnheardSound, RecordsSound, SessionLater, Drift;
    ghost var v := b.Now();
    b.Await();
    at, placed := b.Now(), None;
    LaterIsSteady(v, at);
    ShrinkingKeepsRoom(v, at, rules, target, except);
    RecordShrinks(v, at, key);
    ActiveGoes(v, at, key);
    var y := tab;
    if tab.None? && b.tabs.Keys != {} {
      var focused :| focused in b.tabs.Keys;
      y := Some(focused);
    }
    if y.None? || y.value !in b.tabs {
      return NoSuchTab, at, placed;
    }
    placed := y;
    LeavingOut(at, rules, target, except, y.value);
    b.SetHost(y.value, target);
    if tab.None? {
      return NoSuchTab, at, placed;
    }
    r := WaitAndTitle(b, key, tab.value, title);
  }

  /** Waits for the page and titles the session's group, if asked to. */
  method WaitAndTitle(b: Bridge, key: string, tab: TabId, title: Option<string>) returns (r: Outcome)
    requires b.Valid() && key in b.sessions
    modifies b
    ensures b.Valid() && key in b.sessions && b.nextTab == old(b.nextTab)
    ensures Drift(old(b.Now()), b.Now(), key, b.nextTab) && TabsLater(old(b.tabs), b.tabs)
    ensures r == Done(tab) || r == NoSuchTab
    ensures b.quiet && tab in old(b.tabs) ==> r.Done?
    ensures b.quiet ==> b.tabs == old(b.tabs)
  {
    hide Shrunk, Steady, NoStranger, TabsSound, GroupsSound, UnheardSound, RecordsSound, SessionLater;
    ghost var p := b.Now();
    b.Await();
    ghost var q := b.Now();
    LaterIsDrift(p, q);
    RecordShrinks(p, q, key);
    if tab !in b.tabs {
      return NoSuchTab;
    }
    if title.Some? {
      b.SetGroupTitle(key, title.value);
      DriftTwice(p, q, b.Now(), key, b.nextTab);
    }
    r := Done(tab);
  }

  /** A tab left out of a check matters only while it lives. */
  lemma LeavingOut(v: View, rules: seq<Rule>, target: string, except: Option<TabId>, y: TabId)
    requires Room(v, rules, target, except)
    ensures !StillActive(except, v.tabs) ==> Room(v, rules, target, None)
    ensures !StillActive(except, v.tabs) || except == Some(y) ==> Room(v, rules, target, Some(y))
  {
    hide Managed;
    forall r | Applies(rules, Some(target), r)
      ensures !StillActive(except, v.tabs) ==> |CoveredTabs(v, Domains.Normal(r.domain), None)| < r.max
      ensures !StillActive(except, v.tabs) || except == Some(y) ==> |CoveredTabs(v, Domains.Normal(r.domain), Some(y))| < r.max
    {
      var d := Domains.Normal(r.domain);
      if !StillActive(except, v.tabs) {
        assert CoveredTabs(v, d, None) == CoveredTabs(v, d, except);
        SubsetSize(CoveredTabs(v, d, Some(y)), CoveredTabs(v, d, None));
      }
    }
  }

  /** A session without an active tab stays so, and a live active tab stays active. */
  lemma ActiveGoes(v: View, w: View, key: string)
    requires Later(v, w) && key in v.sessions
    ensures key in w.sessions && (v.sessions[key].active.None? ==> w.sessions[key].active.None?)
    ensures StillActive(v.sessions[key].active, w.tabs) ==> w.sessions[key].active == v.sessions[key].active
    ensures forall tab :: StillActive(tab, w.tabs) ==> StillActive(tab, v.tabs)
  {
    assert SessionLater(v.sessions[key], w.sessions[key], v.tabs, w.tabs);
  }

  lemma PlacingLess(at: View, key: string, target: string, rules: seq<Rule>, y: TabId, b: View, m: nat, n: nat)
    requires Placing(at, key, target, rules, y, b, m) && n <= m
    ensures Placing(at, key, target, rules, y, b, n)
  {
    hide Room, Shrunk, NoStranger, Firm, AllKept, NoNewStrangers;
  }

  lemma OnlyNewTab(a: View, v: View, n: nat, nextTab: nat, groups: seq<Group>)
    requires Steady(a, v, n) && TabsSound(v.tabs, groups, nextTab) && nextTab <= n + 1
    ensures HostsKeptBut(a, v, Some(n))
    ensures nextTab == n ==> forall y :: HostsKeptBut(a, v, y)
  {}

  lemma OrderlyKeeps(a: View, b: View, key: string)
    requires Orderly(a, b)
    ensures NoStranger(a, key) ==> NoStranger(b, key)
    ensures AllKept(a.sessions) ==> AllKept(b.sessions)
  {}

  lemma PlacingIsOrderly(v: View, y: TabId, host: string)
    requires y in v.tabs
    ensures Orderly(v, Placed(v, y, host))
  {}

  /** The active tab of a record in order is in the record. */
  lemma ActiveIsFirm(v: View, key: string, y: TabId)
    requires AllKept(v.sessions) && key in v.sessions && v.sessions[key].active == Some(y)
    ensures Firm(v, y)
  {
    assert y in v.sessions[key].tabIds;
  }

  // ---------------------------------------------------------------- finding

  /** What the locked part of finding a tab does from `a` to `b`: tabs close, and then, in state `at`, the tab is
      bound if there is room for the host `seen`. */
  ghost predicate Finds(a: View, key: string, chosen: TabId, seen: string, rules: seq<Rule>, r: Outcome, at: View, b: View) {
    && Later(a, at) && GroupsListed(at)
    && match r
       case Done(t) => t == chosen && Room(at, rules, seen, Some(chosen)) && b == Bound(at, key, chosen)
       case Refused => !Room(a, rules, seen, Some(chosen)) && b == at
       case _ => false
  }

  /** Binds a tab found by its host as of an earlier query, `seen`. The check is made for that host; whether
      binding overruns a rule depends on the host the tab has by then. */
  method FindTab(b: Bridge, key: string, chosen: TabId, seen: string, rules: seq<Rule>)
    returns (r: Outcome, ghost at: View)
    requires b.Valid() && chosen < b.nextTab
    modifies b
    ensures b.Valid() && b.nextTab == old(b.nextTab)
    ensures Finds(old(b.Now()), key, chosen, seen, rules, r, at, b.Now())
    ensures b.quiet ==> at == old(b.Now())
    ensures Orderly(old(b.Now()), b.Now()) && TabsLater(old(b.tabs), b.tabs)
    ensures forall lost :: Carried(old(b.Now()), b.Now(), b.nextTab, lost)
    ensures NoOverrun(old(b.Now()), at, rules)
    ensures r.Done? && NoStranger(old(b.Now()), key) ==>
              (NoOverrun(at, b.Now(), rules) <==> BindFits(at, rules, chosen))
  {
    hide Shrunk, Steady, NoOverrun, Room, NoStranger, TabsSound, GroupsSound, UnheardSound, RecordsSound, SessionsLater, Managed,
      Carried, Orderly, BindFits;
    ghost var a := b.Now();
    b.Await();
    ghost var v := b.Now();
    var ok := b.EnsureDomainTabLimits(rules, seen, Some(chosen));
    at := b.Now();
    AllListed(at, b.nextTab);
    LaterTwice(a, v, at);
    LaterIsSteady(a, v);
    LaterIsSteady(a, at);
    ShrinkingOverrunsNothing(a, at, rules);
    SteadyCarries(a, at, b.nextTab);
    if !ok {
      NoRoomBefore(a, v, rules, seen, Some(chosen));
      return Refused, at;
    }
    b.BindTab(key, chosen);
    BindingIsSteady(at, key, chosen);
    SteadyTwice(a, at, b.Now(), b.nextTab);
    SteadyCarries(a, b.Now(), b.nextTab);
    OrderlyKeeps(a, at, key);
    if NoStranger(a, key) {
      BindingOverrunsIff(at, key, rules, chosen);
    }
    r := Done(chosen);
  }

  /** When a find is in order: the tab still has the host it was found by, or is bonded to a session, or is
      gone. Then binding it fits. */
  lemma SeenStillFits(a: View, v: View, rules: seq<Rule>, chosen: TabId, seen: string)
    requires Later(a, v) && GroupsListed(v) && Room(v, rules, seen, Some(chosen))
    requires chosen in a.tabs ==> a.tabs[chosen].host == seen || Firm(a, chosen)
    ensures BindFits(v, rules, chosen)
  {
    LaterIsSteady(a, v);
    if chosen in v.tabs && chosen !in Managed(v) {
      if Firm(a, chosen) {
        assert Steady(a, v, chosen + 1);
        FirmIsManaged(v, chosen);
      }
      hide Room, Managed, Firm, Steady, Shrunk;
      RoomIsPlace(v, rules, chosen);
    }
  }

  // ---------------------------------------------------------------- activating

  /** What activating a tab does from `a` to `b`: tabs close and a record may come into being, and then, in state
      `at`, the given or the active tab is bound if there is room for its host. */
  ghost predicate Activates(a: View, key: string, id: Option<TabId>, rules: seq<Rule>, r: Outcome, at: View, b: View, n: nat) {
    && Drift(a, at, key, n) && TabsLater(a.tabs, at.tabs) && GroupsListed(at)
    && (!r.Done? ==> b == at)
    && var tab := if id.Some? then id else SessionOf(a.sessions, key).active;
       match r
       case Done(t) => tab == Some(t) && t in at.tabs && Room(at, rules, at.tabs[t].host, tab) && b == Bound(at, key, t)
       case Refused => NoStranger(a, key) ==> StillActive(tab, a.tabs) && !Room(a, rules, a.tabs[tab.value].host, tab)
       case NoSuchTab => tab.Some? && tab.value !in at.tabs
       case NoActiveTab => tab.None?
       case NotClosed => false
  }

  lemma ActivatingKeeps(a: View, key: string, id: Option<TabId>, rules: seq<Rule>, r: Outcome, at: View, b: View, n: nat)
    requires Activates(a, key, id, rules, r, at, b, n)
    ensures Orderly(a, b) && (forall lost :: Carried(a, b, n, lost)) && TabsLater(a.tabs, b.tabs)
    ensures r.Done? ==> BindFits(at, rules, r.tab)
    ensures NoStranger(a, key) ==> NoOverrun(a, at, rules) && NoOverrun(a, b, rules)
  {
    hide NoOverrun, Orderly, Carried, NoStranger, Steady, Shrunk, Room, BindFits, Managed;
    DriftKeeps(a, at, key, n, rules);
    if r.Done? {
      var t := r.tab;
      LaterNow(at);
      SeenStillFits(at, at, rules, t, at.tabs[t].host);
      BindingIsSteady(at, key, t);
      SteadyTwice(a, at, b, n);
      SteadyCarries(a, b, n);
      if NoStranger(a, key) {
        BindingOverrunsIff(at, key, rules, t);
        NoOverrunTwice(a, at, b, rules);
      }
    }
  }

  lemma OpeningIsDrift(a: View, key: string)
    ensures forall n :: Drift(a, Opened(a, key), key, n)
  {
    OpeningIsSteady(a, key);
    if NoStranger(a, key) {
      OpeningManagesNothing(a, key);
    }
    hide Steady, NoStranger, Shrunk;
  }

  lemma NothingActive(a: View, key: string, rules: seq<Rule>, n: nat)
    requires SessionOf(a.sessions, key).active.None? && GroupsListed(a)
    ensures Activates(a, key, None, rules, NoActiveTab, Opened(a, key), Opened(a, key), n)
  {
    OpeningIsDrift(a, key);
    hide Drift;
  }

  /** Without an id the session's record is looked up first, and made if need be. */
  lemma ActivatesActive(a: View, key: string, t: TabId, rules: seq<Rule>, r: Outcome, at: View, b: View, n: nat)
    requires SessionOf(a.sessions, key).active == Some(t) && Activates(Opened(a, key), key, Some(t), rules, r, at, b, n)
    ensures Activates(a, key, None, rules, r, at, b, n)
  {
    var v := Opened(a, key);
    hide Steady, Shrunk, Room, GroupsListed, NoStranger, SessionOf;
    OpeningIsDrift(a, key);
    DriftTwice(a, v, at, key, n);
    DriftKeeps(a, v, key, n, rules);
    if r.Refused? && NoStranger(a, key) {
      assert Drift(a, v, key, n);
      NoRoomBefore(a, v, rules, a.tabs[t].host, Some(t));
    }
  }

  /** Brings a tab to the front and binds it; without an id, the session's active one. */
  method ActivateTab(b: Bridge, key: string, tabId: Option<TabId>, rules: seq<Rule>) returns (r: Outcome, ghost at: View)
    requires b.Valid()
    modifies b
    ensures b.Valid() && b.nextTab == old(b.nextTab)
    ensures Activates(old(b.Now()), key, tabId, rules, r, at, b.Now(), b.nextTab)
    ensures b.quiet ==> b.tabs == at.tabs == old(b.tabs)
    ensures Orderly(old(b.Now()), b.Now()) && TabsLater(old(b.tabs), b.tabs)
    ensures forall lost :: Carried(old(b.Now()), b.Now(), b.nextTab, lost)
    ensures NoStranger(old(b.Now()), key) ==> NoOverrun(old(b.Now()), b.Now(), rules)
    ensures r.Done? ==> key in b.sessions && b.sessions[key].active == Some(r.tab) && r.tab in b.sessions[key].tabIds
  {
    hide Shrunk, Steady, NoOverrun, Room, NoStranger, GroupsSound, UnheardSound, RecordsSound, Managed, Orderly, Carried, Later,
      Activates, TabsSound;
    ghost var a := b.Now();
    AllListed(a, b.nextTab);
    if tabId.Some? {
      r, at := ActivateGiven(b, key, tabId.value, rules);
    } else {
      b.GetSession(key);
      assert b.Now() == Opened(a, key);
      if b.sessions[key].active.None? {
        NothingActive(a, key, rules, b.nextTab);
        r, at := NoActiveTab, b.Now();
      } else {
        var t := b.sessions[key].active.value;
        r, at := ActivateGiven(b, key, t, rules);
        ActivatesActive(a, key, t, rules, r, at, b.Now(), b.nextTab);
      }
    }
    ActivatingKeeps(a, key, tabId, rules, r, at, b.Now(), b.nextTab);
  }

  method ActivateGiven(b: Bridge, key: string, t: TabId, rules: seq<Rule>) returns (r: Outcome, ghost at: View)
    requires b.Valid()
    modifies b
    ensures b.Valid() && b.nextTab == old(b.nextTab)
    ensures Activates(old(b.Now()), key, Some(t), rules, r, at, b.Now(), b.nextTab)
    ensures b.quiet ==> b.tabs == at.tabs == old(b.tabs)
    ensures r.Done? ==> key in b.sessions && b.sessions[key].active == Some(r.tab) && r.tab in b.sessions[key].tabIds
  {
    hide Shrunk, Steady, NoOverrun, Room, NoStranger, GroupsSound, UnheardSound, RecordsSound, SessionsLater, Managed, Drift, TabsSound;
    ghost var a := b.Now();
    b.Await();
    ghost var v := b.Now();
    at := v;
    AllListed(v, b.nextTab);
    LaterIsDrift(a, v);
    if t !in b.tabs {
      return NoSuchTab, at;
    }
    var seen := b.tabs[t].host;
    LiveIsOld(v, t, b.nextTab);
    var ok := b.EnsureDomainTabLimits(rules, seen, Some(t));
    ghost var w := b.Now();
    LaterTwice(a, v, w);
    if !ok {
      at := w;
      AllListed(w, b.nextTab);
      LaterIsDrift(a, w);
      LaterIsSteady(a, v);
      NoRoomBefore(a, v, rules, seen, Some(t));
      return Refused, at;
    }
    b.Await();
    at := b.Now();
    AllListed(at, b.nextTab);
    LaterTwice(a, w, at);
    LaterIsDrift(a, at);
    if t !in b.tabs {
      return NoSuchTab, at;
    }
    LaterIsSteady(w, at);
    ShrinkingKeepsRoom(w, at, rules, seen, Some(t));
    b.BindTab(key, t);
    r := Done(t);
  }

  // ---------------------------------------------------------------- closing and listing

  method CloseTab(b: Bridge, key: string, rules: seq<Rule>) returns (closed: bool)
    requires b.Valid()
    modifies b
    ensures b.Valid() && b.nextTab == old(b.nextTab)
    ensures Orderly(old(b.Now()), b.Now()) && TabsLater(old(b.tabs), b.tabs)
    ensures forall lost :: Carried(old(b.Now()), b.Now(), b.nextTab, lost)
    ensures NoStranger(old(b.Now()), key) ==> NoOverrun(old(b.Now()), b.Now(), rules)
    ensures Later(Opened(old(b.Now()), key), b.Now()) && Drift(old(b.Now()), b.Now(), key, b.nextTab)
    ensures closed <==> SessionOf(old(b.sessions), key).active.Some? && SessionOf(old(b.sessions), key).active.value !in b.tabs
    ensures b.obliging ==> (closed <==> SessionOf(old(b.sessions), key).active.Some?)
    ensures b.quiet ==> forall t :: t in old(b.tabs) && t !in b.tabs ==> SessionOf(old(b.sessions), key).active == Some(t)
  {
    hide Drift, NoOverrun, NoStranger, SessionsLater, TabsSound, GroupsSound, UnheardSound, RecordsSound, Orderly, Carried;
    ghost var a := b.Now();
    closed := b.CloseActiveTab(key);
    OpeningIsDrift(a, key);
    LaterIsDrift(Opened(a, key), b.Now());
    DriftTwice(a, Opened(a, key), b.Now(), key, b.nextTab);
    DriftKeeps(a, b.Now(), key, b.nextTab, rules);
  }

  /** A group by its id, or else the session. */
  method CloseSession(b: Bridge, key: string, groupId: Option<GroupId>, rules: seq<Rule>)
    requires b.Valid()
    modifies b
    ensures b.Valid() && b.nextTab == old(b.nextTab)
    ensures Orderly(old(b.Now()), b.Now()) && TabsLater(old(b.tabs), b.tabs)
    ensures forall lost :: Carried(old(b.Now()), b.Now(), b.nextTab, lost)
    ensures NoStranger(old(b.Now()), key) ==> NoOverrun(old(b.Now()), b.Now(), rules)
    ensures Drift(old(b.Now()), b.Now(), key, b.nextTab)
    ensures groupId.None? ==> Ended(old(b.Now()), b.Now(), key)
    ensures groupId.Some? && HasTab(b.tabs, groupId.value) ==> b.owned == old(b.owned)
    ensures b.obliging ==> if groupId.None? then key !in b.sessions
                           else !HasTab(b.tabs, groupId.value) && b.owned == old(b.owned) - {groupId.value}
    ensures b.quiet ==> forall t :: t in old(b.tabs) && t !in b.tabs ==>
              if groupId.None? then Concerns(old(b.Now()), key, t) else old(b.tabs)[t].group == groupId
  {
    hide Steady, NoOverrun, NoStranger, TabsSound, GroupsSound, UnheardSound, RecordsSound, Shrunk, Orderly, Carried, NoNewStrangers,
      SessionLater, Kept, Belongs;
    ghost var a := b.Now();
    if groupId.Some? {
      b.CloseGroup(groupId.value);
    } else {
      ghost var atCheck := b.CloseSession(key);
    }
    DriftKeeps(a, b.Now(), key, b.nextTab, rules);
  }

  /** Lists the session's tabs, which begins with reconciling. */
  method ListTabs(b: Bridge, key: string, rules: seq<Rule>) returns (tabIds: seq<TabId>)
    requires b.Valid()
    modifies b
    ensures b.Valid() && b.nextTab == old(b.nextTab)
    ensures Orderly(old(b.Now()), b.Now()) && TabsLater(old(b.tabs), b.tabs)
    ensures forall lost :: Carried(old(b.Now()), b.Now(), b.nextTab, lost)
    ensures NoStranger(old(b.Now()), key) ==> NoOverrun(old(b.Now()), b.Now(), rules)
    ensures Drift(old(b.Now()), b.Now(), key, b.nextTab)
    ensures b.quiet ==> Reconciled(old(b.Now()), b.Now(), key)
    ensures Covers(b.Now(), key) && tabIds == b.sessions[key].tabIds
  {
    hide Steady, NoOverrun, NoStranger, TabsSound, GroupsSound, UnheardSound, RecordsSound, Shrunk, Orderly, Carried, ReconciledLater,
      Covers, Reconciled;
    ghost var a := b.Now();
    ghost var mine := b.Reconcile(key);
    ReconcilingCovers(a, b.Now(), key, mine);
    ReconciledFrame(a, b.Now(), key, mine);
    ReconcilingIsSteady(a, b.Now(), key, mine);
    ReconciledHasRecord(a, b.Now(), key, mine);
    if NoStranger(a, key) {
      ReconcilingManagesNoMore(a, b.Now(), key, mine);
    }
    DriftKeeps(a, b.Now(), key, b.nextTab, rules);
    tabIds := b.sessions[key].tabIds;
  }
}
