/** The session bookkeeping itself: one object holding the browser's state and the in-memory records, with
    the operations in the steps the source takes. At every await the user may close tabs and pending
    removal events may be handled, unless the browser is `quiet`. */
module SessionBridge {
  import opened Prelude
  import Domains
  import opened TabLimits
  import opened Sessions

  ghost predicate TabsSound(tabs: map<TabId, Tab>, groups: seq<Group>, nextTab: nat) {
    forall t :: t in tabs ==> t < nextTab && (tabs[t].group.Some? ==> Listed(groups, tabs[t].group.value))
  }

  ghost predicate GroupsSound(groups: seq<Group>, tabs: map<TabId, Tab>, nextGroup: nat) {
    DistinctIds(groups) && forall g :: g in groups ==> g.id < nextGroup && HasTab(tabs, g.id)
  }

  ghost predicate UnheardSound(unheard: set<TabId>, tabs: map<TabId, Tab>, nextTab: nat) {
    forall t :: t in unheard ==> t < nextTab && t !in tabs
  }

  ghost predicate RecordsSound(sessions: map<string, Session>, nextTab: nat) {
    forall k, t :: k in sessions && t in sessions[k].tabIds ==> t < nextTab
  }

  lemma {:induction false} OccupiedDistinct(groups: seq<Group>, tabs: map<TabId, Tab>)
    requires DistinctIds(groups)
    ensures DistinctIds(Occupied(groups, tabs))
    decreases |groups|
  {
    if groups != [] {
      var n := |groups| - 1;
      OccupiedDistinct(groups[..n], tabs);
      var rest := Occupied(groups[..n], tabs);
      forall k | 0 <= k < |rest| ensures rest[k].id != groups[n].id {
        assert rest[k] in groups[..n];
      }
    }
  }

  /** Closing a tab leaves tabs and groups in agreement. */
  lemma ClosingIsSound(groups: seq<Group>, tabs: map<TabId, Tab>, nextTab: nat, nextGroup: nat, id: TabId)
    requires TabsSound(tabs, groups, nextTab) && GroupsSound(groups, tabs, nextGroup)
    ensures var rest := tabs - {id}; var left := Occupied(groups, rest);
            TabsSound(rest, left, nextTab) && GroupsSound(left, rest, nextGroup)
  {
    var rest := tabs - {id};
    var left := Occupied(groups, rest);
    OccupiedDistinct(groups, rest);
    forall t | t in rest && rest[t].group.Some? ensures Listed(left, rest[t].group.value) {
      var k :| 0 <= k < |groups| && groups[k].id == tabs[t].group.value;
      assert groups[k] in left by {
        assert rest[t].group == Some(groups[k].id);
      }
      var j :| 0 <= j < |left| && left[j] == groups[k];
    }
  }

  function HeardByAll(sessions: map<string, Session>, id: TabId): map<string, Session> {
    map k | k in sessions :: Heard(sessions[k], id)
  }

  method HearAll(sessions: map<string, Session>, id: TabId) returns (r: map<string, Session>)
    ensures r == HeardByAll(sessions, id)
  {
    hide Heard;
    r := sessions;
    var todo := sessions.Keys;
    while todo != {}
      invariant todo <= sessions.Keys == r.Keys
      invariant forall k :: k in todo ==> r[k] == sessions[k]
      invariant forall k :: k in sessions && k !in todo ==> r[k] == Heard(sessions[k], id)
      decreases |todo|
    {
      var k :| k in todo;
      r := r[k := Heard(r[k], id)];
      todo := todo - {k};
    }
  }

  lemma HearingIsSound(v: View, id: TabId, nextTab: nat)
    requires id !in v.tabs && RecordsSound(v.sessions, nextTab)
    ensures Later(v, v.(sessions := HeardByAll(v.sessions, id)))
    ensures RecordsSound(HeardByAll(v.sessions, id), nextTab)
  {
    var after := HeardByAll(v.sessions, id);
    forall k | k in v.sessions ensures SessionLater(v.sessions[k], after[k], v.tabs, v.tabs) {
      HeardIsLater(v.sessions[k], id, v.tabs, v.tabs);
    }
    hide Heard, ActiveIn, NoneOnlyIfEmpty, LiveActiveIn;
    forall k, t | k in after && t in after[k].tabIds ensures t < nextTab {
      assert SessionLater(v.sessions[k], after[k], v.tabs, v.tabs);
      assert t in v.sessions[k].tabIds;
    }
  }

  function Closed(v: View, id: TabId): View {
    v.(tabs := v.tabs - {id}, groups := Occupied(v.groups, v.tabs - {id}))
  }

  class Bridge {
    var tabs: map<TabId, Tab>
    var groups: seq<Group>
    var owned: map<GroupId, string>
    var sessions: map<string, Session>
    var unheard: set<TabId>
    var nextTab: nat
    var nextGroup: nat
    /** Nothing happens while operations wait. */
    const quiet: bool
    /** The browser closes every tab it is asked to close. */
    const obliging: bool

    /** A worker that starts knows nothing but what the browser and the storage tell it. */
    constructor (tabs: map<TabId, Tab>, groups: seq<Group>, owned: map<GroupId, string>, nextTab: nat, nextGroup: nat,
                 quiet: bool, obliging: bool)
      requires TabsSound(tabs, groups, nextTab) && GroupsSound(groups, tabs, nextGroup)
      ensures Valid() && Now() == View(tabs, groups, owned, map[]) && AllKept(sessions) && this.quiet == quiet && this.obliging == obliging
    {
      this.tabs, this.groups, this.owned, this.sessions := tabs, groups, owned, map[];
      this.unheard, this.nextTab, this.nextGroup, this.quiet, this.obliging := {}, nextTab, nextGroup, quiet, obliging;
    }

    ghost function Now(): View
      reads this
    {
      View(tabs, groups, owned, sessions)
    }

    ghost predicate Quiet(v: View)
      reads this
    {
      quiet ==> Now() == v
    }

    ghost predicate Valid()
      reads this
    {
      && TabsSound(tabs, groups, nextTab) && GroupsSound(groups, tabs, nextGroup)
      && UnheardSound(unheard, tabs, nextTab) && RecordsSound(sessions, nextTab)
    }

    // -------------------------------------------------------------- the browser's side

    method CloseTab(id: TabId)
      requires Valid() && id in tabs
      modifies this`tabs, this`groups, this`unheard
      ensures Valid() && Later(old(Now()), Now())
      ensures Now() == Closed(old(Now()), id) && unheard == old(unheard) + {id}
    {
      ClosingIsSound(groups, tabs, nextTab, nextGroup, id);
      tabs := tabs - {id};
      groups := Occupied(groups, tabs);
      unheard := unheard + {id};
    }

    /** The removal event: every record forgets the tab, and one whose active tab it was moves on. */
    method HandleTabRemoved(id: TabId)
      requires Valid() && id in unheard
      modifies this`sessions, this`unheard
      ensures Valid() && Later(old(Now()), Now())
      ensures unheard == old(unheard) - {id}
      ensures sessions == HeardByAll(old(sessions), id)
    {
      HearingIsSound(Now(), id, nextTab);
      sessions := HearAll(sessions, id);
      unheard := unheard - {id};
    }

    /** Whatever happens while an operation waits. */
    method Await()
      requires Valid()
      modifies this
      ensures Valid() && Later(old(Now()), Now())
      ensures nextTab == old(nextTab) && nextGroup == old(nextGroup)
      ensures quiet ==> Now() == old(Now()) && unheard == old(unheard)
    {
      if quiet {
        LaterNow(Now());
        return;
      }
      var count: nat := *;
      while count > 0
        invariant Valid() && Later(old(Now()), Now())
        invariant nextTab == old(nextTab) && nextGroup == old(nextGroup)
      {
        ghost var before := Now();
        var id: TabId := *;
        if id in tabs {
          CloseTab(id);
        } else if id in unheard {
          HandleTabRemoved(id);
        }
        assert Later(before, Now());
        LaterTwice(old(Now()), before, Now());
        count := count - 1;
      }
    }

    // -------------------------------------------------------------- single steps

    method TabExists(id: Option<TabId>) returns (exists_: bool)
      requires Valid()
      modifies this
      ensures Valid() && Later(old(Now()), Now()) && nextTab == old(nextTab) && nextGroup == old(nextGroup)
      ensures quiet ==> Now() == old(Now())
      ensures exists_ <==> id.Some? && id.value in tabs
    {
      Await();
      exists_ := id.Some? && id.value in tabs;
    }

    /** Closes the tab, unless the browser refuses while it exists. */
    method RemoveManagedTab(id: TabId) returns (gone: bool)
      requires Valid()
      modifies this
      ensures Valid() && Later(old(Now()), Now()) && nextTab == old(nextTab) && nextGroup == old(nextGroup)
      ensures (gone <==> id !in tabs) && (obliging ==> gone)
      ensures quiet ==> Now() == old(Now()) || (id in old(tabs) && Now() == Closed(old(Now()), id))
    {
      Await();
      ghost var then_ := Now();
      var accepted: bool := *;
      if id in tabs && (obliging || accepted) {
        CloseTab(id);
      }
      ghost var closed := Now();
      LaterTwice(old(Now()), then_, closed);
      Await();
      LaterTwice(old(Now()), closed, Now());
      gone := id !in tabs;
    }

    method GetSession(key: string)
      requires Valid()
      modifies this`sessions
      ensures Valid() && sessions == old(sessions)[key := SessionOf(old(sessions), key)]
    {
      if key !in sessions {
        sessions := sessions[key := FRESH];
      }
    }

    method RememberOwnedGroup(key: string, g: GroupId)
      requires Valid()
      modifies this
      ensures Valid() && nextTab == old(nextTab) && nextGroup == old(nextGroup)
      ensures Later(old(Now()).(owned := old(owned)[g := key]), Now())
      ensures quiet ==> Now() == old(Now()).(owned := old(owned)[g := key])
    {
      Await();
      ghost var mid := Now();
      owned := owned[g := key];
      ghost var set_ := Now();
      Await();
      assert SessionsLater(old(Now()).(owned := old(owned)[g := key]), set_) by {
        assert SessionsLater(old(Now()), mid);
      }
      LaterTwice(old(Now()).(owned := old(owned)[g := key]), set_, Now());
    }

    /** The reply to a query for a group's tabs, in some order. */
    method TabsOf(g: GroupId) returns (ids: seq<TabId>)
      ensures forall t :: t in ids <==> t in tabs && tabs[t].group == Some(g)
    {
      ids := [];
      var todo := set t | t in tabs && tabs[t].group == Some(g);
      ghost var all := todo;
      while todo != {}
        invariant todo <= all
        invariant forall t :: t in ids <==> t in all && t !in todo
        decreases |todo|
      {
        var t :| t in todo;
        ids, todo := ids + [t], todo - {t};
      }
    }

    // -------------------------------------------------------------- operations

    /** Owns the session's groups and takes their tabs into its record, group by group. */
    method AdoptGroups(key: string, mine: seq<Group>, ghost start: View)
      requires Valid() && Partway(start, Now(), key, mine, 0, 0)
      modifies this
      ensures Valid() && nextTab == old(nextTab) && nextGroup == old(nextGroup)
      ensures Partway(start, Now(), key, mine, |mine|, |mine|)
      ensures forall g :: g in groups ==> g in old(groups)
      ensures quiet && PartwayExactly(start, old(Now()), key, mine, 0, 0) ==>
                PartwayExactly(start, Now(), key, mine, |mine|, |mine|)
    {
      hide Partway, PartwayExactly, SessionsLater, TabsSound, GroupsSound, UnheardSound, DistinctIds;
      var i := 0;
      while i < |mine|
        invariant i <= |mine|
        invariant Valid() && nextTab == old(nextTab) && nextGroup == old(nextGroup)
        invariant forall g :: g in groups ==> g in old(groups)
        invariant Partway(start, Now(), key, mine, i, i)
        invariant quiet && PartwayExactly(start, old(Now()), key, mine, 0, 0) ==>
                    PartwayExactly(start, Now(), key, mine, i, i)
      {
        AdoptGroup(key, mine, i, start);
        i := i + 1;
      }
    }

    method AdoptGroup(key: string, mine: seq<Group>, i: nat, ghost start: View)
      requires Valid() && i < |mine| && Partway(start, Now(), key, mine, i, i)
      modifies this
      ensures Valid() && nextTab == old(nextTab) && nextGroup == old(nextGroup)
      ensures forall g :: g in groups ==> g in old(groups)
      ensures Partway(start, Now(), key, mine, i + 1, i + 1)
      ensures quiet && PartwayExactly(start, old(Now()), key, mine, i, i) ==>
                PartwayExactly(start, Now(), key, mine, i + 1, i + 1)
    {
      hide Partway, PartwayExactly, OwnedBy, SessionsLater, TabsSound, GroupsSound, UnheardSound, RecordsSound;
      ghost var v0 := Now();
      PartwayOwns(start, v0, key, mine, i);
      ghost var exactly := PartwayExactly(start, v0, key, mine, i, i);
      if exactly {
        ExactlyOwns(start, v0, key, mine, i);
      }
      ghost var v1 := v0.(owned := v0.owned[mine[i].id := key]);
      RememberOwnedGroup(key, mine[i].id);
      ghost var v2 := Now();
      PartwayLater(start, v1, v2, key, mine, i, i + 1);
      Await();
      ghost var v3 := Now();
      PartwayLater(start, v2, v3, key, mine, i, i + 1);
      PartwayHasRecord(start, v3, key, mine, i, i + 1);
      TakeIn(key, mine[i].id);
      assert Now() == v3.(sessions := v3.sessions[key := sessions[key]]);
      PartwayGains(start, v3, key, mine, i, sessions[key]);
      if quiet && exactly {
        ExactlyGains(start, v3, key, mine, i, sessions[key]);
      }
    }

    method TakeIn(key: string, g: GroupId)
      requires Valid() && key in sessions
      modifies this`sessions
      ensures Valid() && key in sessions && sessions == old(sessions)[key := sessions[key]]
      ensures var r, q := old(sessions)[key], sessions[key];
              && q.active == r.active && q.groupId == r.groupId && r.tabIds <= q.tabIds
              && (forall t :: t in q.tabIds <==> t in r.tabIds || (t in tabs && tabs[t].group == Some(g)))
              && ((forall t :: t in tabs && tabs[t].group == Some(g) ==> t in r.tabIds) ==> q.tabIds == r.tabIds)
    {
      var ids := TabsOf(g);
      var tabIds := AddAll(sessions[key].tabIds, ids);
      sessions := sessions[key := sessions[key].(tabIds := tabIds)];
    }

    /** The session's groups, as the browser lists them and ownership is stored. */
    method FindGroups(key: string) returns (matching: seq<Group>)
      requires Valid()
      modifies this
      ensures Valid() && nextTab == old(nextTab) && nextGroup == old(nextGroup)
      ensures Later(Opened(old(Now()), key), Now()) && matching == Mine(groups, owned, key)
      ensures quiet ==> Now() == Opened(old(Now()), key)
    {
      hide SessionsLater, TabsSound, GroupsSound, UnheardSound, RecordsSound, Mine;
      GetSession(key);
      Await();
      ghost var v1 := Now();
      var ownedGroups := owned;
      Await();
      LaterTwice(Opened(old(Now()), key), v1, Now());
      matching := Mine(groups, ownedGroups, key);
    }

    /** Rebuilds the session's record from the groups that are alive in the browser. */
    method Reconcile(key: string) returns (ghost mine: seq<Group>)
      requires Valid()
      modifies this
      ensures Valid() && nextTab == old(nextTab) && nextGroup == old(nextGroup)
      ensures ReconciledLater(old(Now()), Now(), key, mine)
      ensures quiet ==> Reconciled(old(Now()), Now(), key)
    {
      hide SessionsLater, OthersLater, OwnedBy, SessionLater, Mine, TabsSound, GroupsSound, UnheardSound, RecordsSound,
        AdoptedLater, Reconciled, Untracked, OwnGroups;
      ghost var start := Now();
      var matching := FindGroups(key);
      mine := matching;
      ghost var v2 := Now();
      MineIsOwn(start, v2, key);
      if matching == [] {
        OpenedHasRecord(start, v2, key);
        StopTracking(key);
        NothingToAdopt(start, v2, key, sessions[key]);
        if v2 == Opened(start, key) {
          ReconciledNothing(start, Now(), key);
        }
      } else {
        Adopt(key, matching, start);
        FewerStillOwn(start, v2.groups, groups, key, matching);
      }
    }

    method Adopt(key: string, matching: seq<Group>, ghost start: View)
      requires Valid() && Later(Opened(start, key), Now()) && matching == Mine(groups, owned, key) != []
      modifies this
      ensures Valid() && nextTab == old(nextTab) && nextGroup == old(nextGroup)
      ensures forall g :: g in groups ==> g in old(groups)
      ensures AdoptedLater(start, Now(), key, matching)
      ensures quiet && old(Now()) == Opened(start, key) ==> Reconciled(start, Now(), key)
    {
      ghost var v2 := Now();
      OpenedHasRecord(start, v2, key);
      SetRecord(key, sessions[key].(groupId := Some(matching[0].id)));
      hide Partway, PartwayExactly, AdoptedLater, Reconciled, SessionsLater, OthersLater, OwnedBy, SessionLater, Mine,
        TabsSound, GroupsSound, UnheardSound, RecordsSound;
      PartwayStart(start, v2, key, matching, sessions[key]);
      if v2 == Opened(start, key) {
        ExactlyStart(start, key, matching);
      }
      AdoptGroups(key, matching, start);
      PartwayHasRecord(start, Now(), key, matching, |matching|, |matching|);
      PickActive(key, matching, start);
    }

    /** Drops a group the browser no longer has. */
    method StopTracking(key: string)
      requires Valid() && key in sessions
      modifies this`sessions
      ensures Valid() && Now() == old(Now()).(sessions := old(sessions)[key := Untracked(old(sessions)[key], groups)])
    {
      SetRecord(key, Untracked(sessions[key], groups));
    }

    method SetRecord(key: string, q: Session)
      requires Valid() && key in sessions && forall t :: t in q.tabIds ==> t < nextTab
      modifies this`sessions
      ensures Valid() && Now() == old(Now()).(sessions := old(sessions)[key := q])
    {
      sessions := sessions[key := q];
    }

    /** The end of reconciling: a record whose active tab is gone moves on to its last one. */
    method PickActive(key: string, mine: seq<Group>, ghost start: View)
      requires Valid() && key in sessions && Partway(start, Now(), key, mine, |mine|, |mine|)
      modifies this
      ensures Valid() && nextTab == old(nextTab) && nextGroup == old(nextGroup)
      ensures forall g :: g in groups ==> g in old(groups)
      ensures AdoptedLater(start, Now(), key, mine)
      ensures quiet && old(ExactlyPartway(key, mine, start)) ==> Reconciled(start, Now(), key)
    {
      hide Partway, PartwayExactly, AdoptedLater, Reconciled, TabsSound, GroupsSound, UnheardSound, Mine;
      ghost var v3 := Now();
      ghost var exactly := ExactlyPartway(key, mine, start);
      var lives := TabExists(sessions[key].active);
      ghost var v4 := Now();
      PartwayLater(start, v3, v4, key, mine, |mine|, |mine|);
      PartwayHasRecord(start, v4, key, mine, |mine|, |mine|);
      PartwayActive(start, v3, key, mine, |mine|, |mine|);
      assert SessionLater(v3.sessions[key], v4.sessions[key], v3.tabs, v4.tabs);
      var s := sessions[key];
      var active := if lives then s.active else Last(s.tabIds);
      sessions := sessions[key := s.(active := active)];
      PartwayDone(start, v4, key, mine, sessions[key]);
      assert Now() == v4.(sessions := v4.sessions[key := sessions[key]]);
      if quiet && exactly {
        ExactlyDone(start, v4, key, sessions[key]);
      }
    }

    ghost predicate ExactlyPartway(key: string, mine: seq<Group>, start: View)
      reads this
    {
      mine == Mine(start.groups, start.owned, key) && PartwayExactly(start, Now(), key, mine, |mine|, |mine|)
    }

    // -------------------------------------------------------------- caps

    /** The live tabs of one session. */
    method CollectRecord(key: string, ghost start: View, ids: set<TabId>) returns (more: set<TabId>)
      requires Valid() && Later(start, Now()) && key in sessions
      requires forall t :: t in ids ==> t in Managed(start)
      modifies this
      ensures Quiet(old(Now()))
      ensures Valid() && Later(old(Now()), Now()) && Later(start, Now()) && nextTab == old(nextTab) && nextGroup == old(nextGroup)
      ensures ids <= more && (forall t :: t in more ==> t in Managed(start))
      ensures key in sessions && forall t :: t in sessions[key].tabIds && t in tabs ==> t in more
    {
      hide SessionsLater, TabsSound, GroupsSound, UnheardSound, RecordsSound, Managed;
      more := ids;
      var tabIds := sessions[key].tabIds;
      ghost var first := Now();
      LaterNow(first);
      var k := 0;
      while k < |tabIds|
        invariant k <= |tabIds| && nextTab == old(nextTab) && nextGroup == old(nextGroup) && Quiet(old(Now()))
        invariant Valid() && Later(first, Now()) && Later(start, Now())
        invariant ids <= more && forall t :: t in more ==> t in Managed(start)
        invariant forall t :: t in tabIds[..k] && t in tabs ==> t in more
      {
        ghost var before := Now();
        var lives := TabExists(Some(tabIds[k]));
        LaterTwice(first, before, Now());
        LaterTwice(start, before, Now());
        if lives {
          RecordedIsManaged(start, first, Now(), key, tabIds[k]);
          more := more + {tabIds[k]};
        }
        assert tabIds[..k + 1] == tabIds[..k] + [tabIds[k]];
        k := k + 1;
      }
      assert tabIds[..k] == tabIds;
      RecordShrinks(first, Now(), key);
    }

    method CollectRecords(ghost start: View) returns (ids: set<TabId>)
      requires Valid() && start == Now()
      modifies this
      ensures Quiet(old(Now()))
      ensures Valid() && Later(start, Now()) && nextTab == old(nextTab) && nextGroup == old(nextGroup)
      ensures forall t :: t in ids ==> t in Managed(start)
      ensures forall t :: t in tabs && InSomeSession(Now(), t) ==> t in ids
    {
      hide TabsSound, GroupsSound, UnheardSound, RecordsSound, Managed, SessionLater;
      ids := {};
      LaterNow(start);
      var todo := sessions.Keys;
      while todo != {}
        invariant nextTab == old(nextTab) && nextGroup == old(nextGroup) && Quiet(old(Now()))
        invariant Valid() && Later(start, Now()) && todo <= sessions.Keys
        invariant forall t :: t in ids ==> t in Managed(start)
        invariant forall k, t :: k in sessions && k !in todo && t in sessions[k].tabIds && t in tabs ==> t in ids
        decreases |todo|
      {
        var k :| k in todo;
        ghost var before := Now();
        ids := CollectRecord(k, start, ids);
        forall j, t | j in sessions && j !in todo && t in sessions[j].tabIds && t in tabs ensures t in ids {
          RecordShrinks(before, Now(), j);
        }
        todo := todo - {k};
      }
    }

    /** The tabs of the groups that are owned, tracked, or titled like a session. */
    method CollectGroups(ghost start: View, ids: set<TabId>) returns (more: set<TabId>)
      requires Valid() && Later(start, Now())
      requires forall t :: t in ids ==> t in Managed(start)
      modifies this
      ensures Quiet(old(Now()))
      ensures Valid() && Later(start, Now()) && Later(old(Now()), Now()) && nextTab == old(nextTab) && nextGroup == old(nextGroup)
      ensures ids <= more && forall t :: t in more ==> t in Managed(start)
      ensures forall t, g :: t in tabs && g in groups && tabs[t].group == Some(g.id) && Tracks(owned, sessions, g) ==> t in more
    {
      hide TabsSound, GroupsSound, UnheardSound, RecordsSound, Managed, SessionsLater, Tracks;
      ghost var first := Now();
      more := ids;
      Await();
      LaterTwice(start, first, Now());
      var all := groups;
      var i := 0;
      while i < |all|
        invariant i <= |all| && nextTab == old(nextTab) && nextGroup == old(nextGroup) && Quiet(old(Now()))
        invariant Valid() && Later(start, Now()) && Later(first, Now())
        invariant forall g :: g in groups ==> g in all
        invariant forall g :: g in all ==> g in start.groups
        invariant ids <= more && forall t :: t in more ==> t in Managed(start)
        invariant forall t, g :: t in tabs && g in all[..i] && tabs[t].group == Some(g.id) && Tracks(start.owned, start.sessions, g) ==> t in more
      {
        var g := all[i];
        TracksLater(start, Now(), g);
        if Tracks(owned, sessions, g) {
          ghost var before := Now();
          Await();
          LaterTwice(start, before, Now());
          LaterTwice(first, before, Now());
          GroupedIsManaged(start, Now(), g);
          more := more + set t | t in tabs && tabs[t].group == Some(g.id);
        }
        assert all[..i + 1] == all[..i] + [g];
        i := i + 1;
      }
      assert all[..i] == all;
      forall g | g in groups ensures Tracks(owned, sessions, g) <==> Tracks(start.owned, start.sessions, g) {
        TracksLater(start, Now(), g);
      }
    }

    /** All managed tabs: at least those still managed at the end, at most those managed at the start. */
    method CollectManagedTabIds() returns (ids: set<TabId>)
      requires Valid()
      modifies this
      ensures Quiet(old(Now()))
      ensures Valid() && Later(old(Now()), Now()) && nextTab == old(nextTab) && nextGroup == old(nextGroup)
      ensures Managed(Now()) <= ids <= Managed(old(Now()))
    {
      ghost var start := Now();
      var recorded := CollectRecords(start);
      ghost var mid := Now();
      ids := CollectGroups(start, recorded);
      hide Managed, Tracks, SessionsLater, TabsSound, GroupsSound, UnheardSound, RecordsSound, InSomeSession, GroupManaged;
      forall t | t in Managed(Now()) ensures t in ids {
        ManagedIsCollected(mid, Now(), recorded, ids, t);
      }
    }

    /** Passes exactly when there is room: certain if nothing is closed meanwhile, and otherwise room at
        the end when it passes, no room at the start when it does not. */
    method EnsureDomainTabLimits(rules: seq<Rule>, target: string, except: Option<TabId>) returns (ok: bool)
      requires Valid()
      modifies this
      ensures Quiet(old(Now()))
      ensures Valid() && Later(old(Now()), Now()) && nextTab == old(nextTab) && nextGroup == old(nextGroup)
      ensures ok ==> Room(Now(), rules, target, except)
      ensures !ok ==> !Room(old(Now()), rules, target, except)
    {
      ghost var start := Now();
      if rules == [] {
        LaterNow(start);
        NoRulesNoLimit(start, target, except);
        return true;
      }
      hide TabsSound, GroupsSound, UnheardSound, RecordsSound, SessionsLater, Count, Covered, Managed, Room;
      var ids := CollectManagedTabIds();
      ghost var mid := Now();
      var others := if except.Some? then ids - {except.value} else ids;
      AllManagedExist(start);
      var hosts;
      ghost var seen;
      hosts, seen := HostsOf(others, start);
      LaterManaged(mid, Now());
      SeenIsManaged(start, Now(), ids, except, others, seen);
      RoomFromCount(start, Now(), rules, target, except, seen, hosts);
      ok := AssertDomainTabLimits(rules, Some(target), hosts);
    }

    /** The hosts of those tabs that can still be asked. */
    method HostsOf(ids: set<TabId>, ghost start: View) returns (hosts: seq<string>, ghost seen: set<TabId>)
      requires Valid() && Later(start, Now()) && forall t :: t in ids ==> t in start.tabs
      modifies this
      ensures Quiet(old(Now()))
      ensures Valid() && Later(start, Now()) && Later(old(Now()), Now()) && nextTab == old(nextTab) && nextGroup == old(nextGroup)
      ensures seen <= ids && forall t :: t in ids && t in tabs ==> t in seen
      ensures forall d :: Count(hosts, d) == |Covered(start.tabs, seen, d)|
    {
      hide TabsSound, GroupsSound, UnheardSound, RecordsSound, SessionsLater, Count, Covered;
      hosts, seen := [], {};
      NothingCounted(start.tabs);
      ghost var first := Now();
      LaterNow(first);
      var todo := ids;
      while todo != {}
        invariant nextTab == old(nextTab) && nextGroup == old(nextGroup) && Quiet(old(Now()))
        invariant Valid() && Later(start, Now()) && Later(first, Now()) && todo <= ids
        invariant seen <= ids - todo && forall t :: t in ids - todo && t in tabs ==> t in seen
        invariant forall d :: Count(hosts, d) == |Covered(start.tabs, seen, d)|
        decreases |todo|
      {
        var t :| t in todo;
        ghost var before := Now();
        var lives := TabExists(Some(t));
        LaterTwice(start, before, Now());
        LaterTwice(first, before, Now());
        if lives {
          CountSteps(start.tabs, seen, t, hosts);
          hosts := hosts + [tabs[t].host];
          seen := seen + {t};
        }
        todo := todo - {t};
      }
    }

    // -------------------------------------------------------------- groups

    method MoveTab(z: TabId, g: GroupId)
      requires Valid() && z in tabs && tabs[z].group.None? && Listed(groups, g)
      modifies this`tabs
      ensures Valid() && Now() == Moved(old(Now()), z, g)
    {
      GroupStaysOccupied(tabs, z, g);
      tabs := tabs[z := tabs[z].(group := Some(g))];
    }

    method NewGroup(z: TabId) returns (g: GroupId)
      requires Valid() && z in tabs && tabs[z].group.None?
      modifies this`tabs, this`groups, this`nextGroup
      ensures Valid() && g == old(nextGroup) && nextGroup == g + 1
      ensures Now() == Moved(old(Now()), z, g).(groups := old(groups) + [Group(g, "")])
    {
      g := nextGroup;
      NewGroupIsSound(groups, tabs, z, nextTab, nextGroup);
      nextGroup := nextGroup + 1;
      tabs := tabs[z := tabs[z].(group := Some(g))];
      groups := groups + [Group(g, "")];
    }

    method Retitle(g: GroupId, title: string)
      requires Valid()
      modifies this`groups
      ensures Valid() && groups == Retitled(old(groups), g, title)
    {
      RetitledIsSound(groups, tabs, g, title, nextTab, nextGroup);
      groups := Retitled(groups, g, title);
    }

    /** Best effort: the session's group is made if need be, titled with its name, and owned. */
    method GroupTab(key: string, z: TabId) returns (g: GroupId)
      requires Valid() && key in sessions && (z in tabs ==> tabs[z].group.None?)
      modifies this
      ensures Valid() && nextTab == old(nextTab)
      ensures Regrouped(old(Now()), Now(), key, z, g)
      ensures quiet ==> tabs.Keys == old(tabs).Keys
      ensures quiet && z in old(tabs) ==>
                z in tabs && if CanGroup(old(sessions)[key].groupId, old(groups)) then
                  Grouped(Now(), key, z, g) && (old(sessions)[key].groupId.None? ==> Group(g, key) in groups)
                else tabs[z].group.None?
    {
      if sessions[key].groupId.Some? {
        g := sessions[key].groupId.value;
        JoinGroup(key, z, g);
      } else {
        g := StartGroup(key, z);
      }
    }

    method JoinGroup(key: string, z: TabId, g: GroupId)
      requires Valid() && key in sessions && sessions[key].groupId == Some(g) && (z in tabs ==> tabs[z].group.None?)
      modifies this
      ensures Valid() && nextTab == old(nextTab)
      ensures Regrouped(old(Now()), Now(), key, z, g)
      ensures quiet ==> tabs.Keys == old(tabs).Keys
      ensures quiet && z in old(tabs) ==>
                z in tabs && if Listed(old(groups), g) then Grouped(Now(), key, z, g) else tabs[z].group.None?
    {
      hide Regrouped, TabsSound, GroupsSound, UnheardSound, RecordsSound, SessionsLater, TabsLater, Listed;
      ghost var a := Now();
      Await();
      ghost var v1 := Now();
      LaterIsRegrouped(a, v1, key, z, g);
      if z in tabs && Listed(groups, g) {
        LaterKeepsGroup(a, v1, z);
        MoveTab(z, g);
        ghost var v2 := Now();
        RegroupedMove(a, v1, key, z, g);
        RegroupedOwn(a, v2, key, z, g);
        RememberOwnedGroup(key, g);
        RegroupedLater(a, Owning(v2, g, key), Now(), key, z, g);
      }
    }

    method StartGroup(key: string, z: TabId) returns (g: GroupId)
      requires Valid() && key in sessions && sessions[key].groupId.None? && (z in tabs ==> tabs[z].group.None?)
      modifies this
      ensures Valid() && nextTab == old(nextTab)
      ensures Regrouped(old(Now()), Now(), key, z, g)
      ensures quiet ==> tabs.Keys == old(tabs).Keys
      ensures quiet && z in old(tabs) ==> z in tabs && Grouped(Now(), key, z, g) && Group(g, key) in groups
    {
      ghost var a := Now();
      g := nextGroup;
      NewGroupIsFresh(a, nextTab, nextGroup);
      Await();
      ghost var v1 := Now();
      LaterIsRegrouped(a, v1, key, z, g);
      if z in tabs {
        LaterKeepsGroup(a, v1, z);
        g := NewGroup(z);
        FinishGroup(key, z, g, a, v1);
      }
    }

    /** The new group exists: track it, title it, own it. */
    method FinishGroup(key: string, z: TabId, g: GroupId, ghost a: View, ghost v1: View)
      requires Valid() && key in sessions && z in v1.tabs && Regrouped(a, v1, key, z, g) && v1.owned == a.owned
      requires Now() == Moved(v1, z, g).(groups := v1.groups + [Group(g, "")])
      modifies this
      ensures Valid() && nextTab == old(nextTab)
      ensures Regrouped(a, Now(), key, z, g)
      ensures quiet ==> tabs.Keys == old(tabs).Keys
      ensures quiet ==> z in tabs && Grouped(Now(), key, z, g) && Group(g, key) in groups
    {
      hide Regrouped, TabsSound, GroupsSound, UnheardSound, SessionsLater, TabsLater;
      ghost var v2 := Now();
      RegroupedOwn(a, v1, key, z, g);
      RegroupedCreate(a, Owning(v1, g, key), key, z, g);
      assert Owning(v2, g, key) == Moved(Owning(v1, g, key), z, g).(groups := v1.groups + [Group(g, "")]);
      Await();
      ghost var v3 := Now();
      LaterOwning(v2, v3, g, key);
      RegroupedLater(a, Owning(v2, g, key), Owning(v3, g, key), key, z, g);
      RecordShrinks(v2, v3, key);
      SetRecord(key, sessions[key].(groupId := Some(g)));
      RegroupedTrack(a, Owning(v3, g, key), key, z, g);
      assert Owning(Now(), g, key) == Tracking(Owning(v3, g, key), key, g);
      if quiet {
        assert Listed(groups, g) by {
          assert groups[|groups| - 1].id == g;
        }
      }
      TitleAndOwn(key, z, g, a);
    }

    method TitleAndOwn(key: string, z: TabId, g: GroupId, ghost a: View)
      requires Valid() && key in sessions && Regrouped(a, Owning(Now(), g, key), key, z, g) && owned == a.owned
      modifies this
      ensures Valid() && nextTab == old(nextTab)
      ensures Regrouped(a, Now(), key, z, g)
      ensures quiet ==> tabs.Keys == old(tabs).Keys
      ensures quiet && Listed(old(groups), g) ==>
                tabs == old(tabs) && sessions == old(sessions) && g in owned && owned[g] == key && Group(g, key) in groups
    {
      hide Regrouped, TabsSound, GroupsSound, UnheardSound, RecordsSound, SessionsLater, TabsLater, Listed;
      ghost var v4 := Now();
      Await();
      ghost var v5 := Now();
      LaterOwning(v4, v5, g, key);
      RegroupedLater(a, Owning(v4, g, key), Owning(v5, g, key), key, z, g);
      if Listed(groups, g) {
        Retitle(g, key);
        TitleShows(v5.groups, g, key);
        RegroupedTitle(a, Owning(v5, g, key), key, z, g, key);
        ghost var v6 := Now();
        assert Owning(v6, g, key) == Owning(v5, g, key).(groups := Retitled(v5.groups, g, key));
        RememberOwnedGroup(key, g);
        RegroupedLater(a, Owning(v6, g, key), Now(), key, z, g);
      } else {
        RegroupedGone(a, v5, key, z, g);
      }
    }

    // -------------------------------------------------------------- closing

    /** Closes the session's active tab, if it has one and the browser lets go of it; the last remaining
        tab becomes active. */
    method CloseActiveTab(key: string) returns (closed: bool)
      requires Valid()
      modifies this
      ensures Valid() && Later(Opened(old(Now()), key), Now()) && nextTab == old(nextTab) && nextGroup == old(nextGroup)
      ensures var active := SessionOf(old(sessions), key).active; closed <==> active.Some? && active.value !in tabs
      ensures obliging ==> (closed <==> SessionOf(old(sessions), key).active.Some?)
      ensures closed ==> key in sessions
      ensures var left := if closed then sessions[key].tabIds else [];
              closed ==> sessions[key].active == if left == [] then None else Some(left[|left| - 1])
      ensures quiet ==> forall t :: t in old(tabs) && t !in tabs ==> SessionOf(old(sessions), key).active == Some(t)
      ensures quiet && closed && SessionOf(old(sessions), key).active.value in old(tabs) ==>
                var v := Closed(old(Now()), SessionOf(old(sessions), key).active.value);
                tabs == v.tabs && groups == v.groups && sessions[key].groupId == SessionOf(old(sessions), key).groupId
    {
      hide TabsSound, GroupsSound, UnheardSound, SessionLater;
      GetSession(key);
      ghost var v1 := Now();
      LaterNow(v1);
      var active := sessions[key].active;
      if active.None? {
        return false;
      }
      closed := RemoveManagedTab(active.value);
      if closed {
        ghost var v2 := Now();
        RecordShrinks(v1, v2, key);
        var tabIds := Delete(sessions[key].tabIds, active.value);
        SetRecord(key, sessions[key].(tabIds := tabIds, active := Last(tabIds)));
        MovedOnLater(v1, v2, key, active.value, sessions[key]);
      }
    }

    /** Closes one tab after the other and strikes those that are gone off the record. */
    method CloseTabs(key: string, ghost m: View)
      requires Valid() && key in sessions && m == Now()
      modifies this
      ensures Valid() && nextTab == old(nextTab) && nextGroup == old(nextGroup)
      ensures Shedding(m, Now(), key)
      ensures obliging ==> sessions[key].tabIds == []
      ensures quiet ==> forall t :: t in sessions[key].tabIds ==> t in tabs
      ensures quiet ==> forall t :: t in m.tabs && t !in tabs ==> t in m.sessions[key].tabIds
    {
      hide TabsSound, GroupsSound, UnheardSound, RecordsSound, Shedding;
      SheddingStart(m, key);
      var ids := sessions[key].tabIds;
      var i := 0;
      while i < |ids|
        invariant i <= |ids| && nextTab == old(nextTab) && nextGroup == old(nextGroup)
        invariant Valid() && key in sessions && Shedding(m, Now(), key)
        invariant forall t :: t in sessions[key].tabIds ==> t in ids
        invariant obliging ==> forall t :: t in ids[..i] ==> t !in sessions[key].tabIds
        invariant quiet ==> forall t :: t in ids[..i] && t in sessions[key].tabIds ==> t in tabs
        invariant quiet ==> forall t :: t in m.tabs && t !in tabs ==> t in ids
      {
        CloseAndStrike(key, ids[i], m);
        assert ids[..i + 1] == ids[..i] + [ids[i]];
        i := i + 1;
      }
      assert ids[..i] == ids;
      if obliging {
        NoneIsEmpty(sessions[key].tabIds, ids);
      }
    }

    /** Closes one tab, and strikes it off the record if it is gone. */
    method CloseAndStrike(key: string, id: TabId, ghost m: View)
      requires Valid() && key in sessions && Shedding(m, Now(), key)
      modifies this
      ensures Valid() && nextTab == old(nextTab) && nextGroup == old(nextGroup) && key in sessions
      ensures Shedding(m, Now(), key)
      ensures forall t :: t in sessions[key].tabIds ==> t in old(sessions)[key].tabIds
      ensures id in sessions[key].tabIds ==> id in tabs || !quiet
      ensures obliging ==> id !in sessions[key].tabIds
      ensures quiet ==> forall t :: t in old(tabs) && t != id ==> t in tabs
    {
      hide TabsSound, GroupsSound, UnheardSound, SessionLater, Shedding;
      ghost var before := Now();
      var gone := RemoveManagedTab(id);
      ghost var v := Now();
      SheddingLater(m, before, v, key);
      RecordShrinks(before, v, key);
      if gone {
        StillBelow(sessions, key, id, nextTab);
        SetRecord(key, sessions[key].(tabIds := Delete(sessions[key].tabIds, id)));
        SheddingStrikes(m, v, key, id, sessions[key]);
        assert Now() == v.(sessions := v.sessions[key := sessions[key]]);
      }
    }

    /** The record goes first, its ownership after. */
    method ForgetSession(key: string)
      requires Valid() && key in sessions
      modifies this
      ensures Valid() && nextTab == old(nextTab) && nextGroup == old(nextGroup)
      ensures Later(WithoutSession(old(Now()), key), Now())
      ensures quiet ==> tabs == old(tabs)
    {
      hide TabsSound, GroupsSound, UnheardSound, Forgotten;
      ghost var v := Now();
      sessions := sessions - {key};
      ghost var v1 := Now();
      Await();
      ghost var v2 := Now();
      owned := Forgotten(owned, key);
      ghost var v3 := Now();
      ForgettingLater(v, v2, key);
      Await();
      LaterTwice(WithoutSession(v, key), v3, Now());
    }

    /** The record goes on with a tab that is still there, as far as it knows. */
    method ReviveActive(key: string)
      requires Valid() && key in sessions
      modifies this
      ensures Valid() && nextTab == old(nextTab) && nextGroup == old(nextGroup) && key in sessions
      ensures exists v :: Later(old(Now()), v) && Revived(v, Now(), key)
      ensures quiet ==> tabs == old(tabs) && sessions[key].tabIds == old(sessions)[key].tabIds
    {
      hide TabsSound, GroupsSound, UnheardSound, SessionLater;
      ghost var before := Now();
      var active := sessions[key].active;
      var lives := TabExists(active);
      ghost var v := Now();
      RecordShrinks(before, v, key);
      if lives {
        ActiveLives(before, v, key);
      }
      var s := sessions[key];
      SetRecord(key, s.(active := if lives then s.active else Last(s.tabIds)));
      assert Now() == v.(sessions := v.sessions[key := sessions[key]]);
      assert Revived(v, Now(), key);
    }

    /** Closes every tab of the session that the browser lets go of. If its record is empty then, at
        `atCheck`, the session and its ownership are forgotten, and otherwise both are kept. */
    method CloseSession(key: string) returns (ghost atCheck: View)
      requires Valid()
      modifies this
      ensures Valid() && nextTab == old(nextTab) && nextGroup == old(nextGroup)
      ensures Ended(old(Now()), Now(), key) && Steady(old(Now()), Now(), nextTab)
      ensures key in atCheck.sessions && TabsLater(old(tabs), atCheck.tabs)
      ensures forall t :: t in SessionOf(old(sessions), key).tabIds && t in atCheck.tabs ==> t in atCheck.sessions[key].tabIds
      ensures key !in sessions <==> atCheck.sessions[key].tabIds == []
      ensures if key in sessions then exists w :: Later(atCheck, w) && Revived(w, Now(), key)
              else Later(WithoutSession(atCheck, key), Now())
      ensures NoStranger(old(Now()), key) ==> Shrunk(old(Now()), Now())
      ensures quiet && key in sessions ==>
                sessions[key].tabIds != [] && forall t :: t in sessions[key].tabIds ==> t in tabs
      ensures obliging ==> key !in sessions
      ensures quiet ==> forall t :: t in old(tabs) && t !in tabs ==> Concerns(old(Now()), key, t)
    {
      hide TabsSound, UnheardSound, RecordsSound, ReconciledLater, Shedding, Ended, Shrunk, Steady, NoStranger, Reconciled, Later, Fewer;
      ghost var a := Now();
      ghost var mine := Reconcile(key);
      ghost var m := Now();
      if NoStranger(a, key) {
        ReconcilingManagesNoMore(a, m, key, mine);
      }
      ReconciledHasRecord(a, m, key, mine);
      if quiet {
        ReconciledConcerns(a, m, key);
      }
      CloseTabs(key, m);
      ghost var v := Now();
      atCheck := v;
      ReconciledFrame(a, m, key, mine);
      SheddingFrame(m, v, key);
      RecordSurvives(a, m, v, key, mine);
      if sessions[key].tabIds == [] {
        ForgetSession(key);
        EndsForgotten(a, m, v, Now(), key, mine);
        SheddingStaysFewer(m, v, Now(), key);
      } else {
        ReviveActive(key);
        ghost var w :| Later(v, w) && Revived(w, Now(), key);
        SheddingLater(m, v, w, key);
        EndsKept(a, m, w, key, mine, Now().sessions[key]);
        RevivedFewer(m, w, Now(), key);
      }
      AllListed(Now(), nextTab);
      EndedIsSteady(a, Now(), key);
      FewerAreManaged(m, Now());
      if NoStranger(a, key) {
        ShrunkTwice(a, m, Now());
      }
    }

    // -------------------------------------------------------------- opening and binding

    method BindTab(key: string, id: TabId)
      requires Valid() && id < nextTab
      modifies this`sessions
      ensures Valid() && Now() == Bound(old(Now()), key, id)
    {
      var s := SessionOf(sessions, key);
      sessions := sessions[key := s.(tabIds := Add(s.tabIds, id), active := Some(id))];
    }

    method CreateTab() returns (id: TabId)
      requires Valid()
      modifies this`tabs, this`nextTab
      ensures Valid() && id == old(nextTab) && nextTab == id + 1
      ensures Now() == old(Now()).(tabs := old(tabs)[id := Tab("", None)])
    {
      id := nextTab;
      CreatingIsSound(tabs, groups, id, nextGroup);
      tabs := tabs[id := Tab("", None)];
      nextTab := nextTab + 1;
    }

    /** A new blank tab, made the session's active one and put into its group. */
    method OpenTab(key: string) returns (id: TabId)
      requires Valid() && key in sessions
      modifies this
      ensures Valid() && id == old(nextTab) && nextTab == id + 1 && key in sessions
      ensures Shrunk(old(Now()), Now()) && Steady(old(Now()), Now(), id)
      ensures id in tabs ==> sessions[key].active == Some(id) && id in sessions[key].tabIds
      ensures quiet ==> forall t :: t in old(tabs) ==> t in tabs
      ensures quiet ==> JoinedItsGroup(old(sessions)[key].groupId, old(groups), Now(), key, id)
    {
      hide TabsSound, GroupsSound, UnheardSound, Shrunk, Steady, SessionLater, Regrouped;
      ghost var v0 := Now();
      FreshInNoRecord(v0, nextTab);
      id := CreateTab();
      ghost var v1 := Now();
      CreatingIsSteady(v0, id);
      Await();
      ghost var v2 := Now();
      LaterIsSteady(v1, v2);
      ShrunkTwice(v0, v1, v2);
      SteadyTwice(v0, v1, v2, id);
      RecordShrinks(v1, v2, key);
      assert id in tabs ==> tabs[id] == Tab("", None);
      BindTab(key, id);
      ghost var v3 := Now();
      BindingShrinks(v2, key, id);
      BindingIsSteady(v2, key, id);
      ShrunkTwice(v0, v2, v3);
      SteadyTwice(v0, v2, v3, id);
      assert InSomeSession(v3, id) by {
        assert id in v3.sessions[key].tabIds;
      }
      AllListed(v3, nextTab);
      var g := GroupTab(key, id);
      RegroupingIsSteady(v3, Now(), key, id, g);
      ShrunkTwice(v0, v3, Now());
      SteadyTwice(v0, v3, Now(), id);
      RegroupedActive(v3, Now(), key, id, g);
    }

    /** Reconciles and asks whether the session's active tab is there. */
    method FindActive(key: string) returns (lives: bool)
      requires Valid()
      modifies this
      ensures Valid() && nextTab == old(nextTab) && key in sessions
      ensures NoStranger(old(Now()), key) ==> Shrunk(old(Now()), Now())
      ensures Steady(old(Now()), Now(), nextTab)
      ensures Recovered(old(Now()), Now(), key)
      ensures lives ==> sessions[key].active.Some? && sessions[key].active.value in tabs
      ensures quiet ==>
                Reconciled(old(Now()), Now(), key) && (lives <==> StillActive(sessions[key].active, tabs))
      ensures StillActive(SessionOf(old(sessions), key).active, tabs) ==>
                lives && sessions[key].active == SessionOf(old(sessions), key).active
    {
      hide TabsSound, GroupsSound, UnheardSound, Shrunk, Steady, SessionLater, ReconciledLater, NoStranger, Reconciled, SessionOf;
      ghost var a := Now();
      ghost var mine := Reconcile(key);
      ghost var m := Now();
      ReconcilingIsSteady(a, m, key, mine);
      if NoStranger(a, key) {
        ReconcilingManagesNoMore(a, m, key, mine);
      }
      ReconciledHasRecord(a, m, key, mine);
      lives := TabExists(sessions[key].active);
      LaterIsSteady(m, Now());
      if Shrunk(a, m) {
        ShrunkTwice(a, m, Now());
      }
      SteadyTwice(a, m, Now(), nextTab);
      RecordShrinks(m, Now(), key);
      if lives {
        ActiveLives(m, Now(), key);
      }
      if StillActive(SessionOf(a.sessions, key).active, tabs) {
        ReconciledActive(a, m, key, mine, Now());
      }
    }

    /** The tab to navigate: the session's active one, or a new one in its place. `except` is the tab the
        check left out, `m` the state after reconciling. */
    method AcquireTabForNavigation(key: string, newTab: bool, rules: seq<Rule>, target: string)
      returns (r: Acquired, ghost except: Option<TabId>, ghost m: View)
      requires Valid()
      modifies this
      ensures Valid() && key in sessions
      ensures nextTab == old(nextTab) || (r == Acquired(Some(old(nextTab))) && nextTab == old(nextTab) + 1)
      ensures NoStranger(old(Now()), key) ==> Shrunk(old(Now()), Now())
      ensures Steady(old(Now()), Now(), old(nextTab))
      ensures r.Acquired? ==> Room(Now(), rules, target, except) && (StillActive(except, tabs) ==> r.tab == except)
      ensures r.TooMany? && NoStranger(old(Now()), key) ==> !Room(old(Now()), rules, target, except)
      ensures r.Acquired? && (r.tab.None? || StillActive(r.tab, tabs)) ==> sessions[key].active == r.tab
      ensures var active := SessionOf(old(sessions), key).active;
              StillActive(active, old(tabs)) && StillActive(active, tabs) ==> except == active
      ensures Recovered(old(Now()), m, key)
      ensures except.Some? ==> key in m.sessions && m.sessions[key].active == except && StillActive(except, m.tabs)
      ensures quiet ==> Reconciled(old(Now()), m, key) && (except.None? ==> key in m.sessions && !StillActive(m.sessions[key].active, m.tabs))
      ensures r.Acquired? && newTab ==> r.tab == Some(old(nextTab))
      ensures var active := SessionOf(old(sessions), key).active;
              r.Acquired? && StillActive(active, old(tabs)) && StillActive(active, tabs) ==> !newTab && r.tab == active
      ensures r.CouldNotClose? ==> newTab && (obliging ==> !quiet && sessions[key].active.None?)
      ensures quiet ==> forall t :: t in old(tabs) && t !in tabs ==> newTab && m.sessions[key].active == Some(t)
      ensures quiet && r.Acquired? ==> StillActive(r.tab, tabs)
      ensures quiet && nextTab != old(nextTab) ==> NewTabGrouped(m, Now(), key, old(nextTab))
    {
      hide TabsSound, GroupsSound, UnheardSound, RecordsSound, Shrunk, Steady, SessionLater, NoStranger, SessionOf, Room, Later,
        Reconciled, GroupOutlives, Grouped;
      ghost var a := Now();
      var lives := FindActive(key);
      m := Now();
      if !newTab && lives {
        r, except := ReuseTab(key, rules, target);
      } else {
        r, except := ReplaceTab(key, newTab && lives, rules, target);
      }
      if Shrunk(a, m) {
        ShrunkTwice(a, m, Now());
      }
      SteadyTwice(a, m, Now(), old(nextTab));
      if quiet {
        ReconciledConcerns(a, m, key);
      }
      ghost var active := SessionOf(a.sessions, key).active;
      if StillActive(active, a.tabs) {
        LiveIsOld(a, active.value, old(nextTab));
        WasThere(m, Now(), active.value, old(nextTab));
      }
      if r.TooMany? && NoStranger(a, key) {
        NoRoomBefore(a, m, rules, target, except);
      }
    }

    method ReuseTab(key: string, rules: seq<Rule>, target: string) returns (r: Acquired, ghost except: Option<TabId>)
      requires Valid() && key in sessions && sessions[key].active.Some?
      modifies this
      ensures Valid() && nextTab == old(nextTab) && key in sessions
      ensures Shrunk(old(Now()), Now()) && Steady(old(Now()), Now(), nextTab)
      ensures r.TooMany? || r == Acquired(sessions[key].active)
      ensures quiet ==> Now() == old(Now())
      ensures except == old(sessions)[key].active
      ensures r.Acquired? ==> Room(Now(), rules, target, except) && (StillActive(except, tabs) ==> r.tab == except)
      ensures r.TooMany? ==> !Room(old(Now()), rules, target, except)
    {
      hide TabsSound, GroupsSound, UnheardSound, RecordsSound, Shrunk, Steady, SessionLater, Room;
      ghost var m := Now();
      except := sessions[key].active;
      var ok := EnsureDomainTabLimits(rules, target, sessions[key].active);
      LaterIsSteady(m, Now());
      RecordShrinks(m, Now(), key);
      if StillActive(except, tabs) {
        ActiveLives(m, Now(), key);
      }
      r := if ok then Acquired(sessions[key].active) else TooMany;
    }

    method ReplaceTab(key: string, replacing: bool, rules: seq<Rule>, target: string)
      returns (r: Acquired, ghost except: Option<TabId>)
      requires Valid() && key in sessions && (replacing ==> StillActive(sessions[key].active, tabs))
      modifies this
      ensures Valid() && key in sessions
      ensures nextTab == if r.Acquired? then old(nextTab) + 1 else old(nextTab)
      ensures Shrunk(old(Now()), Now()) && Steady(old(Now()), Now(), old(nextTab))
      ensures except == if replacing then old(sessions)[key].active else None
      ensures r.Acquired? ==> Room(Now(), rules, target, except) && !StillActive(except, tabs)
      ensures r.Acquired? ==> r.tab == Some(old(nextTab)) && (StillActive(r.tab, tabs) ==> sessions[key].active == r.tab)
      ensures r.TooMany? ==> !Room(old(Now()), rules, target, except)
      ensures r.CouldNotClose? ==> replacing && (obliging ==> !quiet && sessions[key].active.None? && except.value !in tabs)
      ensures quiet ==> forall t :: t in old(tabs) && t !in tabs ==> replacing && old(sessions)[key].active == Some(t)
      ensures quiet && r.Acquired? ==>
                var s := old(sessions)[key]; var id := old(nextTab);
                id in tabs && (tabs[id].group.Some? <==> GroupOutlives(old(Now()), s.groupId, if replacing then s.active else None))
                && (tabs[id].group.Some? ==> Grouped(Now(), key, id, tabs[id].group.value))
    {
      hide TabsSound, GroupsSound, UnheardSound, RecordsSound, Shrunk, Steady, SessionLater, Room, SessionsLater;
      ghost var m := Now();
      if replacing {
        LiveIsOld(m, sessions[key].active.value, nextTab);
      }
      var replaced := if replacing then sessions[key].active else None;
      except := replaced;
      var ok := EnsureDomainTabLimits(rules, target, replaced);
      ghost var v := Now();
      LaterIsSteady(m, v);
      RecordShrinks(m, v, key);
      if !ok {
        return TooMany, except;
      }
      if replaced.Some? {
        var closed := CloseActiveTab(key);
        OpenedAlready(v, key);
        LaterIsSteady(v, Now());
        ShrunkTwice(m, v, Now());
        SteadyTwice(m, v, Now(), nextTab);
        RecordShrinks(v, Now(), key);
        if !closed {
          ActiveVanished(m, v, Now(), key);
          return CouldNotClose, except;
        }
        ActiveIsGone(m, v, Now(), key);
      }
      ghost var w := Now();
      ShrinkingKeepsRoom(v, w, rules, target, except);
      if quiet {
        OutlivesMeans(m, w, m.sessions[key].groupId, replaced, nextTab, nextGroup);
      }
      var id := OpenTab(key);
      ShrunkTwice(m, w, Now());
      SteadyTwice(m, w, Now(), old(nextTab));
      ShrinkingKeepsRoom(w, Now(), rules, target, except);
      if replaced.Some? {
        WasThere(w, Now(), replaced.value, old(nextTab));
      }
      r := Acquired(Some(id));
    }

    /** Navigating a tab. */
    method SetHost(t: TabId, host: string)
      requires Valid() && t in tabs
      modifies this`tabs
      ensures Valid() && Now() == Placed(old(Now()), t, host)
    {
      HostsAreApart(tabs, groups, t, host, nextTab, nextGroup);
      tabs := tabs[t := tabs[t].(host := host)];
    }

    method SetGroupTitle(key: string, title: string)
      requires Valid()
      modifies this
      ensures Valid() && nextTab == old(nextTab) && key in sessions
      ensures NoStranger(old(Now()), key) ==> Shrunk(old(Now()), Now())
      ensures Steady(old(Now()), Now(), nextTab) && TabsLater(old(tabs), tabs)
      ensures var g := SessionOf(old(sessions), key).groupId; var v := Opened(old(Now()), key);
              quiet ==>
                Now() == if g.Some? && Listed(v.groups, g.value) then Owning(v.(groups := Retitled(v.groups, g.value, title)), g.value, key) else v
    {
      hide TabsSound, GroupsSound, UnheardSound, Shrunk, Steady, SessionLater, NoStranger, Listed, Retitled;
      ghost var a := Now();
      GetSession(key);
      ghost var v1 := Now();
      assert v1 == Opened(a, key);
      OpeningIsSteady(a, key);
      if NoStranger(a, key) {
        OpeningManagesNothing(a, key);
      }
      if sessions[key].groupId.Some? {
        TitleGroup(key, sessions[key].groupId.value, title);
        SteadyTwice(a, v1, Now(), nextTab);
        if Shrunk(a, v1) {
          ShrunkTwice(a, v1, Now());
        }
      }
    }

    method TitleGroup(key: string, g: GroupId, title: string)
      requires Valid() && key in sessions && sessions[key].groupId == Some(g)
      modifies this
      ensures Valid() && nextTab == old(nextTab) && key in sessions
      ensures Shrunk(old(Now()), Now()) && Steady(old(Now()), Now(), nextTab) && TabsLater(old(tabs), tabs)
      ensures var v := old(Now());
              quiet ==>
                Now() == if Listed(v.groups, g) then Owning(v.(groups := Retitled(v.groups, g, title)), g, key) else v
    {
      hide TabsSound, GroupsSound, UnheardSound, Shrunk, Steady, SessionLater, Listed, Retitled;
      ghost var v1 := Now();
      Await();
      ghost var v2 := Now();
      RecordShrinks(v1, v2, key);
      LaterIsSteady(v1, v2);
      if Listed(groups, g) {
        AllListed(v2, nextTab);
        StillTracked(v1, v2, key, g);
        RetitlingIsSteady(v2, key, g, title);
        Retitle(g, title);
        ghost var v3 := Owning(Now(), g, key);
        RememberOwnedGroup(key, g);
        LaterIsSteady(v3, Now());
        RecordShrinks(v3, Now(), key);
        ShrunkTwice(v1, v2, v3);
        ShrunkTwice(v1, v3, Now());
        SteadyTwice(v1, v2, v3, nextTab);
        SteadyTwice(v1, v3, Now(), nextTab);
      }
    }

    /** Closes a group's tabs; with none refused, its ownership is forgotten. */
    method CloseGroup(g: GroupId)
      requires Valid()
      modifies this
      ensures Valid() && nextTab == old(nextTab)
      ensures Shrunk(old(Now()), Now()) && Steady(old(Now()), Now(), nextTab) && TabsLater(old(tabs), tabs)
      ensures owned == old(owned) || (owned == old(owned) - {g} && !HasTab(tabs, g))
      ensures HasTab(tabs, g) ==> owned == old(owned)
      ensures obliging ==> !HasTab(tabs, g) && owned == old(owned) - {g}
      ensures quiet ==> forall t :: t in old(tabs) && t !in tabs ==> old(tabs)[t].group == Some(g)
    {
      hide TabsSound, UnheardSound, Shrunk, Steady, SessionLater, HasTab, RecordsSound;
      ghost var a := Now();
      Await();
      ghost var v0 := Now();
      LaterNow(v0);
      var ids := TabsOf(g);
      var remaining, i := 0, 0;
      while i < |ids|
        invariant i <= |ids| && remaining >= 0 && nextTab == old(nextTab)
        invariant Valid() && Later(a, Now()) && Later(v0, Now())
        invariant remaining == 0 ==> forall t :: t in ids[..i] ==> t !in tabs
        invariant obliging ==> remaining == 0
        invariant quiet ==> forall t :: t in old(tabs) && t !in tabs ==> t in ids
      {
        ghost var before := Now();
        var gone := RemoveManagedTab(ids[i]);
        LaterTwice(a, before, Now());
        LaterTwice(v0, before, Now());
        remaining := if gone then remaining else remaining + 1;
        assert ids[..i + 1] == ids[..i] + [ids[i]];
        i := i + 1;
      }
      assert ids[..i] == ids;
      ghost var v1 := Now();
      LaterIsSteady(a, v1);
      if remaining == 0 {
        EmptiedGroup(v0, v1, g, ids);
        Await();
        ghost var v2 := Now();
        LaterIsSteady(v1, v2);
        GroupStaysEmpty(v1.tabs, tabs, g);
        owned := owned - {g};
        ForgettingIsSteady(v2, g, nextGroup);
        ghost var v3 := Now();
        Await();
        LaterIsSteady(v3, Now());
        GroupStaysEmpty(v3.tabs, tabs, g);
        ShrunkTwice(a, v1, v2);
        ShrunkTwice(a, v2, v3);
        ShrunkTwice(a, v3, Now());
        SteadyTwice(a, v1, v2, nextTab);
        SteadyTwice(a, v2, v3, nextTab);
        SteadyTwice(a, v3, Now(), nextTab);
      }
    }
  }

  lemma EmptiedGroup(a: View, b: View, g: GroupId, ids: seq<TabId>)
    requires TabsLater(a.tabs, b.tabs) && forall t :: t in ids <==> t in a.tabs && a.tabs[t].group == Some(g)
    requires forall t :: t in ids ==> t !in b.tabs
    ensures !HasTab(b.tabs, g)
  {}

  lemma GroupStaysEmpty(a: map<TabId, Tab>, b: map<TabId, Tab>, g: GroupId)
    requires TabsLater(a, b) && !HasTab(a, g)
    ensures !HasTab(b, g)
  {}

  lemma ForgettingIsSteady(v: View, g: GroupId, nextGroup: nat)
    requires GroupsSound(v.groups, v.tabs, nextGroup) && !HasTab(v.tabs, g)
    ensures var b := v.(owned := v.owned - {g}); Shrunk(v, b) && forall n :: Steady(v, b, n)
  {
    var b := v.(owned := v.owned - {g});
    FewerAreManaged(v, b);
    forall t ensures InSomeSession(b, t) <==> InSomeSession(v, t) {}
    hide Shrunk, DistinctIds, InSomeSession;
  }

  lemma StillTracked(a: View, b: View, key: string, g: GroupId)
    requires Later(a, b) && key in a.sessions && a.sessions[key].groupId == Some(g)
    ensures TrackedByRecord(b, g)
  {
    assert SessionLater(a.sessions[key], b.sessions[key], a.tabs, b.tabs);
  }

  lemma HostsAreApart(tabs: map<TabId, Tab>, groups: seq<Group>, t: TabId, host: string, nextTab: nat, nextGroup: nat)
    requires TabsSound(tabs, groups, nextTab) && GroupsSound(groups, tabs, nextGroup) && t in tabs
    ensures var after := tabs[t := tabs[t].(host := host)];
            TabsSound(after, groups, nextTab) && GroupsSound(groups, after, nextGroup)
  {
    var after := tabs[t := tabs[t].(host := host)];
    forall g | g in groups ensures HasTab(after, g.id) {
      var u :| u in tabs && tabs[u].group == Some(g.id);
      assert after[u].group == Some(g.id);
    }
  }

  /** The group on record, if any, holds a tab besides the one about to be closed. */
  ghost predicate GroupOutlives(v: View, groupId: Option<GroupId>, closing: Option<TabId>) {
    groupId.Some? ==> exists t :: t in v.tabs && v.tabs[t].group == groupId && closing != Some(t)
  }

  lemma OutlivesMeans(m: View, w: View, groupId: Option<GroupId>, closing: Option<TabId>, nextTab: nat, nextGroup: nat)
    requires TabsSound(w.tabs, w.groups, nextTab) && GroupsSound(w.groups, w.tabs, nextGroup)
    requires w.tabs == if closing.Some? then m.tabs - {closing.value} else m.tabs
    ensures CanGroup(groupId, w.groups) <==> GroupOutlives(m, groupId, closing)
  {
    if groupId.Some? {
      if Listed(w.groups, groupId.value) {
        var k :| 0 <= k < |w.groups| && w.groups[k].id == groupId.value;
        assert w.groups[k] in w.groups;
        var t :| t in w.tabs && w.tabs[t].group == groupId;
        assert t in m.tabs && m.tabs[t].group == groupId && closing != Some(t);
      }
      if t :| t in m.tabs && m.tabs[t].group == groupId && closing != Some(t) {
        assert t in w.tabs && w.tabs[t].group == groupId;
      }
    }
  }

  /** `tab` is what the caller navigates; the source passes on whatever the active tab is by then, which
      may be none. */
  datatype Acquired = Acquired(tab: Option<TabId>) | TooMany | CouldNotClose

  predicate StillActive(t: Option<TabId>, tabs: map<TabId, Tab>) {
    t.Some? && t.value in tabs
  }

  /** Where a new tab ends up: in the session's group, unless the tab it replaced was the last one there. The
      browser then has dropped the group, the record still points at it, and the tab stays in no group. */
  ghost predicate NewTabGrouped(m: View, b: View, key: string, id: TabId) {
    && key in m.sessions && id in b.tabs
    && var s := m.sessions[key];
       var closing := if StillActive(s.active, m.tabs) then s.active else None;
       && (b.tabs[id].group.Some? <==> GroupOutlives(m, s.groupId, closing))
       && (b.tabs[id].group.Some? ==> Grouped(b, key, id, b.tabs[id].group.value))
  }

  /** Recovery of a new tab: should the records be lost, reconciling finds it again if and only if the
      session's group held a tab besides the one it replaced, or there was no group yet. */
  lemma NewTabRecoverable(m: View, b: View, key: string, id: TabId, c: View)
    requires NewTabGrouped(m, b, key, id) && GroupsListed(b) && DistinctIds(b.groups)
    requires Reconciled(b.(sessions := map[]), c, key)
    ensures var s := m.sessions[key];
            id in c.sessions[key].tabIds <==>
              GroupOutlives(m, s.groupId, if StillActive(s.active, m.tabs) then s.active else None)
  {
    ReconcileRecovers(b, c, key);
    hide Reconciled, DistinctIds, GroupOutlives;
    if b.tabs[id].group.Some? {
      var g := b.tabs[id].group.value;
      var k :| 0 <= k < |b.groups| && b.groups[k].id == g;
      assert b.groups[k] in b.groups && Belongs(b.groups[k], b.owned, key);
    }
  }

  /** So replacing the only tab of a session loses the session's hold on it: a session with one tab, in its
      own group, comes out of it with a tab in no group. */
  lemma SoleTabIsNotRecovered(m: View, b: View, key: string, id: TabId, c: View, x: TabId)
    requires NewTabGrouped(m, b, key, id) && GroupsListed(b) && DistinctIds(b.groups)
    requires Reconciled(b.(sessions := map[]), c, key)
    requires x in m.tabs && m.sessions[key].active == Some(x) && m.sessions[key].groupId.Some?
    requires forall t :: t in m.tabs && m.tabs[t].group == m.sessions[key].groupId ==> t == x
    ensures b.tabs[id].group.None? && id !in c.sessions[key].tabIds
  {
    NewTabRecoverable(m, b, key, id, c);
  }

  lemma LiveIsOld(v: View, t: TabId, nextTab: nat)
    requires TabsSound(v.tabs, v.groups, nextTab) && t in v.tabs
    ensures t < nextTab
  {}

  lemma WasThere(a: View, b: View, t: TabId, n: nat)
    requires Steady(a, b, n) && t < n
    ensures t in b.tabs ==> t in a.tabs
  {}

  /** The new tab is in the session's group if that could be done, and otherwise in none. */
  predicate JoinedItsGroup(groupId: Option<GroupId>, groups: seq<Group>, v: View, key: string, id: TabId) {
    id in v.tabs && if CanGroup(groupId, groups) then v.tabs[id].group.Some? && Grouped(v, key, id, v.tabs[id].group.value)
    else v.tabs[id].group.None?
  }

  lemma CreatingIsSound(tabs: map<TabId, Tab>, groups: seq<Group>, id: nat, nextGroup: nat)
    requires TabsSound(tabs, groups, id) && GroupsSound(groups, tabs, nextGroup)
    ensures TabsSound(tabs[id := Tab("", None)], groups, id + 1) && GroupsSound(groups, tabs[id := Tab("", None)], nextGroup)
  {
    var after := tabs[id := Tab("", None)];
    forall g | g in groups ensures HasTab(after, g.id) {
      var t :| t in tabs && tabs[t].group == Some(g.id);
      assert after[t].group == Some(g.id);
    }
  }

  lemma FreshInNoRecord(v: View, nextTab: nat)
    requires RecordsSound(v.sessions, nextTab) && TabsSound(v.tabs, v.groups, nextTab)
    ensures nextTab !in v.tabs && !InSomeSession(v, nextTab)
  {}

  lemma AllListed(v: View, nextTab: nat)
    requires TabsSound(v.tabs, v.groups, nextTab)
    ensures GroupsListed(v)
  {}

  lemma RegroupedActive(a: View, b: View, key: string, z: TabId, g: GroupId)
    requires Regrouped(a, b, key, z, g) && key in a.sessions && a.sessions[key].active == Some(z) && z in a.sessions[key].tabIds
    ensures key in b.sessions && (z in b.tabs ==> b.sessions[key].active == Some(z) && z in b.sessions[key].tabIds)
  {
    assert SessionLater(a.sessions[key], b.sessions[key].(groupId := a.sessions[key].groupId), a.tabs, b.tabs);
  }

  /** The tab is in the session's record or in a group of its own. */
  predicate Concerns(v: View, key: string, t: TabId) {
    t in SessionOf(v.sessions, key).tabIds || (t in v.tabs && InOneOf(v.tabs[t], Mine(v.groups, v.owned, key)))
  }

  lemma NoneIsEmpty(s: seq<TabId>, ids: seq<TabId>)
    requires forall t :: t in s ==> t in ids && t !in ids
    ensures s == []
  {
    if s != [] {
      HasMember(s);
      assert false;
    }
  }

  lemma HasMember(s: seq<TabId>)
    requires s != []
    ensures exists t :: t in s
  {
    assert s[0] in s;
  }

  /** A session that had a live active tab and has none any more. */
  lemma ActiveVanished(m: View, v: View, w: View, key: string)
    requires Later(m, v) && Later(v, w) && key in m.sessions && StillActive(m.sessions[key].active, m.tabs)
    ensures key in v.sessions && key in w.sessions
    ensures v.sessions[key].active.None? ==> w.sessions[key].active.None? && m.sessions[key].active.value !in v.tabs
    ensures m.tabs == v.tabs && m.sessions == v.sessions ==> v.sessions[key].active.Some?
    ensures m.sessions[key].active.value !in v.tabs ==> m.sessions[key].active.value !in w.tabs
  {
    assert SessionLater(m.sessions[key], v.sessions[key], m.tabs, v.tabs);
    assert SessionLater(v.sessions[key], w.sessions[key], v.tabs, w.tabs);
  }

  lemma ReconciledConcerns(a: View, m: View, key: string)
    requires Reconciled(a, m, key)
    ensures m.tabs == a.tabs && forall t :: t in m.sessions[key].tabIds ==> Concerns(a, key, t)
  {}

  /** `b` follows a reconciling of the session in `a`. */
  ghost predicate Recovered(a: View, b: View, key: string) {
    exists mine, u :: ReconciledLater(a, u, key, mine) && Later(u, b)
  }

  ghost predicate Revived(v: View, b: View, key: string) {
    && key in v.sessions && key in b.sessions && b == v.(sessions := v.sessions[key := b.sessions[key]])
    && var s, q := v.sessions[key], b.sessions[key];
       && q.tabIds == s.tabIds && q.groupId == s.groupId
       && ((q.active == s.active && q.active.Some? && q.active.value in v.tabs) || q.active == Last(q.tabIds))
  }

  /** The session is kept if its last tab vanishes after the record was found not empty: here tab 7 would not
      close, and the user closes it while the code asks whether it is there. Record and ownership stay. */
  lemma LastTabVanishes(key: string) returns (atCheck: View, w: View, b: View)
    ensures key in atCheck.sessions && atCheck.sessions[key].tabIds == [7] && 7 in atCheck.tabs
    ensures Later(atCheck, w) && Revived(w, b, key)
    ensures b.tabs == map[] && b.groups == [] && key in b.sessions && b.sessions[key] == Session(Some(1), None, [])
    ensures 1 in b.owned && b.owned[1] == key
  {
    var s, e := Session(Some(1), Some(7), [7]), Session(Some(1), None, []);
    atCheck := View(map[7 := Tab("", Some(1))], [Group(1, key)], map[1 := key], map[key := s]);
    w := View(map[], [], map[1 := key], map[key := e]);
    b := w;
    assert SessionLater(s, e, atCheck.tabs, w.tabs);
    assert w.sessions[key := b.sessions[key]] == w.sessions;
  }

  lemma RevivedFewer(m: View, v: View, b: View, key: string)
    requires Shedding(m, v, key) && Revived(v, b, key)
    ensures Fewer(m, b)
  {
    SheddingIsFewer(m, v, key);
    hide Shedding;
  }

  lemma ActiveLives(a: View, b: View, key: string)
    requires Later(a, b) && key in a.sessions && a.sessions[key].active.Some? && a.sessions[key].active.value in b.tabs
    ensures key in b.sessions && b.sessions[key].active == a.sessions[key].active
  {
    assert SessionLater(a.sessions[key], b.sessions[key], a.tabs, b.tabs);
  }

  lemma ReconciledHasRecord(a: View, b: View, key: string, mine: seq<Group>)
    requires ReconciledLater(a, b, key, mine)
    ensures key in b.sessions
  {}

  lemma ForgettingLater(v: View, w: View, key: string)
    requires Later(v.(sessions := v.sessions - {key}), w)
    ensures Later(WithoutSession(v, key), w.(owned := Forgotten(w.owned, key)))
  {
    var u := v.(sessions := v.sessions - {key});
    assert SessionsLater(u, w);
    assert forall k :: k in u.sessions ==> SessionLater(u.sessions[k], w.sessions[k], u.tabs, w.tabs);
    hide SessionLater;
  }

  lemma MovedOnLater(a: View, b: View, key: string, id: TabId, q: Session)
    requires Later(a, b) && key in a.sessions && key in b.sessions && a.sessions[key].active == Some(id) && id !in b.tabs
    requires q == b.sessions[key].(tabIds := Delete(b.sessions[key].tabIds, id), active := Last(Delete(b.sessions[key].tabIds, id)))
    ensures Later(a, b.(sessions := b.sessions[key := q]))
  {
    var c := b.(sessions := b.sessions[key := q]);
    assert SessionLater(a.sessions[key], b.sessions[key], a.tabs, b.tabs);
    MovedOn(a.sessions[key], b.sessions[key], q, a.tabs, b.tabs, id);
    hide SessionLater;
  }

  lemma StillBelow(sessions: map<string, Session>, key: string, id: TabId, nextTab: nat)
    requires RecordsSound(sessions, nextTab) && key in sessions
    ensures forall t :: t in Delete(sessions[key].tabIds, id) ==> t < nextTab
  {}

  /** The tab is in the session's group, which the session owns. */
  predicate Grouped(v: View, key: string, z: TabId, g: GroupId) {
    && z in v.tabs && v.tabs[z].group == Some(g)
    && key in v.sessions && v.sessions[key].groupId == Some(g)
    && g in v.owned && v.owned[g] == key
  }

  /** The session has no group on record, or one that still exists. */
  predicate CanGroup(groupId: Option<GroupId>, groups: seq<Group>) {
    groupId.None? || Listed(groups, groupId.value)
  }

  lemma TitleShows(groups: seq<Group>, g: GroupId, title: string)
    requires Listed(groups, g)
    ensures Group(g, title) in Retitled(groups, g, title)
  {
    var k :| 0 <= k < |groups| && groups[k].id == g;
    assert Retitled(groups, g, title)[k] == Group(g, title);
  }

  lemma GroupStaysOccupied(tabs: map<TabId, Tab>, z: TabId, g: GroupId)
    requires z in tabs && tabs[z].group.None?
    ensures forall h :: HasTab(tabs, h) || h == g ==> HasTab(tabs[z := tabs[z].(group := Some(g))], h)
  {
    var after := tabs[z := tabs[z].(group := Some(g))];
    forall h | HasTab(tabs, h) || h == g ensures HasTab(after, h) {
      if h == g {
        assert after[z].group == Some(g);
      } else {
        var t :| t in tabs && tabs[t].group == Some(h);
        assert after[t].group == Some(h);
      }
    }
  }

  lemma RetitledIsSound(groups: seq<Group>, tabs: map<TabId, Tab>, g: GroupId, title: string, nextTab: nat, nextGroup: nat)
    requires TabsSound(tabs, groups, nextTab) && GroupsSound(groups, tabs, nextGroup)
    ensures TabsSound(tabs, Retitled(groups, g, title), nextTab) && GroupsSound(Retitled(groups, g, title), tabs, nextGroup)
  {
    var r := Retitled(groups, g, title);
    forall t | t in tabs && tabs[t].group.Some? ensures Listed(r, tabs[t].group.value) {
      var k :| 0 <= k < |groups| && groups[k].id == tabs[t].group.value;
      assert r[k].id == groups[k].id;
    }
    forall gr | gr in r ensures gr.id < nextGroup && HasTab(tabs, gr.id) {
      var k :| 0 <= k < |r| && r[k] == gr;
      assert groups[k] in groups;
    }
  }

  lemma LaterKeepsGroup(a: View, b: View, z: TabId)
    requires Later(a, b) && z in b.tabs
    ensures z in a.tabs && b.tabs[z] == a.tabs[z]
  {}

  lemma NewGroupIsFresh(v: View, nextTab: nat, nextGroup: nat)
    requires TabsSound(v.tabs, v.groups, nextTab) && GroupsSound(v.groups, v.tabs, nextGroup)
    ensures forall t :: t in v.tabs ==> v.tabs[t].group != Some(nextGroup)
  {
    forall t | t in v.tabs && v.tabs[t].group.Some? ensures v.tabs[t].group.value < nextGroup {
      var k :| 0 <= k < |v.groups| && v.groups[k].id == v.tabs[t].group.value;
      assert v.groups[k] in v.groups;
    }
  }

  lemma NewGroupIsSound(groups: seq<Group>, tabs: map<TabId, Tab>, z: TabId, nextTab: nat, g: nat)
    requires TabsSound(tabs, groups, nextTab) && GroupsSound(groups, tabs, g)
    requires z in tabs && tabs[z].group.None?
    ensures TabsSound(tabs[z := tabs[z].(group := Some(g))], groups + [Group(g, "")], nextTab)
    ensures GroupsSound(groups + [Group(g, "")], tabs[z := tabs[z].(group := Some(g))], g + 1)
  {
    GroupStaysOccupied(tabs, z, g);
    var more, after := groups + [Group(g, "")], tabs[z := tabs[z].(group := Some(g))];
    forall t | t in after && after[t].group.Some? ensures Listed(more, after[t].group.value) {
      if t == z {
        assert more[|groups|].id == g;
      } else {
        var k :| 0 <= k < |groups| && groups[k].id == tabs[t].group.value;
        assert more[k].id == groups[k].id;
      }
    }
    forall k | 0 <= k < |groups| ensures groups[k].id < g {
      assert groups[k] in groups;
    }
  }

  lemma NoRulesNoLimit(v: View, target: string, except: Option<TabId>)
    ensures Room(v, [], target, except)
  {}

  lemma AllManagedExist(v: View)
    ensures forall t :: t in Managed(v) ==> t in v.tabs
  {}

  lemma SeenIsManaged(start: View, end: View, ids: set<TabId>, except: Option<TabId>, others: set<TabId>, seen: set<TabId>)
    requires Managed(end) <= ids <= Managed(start) && others == if except.Some? then ids - {except.value} else ids
    requires seen <= others && forall t :: t in others && t in end.tabs ==> t in seen
    ensures forall t :: t in seen ==> t in Managed(start) && except != Some(t)
    ensures forall t :: t in Managed(end) && except != Some(t) ==> t in seen
  {
    AllManagedExist(end);
    hide Managed;
  }

  lemma NothingCounted(tabs: map<TabId, Tab>)
    ensures forall d :: Count([], d) == |Covered(tabs, {}, d)|
  {
    forall d ensures Count([], d) == |Covered(tabs, {}, d)| {
      assert Covered(tabs, {}, d) == {};
    }
  }

  lemma CountSteps(tabs: map<TabId, Tab>, ids: set<TabId>, t: TabId, hosts: seq<string>)
    requires t in tabs && t !in ids && forall d :: Count(hosts, d) == |Covered(tabs, ids, d)|
    ensures forall d :: Count(hosts + [tabs[t].host], d) == |Covered(tabs, ids + {t}, d)|
  {
    forall d ensures Count(hosts + [tabs[t].host], d) == |Covered(tabs, ids + {t}, d)| {
      CountStep(tabs, ids, t, hosts, d);
    }
  }

  lemma RoomFromCount(start: View, end: View, rules: seq<Rule>, target: string, except: Option<TabId>, seen: set<TabId>,
                      hosts: seq<string>)
    requires TabsLater(start.tabs, end.tabs)
    requires forall t :: t in seen ==> t in Managed(start) && except != Some(t)
    requires forall t :: t in Managed(end) && except != Some(t) ==> t in seen
    requires forall d :: Count(hosts, d) == |Covered(start.tabs, seen, d)|
    ensures Passes(rules, Some(target), hosts) ==> Room(end, rules, target, except)
    ensures !Passes(rules, Some(target), hosts) ==> !Room(start, rules, target, except)
  {
    forall r | Applies(rules, Some(target), r)
      ensures var d := Domains.Normal(r.domain);
              |CoveredTabs(end, d, except)| <= Count(hosts, d) <= |CoveredTabs(start, d, except)|
    {
      CountIsBetween(start, end, seen, except, Domains.Normal(r.domain));
    }
  }

  lemma RecordShrinks(a: View, b: View, key: string)
    requires Later(a, b) && key in a.sessions
    ensures key in b.sessions && forall t :: t in b.sessions[key].tabIds ==> t in a.sessions[key].tabIds
  {
    assert SessionLater(a.sessions[key], b.sessions[key], a.tabs, b.tabs);
  }

  lemma RecordedIsManaged(start: View, first: View, now: View, key: string, t: TabId)
    requires Later(start, first) && Later(first, now) && key in first.sessions && t in first.sessions[key].tabIds && t in now.tabs
    ensures t in Managed(start)
  {
    assert key in start.sessions;
    RecordShrinks(start, first, key);
    assert InSomeSession(start, t);
  }

  lemma GroupedIsManaged(start: View, now: View, g: Group)
    requires Later(start, now) && g in start.groups && Tracks(start.owned, start.sessions, g)
    ensures forall t :: t in now.tabs && now.tabs[t].group == Some(g.id) ==> t in Managed(start)
  {
    TracksMeans(start, g.id);
  }

  lemma ManagedIsCollected(mid: View, now: View, recorded: set<TabId>, ids: set<TabId>, t: TabId)
    requires Later(mid, now) && recorded <= ids && t in Managed(now)
    requires forall t :: t in mid.tabs && InSomeSession(mid, t) ==> t in recorded
    requires forall t, g :: t in now.tabs && g in now.groups && now.tabs[t].group == Some(g.id) && Tracks(now.owned, now.sessions, g) ==> t in ids
    ensures t in ids
  {
    hide Tracks, GroupManaged, InSomeSession;
    LaterInSession(mid, now, t);
    if !InSomeSession(now, t) {
      TracksMeans(now, now.tabs[t].group.value);
    }
  }

  method AddAll(s: seq<TabId>, ids: seq<TabId>) returns (r: seq<TabId>)
    ensures forall t :: t in r <==> t in s || t in ids
    ensures s <= r && ((forall t :: t in ids ==> t in s) ==> r == s)
  {
    r := s;
    var k := 0;
    while k < |ids|
      invariant k <= |ids| && s <= r
      invariant forall t :: t in r <==> t in s || t in ids[..k]
      invariant (forall t :: t in ids[..k] ==> t in s) ==> r == s
    {
      assert ids[..k + 1] == ids[..k] + [ids[k]];
      r := Add(r, ids[k]);
      k := k + 1;
    }
    assert ids[..k] == ids;
  }
}
