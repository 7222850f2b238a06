/** What the session bookkeeping is about: the browser's tabs and groups, the stored group ownership, and
    the in-memory session records; which tabs count as managed, and how that set can change. */
module Sessions {
  import opened Prelude
  import Domains
  import opened TabLimits

  type TabId = nat
  type GroupId = nat

  /** `host` is the host of the pending URL if there is one, else of the current one. */
  datatype Tab = Tab(host: string, group: Option<GroupId>)

  datatype Group = Group(id: GroupId, title: string)

  /** `tabIds` holds the members of a set in the order they were added. */
  datatype Session = Session(groupId: Option<GroupId>, active: Option<TabId>, tabIds: seq<TabId>)

  const FRESH := Session(None, None, [])

  /** `groups` is in the browser's listing order. */
  datatype View = View(tabs: map<TabId, Tab>, groups: seq<Group>, owned: map<GroupId, string>,
                       sessions: map<string, Session>)

  // ---------------------------------------------------------------- insertion-ordered sets

  function Add(s: seq<TabId>, id: TabId): (r: seq<TabId>)
    ensures forall t :: t in r <==> t in s || t == id
    ensures s <= r && (id in s ==> r == s)
  {
    if id in s then s else s + [id]
  }

  function Delete(s: seq<TabId>, id: TabId): (r: seq<TabId>)
    ensures forall t :: t in r <==> t in s && t != id
    ensures id !in s ==> r == s
  {
    if s == [] then []
    else
      var n := |s| - 1;
      assert s == s[..n] + [s[n]];
      if s[n] == id then Delete(s[..n], id) else Delete(s[..n], id) + [s[n]]
  }

  function Last(s: seq<TabId>): (r: Option<TabId>)
    ensures r.None? <==> s == []
    ensures r.Some? ==> r.value in s
  {
    if s == [] then None else Some(s[|s| - 1])
  }

  // ---------------------------------------------------------------- the bookkeeping rule

  predicate ActiveIn(s: Session) {
    s.active.Some? ==> s.active.value in s.tabIds
  }

  predicate NoneOnlyIfEmpty(s: Session) {
    s.active.None? ==> s.tabIds == []
  }

  predicate LiveActiveIn(s: Session, tabs: map<TabId, Tab>) {
    s.active.Some? && s.active.value in tabs ==> s.active.value in s.tabIds
  }

  /** There is no active tab exactly when there is no tab, and otherwise it is one of them. */
  predicate Kept(s: Session) {
    (s.active.None? <==> s.tabIds == []) && ActiveIn(s)
  }

  ghost predicate AllKept(sessions: map<string, Session>) {
    forall k :: k in sessions ==> Kept(sessions[k])
  }

  function SessionOf(sessions: map<string, Session>, key: string): Session {
    if key in sessions then sessions[key] else FRESH
  }

  // ---------------------------------------------------------------- closing tabs

  predicate HasTab(tabs: map<TabId, Tab>, g: GroupId) {
    exists t :: t in tabs && tabs[t].group == Some(g)
  }

  predicate Listed(groups: seq<Group>, g: GroupId) {
    exists k :: 0 <= k < |groups| && groups[k].id == g
  }

  /** The browser drops a group with its last tab. */
  function Occupied(groups: seq<Group>, tabs: map<TabId, Tab>): (r: seq<Group>)
    ensures forall g :: g in r <==> g in groups && HasTab(tabs, g.id)
  {
    if groups == [] then []
    else
      var n := |groups| - 1;
      assert groups == groups[..n] + [groups[n]];
      Occupied(groups[..n], tabs) + (if HasTab(tabs, groups[n].id) then [groups[n]] else [])
  }

  /** A session record after the removal event of a tab. */
  function Heard(s: Session, id: TabId): Session {
    if id in s.tabIds then
      var rest := Delete(s.tabIds, id);
      s.(tabIds := rest, active := if s.active == Some(id) then Last(rest) else s.active)
    else s
  }

  /** What the removal of tabs, and hearing about it, may have done to a session record. */
  ghost predicate SessionLater(a: Session, b: Session, before: map<TabId, Tab>, after: map<TabId, Tab>) {
    && b.groupId == a.groupId
    && (forall t :: t in b.tabIds ==> t in a.tabIds)
    && (forall t :: t in a.tabIds && t in after ==> t in b.tabIds)
    && (a.active.None? ==> b.active.None?)
    && (a.active.Some? && a.active.value in after ==> b.active == a.active)
    && (ActiveIn(a) ==> ActiveIn(b))
    && (NoneOnlyIfEmpty(a) ==> NoneOnlyIfEmpty(b))
    && (LiveActiveIn(a, before) ==> LiveActiveIn(b, after))
  }

  ghost predicate TabsLater(a: map<TabId, Tab>, b: map<TabId, Tab>) {
    forall t :: t in b ==> t in a && a[t] == b[t]
  }

  ghost predicate SessionsLater(a: View, b: View) {
    a.sessions.Keys == b.sessions.Keys &&
    forall k :: k in a.sessions ==> SessionLater(a.sessions[k], b.sessions[k], a.tabs, b.tabs)
  }

  /** `b` is `a` after tabs were closed, groups emptied, and removal events handled, and nothing else. */
  ghost predicate Later(a: View, b: View) {
    && TabsLater(a.tabs, b.tabs)
    && (forall g :: g in b.groups ==> g in a.groups)
    && b.owned == a.owned
    && SessionsLater(a, b)
  }

  lemma LaterNow(v: View)
    ensures Later(v, v)
  {}

  lemma LaterTwice(a: View, b: View, c: View)
    requires Later(a, b) && Later(b, c)
    ensures Later(a, c)
  {
    hide ActiveIn, NoneOnlyIfEmpty, LiveActiveIn;
    forall k | k in a.sessions ensures SessionLater(a.sessions[k], c.sessions[k], a.tabs, c.tabs) {
      assert SessionLater(a.sessions[k], b.sessions[k], a.tabs, b.tabs);
      assert SessionLater(b.sessions[k], c.sessions[k], b.tabs, c.tabs);
    }
  }

  lemma HeardIsLater(s: Session, id: TabId, before: map<TabId, Tab>, after: map<TabId, Tab>)
    requires TabsLater(before, after) && id !in after
    ensures SessionLater(s, Heard(s, id), before, after)
  {}

  // ---------------------------------------------------------------- managed tabs

  ghost predicate InSomeSession(v: View, t: TabId) {
    exists k :: k in v.sessions && t in v.sessions[k].tabIds
  }

  predicate TrackedByRecord(v: View, g: GroupId) {
    exists k :: k in v.sessions && v.sessions[k].groupId == Some(g)
  }

  ghost predicate TitledAsSession(v: View, g: GroupId) {
    exists k :: 0 <= k < |v.groups| && v.groups[k].id == g && v.groups[k].title in v.sessions
  }

  ghost predicate GroupManaged(v: View, g: GroupId) {
    Listed(v.groups, g) && (g in v.owned || TrackedByRecord(v, g) || TitledAsSession(v, g))
  }

  ghost predicate IsManaged(v: View, t: TabId) {
    t in v.tabs && (InSomeSession(v, t) || (v.tabs[t].group.Some? && GroupManaged(v, v.tabs[t].group.value)))
  }

  /** The tabs the caps are about: the live ones of any session, and those in a group that is owned,
      tracked by a session, or titled like one. */
  ghost function Managed(v: View): set<TabId> {
    set t | t in v.tabs && IsManaged(v, t)
  }

  lemma LaterInSession(a: View, b: View, t: TabId)
    requires SessionsLater(a, b)
    ensures InSomeSession(b, t) ==> InSomeSession(a, t)
  {
    if k :| k in b.sessions && t in b.sessions[k].tabIds {
      assert SessionLater(a.sessions[k], b.sessions[k], a.tabs, b.tabs);
    }
  }

  lemma LaterManaged(a: View, b: View)
    requires Later(a, b)
    ensures Managed(b) <= Managed(a) && Shrunk(a, b)
  {
    forall k | k in b.sessions
      ensures b.sessions[k].groupId == a.sessions[k].groupId && forall t :: t in b.sessions[k].tabIds ==> t in a.sessions[k].tabIds
    {
      assert SessionLater(a.sessions[k], b.sessions[k], a.tabs, b.tabs);
    }
    hide SessionLater;
    FewerAreManaged(a, b);
  }

  // ---------------------------------------------------------------- caps

  ghost function GovernedTabs(v: View, rules: seq<Rule>, i: nat): set<TabId> {
    set t | t in v.tabs && t in Managed(v) && Governs(rules, v.tabs[t].host, i)
  }

  /** The managed tabs whose most specific rule is rule `i`. */
  ghost function Load(v: View, rules: seq<Rule>, i: nat): nat {
    |GovernedTabs(v, rules, i)|
  }

  /** Every rule's load is within its cap. A rule without a positive cap governs nothing. */
  ghost predicate Capped(v: View, rules: seq<Rule>) {
    forall i: nat :: i < |rules| && rules[i].max > 0 ==> Load(v, rules, i) <= rules[i].max
  }

  /** No rule is further over its cap than before: a load that grew is within the cap. */
  ghost predicate NoOverrun(a: View, b: View, rules: seq<Rule>) {
    forall i: nat :: i < |rules| && rules[i].max > 0 ==>
      Load(b, rules, i) <= Load(a, rules, i) || Load(b, rules, i) <= rules[i].max
  }

  lemma NoOverrunKeepsCaps(a: View, b: View, rules: seq<Rule>)
    requires NoOverrun(a, b, rules)
    ensures Capped(a, rules) ==> Capped(b, rules)
  {}

  lemma NoOverrunTwice(a: View, b: View, c: View, rules: seq<Rule>)
    requires NoOverrun(a, b, rules) && NoOverrun(b, c, rules)
    ensures NoOverrun(a, c, rules)
  {}

  /** The managed tabs other than `except` that a domain covers. */
  ghost function CoveredTabs(v: View, d: string, except: Option<TabId>): set<TabId> {
    set t | t in v.tabs && t in Managed(v) && except != Some(t) && Domains.Matches(v.tabs[t].host, d)
  }

  /** Each rule to check for a target has a place left among the tabs other than `except`. */
  ghost predicate Room(v: View, rules: seq<Rule>, target: string, except: Option<TabId>) {
    forall r :: Applies(rules, Some(target), r) ==> |CoveredTabs(v, Domains.Normal(r.domain), except)| < r.max
  }

  /** The managed tabs are among those of before, with the same hosts, apart from tabs without a host. */
  ghost predicate Shrunk(a: View, b: View) {
    forall t :: t in Managed(b) && t in b.tabs && b.tabs[t].host != "" ==>
      t in Managed(a) && t in a.tabs && b.tabs[t].host == a.tabs[t].host
  }

  lemma ShrunkTwice(a: View, b: View, c: View)
    requires Shrunk(a, b) && Shrunk(b, c)
    ensures Shrunk(a, c)
  {
    hide IsManaged;
  }

  lemma ShrinkingKeepsRoom(a: View, b: View, rules: seq<Rule>, target: string, except: Option<TabId>)
    requires Room(a, rules, target, except) && Shrunk(a, b)
    ensures Room(b, rules, target, except)
  {
    forall r | Applies(rules, Some(target), r)
      ensures |CoveredTabs(b, Domains.Normal(r.domain), except)| < r.max
    {
      SubsetSize(CoveredTabs(b, Domains.Normal(r.domain), except), CoveredTabs(a, Domains.Normal(r.domain), except));
    }
  }

  lemma ShrinkingOverrunsNothing(a: View, b: View, rules: seq<Rule>)
    requires Shrunk(a, b)
    ensures NoOverrun(a, b, rules)
  {
    forall i: nat | i < |rules| ensures Load(b, rules, i) <= Load(a, rules, i) {
      NothingGovernsNoHost(rules, i);
      SubsetSize(GovernedTabs(b, rules, i), GovernedTabs(a, rules, i));
    }
  }

  /** Cap safety of one placement: if the check found room for the target apart from the tab `except`,
      and then the managed tabs only shrank, lost `except` unless it is the tab `y` itself, and gained
      at most `y`, which now has the target as its host, no rule is overrun. */
  lemma PlacementOverrunsNothing(a: View, b: View, rules: seq<Rule>, target: string, except: Option<TabId>, y: TabId)
    requires Room(a, rules, target, except)
    requires y in b.tabs && b.tabs[y].host == target
    requires forall t :: t in Managed(b) && t != y ==>
               t in Managed(a) && t in a.tabs && except != Some(t) && b.tabs[t].host == a.tabs[t].host
    ensures NoOverrun(a, b, rules)
  {
    forall i: nat | i < |rules| && rules[i].max > 0
      ensures Load(b, rules, i) <= Load(a, rules, i) || Load(b, rules, i) <= rules[i].max
    {
      var after := GovernedTabs(b, rules, i);
      if Governs(rules, target, i) {
        OneRuleGoverns(rules, target, i, i);
        var d := DomainOf(rules[i]);
        var covered := CoveredTabs(a, d, except);
        assert d != "" && target != "" by {
          if target == "" {
            NothingGovernsNoHost(rules, i);
          }
        }
        assert Applies(rules, Some(target), rules[i]);
        forall t | t in after - {y} ensures t in covered {
          OneRuleGoverns(rules, b.tabs[t].host, i, i);
        }
        SubsetSize(after - {y}, covered);
        assert |after| <= |after - {y}| + 1;
      } else {
        SubsetSize(after, GovernedTabs(a, rules, i));
      }
    }
  }

  lemma NothingGovernsNoHost(rules: seq<Rule>, i: nat)
    ensures !Governs(rules, "", i)
  {}

  // ---------------------------------------------------------------- recovery

  /** The groups a session recovers: titled with its name, or owned by it. */
  predicate Belongs(g: Group, owned: map<GroupId, string>, key: string) {
    g.title == key || (g.id in owned && owned[g.id] == key)
  }

  function Mine(groups: seq<Group>, owned: map<GroupId, string>, key: string): (r: seq<Group>)
    ensures forall g :: g in r <==> g in groups && Belongs(g, owned, key)
  {
    if groups == [] then []
    else
      var n := |groups| - 1;
      assert groups == groups[..n] + [groups[n]];
      Mine(groups[..n], owned, key) + (if Belongs(groups[n], owned, key) then [groups[n]] else [])
  }

  /** Every live tab of the session's groups is in its record. */
  ghost predicate Covers(v: View, key: string) {
    key in v.sessions && forall t, g ::
      t in v.tabs && g in v.groups && v.tabs[t].group == Some(g.id) && Belongs(g, v.owned, key) ==> t in v.sessions[key].tabIds
  }

  /** The effect of reconciling an undisturbed browser. */
  ghost predicate Reconciled(a: View, b: View, key: string) {
    var mine := Mine(a.groups, a.owned, key);
    var s := SessionOf(a.sessions, key);
    && b.tabs == a.tabs && b.groups == a.groups
    && key in b.sessions && b.sessions == a.sessions[key := b.sessions[key]]
    && if mine == [] then
         && b.owned == a.owned
         && b.sessions[key] == (if s.groupId.Some? && !Listed(a.groups, s.groupId.value) then s.(groupId := None) else s)
       else
         && b.owned == OwnedBy(a.owned, mine, key)
         && Adopted(s, b.sessions[key], a.tabs, mine)
  }

  function OwnedBy(owned: map<GroupId, string>, mine: seq<Group>, key: string): map<GroupId, string> {
    if mine == [] then owned else OwnedBy(owned, mine[..|mine| - 1], key)[mine[|mine| - 1].id := key]
  }

  /** The record keeps its tabs, gains exactly the tabs of its groups, and picks the last one when its
      active tab is gone. */
  ghost predicate Adopted(s: Session, r: Session, tabs: map<TabId, Tab>, mine: seq<Group>)
    requires mine != []
  {
    && r.groupId == Some(mine[0].id)
    && s.tabIds <= r.tabIds
    && (forall t :: t in r.tabIds <==> t in s.tabIds || (t in tabs && InOneOf(tabs[t], mine)))
    && ((forall t :: t in tabs && InOneOf(tabs[t], mine) ==> t in s.tabIds) ==> r.tabIds == s.tabIds)
    && r.active == (if s.active.Some? && s.active.value in tabs then s.active else Last(r.tabIds))
  }

  predicate InOneOf(tab: Tab, mine: seq<Group>) {
    exists k :: 0 <= k < |mine| && tab.group == Some(mine[k].id)
  }

  ghost predicate DistinctIds(groups: seq<Group>) {
    forall i, j :: 0 <= i < j < |groups| ==> groups[i].id != groups[j].id
  }

  lemma {:induction false} OwnedByMeans(owned: map<GroupId, string>, mine: seq<Group>, key: string, g: GroupId)
    ensures Listed(mine, g) ==> g in OwnedBy(owned, mine, key) && OwnedBy(owned, mine, key)[g] == key
    ensures !Listed(mine, g) ==> (g in OwnedBy(owned, mine, key) <==> g in owned)
    ensures !Listed(mine, g) && g in owned ==> OwnedBy(owned, mine, key)[g] == owned[g]
    decreases |mine|
  {
    if mine != [] {
      OwnedByMeans(owned, mine[..|mine| - 1], key, g);
      assert mine == mine[..|mine| - 1] + [mine[|mine| - 1]];
      assert Listed(mine[..|mine| - 1], g) ==> Listed(mine, g);
      if k :| 0 <= k < |mine| && mine[k].id == g && k < |mine| - 1 {
        assert mine[..|mine| - 1][k].id == g;
      }
    }
  }

  lemma {:induction false} MineDependsOnBelongs(groups: seq<Group>, o: map<GroupId, string>, p: map<GroupId, string>, key: string)
    requires forall g :: g in groups ==> (Belongs(g, o, key) <==> Belongs(g, p, key))
    ensures Mine(groups, o, key) == Mine(groups, p, key)
    decreases |groups|
  {
    if groups != [] {
      MineDependsOnBelongs(groups[..|groups| - 1], o, p, key);
    }
  }

  /** Owning the groups one recovered does not change which groups one recovers. */
  lemma OwningIsStable(groups: seq<Group>, owned: map<GroupId, string>, key: string)
    requires DistinctIds(groups)
    ensures var mine := Mine(groups, owned, key); var then_ := OwnedBy(owned, mine, key);
            Mine(groups, then_, key) == mine && OwnedBy(then_, mine, key) == then_
  {
    var mine := Mine(groups, owned, key);
    var after := OwnedBy(owned, mine, key);
    forall g | g in groups ensures Belongs(g, owned, key) <==> Belongs(g, after, key) {
      OwnedByMeans(owned, mine, key, g.id);
      if k :| 0 <= k < |mine| && mine[k].id == g.id {
        assert mine[k] in mine;
        assert g == mine[k];
      }
      if Belongs(g, owned, key) {
        var k :| 0 <= k < |mine| && mine[k] == g;
      }
    }
    MineDependsOnBelongs(groups, owned, after, key);
    var again := OwnedBy(after, mine, key);
    forall g ensures (g in again <==> g in after) && (g in again ==> again[g] == after[g]) {
      OwnedByMeans(owned, mine, key, g);
      OwnedByMeans(after, mine, key, g);
    }
    assert again == after;
  }

  lemma AdoptedTwice(s: Session, r: Session, q: Session, tabs: map<TabId, Tab>, mine: seq<Group>)
    requires mine != [] && Adopted(s, r, tabs, mine) && Adopted(r, q, tabs, mine)
    ensures q == r
  {
    assert q.tabIds == r.tabIds;
  }

  lemma SameRecord(a: View, b: View, c: View, key: string)
    requires DistinctIds(a.groups) && Reconciled(a, b, key) && Reconciled(b, c, key)
    ensures c.sessions[key] == b.sessions[key] && c.owned == b.owned
  {
    OwningIsStable(a.groups, a.owned, key);
    var mine := Mine(a.groups, a.owned, key);
    var s := SessionOf(a.sessions, key);
    assert SessionOf(b.sessions, key) == b.sessions[key];
    hide Mine, OwnedBy, DistinctIds, Adopted, SessionOf;
    if mine != [] {
      AdoptedTwice(s, b.sessions[key], c.sessions[key], a.tabs, mine);
    }
  }

  /** Reconciling a second time changes nothing. */
  lemma ReconcileIsIdempotent(a: View, b: View, c: View, key: string)
    requires DistinctIds(a.groups) && Reconciled(a, b, key) && Reconciled(b, c, key)
    ensures c == b
  {
    SameRecord(a, b, c, key);
    hide Mine, OwnedBy, DistinctIds, Adopted, SessionOf, Listed;
    assert c.sessions == b.sessions;
  }

  /** After the in-memory records are lost, reconciling regains every live tab of each group owned by or
      titled with the session's name, and nothing else, and the record is in order again. */
  lemma ReconcileRecovers(a: View, b: View, key: string)
    requires DistinctIds(a.groups) && Reconciled(a.(sessions := map[]), b, key)
    ensures key in b.sessions && Kept(b.sessions[key]) && Covers(b, key)
    ensures forall t :: t in b.sessions[key].tabIds <==>
              t in a.tabs && exists g :: g in a.groups && a.tabs[t].group == Some(g.id) && Belongs(g, a.owned, key)
    ensures b.sessions[key].groupId.Some? ==> Listed(b.groups, b.sessions[key].groupId.value)
  {
    OwningIsStable(a.groups, a.owned, key);
    var mine := Mine(a.groups, a.owned, key);
    hide Mine, OwnedBy;
    assert mine == Mine(a.groups, b.owned, key);
    forall g | g in a.groups ensures Belongs(g, b.owned, key) <==> g in mine {}
    if mine != [] {
      assert mine[0] in mine;
    }
    forall t | t in a.tabs
      ensures InOneOf(a.tabs[t], mine) <==>
                exists g :: g in a.groups && a.tabs[t].group == Some(g.id) && Belongs(g, a.owned, key)
    {
      if k :| 0 <= k < |mine| && a.tabs[t].group == Some(mine[k].id) {
        assert mine[k] in mine;
      }
      if g :| g in a.groups && a.tabs[t].group == Some(g.id) && Belongs(g, a.owned, key) {
        assert g in mine;
      }
    }
  }

  // ---------------------------------------------------------------- reconciling while tabs close

  /** Which tabs a record holds when those of `mine` have been taken in. */
  ghost predicate TookIn(s: Session, r: Session, before: map<TabId, Tab>, after: map<TabId, Tab>, mine: seq<Group>) {
    && (forall t :: t in r.tabIds ==> t in s.tabIds || (t in before && InOneOf(before[t], mine)))
    && (forall t :: t in s.tabIds && t in after ==> t in r.tabIds)
    && (forall t :: t in after && InOneOf(after[t], mine) ==> t in r.tabIds)
  }

  ghost predicate Gaining(s: Session, r: Session, before: map<TabId, Tab>, after: map<TabId, Tab>, mine: seq<Group>) {
    && TookIn(s, r, before, after, mine)
    && (s.active.Some? && s.active.value in after ==> r.active == s.active)
    && (s.active.None? ==> r.active.None?)
    && (ActiveIn(s) ==> ActiveIn(r))
  }

  lemma GainingLater(s: Session, r: Session, q: Session, before: map<TabId, Tab>, then_: map<TabId, Tab>,
                     after: map<TabId, Tab>, mine: seq<Group>)
    requires Gaining(s, r, before, then_, mine) && SessionLater(r, q, then_, after) && TabsLater(then_, after)
    ensures Gaining(s, q, before, after, mine)
  {}

  /** Taking in one more group. */
  lemma GainingStep(s: Session, r: Session, q: Session, before: map<TabId, Tab>, after: map<TabId, Tab>,
                    mine: seq<Group>, i: nat)
    requires i < |mine| && TabsLater(before, after) && Gaining(s, r, before, after, mine[..i])
    requires q.active == r.active
    requires forall t :: t in q.tabIds <==> t in r.tabIds || (t in after && after[t].group == Some(mine[i].id))
    ensures Gaining(s, q, before, after, mine[..i + 1])
  {
    forall t | t in before ensures InOneOf(before[t], mine[..i + 1]) <==>
                                   InOneOf(before[t], mine[..i]) || before[t].group == Some(mine[i].id) {
      OneMore(before[t], mine, i);
    }
    forall t | t in after ensures InOneOf(after[t], mine[..i + 1]) <==>
                                  InOneOf(after[t], mine[..i]) || after[t].group == Some(mine[i].id) {
      OneMore(after[t], mine, i);
    }
    hide InOneOf;
  }

  lemma OneMore(tab: Tab, mine: seq<Group>, i: nat)
    requires i < |mine|
    ensures InOneOf(tab, mine[..i + 1]) <==> InOneOf(tab, mine[..i]) || tab.group == Some(mine[i].id)
  {
    assert mine[..i + 1][i] == mine[i];
    assert forall k :: 0 <= k < i ==> mine[..i + 1][k] == mine[..i][k];
  }

  /** The same, exactly, when nothing happened meanwhile. */
  ghost predicate GainedExactly(s: Session, r: Session, tabs: map<TabId, Tab>, mine: seq<Group>) {
    && s.tabIds <= r.tabIds && r.active == s.active
    && (forall t :: t in r.tabIds <==> t in s.tabIds || (t in tabs && InOneOf(tabs[t], mine)))
    && ((forall t :: t in tabs && InOneOf(tabs[t], mine) ==> t in s.tabIds) ==> r.tabIds == s.tabIds)
  }

  lemma GainedStep(s: Session, r: Session, q: Session, tabs: map<TabId, Tab>, mine: seq<Group>, i: nat)
    requires i < |mine| && GainedExactly(s, r, tabs, mine[..i])
    requires q.active == r.active && r.tabIds <= q.tabIds
    requires forall t :: t in q.tabIds <==> t in r.tabIds || (t in tabs && tabs[t].group == Some(mine[i].id))
    requires (forall t :: t in tabs && tabs[t].group == Some(mine[i].id) ==> t in r.tabIds) ==> q.tabIds == r.tabIds
    ensures GainedExactly(s, q, tabs, mine[..i + 1])
  {
    forall t | t in tabs ensures InOneOf(tabs[t], mine[..i + 1]) <==>
                                 InOneOf(tabs[t], mine[..i]) || tabs[t].group == Some(mine[i].id) {
      OneMore(tabs[t], mine, i);
    }
    hide InOneOf;
    if forall t :: t in tabs && InOneOf(tabs[t], mine[..i + 1]) ==> t in s.tabIds {
      assert r.tabIds == s.tabIds;
      assert q.tabIds == r.tabIds;
    }
  }

  ghost predicate OthersLater(a: View, b: View, key: string) {
    b.sessions.Keys == a.sessions.Keys + {key} &&
    forall k :: k in a.sessions && k != key ==> SessionLater(a.sessions[k], b.sessions[k], a.tabs, b.tabs)
  }

  /** The record took in its groups' tabs, kept an active tab that lives on, and is in order if it was. */
  ghost predicate RecordLater(s: Session, r: Session, before: map<TabId, Tab>, after: map<TabId, Tab>, mine: seq<Group>) {
    && TookIn(s, r, before, after, mine)
    && (s.active.Some? && s.active.value in after ==> r.active == s.active)
    && (Kept(s) ==> Kept(r))
  }

  /** The groups of `mine` were adopted, whatever tabs were closed meanwhile. */
  ghost predicate AdoptedLater(a: View, b: View, key: string, mine: seq<Group>) {
    && TabsLater(a.tabs, b.tabs)
    && OthersLater(a, b, key)
    && b.owned == OwnedBy(a.owned, mine, key)
    && RecordLater(SessionOf(a.sessions, key), b.sessions[key], a.tabs, b.tabs, mine)
    && (b.sessions[key].groupId.Some? ==>
          b.sessions[key].groupId == SessionOf(a.sessions, key).groupId || Listed(mine, b.sessions[key].groupId.value))
  }

  /** `mine` are groups of the session's, and among them all those still there. */
  ghost predicate OwnGroups(a: View, groups: seq<Group>, key: string, mine: seq<Group>) {
    && (forall g :: g in mine ==> g in a.groups && Belongs(g, a.owned, key))
    && (forall g :: g in groups && Belongs(g, a.owned, key) ==> g in mine)
  }

  /** What reconciling leaves, whatever tabs were closed meanwhile. */
  ghost predicate ReconciledLater(a: View, b: View, key: string, mine: seq<Group>) {
    && (forall g :: g in b.groups ==> g in a.groups)
    && OwnGroups(a, b.groups, key, mine)
    && AdoptedLater(a, b, key, mine)
  }

  /** Reconciling in progress: `j` groups are owned, the tabs of `i` of them taken in. */
  ghost predicate Partway(a: View, b: View, key: string, mine: seq<Group>, i: nat, j: nat) {
    && i <= j <= |mine| && 0 < |mine|
    && TabsLater(a.tabs, b.tabs)
    && OthersLater(a, b, key)
    && b.owned == OwnedBy(a.owned, mine[..j], key)
    && b.sessions[key].groupId == Some(mine[0].id)
    && Gaining(SessionOf(a.sessions, key), b.sessions[key], a.tabs, b.tabs, mine[..i])
  }

  lemma PartwayLater(a: View, b: View, c: View, key: string, mine: seq<Group>, i: nat, j: nat)
    requires Partway(a, b, key, mine, i, j) && Later(b, c)
    ensures Partway(a, c, key, mine, i, j)
  {
    assert SessionLater(b.sessions[key], c.sessions[key], b.tabs, c.tabs);
    GainingLater(SessionOf(a.sessions, key), b.sessions[key], c.sessions[key], a.tabs, b.tabs, c.tabs, mine[..i]);
    hide Gaining, OwnedBy, SessionOf;
    forall k | k in a.sessions && k != key ensures SessionLater(a.sessions[k], c.sessions[k], a.tabs, c.tabs) {
      SessionLaterTwice(a.sessions[k], b.sessions[k], c.sessions[k], a.tabs, b.tabs, c.tabs);
    }
  }

  lemma SessionLaterTwice(r: Session, s: Session, q: Session, a: map<TabId, Tab>, b: map<TabId, Tab>, c: map<TabId, Tab>)
    requires SessionLater(r, s, a, b) && SessionLater(s, q, b, c) && TabsLater(b, c)
    ensures SessionLater(r, q, a, c)
  {}

  lemma PartwayOwns(a: View, b: View, key: string, mine: seq<Group>, i: nat)
    requires Partway(a, b, key, mine, i, i) && i < |mine|
    ensures Partway(a, b.(owned := b.owned[mine[i].id := key]), key, mine, i, i + 1)
  {
    assert mine[..i + 1][..i] == mine[..i];
    hide Gaining, SessionOf, SessionLater;
  }

  lemma PartwayGains(a: View, b: View, key: string, mine: seq<Group>, i: nat, q: Session)
    requires i < |mine| && Partway(a, b, key, mine, i, i + 1)
    requires q.active == b.sessions[key].active && q.groupId == b.sessions[key].groupId
    requires forall t :: t in q.tabIds <==> t in b.sessions[key].tabIds || (t in b.tabs && b.tabs[t].group == Some(mine[i].id))
    ensures Partway(a, b.(sessions := b.sessions[key := q]), key, mine, i + 1, i + 1)
  {
    GainingStep(SessionOf(a.sessions, key), b.sessions[key], q, a.tabs, b.tabs, mine, i);
    hide Gaining, SessionOf, SessionLater, OwnedBy;
  }

  /** The same in an undisturbed browser. */
  ghost predicate PartwayExactly(a: View, b: View, key: string, mine: seq<Group>, i: nat, j: nat) {
    && i <= j <= |mine| && 0 < |mine|
    && b.tabs == a.tabs && b.groups == a.groups
    && key in b.sessions && b.sessions == a.sessions[key := b.sessions[key]]
    && b.owned == OwnedBy(a.owned, mine[..j], key)
    && b.sessions[key].groupId == Some(mine[0].id)
    && GainedExactly(SessionOf(a.sessions, key), b.sessions[key], a.tabs, mine[..i])
  }

  lemma ExactlyOwns(a: View, b: View, key: string, mine: seq<Group>, i: nat)
    requires PartwayExactly(a, b, key, mine, i, i) && i < |mine|
    ensures PartwayExactly(a, b.(owned := b.owned[mine[i].id := key]), key, mine, i, i + 1)
  {
    assert mine[..i + 1][..i] == mine[..i];
    hide GainedExactly, SessionOf;
  }

  lemma ExactlyGains(a: View, b: View, key: string, mine: seq<Group>, i: nat, q: Session)
    requires i < |mine| && PartwayExactly(a, b, key, mine, i, i + 1)
    requires q.active == b.sessions[key].active && q.groupId == b.sessions[key].groupId && b.sessions[key].tabIds <= q.tabIds
    requires forall t :: t in q.tabIds <==> t in b.sessions[key].tabIds || (t in b.tabs && b.tabs[t].group == Some(mine[i].id))
    requires (forall t :: t in b.tabs && b.tabs[t].group == Some(mine[i].id) ==> t in b.sessions[key].tabIds) ==>
               q.tabIds == b.sessions[key].tabIds
    ensures PartwayExactly(a, b.(sessions := b.sessions[key := q]), key, mine, i + 1, i + 1)
  {
    GainedStep(SessionOf(a.sessions, key), b.sessions[key], q, a.tabs, mine, i);
    hide GainedExactly, SessionOf, OwnedBy;
  }

  /** The active tab lives and stays, or the original one is gone and the last tab takes its place. */
  predicate PickedFrom(s: Session, r: Session, q: Session, tabs: map<TabId, Tab>) {
    || (q.active == r.active && r.active.Some? && r.active.value in tabs)
    || (q.active == Last(r.tabIds) && !(s.active.Some? && s.active.value in tabs))
  }

  lemma PartwayActive(a: View, b: View, key: string, mine: seq<Group>, i: nat, j: nat)
    requires Partway(a, b, key, mine, i, j)
    ensures var s := SessionOf(a.sessions, key);
            s.active.Some? && s.active.value in b.tabs ==> b.sessions[key].active == s.active
  {}

  /** Done: the active tab is kept if it lives, else the last tab of the record takes its place. */
  lemma PartwayDone(a: View, b: View, key: string, mine: seq<Group>, q: Session)
    requires Partway(a, b, key, mine, |mine|, |mine|)
    requires q.tabIds == b.sessions[key].tabIds && q.groupId == b.sessions[key].groupId
    requires PickedFrom(SessionOf(a.sessions, key), b.sessions[key], q, b.tabs)
    ensures AdoptedLater(a, b.(sessions := b.sessions[key := q]), key, mine)
  {
    assert mine[..|mine|] == mine;
    assert Listed(mine, mine[0].id);
    OthersReplaced(a, b, key, q);
    GainingDone(SessionOf(a.sessions, key), b.sessions[key], q, a.tabs, b.tabs, mine);
    hide OwnedBy, SessionOf, OthersLater, Gaining, RecordLater, Listed;
  }

  lemma GainingDone(s: Session, r: Session, q: Session, before: map<TabId, Tab>, after: map<TabId, Tab>, mine: seq<Group>)
    requires Gaining(s, r, before, after, mine) && q.tabIds == r.tabIds
    requires PickedFrom(s, r, q, after)
    ensures RecordLater(s, q, before, after, mine)
  {}

  lemma OthersReplaced(a: View, b: View, key: string, q: Session)
    requires OthersLater(a, b, key)
    ensures OthersLater(a, b.(sessions := b.sessions[key := q]), key)
  {
    hide SessionLater;
  }

  lemma AdoptedExactly(s: Session, r: Session, q: Session, tabs: map<TabId, Tab>, mine: seq<Group>)
    requires mine != [] && GainedExactly(s, r, tabs, mine) && r.groupId == Some(mine[0].id)
    requires q.tabIds == r.tabIds && q.groupId == r.groupId
    requires q.active == if r.active.Some? && r.active.value in tabs then r.active else Last(r.tabIds)
    ensures Adopted(s, q, tabs, mine)
  {}

  lemma ExactlyDone(a: View, b: View, key: string, q: Session)
    requires var mine := Mine(a.groups, a.owned, key); PartwayExactly(a, b, key, mine, |mine|, |mine|)
    requires q.tabIds == b.sessions[key].tabIds && q.groupId == b.sessions[key].groupId
    requires var r := b.sessions[key]; q.active == if r.active.Some? && r.active.value in b.tabs then r.active else Last(r.tabIds)
    ensures Reconciled(a, b.(sessions := b.sessions[key := q]), key)
  {
    var mine := Mine(a.groups, a.owned, key);
    assert mine[..|mine|] == mine;
    AdoptedExactly(SessionOf(a.sessions, key), b.sessions[key], q, a.tabs, mine);
    Overwritten(a.sessions, b.sessions, key, q);
    hide OwnedBy, SessionOf, Mine, Adopted, GainedExactly, Listed, Reconciled;
    IsReconciled(a, b.(sessions := b.sessions[key := q]), key);
  }

  lemma Overwritten(m: map<string, Session>, n: map<string, Session>, key: string, q: Session)
    requires key in n && n == m[key := n[key]]
    ensures n[key := q] == m[key := q]
  {}

  lemma IsReconciled(a: View, c: View, key: string)
    requires var mine := Mine(a.groups, a.owned, key);
             && mine != [] && c.tabs == a.tabs && c.groups == a.groups
             && key in c.sessions && c.sessions == a.sessions[key := c.sessions[key]]
             && c.owned == OwnedBy(a.owned, mine, key)
             && Adopted(SessionOf(a.sessions, key), c.sessions[key], a.tabs, mine)
    ensures Reconciled(a, c, key)
  {
    hide OwnedBy, Adopted, Mine, Listed;
  }


  function Opened(v: View, key: string): View {
    v.(sessions := v.sessions[key := SessionOf(v.sessions, key)])
  }

  function Untracked(s: Session, groups: seq<Group>): Session {
    if s.groupId.Some? && !Listed(groups, s.groupId.value) then s.(groupId := None) else s
  }

  lemma OpenedLater(a: View, b: View, key: string)
    requires Later(Opened(a, key), b)
    ensures OthersLater(a, b, key)
    ensures key in b.sessions && SessionLater(SessionOf(a.sessions, key), b.sessions[key], a.tabs, b.tabs)
  {
    var o := Opened(a, key);
    assert SessionLater(o.sessions[key], b.sessions[key], o.tabs, b.tabs);
    hide SessionLater, SessionOf;
    forall k | k in a.sessions && k != key ensures SessionLater(a.sessions[k], b.sessions[k], a.tabs, b.tabs) {
      assert SessionLater(o.sessions[k], b.sessions[k], o.tabs, b.tabs);
    }
  }

  /** A record that so far only lost tabs. */
  lemma GainingStart(s: Session, r: Session, q: Session, before: map<TabId, Tab>, after: map<TabId, Tab>)
    requires SessionLater(s, r, before, after) && q.active == r.active && q.tabIds == r.tabIds
    ensures Gaining(s, q, before, after, []) && RecordLater(s, q, before, after, [])
  {}

  lemma NoneIsMine(groups: seq<Group>, owned: map<GroupId, string>, key: string)
    requires Mine(groups, owned, key) == []
    ensures forall g :: g in groups ==> !Belongs(g, owned, key)
  {
    hide Belongs;
    forall g | g in groups ensures !Belongs(g, owned, key) {
      assert !(g in Mine(groups, owned, key));
    }
  }

  /** Reconciling when no group is the session's. */
  lemma NothingToAdopt(a: View, b: View, key: string, q: Session)
    requires Later(Opened(a, key), b) && Mine(b.groups, b.owned, key) == []
    requires key in b.sessions && q == Untracked(b.sessions[key], b.groups)
    ensures ReconciledLater(a, b.(sessions := b.sessions[key := q]), key, [])
  {
    OpenedLater(a, b, key);
    NoneIsMine(b.groups, b.owned, key);
    AdoptedNothing(a, b, key, q);
    hide SessionsLater, Belongs, Mine, AdoptedLater, Untracked, OthersLater, SessionLater, SessionOf;
  }

  lemma AdoptedNothing(a: View, b: View, key: string, q: Session)
    requires OthersLater(a, b, key) && SessionLater(SessionOf(a.sessions, key), b.sessions[key], a.tabs, b.tabs)
    requires TabsLater(a.tabs, b.tabs) && b.owned == a.owned && q == Untracked(b.sessions[key], b.groups)
    ensures AdoptedLater(a, b.(sessions := b.sessions[key := q]), key, [])
  {
    GainingStart(SessionOf(a.sessions, key), b.sessions[key], q, a.tabs, b.tabs);
    OthersReplaced(a, b, key, q);
    hide OthersLater, RecordLater, Gaining, Listed, SessionOf;
  }

  /** The first step of adopting: the record, opened if need be, points at the first group. */
  lemma PartwayStart(a: View, b: View, key: string, mine: seq<Group>, q: Session)
    requires Later(Opened(a, key), b) && mine != []
    requires key in b.sessions && q == b.sessions[key].(groupId := Some(mine[0].id))
    ensures Partway(a, b.(sessions := b.sessions[key := q]), key, mine, 0, 0)
  {
    OpenedLater(a, b, key);
    GainingStart(SessionOf(a.sessions, key), b.sessions[key], q, a.tabs, b.tabs);
    assert mine[..0] == [];
    hide SessionOf, SessionLater, Gaining;
  }

  lemma PartwayHasRecord(a: View, b: View, key: string, mine: seq<Group>, i: nat, j: nat)
    requires Partway(a, b, key, mine, i, j)
    ensures key in b.sessions
  {}

  lemma ExactlyStart(a: View, key: string, mine: seq<Group>)
    requires mine != []
    ensures var b := Opened(a, key); var q := b.sessions[key].(groupId := Some(mine[0].id));
            PartwayExactly(a, b.(sessions := b.sessions[key := q]), key, mine, 0, 0)
  {}

  lemma MineIsOwn(a: View, b: View, key: string)
    requires (forall g :: g in b.groups ==> g in a.groups) && b.owned == a.owned
    ensures OwnGroups(a, b.groups, key, Mine(b.groups, b.owned, key))
  {}

  lemma ReconciledNothing(a: View, b: View, key: string)
    requires Mine(a.groups, a.owned, key) == []
    requires b == Opened(a, key).(sessions := Opened(a, key).sessions[key := Untracked(SessionOf(a.sessions, key), a.groups)])
    ensures Reconciled(a, b, key)
  {
    hide Mine;
  }

  lemma OpenedHasRecord(a: View, b: View, key: string)
    requires Later(Opened(a, key), b)
    ensures key in b.sessions
  {
    assert key in Opened(a, key).sessions;
  }

  lemma FewerStillOwn(a: View, groups: seq<Group>, fewer: seq<Group>, key: string, mine: seq<Group>)
    requires OwnGroups(a, groups, key, mine) && forall g :: g in fewer ==> g in groups
    ensures OwnGroups(a, fewer, key, mine)
  {}

  // ---------------------------------------------------------------- consequences of reconciling

  /** No group bears the session's name without being owned. */
  ghost predicate NoStranger(v: View, key: string) {
    forall g :: g in v.groups && g.title == key ==> g.id in v.owned
  }

  /** Unowned groups are old ones. */
  ghost predicate NoNewStrangers(a: View, b: View) {
    forall g :: g in b.groups && g.id !in b.owned ==> g in a.groups && g.id !in a.owned
  }

  lemma OwnGroupIsManaged(a: View, key: string, mine: seq<Group>, g: GroupId)
    requires NoStranger(a, key) && (forall gr :: gr in mine ==> gr in a.groups && Belongs(gr, a.owned, key))
    requires Listed(mine, g)
    ensures g in a.owned && Listed(a.groups, g)
  {
    var k :| 0 <= k < |mine| && mine[k].id == g;
    assert mine[k] in mine;
    var j :| 0 <= j < |a.groups| && a.groups[j] == mine[k];
  }

  /** Reconciling makes no tab managed that was not. */
  lemma ReconcilingManagesNoMore(a: View, b: View, key: string, mine: seq<Group>)
    requires ReconciledLater(a, b, key, mine) && NoStranger(a, key)
    ensures Managed(b) <= Managed(a) && Shrunk(a, b)
  {
    forall t | t in Managed(b) ensures t in Managed(a) {
      if InSomeSession(b, t) {
        RecordedWasManaged(a, b, key, mine, t);
      } else {
        ManagedGroupWas(a, b, key, mine, b.tabs[t].group.value);
      }
    }
  }

  lemma RecordedWasManaged(a: View, b: View, key: string, mine: seq<Group>, t: TabId)
    requires ReconciledLater(a, b, key, mine) && NoStranger(a, key) && t in b.tabs && InSomeSession(b, t)
    ensures IsManaged(a, t)
  {
    hide OwnedBy, NoStranger;
    var k :| k in b.sessions && t in b.sessions[k].tabIds;
    if k != key {
      assert SessionLater(a.sessions[k], b.sessions[k], a.tabs, b.tabs);
      assert InSomeSession(a, t);
    } else if t in SessionOf(a.sessions, key).tabIds {
      assert key in a.sessions && InSomeSession(a, t);
    } else {
      var j :| 0 <= j < |mine| && a.tabs[t].group == Some(mine[j].id);
      OwnGroupIsManaged(a, key, mine, mine[j].id);
    }
  }

  lemma ManagedGroupWas(a: View, b: View, key: string, mine: seq<Group>, g: GroupId)
    requires ReconciledLater(a, b, key, mine) && NoStranger(a, key) && GroupManaged(b, g)
    ensures GroupManaged(a, g)
  {
    ListedBefore(a.groups, b.groups, g);
    OwnedByMeans(a.owned, mine, key, g);
    if Listed(mine, g) {
      OwnGroupIsManaged(a, key, mine, g);
    } else if TrackedByRecord(b, g) {
      TrackedBefore(a, b, key, mine, g);
    } else if TitledAsSession(b, g) {
      var k :| 0 <= k < |b.groups| && b.groups[k].id == g && b.groups[k].title in b.sessions;
      assert b.groups[k] in b.groups && b.groups[k] in a.groups;
      var j :| 0 <= j < |a.groups| && a.groups[j] == b.groups[k];
    }
  }

  lemma ListedBefore(before: seq<Group>, after: seq<Group>, g: GroupId)
    requires (forall gr :: gr in after ==> gr in before) && Listed(after, g)
    ensures Listed(before, g)
  {
    var k :| 0 <= k < |after| && after[k].id == g;
    assert after[k] in after;
    var j :| 0 <= j < |before| && before[j] == after[k];
  }

  lemma TrackedBefore(a: View, b: View, key: string, mine: seq<Group>, g: GroupId)
    requires AdoptedLater(a, b, key, mine) && TrackedByRecord(b, g) && !Listed(mine, g)
    ensures TrackedByRecord(a, g)
  {
    hide OwnedBy, RecordLater, TabsLater;
    var k :| k in b.sessions && b.sessions[k].groupId == Some(g);
    if k != key {
      assert SessionLater(a.sessions[k], b.sessions[k], a.tabs, b.tabs);
    }
  }

  /** Afterwards every live tab of the session's groups is in its record, ownership only grew, and no
      group lost its owner. */
  lemma ReconcilingCovers(a: View, b: View, key: string, mine: seq<Group>)
    requires ReconciledLater(a, b, key, mine)
    ensures Covers(b, key) && NoNewStrangers(a, b)
    ensures Kept(SessionOf(a.sessions, key)) ==> Kept(b.sessions[key])
  {
    forall g | g in b.groups ensures Belongs(g, b.owned, key) ==> g in mine || Listed(mine, g.id) {
      OwnedByMeans(a.owned, mine, key, g.id);
    }
    forall g | g in b.groups && g.id !in b.owned ensures g in a.groups && g.id !in a.owned {
      OwnedByMeans(a.owned, mine, key, g.id);
    }
    forall t, g | t in b.tabs && g in b.groups && b.tabs[t].group == Some(g.id) && Belongs(g, b.owned, key)
      ensures InOneOf(b.tabs[t], mine)
    {
      if g in mine {
        var k :| 0 <= k < |mine| && mine[k] == g;
      }
    }
  }

  // ---------------------------------------------------------------- collecting and counting

  /** Why a listed group's tabs are managed. */
  predicate Tracks(owned: map<GroupId, string>, sessions: map<string, Session>, g: Group) {
    g.id in owned || (exists k :: k in sessions && sessions[k].groupId == Some(g.id)) || g.title in sessions
  }

  lemma TracksMeans(v: View, g: GroupId)
    ensures GroupManaged(v, g) <==> exists gr :: gr in v.groups && gr.id == g && Tracks(v.owned, v.sessions, gr)
  {
    if GroupManaged(v, g) {
      var k :| 0 <= k < |v.groups| && v.groups[k].id == g && (TitledAsSession(v, g) ==> g in v.owned || TrackedByRecord(v, g) || v.groups[k].title in v.sessions);
      assert v.groups[k] in v.groups && Tracks(v.owned, v.sessions, v.groups[k]);
    }
    if gr :| gr in v.groups && gr.id == g && Tracks(v.owned, v.sessions, gr) {
      var k :| 0 <= k < |v.groups| && v.groups[k] == gr;
    }
  }

  lemma TracksLater(a: View, b: View, g: Group)
    requires b.owned == a.owned && SessionsLater(a, b)
    ensures Tracks(a.owned, a.sessions, g) <==> Tracks(b.owned, b.sessions, g)
  {
    if k :| k in b.sessions && b.sessions[k].groupId == Some(g.id) {
      assert SessionLater(a.sessions[k], b.sessions[k], a.tabs, b.tabs);
    }
    if k :| k in a.sessions && a.sessions[k].groupId == Some(g.id) {
      assert SessionLater(a.sessions[k], b.sessions[k], a.tabs, b.tabs);
    }
  }

  /** The members of `ids` a domain covers. */
  ghost function Covered(tabs: map<TabId, Tab>, ids: set<TabId>, d: string): set<TabId> {
    set t | t in ids && t in tabs && Domains.Matches(tabs[t].host, d)
  }

  lemma CountStep(tabs: map<TabId, Tab>, ids: set<TabId>, t: TabId, hosts: seq<string>, d: string)
    requires t in tabs && t !in ids && Count(hosts, d) == |Covered(tabs, ids, d)|
    ensures Count(hosts + [tabs[t].host], d) == |Covered(tabs, ids + {t}, d)|
  {
    assert (hosts + [tabs[t].host])[..|hosts|] == hosts;
    var before, after := Covered(tabs, ids, d), Covered(tabs, ids + {t}, d);
    if Domains.Matches(tabs[t].host, d) {
      assert after == before + {t};
    } else {
      assert after == before;
    }
  }

  /** Hosts collected from tabs that were managed at the start and include all that still are bound the
      count between the two. */
  lemma CountIsBetween(a: View, b: View, seen: set<TabId>, except: Option<TabId>, d: string)
    requires TabsLater(a.tabs, b.tabs)
    requires forall t :: t in seen ==> t in Managed(a) && except != Some(t)
    requires forall t :: t in Managed(b) && except != Some(t) ==> t in seen
    ensures |CoveredTabs(b, d, except)| <= |Covered(a.tabs, seen, d)| <= |CoveredTabs(a, d, except)|
  {
    SubsetSize(CoveredTabs(b, d, except), Covered(a.tabs, seen, d));
    SubsetSize(Covered(a.tabs, seen, d), CoveredTabs(a, d, except));
  }

  // ---------------------------------------------------------------- binding, grouping, titling

  function Bound(v: View, key: string, id: TabId): View {
    var s := SessionOf(v.sessions, key);
    v.(sessions := v.sessions[key := s.(tabIds := Add(s.tabIds, id), active := Some(id))])
  }

  /** A record that comes into being makes nothing managed; a tab put into it is the only one that may
      become so. */
  lemma BindingManagesOne(a: View, key: string, id: TabId)
    requires NoStranger(a, key) || key in a.sessions
    ensures forall t :: t in Managed(Bound(a, key, id)) && t != id ==> t in Managed(a)
  {
    var b := Bound(a, key, id);
    forall t | t in Managed(b) && t != id ensures t in Managed(a) {
      if k :| k in b.sessions && t in b.sessions[k].tabIds {
        assert k in a.sessions && t in a.sessions[k].tabIds;
      } else {
        BindingManagesNoGroup(a, key, id, b.tabs[t].group.value);
      }
    }
  }

  lemma BindingManagesNoGroup(a: View, key: string, id: TabId, g: GroupId)
    requires (NoStranger(a, key) || key in a.sessions) && GroupManaged(Bound(a, key, id), g)
    ensures GroupManaged(a, g)
  {
    var b := Bound(a, key, id);
    if k :| k in b.sessions && b.sessions[k].groupId == Some(g) {
      assert k in a.sessions && a.sessions[k].groupId == Some(g);
    } else if k :| 0 <= k < |b.groups| && b.groups[k].id == g && b.groups[k].title in b.sessions {
      assert a.groups[k] in a.groups;
    }
  }

  /** Opening a record alone. */
  lemma OpeningManagesNothing(a: View, key: string)
    requires NoStranger(a, key)
    ensures Managed(Opened(a, key)) <= Managed(a) && Shrunk(a, Opened(a, key))
  {
    var b := Opened(a, key);
    forall t | t in Managed(b) ensures t in Managed(a) {
      if k :| k in b.sessions && t in b.sessions[k].tabIds {
        assert k in a.sessions && t in a.sessions[k].tabIds;
      } else {
        var g := b.tabs[t].group.value;
        if k :| k in b.sessions && b.sessions[k].groupId == Some(g) {
          assert k in a.sessions && a.sessions[k].groupId == Some(g);
        } else if k :| 0 <= k < |b.groups| && b.groups[k].id == g && b.groups[k].title in b.sessions {
          assert a.groups[k] in a.groups;
        }
      }
    }
  }

  /** Putting the session's tab `z` into its group `g`: an existing group its record tracks, or a new one
      that holds no other tab. Either way the group is owned in the end, unless it is gone. */
  ghost predicate Regrouped(a: View, b: View, key: string, z: TabId, g: GroupId) {
    && (forall t :: t in b.tabs ==> t in a.tabs && b.tabs[t].host == a.tabs[t].host)
    && (forall t :: t in b.tabs && t != z ==> b.tabs[t].group == a.tabs[t].group)
    && b.sessions.Keys == a.sessions.Keys
    && (forall k :: k in a.sessions ==>
          SessionLater(a.sessions[k], b.sessions[k].(groupId := a.sessions[k].groupId), a.tabs, b.tabs))
    && (forall k :: k in a.sessions && b.sessions[k].groupId != a.sessions[k].groupId ==> b.sessions[k].groupId == Some(g))
    && (forall h :: h in a.owned ==> h in b.owned)
    && (forall h :: h in b.owned ==> h in a.owned || h == g)
    && (forall gr :: gr in b.groups && gr !in a.groups ==> gr.id == g && g in b.owned)
    && (TrackedByRecord(a, g) || forall t :: t in a.tabs ==> a.tabs[t].group != Some(g))
  }

  /** The browser lists the group of every tab. */
  ghost predicate GroupsListed(v: View) {
    forall t :: t in v.tabs && v.tabs[t].group.Some? ==> Listed(v.groups, v.tabs[t].group.value)
  }

  lemma RegroupingManagesNoMore(a: View, b: View, key: string, z: TabId, g: GroupId)
    requires Regrouped(a, b, key, z, g) && InSomeSession(a, z) && GroupsListed(a)
    ensures Managed(b) <= Managed(a) && Shrunk(a, b) && NoNewStrangers(a, b)
  {
    forall t | t in Managed(b) ensures t in Managed(a) {
      if k :| k in b.sessions && t in b.sessions[k].tabIds {
        assert t in a.sessions[k].tabIds;
      } else if t != z {
        RegroupedGroupWas(a, b, key, z, g, t);
      }
    }
    hide IsManaged;
  }

  lemma RegroupedGroupWas(a: View, b: View, key: string, z: TabId, g: GroupId, t: TabId)
    requires Regrouped(a, b, key, z, g) && t in b.tabs && t != z && GroupsListed(a)
    requires b.tabs[t].group.Some? && GroupManaged(b, b.tabs[t].group.value)
    ensures GroupManaged(a, a.tabs[t].group.value)
  {
    var h := b.tabs[t].group.value;
    assert a.tabs[t].group == Some(h) && Listed(a.groups, h);
    hide SessionLater, Listed;
    if h != g {
      if TrackedByRecord(b, h) {
        var k :| k in b.sessions && b.sessions[k].groupId == Some(h);
        assert a.sessions[k].groupId == Some(h);
      } else if TitledAsSession(b, h) {
        RegroupedTitles(a, b, g, h);
      }
    }
  }

  lemma RegroupedTitles(a: View, b: View, g: GroupId, h: GroupId)
    requires b.sessions.Keys == a.sessions.Keys && h != g && TitledAsSession(b, h)
    requires forall gr :: gr in b.groups && gr !in a.groups ==> gr.id == g
    ensures TitledAsSession(a, h)
  {
    var k :| 0 <= k < |b.groups| && b.groups[k].id == h && b.groups[k].title in b.sessions;
    assert b.groups[k] in b.groups && b.groups[k] in a.groups;
  }

  function Retitled(groups: seq<Group>, g: GroupId, title: string): (r: seq<Group>)
    ensures |r| == |groups|
    ensures forall k :: 0 <= k < |r| ==> r[k].id == groups[k].id && r[k].title == if r[k].id == g then title else groups[k].title
  {
    seq(|groups|, k requires 0 <= k < |groups| => if groups[k].id == g then Group(g, title) else groups[k])
  }

  function Moved(v: View, z: TabId, g: GroupId): View
    requires z in v.tabs
  {
    v.(tabs := v.tabs[z := v.tabs[z].(group := Some(g))])
  }

  function Tracking(v: View, key: string, g: GroupId): View
    requires key in v.sessions
  {
    v.(sessions := v.sessions[key := v.sessions[key].(groupId := Some(g))])
  }

  function Owning(v: View, g: GroupId, key: string): View {
    v.(owned := v.owned[g := key])
  }

  lemma LaterIsRegrouped(a: View, b: View, key: string, z: TabId, g: GroupId)
    requires Later(a, b) && (TrackedByRecord(a, g) || forall t :: t in a.tabs ==> a.tabs[t].group != Some(g))
    ensures Regrouped(a, b, key, z, g)
  {
    hide ActiveIn, NoneOnlyIfEmpty, LiveActiveIn, Kept;
    forall k | k in a.sessions
      ensures b.sessions[k].groupId == a.sessions[k].groupId
      ensures SessionLater(a.sessions[k], b.sessions[k].(groupId := a.sessions[k].groupId), a.tabs, b.tabs)
    {
      assert SessionLater(a.sessions[k], b.sessions[k], a.tabs, b.tabs);
      assert b.sessions[k].(groupId := a.sessions[k].groupId) == b.sessions[k];
    }
  }

  /** More closing after regrouping. */
  lemma RegroupedLater(a: View, b: View, c: View, key: string, z: TabId, g: GroupId)
    requires Regrouped(a, b, key, z, g) && Later(b, c)
    ensures Regrouped(a, c, key, z, g)
  {
    hide ActiveIn, NoneOnlyIfEmpty, LiveActiveIn, Kept, TrackedByRecord;
    forall k | k in a.sessions
      ensures c.sessions[k].groupId == b.sessions[k].groupId
      ensures SessionLater(a.sessions[k], c.sessions[k].(groupId := a.sessions[k].groupId), a.tabs, c.tabs)
    {
      RegroupedRecord(a.sessions[k], b.sessions[k], c.sessions[k], a.tabs, b.tabs, c.tabs);
    }
  }

  lemma RegroupedRecord(r: Session, s: Session, q: Session, a: map<TabId, Tab>, b: map<TabId, Tab>, c: map<TabId, Tab>)
    requires SessionLater(r, s.(groupId := r.groupId), a, b) && SessionLater(s, q, b, c) && TabsLater(b, c)
    ensures SessionLater(r, q.(groupId := r.groupId), a, c)
  {}

  /** Moving the tab into the group and owning the group. */
  lemma RegroupedMove(a: View, b: View, key: string, z: TabId, g: GroupId)
    requires Regrouped(a, b, key, z, g) && z in b.tabs
    ensures Regrouped(a, Moved(b, z, g), key, z, g)
  {
    hide TrackedByRecord, Kept;
  }

  lemma RegroupedOwn(a: View, b: View, key: string, z: TabId, g: GroupId)
    requires Regrouped(a, b, key, z, g)
    ensures Regrouped(a, Owning(b, g, key), key, z, g)
  {
    hide TrackedByRecord, SessionLater;
  }

  lemma RegroupedCreate(a: View, b: View, key: string, z: TabId, g: GroupId)
    requires Regrouped(a, b, key, z, g) && z in b.tabs && g in b.owned
    ensures Regrouped(a, Moved(b, z, g).(groups := b.groups + [Group(g, "")]), key, z, g)
  {
    RegroupedMove(a, b, key, z, g);
    hide TrackedByRecord, SessionLater;
  }

  lemma RegroupedTrack(a: View, b: View, key: string, z: TabId, g: GroupId)
    requires Regrouped(a, b, key, z, g) && key in b.sessions
    ensures Regrouped(a, Tracking(b, key, g), key, z, g)
  {
    hide TrackedByRecord;
  }

  lemma RegroupedTitle(a: View, b: View, key: string, z: TabId, g: GroupId, title: string)
    requires Regrouped(a, b, key, z, g) && g in b.owned
    ensures Regrouped(a, b.(groups := Retitled(b.groups, g, title)), key, z, g)
  {
    hide TrackedByRecord, SessionLater;
    forall gr | gr in Retitled(b.groups, g, title) ensures gr in b.groups || gr.id == g {
      var k :| 0 <= k < |b.groups| && Retitled(b.groups, g, title)[k] == gr;
      assert b.groups[k] in b.groups;
    }
  }

  /** A new group that is gone again need not be owned. */
  lemma RegroupedGone(a: View, b: View, key: string, z: TabId, g: GroupId)
    requires Regrouped(a, Owning(b, g, key), key, z, g) && b.owned == a.owned && !Listed(b.groups, g)
    ensures Regrouped(a, b, key, z, g)
  {
    hide TrackedByRecord, SessionLater;
  }

  lemma LaterOwning(a: View, b: View, g: GroupId, key: string)
    requires Later(a, b)
    ensures Later(Owning(a, g, key), Owning(b, g, key))
  {
    hide SessionLater;
  }

  // ---------------------------------------------------------------- closing

  /** What remains of the managed tabs when tabs, groups, records and ownership only went away. */
  ghost predicate Fewer(a: View, b: View) {
    && TabsLater(a.tabs, b.tabs)
    && (forall g :: g in b.groups ==> g in a.groups)
    && (forall g :: g in b.owned ==> g in a.owned)
    && (forall k :: k in b.sessions ==>
          k in a.sessions && b.sessions[k].groupId == a.sessions[k].groupId
          && forall t :: t in b.sessions[k].tabIds ==> t in a.sessions[k].tabIds)
  }

  lemma FewerAreManaged(a: View, b: View)
    requires Fewer(a, b)
    ensures Managed(b) <= Managed(a) && Shrunk(a, b)
  {
    forall t | t in Managed(b) ensures t in Managed(a) {
      if k :| k in b.sessions && t in b.sessions[k].tabIds {
        assert t in a.sessions[k].tabIds;
      } else {
        FewerGroups(a, b, b.tabs[t].group.value);
      }
    }
  }

  lemma FewerGroups(a: View, b: View, g: GroupId)
    requires Fewer(a, b) && GroupManaged(b, g)
    ensures GroupManaged(a, g)
  {
    ListedBefore(a.groups, b.groups, g);
    if k :| k in b.sessions && b.sessions[k].groupId == Some(g) {
      assert a.sessions[k].groupId == Some(g);
    } else if k :| 0 <= k < |b.groups| && b.groups[k].id == g && b.groups[k].title in b.sessions {
      assert b.groups[k] in b.groups && b.groups[k] in a.groups;
      var j :| 0 <= j < |a.groups| && a.groups[j] == b.groups[k];
    }
  }

  /** The active tab is closed, and the last remaining tab takes its place. */
  lemma MovedOn(o: Session, s: Session, q: Session, before: map<TabId, Tab>, after: map<TabId, Tab>, id: TabId)
    requires SessionLater(o, s, before, after) && o.active == Some(id) && id !in after
    requires q.groupId == s.groupId && q.tabIds == Delete(s.tabIds, id) && q.active == Last(q.tabIds)
    ensures SessionLater(o, q, before, after)
  {}

  /** As `SessionLater`, but the active tab may be one that is closed and already struck off. */
  ghost predicate SessionShedding(a: Session, b: Session, before: map<TabId, Tab>, after: map<TabId, Tab>) {
    && b.groupId == a.groupId
    && (forall t :: t in b.tabIds ==> t in a.tabIds)
    && (forall t :: t in a.tabIds && t in after ==> t in b.tabIds)
    && (a.active.None? ==> b.active.None?)
    && (a.active.Some? && a.active.value in after ==> b.active == a.active)
    && (NoneOnlyIfEmpty(a) ==> NoneOnlyIfEmpty(b))
    && (LiveActiveIn(a, before) ==> LiveActiveIn(b, after))
  }

  /** A session's tabs being closed one after the other. */
  ghost predicate Shedding(a: View, b: View, key: string) {
    && TabsLater(a.tabs, b.tabs) && (forall g :: g in b.groups ==> g in a.groups) && b.owned == a.owned
    && key in a.sessions && b.sessions.Keys == a.sessions.Keys
    && (forall k :: k in a.sessions && k != key ==> SessionLater(a.sessions[k], b.sessions[k], a.tabs, b.tabs))
    && SessionShedding(a.sessions[key], b.sessions[key], a.tabs, b.tabs)
  }

  lemma SheddingStart(a: View, key: string)
    requires key in a.sessions
    ensures Shedding(a, a, key)
  {}

  lemma SheddingRecord(r: Session, s: Session, q: Session, a: map<TabId, Tab>, b: map<TabId, Tab>, c: map<TabId, Tab>)
    requires SessionShedding(r, s, a, b) && SessionLater(s, q, b, c) && TabsLater(b, c)
    ensures SessionShedding(r, q, a, c)
  {}

  lemma SheddingLater(a: View, b: View, c: View, key: string)
    requires Shedding(a, b, key) && Later(b, c)
    ensures Shedding(a, c, key)
  {
    hide ActiveIn, NoneOnlyIfEmpty, LiveActiveIn;
    assert SessionLater(b.sessions[key], c.sessions[key], b.tabs, c.tabs);
    SheddingRecord(a.sessions[key], b.sessions[key], c.sessions[key], a.tabs, b.tabs, c.tabs);
    forall k | k in a.sessions && k != key ensures SessionLater(a.sessions[k], c.sessions[k], a.tabs, c.tabs) {
      SessionLaterTwice(a.sessions[k], b.sessions[k], c.sessions[k], a.tabs, b.tabs, c.tabs);
    }
  }

  lemma StrikesRecord(r: Session, s: Session, q: Session, before: map<TabId, Tab>, after: map<TabId, Tab>, id: TabId)
    requires SessionShedding(r, s, before, after) && id !in after && q == s.(tabIds := Delete(s.tabIds, id))
    ensures SessionShedding(r, q, before, after)
  {}

  lemma SheddingStrikes(a: View, b: View, key: string, id: TabId, q: Session)
    requires Shedding(a, b, key) && id !in b.tabs && q == b.sessions[key].(tabIds := Delete(b.sessions[key].tabIds, id))
    ensures Shedding(a, b.(sessions := b.sessions[key := q]), key)
  {
    StrikesRecord(a.sessions[key], b.sessions[key], q, a.tabs, b.tabs, id);
    hide SessionLater, SessionShedding;
  }

  lemma SheddingIsFewer(a: View, b: View, key: string)
    requires Shedding(a, b, key)
    ensures Fewer(a, b)
  {
    hide ActiveIn, NoneOnlyIfEmpty, LiveActiveIn;
    forall k | k in b.sessions
      ensures b.sessions[k].groupId == a.sessions[k].groupId && forall t :: t in b.sessions[k].tabIds ==> t in a.sessions[k].tabIds
    {
      assert k != key ==> SessionLater(a.sessions[k], b.sessions[k], a.tabs, b.tabs);
    }
  }

  lemma SheddingCovers(a: View, b: View, key: string)
    requires Shedding(a, b, key) && Covers(a, key)
    ensures Covers(b, key)
  {
    hide SessionLater, NoneOnlyIfEmpty, LiveActiveIn, Belongs;
  }

  /** No tab is left, so no listed group is the session's. */
  lemma NoTabsNoGroups(v: View, key: string)
    requires Covers(v, key) && v.sessions[key].tabIds == [] && forall g :: g in v.groups ==> HasTab(v.tabs, g.id)
    ensures forall g :: g in v.groups ==> !Belongs(g, v.owned, key)
  {
    forall g | g in v.groups ensures !Belongs(g, v.owned, key) {
      var t :| t in v.tabs && v.tabs[t].group == Some(g.id);
      assert v.tabs[t].group == Some(g.id) && t !in v.sessions[key].tabIds;
    }
  }

  function Forgotten(owned: map<GroupId, string>, key: string): map<GroupId, string> {
    map g | g in owned && owned[g] != key :: owned[g]
  }

  /** After closing a session: it is forgotten, then none of its tabs and groups is left, or it is kept, and
      then so is its ownership. */
  ghost predicate Ended(a: View, b: View, key: string) {
    && TabsLater(a.tabs, b.tabs) && (forall g :: g in b.groups ==> g in a.groups)
    && (forall k :: k in a.sessions && k != key ==>
          k in b.sessions && SessionLater(a.sessions[k], b.sessions[k], a.tabs, b.tabs))
    && (forall k :: k in b.sessions && k != key ==> k in a.sessions)
    && NoNewStrangers(a, b)
    && if key in b.sessions then
         && (forall g :: g in a.owned ==> g in b.owned)
         && (Kept(SessionOf(a.sessions, key)) ==> Kept(b.sessions[key]))
         && (forall t :: t in SessionOf(a.sessions, key).tabIds && t in b.tabs ==> t in b.sessions[key].tabIds)
       else
         && (forall g :: g in b.owned ==> b.owned[g] != key)
         && (forall t :: t in b.tabs ==> t !in SessionOf(a.sessions, key).tabIds)
         && (forall g :: g in b.groups ==> !Belongs(g, a.owned, key))
  }

  function WithoutSession(v: View, key: string): View {
    v.(sessions := v.sessions - {key}, owned := Forgotten(v.owned, key))
  }

  lemma SheddingOthers(a: View, m: View, v: View, key: string)
    requires OthersLater(a, m, key) && Shedding(m, v, key) && TabsLater(a.tabs, m.tabs)
    ensures OthersLater(a, v, key)
  {
    hide ActiveIn, NoneOnlyIfEmpty, LiveActiveIn;
    forall k | k in a.sessions && k != key ensures SessionLater(a.sessions[k], v.sessions[k], a.tabs, v.tabs) {
      SessionLaterTwice(a.sessions[k], m.sessions[k], v.sessions[k], a.tabs, m.tabs, v.tabs);
    }
  }

  /** The record ran empty. */
  lemma EndsForgotten(a: View, m: View, v: View, b: View, key: string, mine: seq<Group>)
    requires ReconciledLater(a, m, key, mine) && Shedding(m, v, key) && v.sessions[key].tabIds == []
    requires forall g :: g in v.groups ==> HasTab(v.tabs, g.id)
    requires Later(WithoutSession(v, key), b)
    ensures Ended(a, b, key) && key !in b.sessions
  {
    ReconcilingCovers(a, m, key, mine);
    ReconciledFrame(a, m, key, mine);
    SheddingFrame(m, v, key);
    SheddingCovers(m, v, key);
    NoTabsNoGroups(v, key);
    SheddingOthers(a, m, v, key);
    OthersWithout(a, v, b, key);
    ForgottenOnly(a, m, v, b, key, mine);
    hide SessionLater, Covers, Kept, Belongs, ReconciledLater, Shedding, OthersLater, NoNewStrangers, SessionsLater;
  }

  lemma OthersWithout(a: View, v: View, b: View, key: string)
    requires OthersLater(a, v, key) && TabsLater(a.tabs, v.tabs) && Later(WithoutSession(v, key), b)
    ensures forall k :: k in a.sessions && k != key ==>
              k in b.sessions && SessionLater(a.sessions[k], b.sessions[k], a.tabs, b.tabs)
    ensures forall k :: k in b.sessions ==> k in a.sessions && k != key
  {
    var w := WithoutSession(v, key);
    forall k | k in a.sessions && k != key
      ensures k in b.sessions && SessionLater(a.sessions[k], b.sessions[k], a.tabs, b.tabs)
    {
      assert SessionLater(w.sessions[k], b.sessions[k], w.tabs, b.tabs);
      SessionLaterTwice(a.sessions[k], v.sessions[k], b.sessions[k], a.tabs, v.tabs, b.tabs);
    }
  }

  lemma ForgottenOnly(a: View, m: View, v: View, b: View, key: string, mine: seq<Group>)
    requires ReconciledLater(a, m, key, mine) && Shedding(m, v, key) && v.sessions[key].tabIds == []
    requires forall g :: g in v.groups ==> !Belongs(g, v.owned, key)
    requires TabsLater(v.tabs, b.tabs) && (forall g :: g in b.groups ==> g in v.groups) && b.owned == Forgotten(v.owned, key)
    requires NoNewStrangers(a, m)
    ensures NoNewStrangers(a, b)
    ensures forall t :: t in b.tabs ==> t !in SessionOf(a.sessions, key).tabIds
    ensures forall g :: g in b.groups ==> !Belongs(g, a.owned, key)
  {
    hide SessionLater, InOneOf, NoneOnlyIfEmpty, LiveActiveIn, Kept;
    forall g | g in b.groups ensures !Belongs(g, a.owned, key) {
      MineStayMine(a, m, key, mine, g);
    }
  }

  lemma MineStayMine(a: View, m: View, key: string, mine: seq<Group>, g: Group)
    requires ReconciledLater(a, m, key, mine) && g in m.groups
    ensures Belongs(g, a.owned, key) ==> Belongs(g, m.owned, key)
  {
    OwnedByMeans(a.owned, mine, key, g.id);
    if k :| 0 <= k < |mine| && mine[k] == g {
      assert Listed(mine, g.id);
    }
  }

  lemma KeptAtTheEnd(m: View, v: View, key: string, q: Session)
    requires Shedding(m, v, key) && Kept(m.sessions[key]) && q.tabIds == v.sessions[key].tabIds
    requires (q.active == v.sessions[key].active && q.active.Some? && q.active.value in v.tabs) || q.active == Last(q.tabIds)
    ensures Kept(q)
  {
    hide SessionLater;
  }

  lemma ReconciledFrame(a: View, m: View, key: string, mine: seq<Group>)
    requires ReconciledLater(a, m, key, mine)
    ensures TabsLater(a.tabs, m.tabs) && OthersLater(a, m, key) && forall g :: g in m.groups ==> g in a.groups
    ensures forall g :: g in a.owned ==> g in m.owned
  {
    forall g | g in a.owned ensures g in m.owned {
      OwnedByMeans(a.owned, mine, key, g);
    }
  }

  lemma SheddingFrame(m: View, v: View, key: string)
    requires Shedding(m, v, key)
    ensures TabsLater(m.tabs, v.tabs) && v.owned == m.owned && key in v.sessions && forall g :: g in v.groups ==> g in m.groups
  {}

  lemma EndedKeeping(a: View, v: View, key: string, q: Session)
    requires OthersLater(a, v, key) && TabsLater(a.tabs, v.tabs) && forall g :: g in v.groups ==> g in a.groups
    requires NoNewStrangers(a, v) && forall g :: g in a.owned ==> g in v.owned
    requires Kept(SessionOf(a.sessions, key)) ==> Kept(q)
    requires forall t :: t in SessionOf(a.sessions, key).tabIds && t in v.tabs ==> t in q.tabIds
    ensures Ended(a, v.(sessions := v.sessions[key := q]), key)
  {
    hide SessionLater, Kept, SessionOf;
  }

  /** The record kept some tab. */
  lemma EndsKept(a: View, m: View, v: View, key: string, mine: seq<Group>, q: Session)
    requires ReconciledLater(a, m, key, mine) && Shedding(m, v, key)
    requires q.tabIds == v.sessions[key].tabIds && q.groupId == v.sessions[key].groupId
    requires (q.active == v.sessions[key].active && q.active.Some? && q.active.value in v.tabs) || q.active == Last(q.tabIds)
    ensures Ended(a, v.(sessions := v.sessions[key := q]), key)
  {
    ReconcilingCovers(a, m, key, mine);
    ReconciledFrame(a, m, key, mine);
    SheddingFrame(m, v, key);
    SheddingOthers(a, m, v, key);
    KeptThroughout(a, m, v, key, mine, q);
    RecordSurvives(a, m, v, key, mine);
    EndedKeeping(a, v, key, q);
  }

  lemma RecordSurvives(a: View, m: View, v: View, key: string, mine: seq<Group>)
    requires ReconciledLater(a, m, key, mine) && Shedding(m, v, key)
    ensures forall t :: t in SessionOf(a.sessions, key).tabIds && t in v.tabs ==> t in v.sessions[key].tabIds
  {
    hide SessionLater, OwnedBy, SessionOf, Kept;
  }

  lemma KeptThroughout(a: View, m: View, v: View, key: string, mine: seq<Group>, q: Session)
    requires ReconciledLater(a, m, key, mine) && Shedding(m, v, key) && q.tabIds == v.sessions[key].tabIds
    requires (q.active == v.sessions[key].active && q.active.Some? && q.active.value in v.tabs) || q.active == Last(q.tabIds)
    ensures Kept(SessionOf(a.sessions, key)) ==> Kept(q)
  {
    ReconcilingCovers(a, m, key, mine);
    hide ReconciledLater, Covers, NoNewStrangers;
    if Kept(SessionOf(a.sessions, key)) {
      KeptAtTheEnd(m, v, key, q);
    }
  }

  lemma WithoutIsFewer(v: View, b: View, key: string)
    requires Later(WithoutSession(v, key), b)
    ensures Fewer(v, b)
  {
    var w := WithoutSession(v, key);
    forall k | k in b.sessions
      ensures k in v.sessions && b.sessions[k].groupId == v.sessions[k].groupId && forall t :: t in b.sessions[k].tabIds ==> t in v.sessions[k].tabIds
    {
      assert SessionLater(w.sessions[k], b.sessions[k], w.tabs, b.tabs);
    }
    hide SessionLater;
  }

  lemma FewerTwice(a: View, b: View, c: View)
    requires Fewer(a, b) && Fewer(b, c)
    ensures Fewer(a, c)
  {}

  lemma SheddingStaysFewer(m: View, v: View, b: View, key: string)
    requires Shedding(m, v, key) && Later(WithoutSession(v, key), b)
    ensures Fewer(m, b)
  {
    hide Shedding, Fewer, Later;
    SheddingIsFewer(m, v, key);
    WithoutIsFewer(v, b, key);
    FewerTwice(m, v, b);
  }

  // ---------------------------------------------------------------- steps in general

  /** The tab is bound to the sessions for as long as it lives: in a record, or in an owned group. */
  ghost predicate Firm(v: View, t: TabId) {
    InSomeSession(v, t) || (t in v.tabs && v.tabs[t].group.Some? && v.tabs[t].group.value in v.owned)
  }

  lemma FirmIsManaged(v: View, t: TabId)
    requires Firm(v, t) && t in v.tabs && GroupsListed(v)
    ensures t in Managed(v)
  {}

  /** What every step that places no tab keeps, whoever names a group: hosts, bonds, ownership and the order
      of the records. Tabs numbered from `n` are new and have no host. */
  ghost predicate Steady(a: View, b: View, n: nat) {
    && HostsKept(a, b, n)
    && (forall t :: t in b.tabs && t < n && Firm(a, t) ==> Firm(b, t))
    && NoNewStrangers(a, b)
    && (AllKept(a.sessions) ==> AllKept(b.sessions))
  }

  ghost predicate HostsKept(a: View, b: View, n: nat) {
    forall t :: t in b.tabs ==> (t in a.tabs && b.tabs[t].host == a.tabs[t].host) || (t >= n && b.tabs[t].host == "")
  }

  lemma SteadyTwice(a: View, b: View, c: View, n: nat)
    requires Steady(a, b, n) && Steady(b, c, n)
    ensures Steady(a, c, n)
  {
    hide Firm, AllKept;
  }

  /** Bonds survive where live tabs stay in the records, groups of tabs stay, and ownership of listed groups
      is kept. */
  lemma BondsSurvive(a: View, b: View)
    requires TabsLater(a.tabs, b.tabs) && NoNewStrangers(a, b) && GroupsListed(b) && forall g :: g in b.groups ==> g in a.groups
    requires forall k, t :: k in a.sessions && t in a.sessions[k].tabIds && t in b.tabs ==> InSomeSession(b, t)
    ensures forall t :: t in b.tabs && Firm(a, t) ==> Firm(b, t)
  {
    forall t | t in b.tabs && Firm(a, t) ensures Firm(b, t) {
      if k :| k in a.sessions && t in a.sessions[k].tabIds {
      } else {
        var g := a.tabs[t].group.value;
        var k :| 0 <= k < |b.groups| && b.groups[k].id == g;
        assert b.groups[k] in b.groups;
      }
    }
  }

  lemma KeepsRecorded(a: View, b: View)
    requires SessionsLater(a, b)
    ensures forall k, t :: k in a.sessions && t in a.sessions[k].tabIds && t in b.tabs ==> InSomeSession(b, t)
    ensures AllKept(a.sessions) ==> AllKept(b.sessions)
  {
    forall k | k in a.sessions
      ensures k in b.sessions && (Kept(a.sessions[k]) ==> Kept(b.sessions[k]))
      ensures forall t :: t in a.sessions[k].tabIds && t in b.tabs ==> t in b.sessions[k].tabIds
    {
      assert SessionLater(a.sessions[k], b.sessions[k], a.tabs, b.tabs);
    }
    hide Kept, SessionLater;
  }

  lemma LaterIsSteady(a: View, b: View)
    requires Later(a, b)
    ensures Shrunk(a, b) && forall n :: Steady(a, b, n)
  {
    LaterManaged(a, b);
    KeepsRecorded(a, b);
    hide Shrunk, SessionsLater, InSomeSession, AllKept;
  }

  lemma ReconcilingIsSteady(a: View, b: View, key: string, mine: seq<Group>)
    requires ReconciledLater(a, b, key, mine)
    ensures forall n :: Steady(a, b, n)
  {
    ReconcilingCovers(a, b, key, mine);
    ReconcilingKeeps(a, b, key, mine);
    ReconciledFrame(a, b, key, mine);
    hide ReconciledLater, Covers, OthersLater, InSomeSession, Kept, AllKept, NoNewStrangers;
  }

  lemma ReconcilingKeeps(a: View, b: View, key: string, mine: seq<Group>)
    requires ReconciledLater(a, b, key, mine)
    ensures AllKept(a.sessions) ==> AllKept(b.sessions)
    ensures forall t :: t in b.tabs && InSomeSession(a, t) ==> InSomeSession(b, t)
  {
    ReconcilingCovers(a, b, key, mine);
    hide Covers, NoNewStrangers, OwnedBy, OwnGroups;
    forall k | k in a.sessions && k != key
      ensures Kept(a.sessions[k]) ==> Kept(b.sessions[k])
      ensures forall t :: t in a.sessions[k].tabIds && t in b.tabs ==> t in b.sessions[k].tabIds
    {
      assert SessionLater(a.sessions[k], b.sessions[k], a.tabs, b.tabs);
    }
    if AllKept(a.sessions) {
      assert Kept(SessionOf(a.sessions, key));
    }
    hide SessionLater, Kept;
  }

  lemma RegroupingIsSteady(a: View, b: View, key: string, z: TabId, g: GroupId)
    requires Regrouped(a, b, key, z, g) && InSomeSession(a, z) && GroupsListed(a)
    ensures Shrunk(a, b) && forall n :: Steady(a, b, n)
  {
    RegroupingManagesNoMore(a, b, key, z, g);
    RegroupedRecords(a, b, key, z, g);
    hide Shrunk, NoNewStrangers, TrackedByRecord, GroupsListed, SessionLater, AllKept, InSomeSession;
  }

  lemma RegroupedRecords(a: View, b: View, key: string, z: TabId, g: GroupId)
    requires Regrouped(a, b, key, z, g)
    ensures AllKept(a.sessions) ==> AllKept(b.sessions)
    ensures forall t :: t in b.tabs && InSomeSession(a, t) ==> InSomeSession(b, t)
  {
    hide TrackedByRecord;
    forall k | k in b.sessions
      ensures Kept(a.sessions[k]) ==> Kept(b.sessions[k])
      ensures forall t :: t in a.sessions[k].tabIds && t in b.tabs ==> t in b.sessions[k].tabIds
    {
      assert SessionLater(a.sessions[k], b.sessions[k].(groupId := a.sessions[k].groupId), a.tabs, b.tabs);
    }
    hide SessionLater, Kept;
    forall t | t in b.tabs && InSomeSession(a, t) ensures InSomeSession(b, t) {
      var k :| k in a.sessions && t in a.sessions[k].tabIds;
      assert k in b.sessions && t in b.sessions[k].tabIds;
    }
  }

  /** A new tab without a host, not yet in any record or group. */
  lemma CreatingIsSteady(a: View, id: TabId)
    requires id !in a.tabs && !InSomeSession(a, id)
    ensures var b := a.(tabs := a.tabs[id := Tab("", None)]); Shrunk(a, b) && Steady(a, b, id)
  {
    var b := a.(tabs := a.tabs[id := Tab("", None)]);
    forall t ensures InSomeSession(b, t) <==> InSomeSession(a, t) {}
    forall t | t in Managed(b) && b.tabs[t].host != "" ensures t in Managed(a) {
      if !InSomeSession(b, t) {
        assert GroupManaged(a, b.tabs[t].group.value);
      }
    }
    hide IsManaged, GroupManaged, InSomeSession;
  }

  lemma BindingIsSteady(a: View, key: string, id: TabId)
    ensures forall n :: Steady(a, Bound(a, key, id), n)
  {
    var b := Bound(a, key, id);
    forall t | InSomeSession(a, t) ensures InSomeSession(b, t) {
      var k :| k in a.sessions && t in a.sessions[k].tabIds;
      assert k in b.sessions && t in b.sessions[k].tabIds;
    }
    hide InSomeSession;
  }

  /** Binding a tab that is closed, has no host, or is managed already. */
  lemma BindingShrinks(a: View, key: string, id: TabId)
    requires NoStranger(a, key) || key in a.sessions
    requires id in a.tabs && a.tabs[id].host != "" ==> id in Managed(a)
    ensures Shrunk(a, Bound(a, key, id))
  {
    BindingManagesOne(a, key, id);
    hide IsManaged;
  }

  lemma OpeningIsSteady(a: View, key: string)
    ensures forall n :: Steady(a, Opened(a, key), n)
  {
    var b := Opened(a, key);
    forall t | InSomeSession(a, t) ensures InSomeSession(b, t) {
      var k :| k in a.sessions && t in a.sessions[k].tabIds;
      assert k in b.sessions && t in b.sessions[k].tabIds;
    }
    hide InSomeSession;
  }

  lemma NoRoomBefore(a: View, b: View, rules: seq<Rule>, target: string, except: Option<TabId>)
    requires !Room(b, rules, target, except) && Shrunk(a, b)
    ensures !Room(a, rules, target, except)
  {
    hide Room, Shrunk;
    if Room(a, rules, target, except) {
      ShrinkingKeepsRoom(a, b, rules, target, except);
    }
  }

  lemma ReconciledActive(a: View, m: View, key: string, mine: seq<Group>, b: View)
    requires ReconciledLater(a, m, key, mine) && Later(m, b)
    requires SessionOf(a.sessions, key).active.Some? && SessionOf(a.sessions, key).active.value in b.tabs
    ensures m.sessions[key].active == SessionOf(a.sessions, key).active
    ensures key in b.sessions && b.sessions[key].active == m.sessions[key].active
  {
    assert SessionLater(m.sessions[key], b.sessions[key], m.tabs, b.tabs);
  }

  lemma OpenedAlready(v: View, key: string)
    requires key in v.sessions
    ensures Opened(v, key) == v
  {
    assert v.sessions[key := v.sessions[key]] == v.sessions;
  }

  lemma ActiveIsGone(m: View, v: View, w: View, key: string)
    requires Later(m, v) && Later(v, w) && key in m.sessions && m.sessions[key].active.Some?
    requires key in v.sessions && v.sessions[key].active.Some? && v.sessions[key].active.value !in w.tabs
    ensures m.sessions[key].active.value !in w.tabs
  {
    assert SessionLater(m.sessions[key], v.sessions[key], m.tabs, v.tabs);
  }

  function Placed(v: View, t: TabId, host: string): View
    requires t in v.tabs
  {
    v.(tabs := v.tabs[t := v.tabs[t].(host := host)])
  }

  /** Which tabs are managed has nothing to do with hosts. */
  lemma PlacingManagesNoOther(v: View, t: TabId, host: string)
    requires t in v.tabs
    ensures Managed(Placed(v, t, host)) == Managed(v)
  {
    forall u ensures IsManaged(Placed(v, t, host), u) <==> IsManaged(v, u) {
      assert InSomeSession(Placed(v, t, host), u) <==> InSomeSession(v, u);
      forall g ensures GroupManaged(Placed(v, t, host), g) <==> GroupManaged(v, g) {}
    }
    hide IsManaged;
  }

  lemma RetitlingIsSteady(a: View, key: string, g: GroupId, title: string)
    requires TrackedByRecord(a, g) && GroupsListed(a)
    ensures var b := Owning(a.(groups := Retitled(a.groups, g, title)), g, key);
            Shrunk(a, b) && forall n :: Steady(a, b, n)
  {
    var b := Owning(a.(groups := Retitled(a.groups, g, title)), g, key);
    RetitledGroups(a, b, g, title);
    forall t ensures InSomeSession(b, t) <==> InSomeSession(a, t) {}
    forall t | t in Managed(b) ensures t in Managed(a) {
      if !InSomeSession(b, t) {
        RetitledManaged(a, b, g, title, b.tabs[t].group.value);
      }
    }
    hide IsManaged, InSomeSession, GroupManaged, Retitled;
  }

  lemma RetitledManaged(a: View, b: View, g: GroupId, title: string, h: GroupId)
    requires TrackedByRecord(a, g) && b.groups == Retitled(a.groups, g, title) && b.sessions == a.sessions
    requires (forall x :: x in b.owned <==> x in a.owned || x == g) && GroupManaged(b, h)
    ensures GroupManaged(a, h)
  {
    var k :| 0 <= k < |b.groups| && b.groups[k].id == h;
    assert a.groups[k].id == h;
    if h != g && TitledAsSession(b, h) {
      var j :| 0 <= j < |b.groups| && b.groups[j].id == h && b.groups[j].title in b.sessions;
      assert a.groups[j].id == h && a.groups[j].title == b.groups[j].title;
    }
  }

  lemma RetitledGroups(a: View, b: View, g: GroupId, title: string)
    requires b.groups == Retitled(a.groups, g, title) && forall x :: x in b.owned <==> x in a.owned || x == g
    ensures NoNewStrangers(a, b)
  {
    forall gr | gr in b.groups && gr.id !in b.owned ensures gr in a.groups && gr.id !in a.owned {
      var k :| 0 <= k < |b.groups| && b.groups[k] == gr;
      assert a.groups[k] == gr;
    }
  }

  /** Placing a tab where the check found room. */
  lemma PlacingOverrunsNothing(v: View, rules: seq<Rule>, target: string, except: Option<TabId>, y: TabId)
    requires Room(v, rules, target, except) && y in v.tabs
    requires except.Some? && except.value in v.tabs ==> except.value == y
    ensures NoOverrun(v, Placed(v, y, target), rules)
  {
    PlacingManagesNoOther(v, y, target);
    PlacementOverrunsNothing(v, Placed(v, y, target), rules, target, except, y);
  }

  // ---------------------------------------------------------------- binding a tab to a session

  /** The rule for the host, if there is one, has a place left among the managed tabs. */
  ghost predicate PlaceLeft(v: View, rules: seq<Rule>, host: string) {
    forall i: nat :: Governs(rules, host, i) ==> i < |rules| && Load(v, rules, i) < rules[i].max
  }

  /** The tab can be bound without overrunning a rule: it is gone, or managed already, or the rule for the
      host it has has a place left. */
  ghost predicate BindFits(v: View, rules: seq<Rule>, t: TabId) {
    t in v.tabs ==> t in Managed(v) || PlaceLeft(v, rules, v.tabs[t].host)
  }

  lemma BindingManages(v: View, key: string, id: TabId)
    requires NoStranger(v, key) || key in v.sessions
    ensures Managed(Bound(v, key, id)) == if id in v.tabs then Managed(v) + {id} else Managed(v)
  {
    var b := Bound(v, key, id);
    BindingManagesOne(v, key, id);
    assert id in v.tabs ==> InSomeSession(b, id) by {
      assert id in b.sessions[key].tabIds;
    }
    forall t | t in Managed(v) ensures t in Managed(b) {
      if k :| k in v.sessions && t in v.sessions[k].tabIds {
        assert k in b.sessions && t in b.sessions[k].tabIds;
      } else {
        BindingKeepsGroups(v, key, id, v.tabs[t].group.value);
      }
    }
    hide IsManaged;
  }

  lemma BindingKeepsGroups(v: View, key: string, id: TabId, g: GroupId)
    requires GroupManaged(v, g)
    ensures GroupManaged(Bound(v, key, id), g)
  {
    var b := Bound(v, key, id);
    if k :| k in v.sessions && v.sessions[k].groupId == Some(g) {
      assert k in b.sessions && b.sessions[k].groupId == Some(g);
    }
  }

  /** What binding does to the loads: the rule for the tab's host has one more if the tab lives and was not
      managed, and no other load changes. */
  lemma BindingLoads(v: View, key: string, rules: seq<Rule>, id: TabId, i: nat)
    requires NoStranger(v, key) || key in v.sessions
    ensures Load(Bound(v, key, id), rules, i) == Load(v, rules, i)
              + (if id in v.tabs && id !in Managed(v) && Governs(rules, v.tabs[id].host, i) then 1 else 0)
  {
    var b := Bound(v, key, id);
    BindingManages(v, key, id);
    hide Managed, Governs;
    var before, after := GovernedTabs(v, rules, i), GovernedTabs(b, rules, i);
    if id in v.tabs && id !in Managed(v) && Governs(rules, v.tabs[id].host, i) {
      assert after == before + {id};
    } else {
      assert after == before;
    }
  }

  /** Exactly when binding a tab overruns no rule. */
  lemma BindingOverrunsIff(v: View, key: string, rules: seq<Rule>, id: TabId)
    requires NoStranger(v, key) || key in v.sessions
    ensures NoOverrun(v, Bound(v, key, id), rules) <==> BindFits(v, rules, id)
  {
    var b := Bound(v, key, id);
    if id in v.tabs && id !in Managed(v) && !PlaceLeft(v, rules, v.tabs[id].host) {
      var i: nat :| Governs(rules, v.tabs[id].host, i) && !(i < |rules| && Load(v, rules, i) < rules[i].max);
      OneRuleGoverns(rules, v.tabs[id].host, i, i);
      BindingLoads(v, key, rules, id, i);
      assert Load(b, rules, i) > Load(v, rules, i) && Load(b, rules, i) > rules[i].max;
    } else {
      forall i: nat | i < |rules| && rules[i].max > 0
        ensures Load(b, rules, i) <= Load(v, rules, i) || Load(b, rules, i) <= rules[i].max
      {
        BindingLoads(v, key, rules, id, i);
      }
    }
  }

  /** Room apart from an unmanaged tab, for the host it has, is a place left. */
  lemma RoomIsPlace(v: View, rules: seq<Rule>, t: TabId)
    requires t in v.tabs && t !in Managed(v) && Room(v, rules, v.tabs[t].host, Some(t))
    ensures PlaceLeft(v, rules, v.tabs[t].host)
  {
    var host := v.tabs[t].host;
    forall i: nat | Governs(rules, host, i) ensures i < |rules| && Load(v, rules, i) < rules[i].max {
      OneRuleGoverns(rules, host, i, i);
      if host == "" {
        NothingGovernsNoHost(rules, i);
      }
      assert Applies(rules, Some(host), rules[i]);
      var d := DomainOf(rules[i]);
      forall u | u in GovernedTabs(v, rules, i) ensures u in CoveredTabs(v, d, Some(t)) {
        OneRuleGoverns(rules, v.tabs[u].host, i, i);
      }
      SubsetSize(GovernedTabs(v, rules, i), CoveredTabs(v, d, Some(t)));
    }
  }

  // ---------------------------------------------------------------- steps of the tools

  /** What a tool keeps however groups are named: ownership and the order of the records. */
  ghost predicate Orderly(a: View, b: View) {
    NoNewStrangers(a, b) && (AllKept(a.sessions) ==> AllKept(b.sessions))
  }

  /** What has become of the tabs numbered below `n`: those still there keep their bonds, and their hosts
      unless they are bonded by now; `lost` is the one exception, a tab that was navigated in error. */
  ghost predicate Carried(a: View, b: View, n: nat, lost: Option<TabId>) {
    forall t :: t in b.tabs && t < n ==>
      && t in a.tabs
      && (Firm(a, t) ==> Firm(b, t))
      && (b.tabs[t].host == a.tabs[t].host || Firm(b, t) || lost == Some(t))
  }

  lemma SteadyCarries(a: View, b: View, n: nat)
    requires Steady(a, b, n)
    ensures Orderly(a, b) && forall lost :: Carried(a, b, n, lost)
  {
    hide Firm, AllKept, NoNewStrangers;
  }

  lemma OrderlyTwice(a: View, b: View, c: View)
    requires Orderly(a, b) && Orderly(b, c)
    ensures Orderly(a, c)
  {
    hide AllKept;
  }

  lemma CarriedTwice(a: View, b: View, c: View, n: nat, lost: Option<TabId>)
    requires Carried(a, b, n, lost) && Carried(b, c, n, lost)
    ensures Carried(a, c, n, lost)
  {
    hide Firm;
  }

  lemma PlacingCarries(v: View, y: TabId, host: string, n: nat, lost: Option<TabId>)
    requires y in v.tabs && (Firm(v, y) || lost == Some(y) || y >= n)
    ensures Carried(v, Placed(v, y, host), n, lost) && Orderly(v, Placed(v, y, host))
  {
    var b := Placed(v, y, host);
    forall t ensures InSomeSession(b, t) <==> InSomeSession(v, t) {}
    hide InSomeSession;
  }

  lemma EndedIsSteady(a: View, b: View, key: string)
    requires Ended(a, b, key) && GroupsListed(b)
    ensures forall n :: Steady(a, b, n)
  {
    forall k | k in a.sessions
      ensures forall t :: t in a.sessions[k].tabIds && t in b.tabs ==> k in b.sessions && t in b.sessions[k].tabIds
      ensures k in b.sessions && Kept(a.sessions[k]) ==> Kept(b.sessions[k])
    {
      if k != key {
        assert SessionLater(a.sessions[k], b.sessions[k], a.tabs, b.tabs);
      }
    }
    assert key !in a.sessions ==> Kept(SessionOf(a.sessions, key));
    hide SessionLater, Kept, Belongs;
    BondsSurvive(a, b);
  }
}
