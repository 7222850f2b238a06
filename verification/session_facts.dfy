/** What the session bookkeeping comes to in the browser's own terms: titles, ownership, groups and live tabs. */
module SessionFacts {
  import opened Prelude
  import opened Sessions

  /** The group at place `k` is one the session recovers: titled with its name, or owned by it. */
  predicate OwnGroup(v: View, key: string, k: nat)
    requires k < |v.groups|
  {
    v.groups[k].title == key || (v.groups[k].id in v.owned && v.owned[v.groups[k].id] == key)
  }

  predicate InOwnGroup(v: View, key: string, t: TabId) {
    t in v.tabs && exists k: nat :: k < |v.groups| && OwnGroup(v, key, k) && v.tabs[t].group == Some(v.groups[k].id)
  }

  lemma MineAreOwn(v: View, key: string)
    ensures forall k: nat :: k < |v.groups| ==> (v.groups[k] in Mine(v.groups, v.owned, key) <==> OwnGroup(v, key, k))
    ensures forall t :: t in v.tabs ==> (InOneOf(v.tabs[t], Mine(v.groups, v.owned, key)) <==> InOwnGroup(v, key, t))
    ensures forall g :: Listed(Mine(v.groups, v.owned, key), g) <==> exists k: nat :: k < |v.groups| && OwnGroup(v, key, k) && v.groups[k].id == g
  {
    var mine := Mine(v.groups, v.owned, key);
    forall k: nat | k < |v.groups| ensures v.groups[k] in mine <==> OwnGroup(v, key, k) {
      assert v.groups[k] in v.groups;
    }
    hide Mine;
    forall g ensures Listed(mine, g) <==> exists k: nat :: k < |v.groups| && OwnGroup(v, key, k) && v.groups[k].id == g {
      if i :| 0 <= i < |mine| && mine[i].id == g {
        assert mine[i] in mine;
        var k: nat :| k < |v.groups| && v.groups[k] == mine[i];
        assert OwnGroup(v, key, k);
      }
      if k: nat :| k < |v.groups| && OwnGroup(v, key, k) && v.groups[k].id == g {
        var i :| 0 <= i < |mine| && mine[i] == v.groups[k];
      }
    }
    forall t | t in v.tabs ensures InOneOf(v.tabs[t], mine) <==> InOwnGroup(v, key, t) {
      if i :| 0 <= i < |mine| && v.tabs[t].group == Some(mine[i].id) {
        assert Listed(mine, mine[i].id);
      }
      if k: nat :| k < |v.groups| && OwnGroup(v, key, k) && v.tabs[t].group == Some(v.groups[k].id) {
        assert Listed(mine, v.groups[k].id);
      }
    }
  }

  /** The first group the session recovers. */
  lemma {:induction false} FirstOfMine(groups: seq<Group>, owned: map<GroupId, string>, key: string) returns (k: nat)
    requires Mine(groups, owned, key) != []
    ensures k < |groups| && groups[k] == Mine(groups, owned, key)[0] && Belongs(groups[k], owned, key)
    ensures forall j: nat :: j < k ==> !Belongs(groups[j], owned, key)
    decreases |groups|
  {
    var n: nat := |groups| - 1;
    var head := groups[..n];
    var before := Mine(head, owned, key);
    assert Mine(groups, owned, key) == before + (if Belongs(groups[n], owned, key) then [groups[n]] else []);
    assert forall j: nat :: j < n ==> head[j] == groups[j];
    if before != [] {
      hide Belongs;
      k := FirstOfMine(head, owned, key);
    } else {
      k := n;
      forall j: nat | j < n ensures !Belongs(groups[j], owned, key) {
        assert head[j] in head;
      }
    }
  }

  /** Ownership after reconciling an undisturbed browser: the session owns all groups titled with its name or owned by
      it, and ownership of others stays. */
  lemma OwningMeans(a: View, b: View, key: string, g: GroupId)
    requires Reconciled(a, b, key)
    ensures if exists k: nat :: k < |a.groups| && OwnGroup(a, key, k) && a.groups[k].id == g
            then g in b.owned && b.owned[g] == key
            else (g in b.owned <==> g in a.owned) && (g in a.owned ==> b.owned[g] == a.owned[g])
  {
    var mine := Mine(a.groups, a.owned, key);
    MineAreOwn(a, key);
    OwnedByMeans(a.owned, mine, key, g);
    hide Mine, OwnedBy, Adopted, InOneOf, InOwnGroup, OwnGroup;
    assert Listed(mine, g) ==> mine != [];
  }

  /** The record after it: what it had and the live tabs of those groups; the first of them in the browser's order is
      the group it puts new tabs in; and its active tab stays if it lives, and otherwise is the last of the record.
      Without such a group only a stale group is dropped. */
  lemma ReconcilingMeans(a: View, b: View, key: string)
    requires Reconciled(a, b, key)
    ensures b.tabs == a.tabs && b.groups == a.groups && b.sessions.Keys == a.sessions.Keys + {key}
    ensures forall k :: k in a.sessions && k != key ==> b.sessions[k] == a.sessions[k]
    ensures forall t :: t in b.sessions[key].tabIds <==> t in SessionOf(a.sessions, key).tabIds || InOwnGroup(a, key, t)
    ensures var s, r := SessionOf(a.sessions, key), b.sessions[key];
            if exists k: nat :: k < |a.groups| && OwnGroup(a, key, k) then
              && (exists k: nat :: k < |a.groups| && OwnGroup(a, key, k) && r.groupId == Some(a.groups[k].id)
                                   && forall j: nat :: j < k ==> !OwnGroup(a, key, j))
              && r.active == (if s.active.Some? && s.active.value in a.tabs then s.active
                              else if r.tabIds == [] then None else Some(r.tabIds[|r.tabIds| - 1]))
            else
              r == if s.groupId.Some? && (forall k: nat :: k < |a.groups| ==> a.groups[k].id != s.groupId.value) then s.(groupId := None) else s
  {
    var mine := Mine(a.groups, a.owned, key);
    NoneMine(a, key);
    hide Mine, OwnedBy, InOneOf, InOwnGroup, Belongs;
    if mine != [] {
      AdoptingMeans(a, b, key);
    } else {
      MineAreOwn(a, key);
      NoTabsInNone(a, key);
      hide Adopted, OwnGroup;
    }
  }

  lemma NoTabsInNone(a: View, key: string)
    requires forall k: nat :: k < |a.groups| ==> !OwnGroup(a, key, k)
    ensures forall t :: !InOwnGroup(a, key, t)
  {}

  lemma AdoptingMeans(a: View, b: View, key: string)
    requires Reconciled(a, b, key) && Mine(a.groups, a.owned, key) != []
    ensures forall t :: t in b.sessions[key].tabIds <==> t in SessionOf(a.sessions, key).tabIds || InOwnGroup(a, key, t)
    ensures exists k: nat :: k < |a.groups| && OwnGroup(a, key, k) && b.sessions[key].groupId == Some(a.groups[k].id)
                             && forall j: nat :: j < k ==> !OwnGroup(a, key, j)
    ensures var s, r := SessionOf(a.sessions, key), b.sessions[key];
            r.active == (if s.active.Some? && s.active.value in a.tabs then s.active
                         else if r.tabIds == [] then None else Some(r.tabIds[|r.tabIds| - 1]))
  {
    var k := FirstOfMine(a.groups, a.owned, key);
    MineAreOwn(a, key);
    assert forall j: nat :: j < |a.groups| ==> (OwnGroup(a, key, j) <==> Belongs(a.groups[j], a.owned, key));
    hide Mine, OwnedBy, InOneOf, InOwnGroup, Belongs;
    hide OwnGroup;
    assert b.sessions[key].groupId == Some(a.groups[k].id);
    GainsOwn(a, key);
  }

  lemma GainsOwn(a: View, key: string)
    ensures forall t :: (t in a.tabs && InOneOf(a.tabs[t], Mine(a.groups, a.owned, key))) <==> InOwnGroup(a, key, t)
  {
    MineAreOwn(a, key);
    hide InOneOf, Mine;
  }

  lemma NoneMine(v: View, key: string)
    ensures Mine(v.groups, v.owned, key) == [] <==> forall k: nat :: k < |v.groups| ==> !OwnGroup(v, key, k)
  {
    var mine := Mine(v.groups, v.owned, key);
    MineAreOwn(v, key);
    hide Mine;
    if mine != [] {
      assert mine[0] in mine;
      var k: nat :| k < |v.groups| && v.groups[k] == mine[0];
      assert OwnGroup(v, key, k);
    }
  }

  /** Which tabs the caps are about: the live ones on record, and those in a listed group that is owned by any
      session, is the group of a record, or is titled like one. */
  lemma ManagedMeans(v: View, t: TabId)
    ensures t in Managed(v) <==>
              t in v.tabs
              && ((exists k :: k in v.sessions && t in v.sessions[k].tabIds)
                  || exists i: nat :: i < |v.groups| && v.tabs[t].group == Some(v.groups[i].id) && CountsAsSession(v, i))
  {
    hide Tracks;
    if t in v.tabs && v.tabs[t].group.Some? {
      var g := v.tabs[t].group.value;
      TracksMeans(v, g);
      if gr :| gr in v.groups && gr.id == g && Tracks(v.owned, v.sessions, gr) {
        var i: nat :| i < |v.groups| && v.groups[i] == gr;
        CountsMeans(v, i);
      }
      if i: nat :| i < |v.groups| && v.tabs[t].group == Some(v.groups[i].id) && CountsAsSession(v, i) {
        CountsMeans(v, i);
        assert v.groups[i] in v.groups;
      }
    }
  }

  predicate CountsAsSession(v: View, i: nat)
    requires i < |v.groups|
  {
    v.groups[i].id in v.owned || v.groups[i].title in v.sessions
    || exists k :: k in v.sessions && v.sessions[k].groupId == Some(v.groups[i].id)
  }

  lemma CountsMeans(v: View, i: nat)
    requires i < |v.groups|
    ensures CountsAsSession(v, i) <==> Tracks(v.owned, v.sessions, v.groups[i])
  {}

  /** Whatever a session with a record could recover counts already, so recovering it does not get round a cap. */
  lemma RecoverableIsManaged(a: View, b: View, key: string, t: TabId)
    requires Reconciled(a, b, key) && key in a.sessions && t in b.sessions[key].tabIds && t in a.tabs
    ensures t in Managed(a)
  {
    ReconcilingMeans(a, b, key);
    ManagedMeans(a, t);
    if t !in a.sessions[key].tabIds {
      var k: nat :| k < |a.groups| && OwnGroup(a, key, k) && a.tabs[t].group == Some(a.groups[k].id);
      assert CountsAsSession(a, k);
    }
    hide Reconciled, Managed;
  }

  /** A removal event: the tab leaves the record, the others stay in order, and if it was the active one the last
      of them, if any, becomes active. */
  lemma HearingMeans(s: Session, id: TabId)
    ensures var r := Heard(s, id);
            && r.groupId == s.groupId
            && (forall t :: t in r.tabIds <==> t in s.tabIds && t != id)
            && InOrder(r.tabIds, s.tabIds)
            && r.active == if id in s.tabIds && s.active == Some(id)
                           then (if r.tabIds == [] then None else Some(r.tabIds[|r.tabIds| - 1])) else s.active
  {
    DeletingKeepsOrder(s.tabIds, id);
    WholeInOrder(s.tabIds);
  }

  /** One list is the other with some entries left out. */
  predicate InOrder(r: seq<TabId>, s: seq<TabId>) {
    if r == [] then true
    else s != [] && if r[|r| - 1] == s[|s| - 1] then InOrder(r[..|r| - 1], s[..|s| - 1]) else InOrder(r, s[..|s| - 1])
  }

  lemma {:induction false} WholeInOrder(s: seq<TabId>)
    ensures InOrder(s, s)
    decreases |s|
  {
    if s != [] {
      WholeInOrder(s[..|s| - 1]);
    }
  }

  lemma {:induction false} DeletingKeepsOrder(s: seq<TabId>, id: TabId)
    ensures InOrder(Delete(s, id), s)
    decreases |s|
  {
    if s != [] {
      var n := |s| - 1;
      DeletingKeepsOrder(s[..n], id);
      if s[n] == id {
        assert id !in Delete(s[..n], id);
        var r := Delete(s, id);
        assert r != [] ==> r[|r| - 1] in r;
      }
    }
  }
}
