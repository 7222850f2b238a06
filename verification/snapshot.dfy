/** The text outline of a page: a walk over its accessibility forest that numbers the nodes worth
    clicking and stops at a node budget. */
module Snapshot {
  import opened Prelude

  /** An accessibility node. `name` and `value` are already trimmed and clipped. */
  datatype Node = Node(id: nat, parent: Option<nat>, role: string, name: string, value: string,
                       ignored: bool, backend: Option<int>, children: seq<nat>)

  const INTERACTIVE := {
    "button", "link", "textbox", "searchbox", "checkbox", "radio", "combobox",
    "listbox", "menuitem", "menuitemcheckbox", "menuitemradio", "tab", "switch",
    "slider", "spinbutton", "option", "textarea", "treeitem"
  }

  const SKIP_ROLES := { "none", "generic", "presentation", "InlineTextBox" }

  const MAX_NODES := 4000

  /** A line of the outline, before it is spelled out. */
  datatype Line = Line(indent: nat, role: string, name: string, value: string, ref: Option<nat>)

  /** The variables the walk shares. */
  datatype Output = Output(lines: seq<Line>, refMap: map<nat, int>, refCounter: nat, emitted: nat, truncated: bool)

  const Blank := Output([], map[], 0, 0, false)

  /** The node has something to say. */
  predicate Qualifies(n: Node) {
    !n.ignored && n.role !in SKIP_ROLES && (n.name != "" || n.value != "" || n.role in INTERACTIVE)
  }

  predicate Referable(n: Node) {
    n.backend.Some? && (n.role in INTERACTIVE || n.name != "")
  }

  function RoleOr(role: string): string {
    if role == "" then "node" else role
  }

  // ---------------------------------------------------------------- preorder

  /** A node met on the walk, with all its ancestors, outermost first. */
  datatype Visit = Visit(node: Node, ancestors: seq<Node>)

  /** The forest is finite and has no cycle: ranks go down along child links. */
  ghost predicate Acyclic(byId: map<nat, Node>, rank: map<nat, nat>) {
    && byId.Keys <= rank.Keys
    && (forall i :: i in byId ==> byId[i].id == i)
    && forall i, c :: i in byId && c in byId[i].children && c in byId ==> rank[c] < rank[i]
  }

  /** The subtree of node `i` in preorder. Child ids that name no node are skipped. */
  ghost function Preorder(byId: map<nat, Node>, rank: map<nat, nat>, i: nat, ancestors: seq<Node>): seq<Visit>
    requires Acyclic(byId, rank) && i in byId
    decreases rank[i], 1, 0
  {
    [Visit(byId[i], ancestors)]
    + PreorderAll(byId, rank, rank[i], byId[i].children, ancestors + [byId[i]])
  }

  ghost function PreorderAll(byId: map<nat, Node>, rank: map<nat, nat>, bound: nat, ids: seq<nat>, ancestors: seq<Node>): seq<Visit>
    requires Acyclic(byId, rank)
    requires forall c :: c in ids && c in byId ==> rank[c] < bound
    decreases bound, 0, |ids|
  {
    if ids == [] then []
    else
      PreorderAll(byId, rank, bound, ids[..|ids| - 1], ancestors)
      + (var c := ids[|ids| - 1]; if c in byId then Preorder(byId, rank, c, ancestors) else [])
  }

  // ---------------------------------------------------------------- what the outline should be

  function Qualifying(vs: seq<Visit>): seq<Visit> {
    if vs == [] then []
    else Qualifying(vs[..|vs| - 1]) + (if Qualifies(vs[|vs| - 1].node) then [vs[|vs| - 1]] else [])
  }

  function RefsAmong(vs: seq<Visit>): nat {
    if vs == [] then 0 else RefsAmong(vs[..|vs| - 1]) + (if Referable(vs[|vs| - 1].node) then 1 else 0)
  }

  function QualifyingNodes(ns: seq<Node>): nat {
    if ns == [] then 0 else QualifyingNodes(ns[..|ns| - 1]) + (if Qualifies(ns[|ns| - 1]) then 1 else 0)
  }

  /** The line for the `i`-th qualifying node: indented by its qualifying ancestors, numbered among the
      referable ones. */
  function LineFor(qs: seq<Visit>, i: nat): Line
    requires i < |qs|
  {
    var n := qs[i].node;
    Line(QualifyingNodes(qs[i].ancestors), RoleOr(n.role), n.name, n.value,
         if Referable(n) then Some(RefsAmong(qs[..i + 1])) else None)
  }

  /** The lines are those of the first `k` qualifying nodes, in preorder. */
  ghost predicate LinesOk(o: Output, qs: seq<Visit>, k: nat)
    requires k <= |qs|
  {
    && |o.lines| == o.emitted == k
    && forall i :: 0 <= i < k ==> o.lines[i] == LineFor(qs, i)
  }

  /** Refs are numbered 1 to `refCounter` without a gap and each leads to its own node. */
  ghost predicate RefsOk(o: Output, qs: seq<Visit>, k: nat)
    requires k <= |qs|
  {
    && o.refCounter == RefsAmong(qs[..k])
    && (forall r :: r in o.refMap <==> 1 <= r <= o.refCounter)
    && forall i :: 0 <= i < k && Referable(qs[i].node) ==> RefLeadsTo(o.refMap, RefsAmong(qs[..i + 1]), qs[i].node)
  }

  predicate RefLeadsTo(refMap: map<nat, int>, r: nat, n: Node)
    requires Referable(n)
  {
    r in refMap && refMap[r] == n.backend.value
  }

  /** The outline of the first `MAX_NODES` qualifying nodes. It counts as truncated exactly when some
      node, qualifying or not, comes after the last line the budget allows. */
  ghost predicate Outlines(o: Output, vs: seq<Visit>) {
    var qs := Qualifying(vs);
    var k := if |qs| <= MAX_NODES then |qs| else MAX_NODES;
    && LinesOk(o, qs, k)
    && RefsOk(o, qs, k)
    && (o.truncated <==> vs != [] && |Qualifying(vs[..|vs| - 1])| >= MAX_NODES)
  }

  // ---------------------------------------------------------------- one node at a time

  function Emit(o: Output, n: Node, indent: nat): Output {
    var o' := if Referable(n) then o.(refCounter := o.refCounter + 1, refMap := o.refMap[o.refCounter + 1 := n.backend.value])
              else o;
    o'.(lines := o.lines + [Line(indent, RoleOr(n.role), n.name, n.value,
                                 if Referable(n) then Some(o.refCounter + 1) else None)],
        emitted := o.emitted + 1)
  }

  function Step(o: Output, v: Visit): Output {
    if o.emitted >= MAX_NODES then o.(truncated := true)
    else if Qualifies(v.node) then Emit(o, v.node, QualifyingNodes(v.ancestors))
    else o
  }

  function Fold(o: Output, vs: seq<Visit>): Output {
    if vs == [] then o else Step(Fold(o, vs[..|vs| - 1]), vs[|vs| - 1])
  }

  lemma {:induction false} FoldConcat(o: Output, a: seq<Visit>, b: seq<Visit>)
    ensures Fold(o, a + b) == Fold(Fold(o, a), b)
    decreases |b|
  {
    if b == [] {
      assert a + b == a;
    } else {
      var n := |b| - 1;
      assert (a + b)[..|a| + n] == a + b[..n];
      FoldConcat(o, a, b[..n]);
    }
  }

  /** Once the budget is used up, further nodes only set the flag; descending into them adds nothing. */
  lemma {:induction false} FoldFull(o: Output, vs: seq<Visit>)
    requires o.emitted >= MAX_NODES
    ensures Fold(o, vs) == if vs == [] then o else o.(truncated := true)
    decreases |vs|
  {
    if vs != [] {
      FoldFull(o, vs[..|vs| - 1]);
    }
  }

  lemma {:induction false} RefsMonotone(vs: seq<Visit>, i: nat)
    requires i < |vs|
    ensures RefsAmong(vs[..i + 1]) <= RefsAmong(vs)
    ensures Referable(vs[i].node) ==> RefsAmong(vs[..i + 1]) > 0
    decreases |vs|
  {
    var n := |vs| - 1;
    if i < n {
      RefsMonotone(vs[..n], i);
      assert vs[..n][..i + 1] == vs[..i + 1];
    } else {
      assert vs[..i + 1] == vs;
    }
  }

  /** The walk over any list of visits produces its outline. */
  lemma {:induction false} FoldOutlines(vs: seq<Visit>)
    ensures Outlines(Fold(Blank, vs), vs)
    decreases |vs|
  {
    if vs != [] {
      FoldOutlines(vs[..|vs| - 1]);
      StepOutlines(Fold(Blank, vs[..|vs| - 1]), vs);
    }
  }

  lemma PrefixStays(qs: seq<Visit>, more: seq<Visit>, i: nat)
    requires i <= |qs|
    ensures (qs + more)[..i] == qs[..i]
  {}

  /** Lines and refs already due do not change when more nodes qualify. */
  lemma DueStays(o: Output, qs: seq<Visit>, more: seq<Visit>, k: nat)
    requires k <= |qs| && LinesOk(o, qs, k) && RefsOk(o, qs, k)
    ensures LinesOk(o, qs + more, k) && RefsOk(o, qs + more, k)
  {
    PrefixStays(qs, more, k);
    forall i | 0 <= i < k ensures LineFor(qs + more, i) == LineFor(qs, i) && (qs + more)[i] == qs[i] {
      PrefixStays(qs, more, i + 1);
    }
    hide RefsAmong, LineFor;
    forall i | 0 <= i < k && Referable((qs + more)[i].node)
      ensures RefLeadsTo(o.refMap, RefsAmong((qs + more)[..i + 1]), (qs + more)[i].node)
    {
      PrefixStays(qs, more, i + 1);
    }
  }

  lemma StepOutlines(o: Output, vs: seq<Visit>)
    requires vs != [] && Outlines(o, vs[..|vs| - 1])
    ensures Outlines(Step(o, vs[|vs| - 1]), vs)
  {
    var n := |vs| - 1;
    var v := vs[n];
    var before := Qualifying(vs[..n]);
    var more := if Qualifies(v.node) then [v] else [];
    assert Qualifying(vs) == before + more;
    assert n > 0 ==> |Qualifying(vs[..n][..n - 1])| <= |before|;
    assert before + [] == before;
    assert o.emitted == if |before| <= MAX_NODES then |before| else MAX_NODES;
    hide Qualifying, Qualifies, LinesOk, RefsOk;
    if o.emitted >= MAX_NODES {
      DueStays(o, before, more, MAX_NODES);
      FlagIsApart(o, before + more, MAX_NODES);
    } else if more != [] {
      EmitLines(o, before, v);
      EmitRefs(o, before, v);
    }
  }

  lemma FlagIsApart(o: Output, qs: seq<Visit>, k: nat)
    requires k <= |qs| && LinesOk(o, qs, k) && RefsOk(o, qs, k)
    ensures LinesOk(o.(truncated := true), qs, k) && RefsOk(o.(truncated := true), qs, k)
  {
    hide RefsAmong, LineFor;
  }

  /** The step that adds a line. */
  lemma EmitLines(o: Output, before: seq<Visit>, v: Visit)
    requires LinesOk(o, before, |before|) && RefsOk(o, before, |before|)
    ensures LinesOk(Emit(o, v.node, QualifyingNodes(v.ancestors)), before + [v], |before| + 1)
  {
    DueStays(o, before, [v], |before|);
    var qs := before + [v];
    RefsAfter(before, v);
    assert LineFor(qs, |before|) == Emit(o, v.node, QualifyingNodes(v.ancestors)).lines[|before|];
    hide LineFor, RefsAmong, RefsOk, RoleOr;
  }

  /** A ref already given keeps leading to its node when the next number is given out. */
  lemma OldRef(o: Output, before: seq<Visit>, v: Visit, i: nat, refMap: map<nat, int>)
    requires i < |before| && Referable(before[i].node) && RefsOk(o, before, |before|)
    requires forall r :: r in o.refMap ==> r in refMap && refMap[r] == o.refMap[r]
    ensures (before + [v])[i] == before[i] && RefLeadsTo(refMap, RefsAmong((before + [v])[..i + 1]), before[i].node)
  {
    hide RefsAmong, Referable;
    PrefixStays(before, [v], i + 1);
  }

  lemma RefsAfter(before: seq<Visit>, v: Visit)
    ensures var qs := before + [v];
            && qs[..|qs|] == qs && before[..|before|] == before && qs[|before|] == v
            && RefsAmong(qs) == RefsAmong(before) + (if Referable(v.node) then 1 else 0)
  {
    assert (before + [v])[..|before|] == before;
  }

  lemma EmitRefs(o: Output, before: seq<Visit>, v: Visit)
    requires LinesOk(o, before, |before|) && RefsOk(o, before, |before|)
    ensures RefsOk(Emit(o, v.node, QualifyingNodes(v.ancestors)), before + [v], |before| + 1)
  {
    var qs := before + [v];
    var o' := Emit(o, v.node, QualifyingNodes(v.ancestors));
    RefsAfter(before, v);
    hide RefsAmong, LinesOk, QualifyingNodes, RoleOr;
    forall i | 0 <= i < |qs| && Referable(qs[i].node)
      ensures RefLeadsTo(o'.refMap, RefsAmong(qs[..i + 1]), qs[i].node)
    {
      if i < |before| {
        OldRef(o, before, v, i, o'.refMap);
      } else {
        assert qs[..i + 1] == qs;
      }
    }
  }

  // ---------------------------------------------------------------- the walk itself

  class Walker {
    const byId: map<nat, Node>
    var lines: seq<Line>
    var refMap: map<nat, int>
    var refCounter: nat
    var emitted: nat
    var truncated: bool

    function Out(): Output
      reads this
    {
      Output(lines, refMap, refCounter, emitted, truncated)
    }

    constructor (byId: map<nat, Node>)
      ensures this.byId == byId && Out() == Blank
    {
      this.byId := byId;
      lines, refMap, refCounter, emitted, truncated := [], map[], 0, 0, false;
    }

    method Walk(node: Node, depth: nat, ghost rank: map<nat, nat>, ghost ancestors: seq<Node>)
      requires Acyclic(byId, rank) && node.id in byId && byId[node.id] == node
      requires depth == QualifyingNodes(ancestors)
      modifies this
      ensures Out() == Fold(old(Out()), Preorder(byId, rank, node.id, ancestors))
      decreases rank[node.id], 1
    {
      ghost var v := Visit(node, ancestors);
      ghost var inner := ancestors + [node];
      ghost var below := PreorderAll(byId, rank, rank[node.id], node.children, inner);
      FoldConcat(Out(), [v], below);
      assert [v][..0] == [];
      assert Fold(Out(), [v]) == Step(Out(), v);
      if emitted >= MAX_NODES {
        truncated := true;
        FoldFull(Out(), below);
        return;
      }
      var ignored := node.ignored || node.role in SKIP_ROLES;
      var childDepth := depth;
      assert inner[..|ancestors|] == ancestors;
      if !ignored && (node.name != "" || node.value != "" || node.role in INTERACTIVE) {
        var ref := None;
        if node.backend.Some? && (node.role in INTERACTIVE || node.name != "") {
          refCounter := refCounter + 1;
          refMap := refMap[refCounter := node.backend.value];
          ref := Some(refCounter);
        }
        lines := lines + [Line(depth, RoleOr(node.role), node.name, node.value, ref)];
        emitted := emitted + 1;
        childDepth := depth + 1;
      }
      ghost var o := Out();
      assert o == Step(old(Out()), v);
      hide Step, Emit, Qualifies, Referable;
      WalkChildren(node.children, childDepth, rank, rank[node.id], inner);
    }

    method WalkChildren(ids: seq<nat>, depth: nat, ghost rank: map<nat, nat>, ghost bound: nat, ghost ancestors: seq<Node>)
      requires Acyclic(byId, rank) && forall c :: c in ids && c in byId ==> rank[c] < bound
      requires depth == QualifyingNodes(ancestors)
      modifies this
      ensures Out() == Fold(old(Out()), PreorderAll(byId, rank, bound, ids, ancestors))
      decreases bound, 0
    {
      for k := 0 to |ids|
        invariant Out() == Fold(old(Out()), PreorderAll(byId, rank, bound, ids[..k], ancestors))
      {
        ghost var sofar := PreorderAll(byId, rank, bound, ids[..k], ancestors);
        assert ids[..k + 1][..k] == ids[..k];
        var cid := ids[k];
        if cid in byId {
          FoldConcat(old(Out()), sofar, Preorder(byId, rank, cid, ancestors));
          Walk(byId[cid], depth, rank, ancestors);
        } else {
          assert sofar + [] == sofar;
        }
      }
      assert ids[..|ids|] == ids;
    }
  }

  // ---------------------------------------------------------------- the whole snapshot

  function ById(nodes: seq<Node>): map<nat, Node> {
    if nodes == [] then map[] else ById(nodes[..|nodes| - 1])[nodes[|nodes| - 1].id := nodes[|nodes| - 1]]
  }

  predicate IsRoot(byId: map<nat, Node>, n: Node) {
    n.parent.None? || n.parent.value !in byId
  }

  /** The ids of the roots, in input order. */
  function Roots(byId: map<nat, Node>, nodes: seq<Node>): seq<nat> {
    if nodes == [] then []
    else
      var n := nodes[|nodes| - 1];
      Roots(byId, nodes[..|nodes| - 1]) + (if IsRoot(byId, n) then [n.id] else [])
  }

  /** A finite forest listed with unique ids: no cycle, children point back to their parent and are listed
      once, and every parent lists its children. */
  ghost predicate Forest(nodes: seq<Node>, rank: map<nat, nat>) {
    var byId := ById(nodes);
    && (forall i, j :: 0 <= i < j < |nodes| ==> nodes[i].id != nodes[j].id)
    && Acyclic(byId, rank)
    && Linked(byId)
  }

  ghost predicate Linked(byId: map<nat, Node>) {
    && (forall i, c :: i in byId && c in byId[i].children && c in byId ==> byId[c].parent == Some(i))
    && (forall c :: c in byId && byId[c].parent.Some? && byId[c].parent.value in byId ==>
          c in byId[byId[c].parent.value].children)
    && (forall i :: i in byId ==> Distinct(byId[i].children))
  }

  ghost predicate Distinct(ids: seq<nat>) {
    forall i, j :: 0 <= i < j < |ids| ==> ids[i] != ids[j]
  }

  lemma {:induction false} ByIdHas(nodes: seq<Node>)
    requires forall i, j :: 0 <= i < j < |nodes| ==> nodes[i].id != nodes[j].id
    ensures forall i :: 0 <= i < |nodes| ==> nodes[i].id in ById(nodes) && ById(nodes)[nodes[i].id] == nodes[i]
    ensures forall k :: k in ById(nodes) ==> exists i :: 0 <= i < |nodes| && nodes[i].id == k
    decreases |nodes|
  {
    if nodes != [] {
      var n := |nodes| - 1;
      ByIdHas(nodes[..n]);
      forall k | k in ById(nodes) ensures exists i :: 0 <= i < |nodes| && nodes[i].id == k {
        if k == nodes[n].id {
          assert nodes[n].id == k;
        } else {
          var i :| 0 <= i < n && nodes[..n][i].id == k;
          assert nodes[i].id == k;
        }
      }
    }
  }

  /** A number above every rank. */
  ghost function Above(rank: map<nat, nat>, ids: seq<nat>): (b: nat)
    requires forall c :: c in ids ==> c in rank
    ensures forall c :: c in ids ==> rank[c] < b
  {
    if ids == [] then 0
    else
      var b := Above(rank, ids[..|ids| - 1]);
      var r := rank[ids[|ids| - 1]];
      assert ids == ids[..|ids| - 1] + [ids[|ids| - 1]];
      if b > r then b else r + 1
  }

  /** Everything the snapshot visits, in order. */
  ghost function Everything(nodes: seq<Node>, rank: map<nat, nat>): seq<Visit>
    requires Forest(nodes, rank)
  {
    var byId := ById(nodes);
    var ids := Roots(byId, nodes);
    RootsAreNodes(nodes, nodes);
    PreorderAll(byId, rank, Above(rank, ids), ids, [])
  }

  lemma {:induction false} RootsAreNodes(nodes: seq<Node>, some: seq<Node>)
    requires forall i, j :: 0 <= i < j < |nodes| ==> nodes[i].id != nodes[j].id
    requires |some| <= |nodes| && some == nodes[..|some|]
    ensures forall c :: c in Roots(ById(nodes), some) ==> c in ById(nodes) && IsRoot(ById(nodes), ById(nodes)[c])
    decreases |some|
  {
    ByIdHas(nodes);
    if some != [] {
      var n := |some| - 1;
      assert some[..n] == nodes[..n];
      RootsAreNodes(nodes, some[..n]);
      assert some[n] == nodes[n];
    }
  }

  method Index(nodes: seq<Node>) returns (byId: map<nat, Node>)
    ensures byId == ById(nodes)
  {
    byId := map[];
    for i := 0 to |nodes|
      invariant byId == ById(nodes[..i])
    {
      byId := byId[nodes[i].id := nodes[i]];
      assert nodes[..i + 1][..i] == nodes[..i];
    }
    assert nodes[..|nodes|] == nodes;
  }

  method FindRoots(byId: map<nat, Node>, nodes: seq<Node>) returns (roots: seq<Node>)
    ensures |roots| == |Roots(byId, nodes)|
    ensures forall j :: 0 <= j < |roots| ==> roots[j].id == Roots(byId, nodes)[j] && roots[j] in nodes
  {
    roots := [];
    for i := 0 to |nodes|
      invariant |roots| == |Roots(byId, nodes[..i])|
      invariant forall j :: 0 <= j < |roots| ==> roots[j].id == Roots(byId, nodes[..i])[j] && roots[j] in nodes
    {
      assert nodes[..i + 1][..i] == nodes[..i];
      if nodes[i].parent.None? || nodes[i].parent.value !in byId {
        roots := roots + [nodes[i]];
      }
    }
    assert nodes[..|nodes|] == nodes;
  }

  method WalkRoots(byId: map<nat, Node>, roots: seq<Node>, ghost rank: map<nat, nat>, ghost ids: seq<nat>, ghost bound: nat)
    returns (o: Output)
    requires Acyclic(byId, rank) && |ids| == |roots| && forall c :: c in ids ==> c in byId && rank[c] < bound
    requires forall j :: 0 <= j < |roots| ==> roots[j].id == ids[j] && byId[ids[j]] == roots[j]
    ensures o == Fold(Blank, PreorderAll(byId, rank, bound, ids, []))
  {
    hide Preorder, Acyclic, Step;
    var w := new Walker(byId);
    for i := 0 to |roots|
      invariant w.Out() == Fold(Blank, PreorderAll(byId, rank, bound, ids[..i], []))
    {
      assert ids[..i + 1][..i] == ids[..i];
      FoldConcat(Blank, PreorderAll(byId, rank, bound, ids[..i], []), Preorder(byId, rank, ids[i], []));
      w.Walk(roots[i], 0, rank, []);
    }
    assert ids[..|ids|] == ids;
    o := w.Out();
  }

  /** The snapshot of a forest is its outline: the first `MAX_NODES` qualifying nodes in preorder. */
  method Outline(nodes: seq<Node>, ghost rank: map<nat, nat>) returns (o: Output)
    requires Forest(nodes, rank)
    ensures Outlines(o, Everything(nodes, rank))
  {
    var byId := Index(nodes);
    var roots := FindRoots(byId, nodes);
    ByIdHas(nodes);
    RootsAreNodes(nodes, nodes);
    ghost var ids := Roots(byId, nodes);
    hide Fold, PreorderAll, Outlines, Roots, ById;
    o := WalkRoots(byId, roots, rank, ids, Above(rank, ids));
    FoldOutlines(Everything(nodes, rank));
  }

  // ---------------------------------------------------------------- every node once

  function Times(vs: seq<Visit>, x: nat): nat {
    if vs == [] then 0 else Times(vs[..|vs| - 1], x) + (if vs[|vs| - 1].node.id == x then 1 else 0)
  }

  function Occurs(ids: seq<nat>, x: nat): nat {
    if ids == [] then 0 else Occurs(ids[..|ids| - 1], x) + (if ids[|ids| - 1] == x then 1 else 0)
  }

  lemma {:induction false} TimesConcat(a: seq<Visit>, b: seq<Visit>, x: nat)
    ensures Times(a + b, x) == Times(a, x) + Times(b, x)
    decreases |b|
  {
    if b == [] {
      assert a + b == a;
    } else {
      assert (a + b)[..|a| + |b| - 1] == a + b[..|b| - 1];
      TimesConcat(a, b[..|b| - 1], x);
    }
  }

  lemma {:induction false} OccursDistinct(ids: seq<nat>, x: nat)
    requires Distinct(ids)
    ensures Occurs(ids, x) == if x in ids then 1 else 0
    decreases |ids|
  {
    if ids != [] {
      var n := |ids| - 1;
      OccursDistinct(ids[..n], x);
      assert ids == ids[..n] + [ids[n]];
    }
  }

  /** The parent of `x`, if it is in the forest. */
  function ParentIn(byId: map<nat, Node>, x: nat): Option<nat>
    requires x in byId
  {
    if byId[x].parent.Some? && byId[x].parent.value in byId then byId[x].parent else None
  }

  function TimesParent(byId: map<nat, Node>, vs: seq<Visit>, x: nat): nat
    requires x in byId
  {
    match ParentIn(byId, x) case None => 0 case Some(p) => Times(vs, p)
  }

  /** In a walk below `i`, a node is met as often as its parent, and once more if it is `i` itself. */
  lemma {:induction false} TimesPreorder(byId: map<nat, Node>, rank: map<nat, nat>, i: nat, ancestors: seq<Node>, x: nat)
    requires Acyclic(byId, rank) && Linked(byId) && i in byId && x in byId
    ensures Times(Preorder(byId, rank, i, ancestors), x)
            == TimesParent(byId, Preorder(byId, rank, i, ancestors), x) + (if x == i then 1 else 0)
    decreases rank[i], 1, 0
  {
    var head := [Visit(byId[i], ancestors)];
    var ids := byId[i].children;
    var below := PreorderAll(byId, rank, rank[i], ids, ancestors + [byId[i]]);
    assert head[..0] == [];
    TimesConcat(head, below, x);
    TimesAll(byId, rank, rank[i], ids, ancestors + [byId[i]], x);
    OccursDistinct(ids, x);
    match ParentIn(byId, x)
    case None =>
    case Some(p) => TimesConcat(head, below, p);
  }

  lemma {:induction false} TimesAll(byId: map<nat, Node>, rank: map<nat, nat>, bound: nat, ids: seq<nat>, ancestors: seq<Node>, x: nat)
    requires Acyclic(byId, rank) && Linked(byId) && x in byId
    requires forall c :: c in ids && c in byId ==> rank[c] < bound
    ensures Times(PreorderAll(byId, rank, bound, ids, ancestors), x)
            == TimesParent(byId, PreorderAll(byId, rank, bound, ids, ancestors), x) + Occurs(ids, x)
    decreases bound, 0, |ids|
  {
    if ids != [] {
      var n := |ids| - 1;
      var c := ids[n];
      var first := PreorderAll(byId, rank, bound, ids[..n], ancestors);
      var last := if c in byId then Preorder(byId, rank, c, ancestors) else [];
      TimesAll(byId, rank, bound, ids[..n], ancestors, x);
      if c in byId {
        TimesPreorder(byId, rank, c, ancestors, x);
      }
      TimesConcat(first, last, x);
      if ParentIn(byId, x).Some? {
        TimesConcat(first, last, ParentIn(byId, x).value);
      }
    }
  }

  lemma {:induction false} RootsDistinct(byId: map<nat, Node>, nodes: seq<Node>)
    requires forall i, j :: 0 <= i < j < |nodes| ==> nodes[i].id != nodes[j].id
    ensures Distinct(Roots(byId, nodes))
    ensures forall c :: c in Roots(byId, nodes) <==> exists i :: 0 <= i < |nodes| && nodes[i].id == c && IsRoot(byId, nodes[i])
    decreases |nodes|
  {
    if nodes != [] {
      var n := |nodes| - 1;
      RootsDistinct(byId, nodes[..n]);
      assert nodes[n].id !in Roots(byId, nodes[..n]);
      assert Distinct(Roots(byId, nodes[..n]) + [nodes[n].id]);
      forall c ensures c in Roots(byId, nodes) <==> exists i :: 0 <= i < |nodes| && nodes[i].id == c && IsRoot(byId, nodes[i]) {
        if c in Roots(byId, nodes[..n]) {
          var i :| 0 <= i < n && nodes[..n][i].id == c && IsRoot(byId, nodes[..n][i]);
          assert nodes[i].id == c;
        }
        if i :| 0 <= i < n && nodes[i].id == c && IsRoot(byId, nodes[i]) {
          assert nodes[..n][i].id == c;
        }
      }
    }
  }

  /** Every node of the forest is visited exactly once, so the outline misses none and repeats none. */
  lemma {:induction false} VisitedOnce(nodes: seq<Node>, rank: map<nat, nat>, x: nat, bound: nat)
    requires Forest(nodes, rank) && x in ById(nodes)
    requires forall i :: i in ById(nodes) ==> rank[i] < bound
    ensures Times(Everything(nodes, rank), x) == 1
    decreases bound - rank[x]
  {
    var byId := ById(nodes);
    var ids := Roots(byId, nodes);
    ByIdHas(nodes);
    RootsAreNodes(nodes, nodes);
    RootsDistinct(byId, nodes);
    OccursDistinct(ids, x);
    TimesAll(byId, rank, Above(rank, ids), ids, [], x);
    match ParentIn(byId, x)
    case None =>
      var i :| 0 <= i < |nodes| && nodes[i].id == x;
      assert IsRoot(byId, nodes[i]);
    case Some(p) =>
      VisitedOnce(nodes, rank, p, bound);
      assert x !in ids;
  }

  // ---------------------------------------------------------------- the order of the walk

  /** The nodes visited right below these ancestors, in the order of the visits. */
  function Below(vs: seq<Visit>, ancestors: seq<Node>): seq<Node> {
    if vs == [] then []
    else
      var n := |vs| - 1;
      Below(vs[..n], ancestors) + (if vs[n].ancestors == ancestors then [vs[n].node] else [])
  }

  /** The nodes that a list of ids names, in the order of the list. */
  function Named(byId: map<nat, Node>, ids: seq<nat>): seq<Node> {
    if ids == [] then []
    else Named(byId, ids[..|ids| - 1]) + (if ids[|ids| - 1] in byId then [byId[ids[|ids| - 1]]] else [])
  }

  lemma {:induction false} BelowConcat(a: seq<Visit>, b: seq<Visit>, ancestors: seq<Node>)
    ensures Below(a + b, ancestors) == Below(a, ancestors) + Below(b, ancestors)
    decreases |b|
  {
    if b == [] {
      assert a + b == a;
    } else {
      var n := |b| - 1;
      assert (a + b)[..|a + b| - 1] == a + b[..n];
      BelowConcat(a, b[..n], ancestors);
    }
  }

  lemma {:induction false} DeeperIsElsewhere(byId: map<nat, Node>, rank: map<nat, nat>, i: nat, ancestors: seq<Node>, above: seq<Node>)
    requires Acyclic(byId, rank) && i in byId && |above| < |ancestors|
    ensures Below(Preorder(byId, rank, i, ancestors), above) == []
    decreases rank[i], 1, 0
  {
    var children := byId[i].children;
    AllDeeper(byId, rank, rank[i], children, ancestors + [byId[i]], above);
    var rest := PreorderAll(byId, rank, rank[i], children, ancestors + [byId[i]]);
    BelowConcat([Visit(byId[i], ancestors)], rest, above);
    BelowOne(Visit(byId[i], ancestors), above);
    hide PreorderAll, Below;
  }

  lemma BelowOne(v: Visit, ancestors: seq<Node>)
    ensures Below([v], ancestors) == if v.ancestors == ancestors then [v.node] else []
  {
    assert [v][..0] == [];
  }

  lemma {:induction false} AllDeeper(byId: map<nat, Node>, rank: map<nat, nat>, bound: nat, ids: seq<nat>, ancestors: seq<Node>,
                                     above: seq<Node>)
    requires Acyclic(byId, rank) && (forall c :: c in ids && c in byId ==> rank[c] < bound) && |above| < |ancestors|
    ensures Below(PreorderAll(byId, rank, bound, ids, ancestors), above) == []
    decreases bound, 0, |ids|
  {
    if ids != [] {
      var n := |ids| - 1;
      AllDeeper(byId, rank, bound, ids[..n], ancestors, above);
      var last := if ids[n] in byId then Preorder(byId, rank, ids[n], ancestors) else [];
      assert PreorderAll(byId, rank, bound, ids, ancestors) == PreorderAll(byId, rank, bound, ids[..n], ancestors) + last;
      BelowConcat(PreorderAll(byId, rank, bound, ids[..n], ancestors), last, above);
      if ids[n] in byId {
        DeeperIsElsewhere(byId, rank, ids[n], ancestors, above);
      }
    }
  }

  /** A node is visited before everything below it. */
  lemma ItselfFirst(byId: map<nat, Node>, rank: map<nat, nat>, i: nat, ancestors: seq<Node>)
    requires Acyclic(byId, rank) && i in byId
    ensures var vs := Preorder(byId, rank, i, ancestors); vs != [] && vs[0] == Visit(byId[i], ancestors)
    ensures Below(Preorder(byId, rank, i, ancestors), ancestors) == [byId[i]]
  {
    var rest := PreorderAll(byId, rank, rank[i], byId[i].children, ancestors + [byId[i]]);
    AllDeeper(byId, rank, rank[i], byId[i].children, ancestors + [byId[i]], ancestors);
    BelowConcat([Visit(byId[i], ancestors)], rest, ancestors);
    BelowOne(Visit(byId[i], ancestors), ancestors);
    hide PreorderAll, Below;
  }

  /** The nodes a list of ids names are visited in the order of the list, each before the next one's subtree. */
  lemma {:induction false} ListedInOrder(byId: map<nat, Node>, rank: map<nat, nat>, bound: nat, ids: seq<nat>, ancestors: seq<Node>)
    requires Acyclic(byId, rank) && forall c :: c in ids && c in byId ==> rank[c] < bound
    ensures Below(PreorderAll(byId, rank, bound, ids, ancestors), ancestors) == Named(byId, ids)
    decreases |ids|
  {
    if ids != [] {
      var n := |ids| - 1;
      ListedInOrder(byId, rank, bound, ids[..n], ancestors);
      var last := if ids[n] in byId then Preorder(byId, rank, ids[n], ancestors) else [];
      assert PreorderAll(byId, rank, bound, ids, ancestors) == PreorderAll(byId, rank, bound, ids[..n], ancestors) + last;
      BelowConcat(PreorderAll(byId, rank, bound, ids[..n], ancestors), last, ancestors);
      if ids[n] in byId {
        ItselfFirst(byId, rank, ids[n], ancestors);
      }
    }
  }

  /** The order of the walk: a node first, then its children, in the order in which it lists them. */
  lemma ChildrenInOrder(byId: map<nat, Node>, rank: map<nat, nat>, i: nat, ancestors: seq<Node>)
    requires Acyclic(byId, rank) && i in byId
    ensures var vs := Preorder(byId, rank, i, ancestors);
            && vs != [] && vs[0] == Visit(byId[i], ancestors)
            && Below(vs, ancestors + [byId[i]]) == Named(byId, byId[i].children)
  {
    var inner := ancestors + [byId[i]];
    var rest := PreorderAll(byId, rank, rank[i], byId[i].children, inner);
    ListedInOrder(byId, rank, rank[i], byId[i].children, inner);
    BelowConcat([Visit(byId[i], ancestors)], rest, inner);
    BelowOne(Visit(byId[i], ancestors), inner);
    hide PreorderAll, Below, Named;
  }

  // ---------------------------------------------------------------- which nodes have a line

  lemma {:induction false} QualifyingMeans(vs: seq<Visit>, v: Visit)
    ensures v in Qualifying(vs) <==> v in vs && Qualifies(v.node)
    decreases |vs|
  {
    if vs != [] {
      QualifyingMeans(vs[..|vs| - 1], v);
      assert vs == vs[..|vs| - 1] + [vs[|vs| - 1]];
    }
  }

  /** Roles a person acts on. */
  predicate ActedOn(role: string) {
    role in ["button", "link", "textbox", "searchbox", "checkbox", "radio", "combobox", "listbox", "menuitem", "menuitemcheckbox",
             "menuitemradio", "tab", "switch", "slider", "spinbutton", "option", "textarea", "treeitem"]
  }

  /** Within the budget a node met on the walk has a line exactly if it is not ignored, its role is not one of the
      four that say nothing, and it has a name, a value, or a role to act on. */
  lemma WhoHasALine(o: Output, vs: seq<Visit>, v: Visit)
    requires Outlines(o, vs) && |Qualifying(vs)| <= 4000
    ensures |o.lines| == |Qualifying(vs)|
    ensures v in Qualifying(vs) <==>
              v in vs && !v.node.ignored && v.node.role !in ["none", "generic", "presentation", "InlineTextBox"]
              && (v.node.name != "" || v.node.value != "" || ActedOn(v.node.role))
  {
    QualifyingMeans(vs, v);
    RolesListed(v.node.role);
    hide ActedOn, Qualifying;
  }

  lemma RolesListed(role: string)
    ensures role in INTERACTIVE <==> ActedOn(role)
    ensures role in SKIP_ROLES <==> role in ["none", "generic", "presentation", "InlineTextBox"]
  {}

  /** What a line says: role, name and value of its node, and a reference that leads to the node if the page can
      resolve it and it has a name or a role to act on. */
  lemma WhatALineSays(o: Output, vs: seq<Visit>, i: nat)
    requires Outlines(o, vs) && i < |o.lines|
    ensures i < |Qualifying(vs)|
    ensures var n := Qualifying(vs)[i].node; var line := o.lines[i];
            && line.role == (if n.role == "" then "node" else n.role) && line.name == n.name && line.value == n.value
            && if n.backend.Some? && (n.name != "" || ActedOn(n.role))
               then line.ref.Some? && line.ref.value in o.refMap && Some(o.refMap[line.ref.value]) == n.backend
               else line.ref.None?
  {
    var qs := Qualifying(vs);
    RolesListed(qs[i].node.role);
    hide ActedOn, Qualifying, RefsAmong, QualifyingNodes;
    assert o.lines[i] == LineFor(qs, i);
  }

  // ---------------------------------------------------------------- the truncation mark

  /** The mark is set whenever a line is lost. It is also set with no line lost, if and only if exactly
      `MAX_NODES` nodes qualify and the last node of the walk does not. */
  lemma MarkedWithoutLoss(o: Output, vs: seq<Visit>)
    requires Outlines(o, vs)
    ensures |o.lines| < |Qualifying(vs)| ==> o.truncated
    ensures o.truncated && |o.lines| == |Qualifying(vs)| <==>
              vs != [] && |Qualifying(vs)| == MAX_NODES && !Qualifies(vs[|vs| - 1].node)
  {
    hide LinesOk, RefsOk, Qualifies;
    var qs := Qualifying(vs);
    assert |o.lines| == if |qs| <= MAX_NODES then |qs| else MAX_NODES by {
      LineCount(o, qs, if |qs| <= MAX_NODES then |qs| else MAX_NODES);
    }
  }

  lemma LineCount(o: Output, qs: seq<Visit>, k: nat)
    requires k <= |qs| && LinesOk(o, qs, k)
    ensures |o.lines| == k
  {}

  /** Node `i` of a page of `n` unrelated nodes of which the first `m` have a name. */
  function FlatNode(i: nat, m: nat): Node {
    Node(i, None, "", if i < m then "x" else "", "", false, None, [])
  }

  function Flat(n: nat, m: nat): seq<Node> {
    if n == 0 then [] else Flat(n - 1, m) + [FlatNode(n - 1, m)]
  }

  function FlatVisits(n: nat, m: nat): seq<Visit> {
    if n == 0 then [] else FlatVisits(n - 1, m) + [Visit(FlatNode(n - 1, m), [])]
  }

  function FlatRank(n: nat): (rank: map<nat, nat>)
    ensures forall i: nat :: i in rank <==> i < n
  {
    if n == 0 then map[] else FlatRank(n - 1)[n - 1 := 0]
  }

  function UpTo(n: nat): (ids: seq<nat>)
    ensures |ids| == n && forall k :: 0 <= k < n ==> ids[k] == k
  {
    if n == 0 then [] else UpTo(n - 1) + [n - 1]
  }

  lemma {:induction false} FlatIs(n: nat, m: nat)
    ensures |Flat(n, m)| == n && forall i :: 0 <= i < n ==> Flat(n, m)[i] == FlatNode(i, m)
    decreases n
  {
    if n > 0 {
      FlatIs(n - 1, m);
    }
  }

  lemma FlatById(n: nat, m: nat)
    ensures forall i: nat :: i in ById(Flat(n, m)) <==> i < n
    ensures forall i: nat :: i in ById(Flat(n, m)) ==> ById(Flat(n, m))[i] == FlatNode(i, m)
  {
    var nodes := Flat(n, m);
    FlatIs(n, m);
    ByIdHas(nodes);
    hide Flat, ById;
    forall i: nat | i < n ensures i in ById(nodes) && ById(nodes)[i] == FlatNode(i, m) {
      assert nodes[i].id == i;
    }
  }

  lemma {:induction false} FlatRoots(byId: map<nat, Node>, n: nat, m: nat)
    ensures Roots(byId, Flat(n, m)) == UpTo(n)
    decreases n
  {
    if n > 0 {
      FlatRoots(byId, n - 1, m);
      FlatIs(n - 1, m);
      assert Flat(n, m)[..n - 1] == Flat(n - 1, m);
    }
  }

  lemma FlatForest(n: nat, m: nat)
    ensures Forest(Flat(n, m), FlatRank(n))
  {
    FlatIs(n, m);
    FlatById(n, m);
    hide ById, Flat;
  }

  lemma {:induction false} FlatPreorder(byId: map<nat, Node>, rank: map<nat, nat>, bound: nat, n: nat, m: nat)
    requires Acyclic(byId, rank) && forall i :: 0 <= i < n ==> i in byId && byId[i] == FlatNode(i, m) && rank[i] < bound
    ensures PreorderAll(byId, rank, bound, UpTo(n), []) == FlatVisits(n, m)
    decreases n
  {
    if n > 0 {
      FlatPreorder(byId, rank, bound, n - 1, m);
      assert UpTo(n)[..n - 1] == UpTo(n - 1);
      LeafPreorder(byId, rank, n - 1);
    }
  }

  lemma LeafPreorder(byId: map<nat, Node>, rank: map<nat, nat>, i: nat)
    requires Acyclic(byId, rank) && i in byId && byId[i].children == []
    ensures Preorder(byId, rank, i, []) == [Visit(byId[i], [])]
  {}

  lemma {:induction false} FlatQualifying(n: nat, m: nat)
    ensures |FlatVisits(n, m)| == n && |Qualifying(FlatVisits(n, m))| == if n <= m then n else m
    decreases n
  {
    if n > 0 {
      hide Qualifying, FlatNode, Qualifies;
      FlatQualifying(n - 1, m);
      FlatQualifies(n - 1, m);
      QualifyingAppended(FlatVisits(n - 1, m), Visit(FlatNode(n - 1, m), []));
    } else {
      assert FlatVisits(0, m) == [];
    }
  }

  lemma FlatQualifies(i: nat, m: nat)
    ensures Qualifies(FlatNode(i, m)) <==> i < m
  {}

  lemma QualifyingAppended(vs: seq<Visit>, v: Visit)
    ensures Qualifying(vs + [v]) == Qualifying(vs) + (if Qualifies(v.node) then [v] else [])
  {
    hide Qualifies;
    assert (vs + [v])[..|vs|] == vs;
  }

  lemma FlatEverything(n: nat, m: nat, rank: map<nat, nat>)
    requires Forest(Flat(n, m), rank)
    ensures Everything(Flat(n, m), rank) == FlatVisits(n, m)
  {
    var nodes := Flat(n, m);
    var byId := ById(nodes);
    FlatRoots(byId, n, m);
    FlatById(n, m);
    FlatIs(n, m);
    RootsAreNodes(nodes, nodes);
    hide Flat, ById, Roots, Linked, FlatVisits, UpTo;
    var bound := Above(rank, UpTo(n));
    forall i: nat | i < n ensures rank[i] < bound {
      assert UpTo(n)[i] in UpTo(n);
    }
    FlatPreorder(byId, rank, bound, n, m);
  }

  lemma FlatLast(n: nat, m: nat)
    requires n > m
    ensures |FlatVisits(n, m)| == n && !Qualifies(FlatVisits(n, m)[n - 1].node)
  {
    hide Qualifies, FlatNode;
    FlatQualifying(n, m);
    FlatQualifies(n - 1, m);
  }

  /** Such a page: one nameless node after `MAX_NODES` named ones loses no line and is marked truncated. */
  lemma NamelessNodeMarks(o: Output, m: nat)
    requires m == MAX_NODES
    ensures Forest(Flat(m + 1, m), FlatRank(m + 1))
    ensures var vs := Everything(Flat(m + 1, m), FlatRank(m + 1));
            Outlines(o, vs) ==> o.truncated && |o.lines| == |Qualifying(vs)| == MAX_NODES
  {
    FlatForest(m + 1, m);
    hide Outlines, Everything, Qualifying, FlatVisits, Flat, FlatRank, Forest, Qualifies;
    FlatEverything(m + 1, m, FlatRank(m + 1));
    FlatQualifying(m + 1, m);
    FlatLast(m + 1, m);
    if Outlines(o, FlatVisits(m + 1, m)) {
      MarkedWithoutLoss(o, FlatVisits(m + 1, m));
    }
  }
}
