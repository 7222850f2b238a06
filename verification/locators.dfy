/** Recording where an element is and finding it again: the CSS path, the XPath, the choice among
    selectors, and the lookup, over a plain HTML document. */
module Locators {
  import opened Prelude

  datatype Element = Element(tag: string, id: string, classes: seq<string>, attrs: map<string, string>,
                             text: string, children: seq<Element>)

  /** An element's address: child indices from the root. */
  type Path = seq<nat>

  /** Which ids and class names look generated, and so are not relied on. */
  datatype Naming = Naming(autoId: string -> bool, autoClass: string -> bool)

  const CSS_DEPTH := 8
  const XPATH_DEPTH := 12

  // ---------------------------------------------------------------- the document

  function Get(doc: Element, p: Path): Option<Element> {
    if p == [] then Some(doc)
    else
      match Get(doc, Parent(p))
      case None => None
      case Some(e) => if p[|p| - 1] < |e.children| then Some(e.children[p[|p| - 1]]) else None
  }

  function Parent(p: Path): Path
    requires p != []
  {
    p[..|p| - 1]
  }

  predicate In(doc: Element, p: Path) {
    Get(doc, p).Some?
  }

  function At(doc: Element, p: Path): Element
    requires In(doc, p)
  {
    Get(doc, p).value
  }

  lemma ParentIn(doc: Element, p: Path)
    requires In(doc, p) && p != []
    ensures In(doc, Parent(p)) && p[|p| - 1] < |At(doc, Parent(p)).children|
    ensures At(doc, p) == At(doc, Parent(p)).children[p[|p| - 1]]
  {}

  /** Among the first `n` siblings, those with this tag. */
  function Tagged(siblings: seq<Element>, tag: string, n: nat): nat
    requires n <= |siblings|
  {
    if n == 0 then 0 else Tagged(siblings, tag, n - 1) + (if siblings[n - 1].tag == tag then 1 else 0)
  }

  /** The position of an element among its siblings of the same tag, from 1. */
  function NthOfType(doc: Element, p: Path): nat
    requires In(doc, p)
  {
    if p == [] then 1
    else
      ParentIn(doc, p);
      1 + Tagged(At(doc, Parent(p)).children, At(doc, p).tag, p[|p| - 1])
  }

  function CountOfType(doc: Element, p: Path): nat
    requires In(doc, p)
  {
    if p == [] then 1
    else
      ParentIn(doc, p);
      var siblings := At(doc, Parent(p)).children;
      Tagged(siblings, At(doc, p).tag, |siblings|)
  }

  lemma {:induction false} TaggedMonotone(siblings: seq<Element>, tag: string, m: nat, n: nat)
    requires m <= n <= |siblings|
    ensures Tagged(siblings, tag, m) <= Tagged(siblings, tag, n)
    decreases n
  {
    if m < n {
      TaggedMonotone(siblings, tag, m, n - 1);
    }
  }

  lemma TaggedStep(siblings: seq<Element>, tag: string, i: nat)
    requires i < |siblings| && siblings[i].tag == tag
    ensures Tagged(siblings, tag, i + 1) == Tagged(siblings, tag, i) + 1
  {}

  /** Two siblings of one tag differ in position, and then there are at least two of them. */
  lemma SiblingsDiffer(siblings: seq<Element>, tag: string, i: nat, j: nat)
    requires i < j < |siblings| && siblings[i].tag == tag && siblings[j].tag == tag
    ensures Tagged(siblings, tag, i) < Tagged(siblings, tag, j)
    ensures Tagged(siblings, tag, |siblings|) > 1
  {
    hide Tagged;
    TaggedStep(siblings, tag, i);
    TaggedStep(siblings, tag, j);
    TaggedMonotone(siblings, tag, i + 1, j);
    TaggedMonotone(siblings, tag, j + 1, |siblings|);
  }

  /** Tag and position under one parent determine the element; so does the tag alone if it is the only
      one. */
  lemma TypeDetermines(doc: Element, p: Path, q: Path)
    requires In(doc, p) && In(doc, q) && p != [] && q != [] && Parent(p) == Parent(q)
    requires At(doc, p).tag == At(doc, q).tag
    requires CountOfType(doc, p) <= 1 || NthOfType(doc, p) == NthOfType(doc, q)
    ensures p == q
  {
    ParentIn(doc, p);
    ParentIn(doc, q);
    var siblings := At(doc, Parent(p)).children;
    var i, j := p[|p| - 1], q[|q| - 1];
    if i < j {
      SiblingsDiffer(siblings, At(doc, p).tag, i, j);
    } else if j < i {
      SiblingsDiffer(siblings, At(doc, p).tag, j, i);
    }
    assert p == Parent(p) + [i] && q == Parent(q) + [j];
  }

  // ---------------------------------------------------------------- selectors

  /** A compound selector; empty parts say nothing. `nth` is the argument of `:nth-of-type`, 0 if absent. */
  datatype Compound = Compound(tag: string, id: string, classes: seq<string>, attr: Option<(string, string)>, nth: nat)

  /** Compounds joined by the child combinator. */
  type Selector = seq<Compound>

  predicate Fits(doc: Element, p: Path, c: Compound)
    requires In(doc, p)
  {
    var e := At(doc, p);
    && (c.tag != "" ==> e.tag == c.tag)
    && (c.id != "" ==> e.id == c.id)
    && (forall k :: k in c.classes ==> k in e.classes)
    && (c.attr.Some? ==> c.attr.value.0 in e.attrs && e.attrs[c.attr.value.0] == c.attr.value.1)
    && (c.nth > 0 ==> NthOfType(doc, p) == c.nth)
  }

  /** The last compound fits the element, the one before it its parent, and so on. */
  predicate Matches(doc: Element, p: Path, s: Selector) {
    && s != [] && In(doc, p) && Fits(doc, p, s[|s| - 1])
    && (|s| > 1 ==> p != [] && Matches(doc, Parent(p), s[..|s| - 1]))
  }

  // ---------------------------------------------------------------- querySelectorAll

  /** All paths of a subtree in document order. */
  function PathsUnder(e: Element, at: Path): seq<Path>
    decreases e, 1
  {
    [at] + PathsUnderAll(e.children, at, |e.children|, e)
  }

  function PathsUnderAll(children: seq<Element>, at: Path, n: nat, ghost e: Element): seq<Path>
    requires children == e.children && n <= |children|
    decreases e, 0, n
  {
    if n == 0 then [] else PathsUnderAll(children, at, n - 1, e) + PathsUnder(children[n - 1], at + [n - 1])
  }

  /** The members that pass, in order. */
  function Where(ps: seq<Path>, keep: Path -> bool): seq<Path> {
    if ps == [] then []
    else Where(ps[..|ps| - 1], keep) + (if keep(ps[|ps| - 1]) then [ps[|ps| - 1]] else [])
  }

  function Matching(doc: Element, s: Selector): Path -> bool {
    q => Matches(doc, q, s)
  }

  function QueryAll(doc: Element, s: Selector): seq<Path> {
    Where(PathsUnder(doc, []), Matching(doc, s))
  }

  lemma {:induction false} GetThrough(doc: Element, at: Path, q: Path)
    requires In(doc, at)
    ensures Get(doc, at + q) == Get(At(doc, at), q)
    decreases |q|
  {
    if q == [] {
      assert at + q == at;
    } else {
      assert Parent(at + q) == at + Parent(q);
      GetThrough(doc, at, Parent(q));
    }
  }

  lemma {:induction false} PathsUnderMean(doc: Element, at: Path, q: Path)
    requires In(doc, at)
    ensures q in PathsUnder(At(doc, at), at) <==> at <= q && In(doc, q)
    decreases At(doc, at), 1
  {
    var e := At(doc, at);
    var n := |e.children|;
    PathsUnderAllMean(doc, at, n, q);
    if at <= q && In(doc, q) && q != at {
      var tail := q[|at|..];
      assert q == at + tail && tail == [tail[0]] + tail[1..];
      GetThrough(doc, at, [tail[0]]);
      if tail[0] >= n {
        GetThrough(doc, at, tail);
        NoChild(e, tail);
      }
    }
  }

  lemma {:induction false} NoChild(e: Element, q: Path)
    requires q != [] && q[0] >= |e.children|
    ensures Get(e, q).None?
    decreases |q|
  {
    if |q| > 1 {
      NoChild(e, Parent(q));
    } else {
      assert Parent(q) == [];
    }
  }

  lemma {:induction false} PathsUnderAllMean(doc: Element, at: Path, n: nat, q: Path)
    requires In(doc, at) && n <= |At(doc, at).children|
    ensures q in PathsUnderAll(At(doc, at).children, at, n, At(doc, at)) <==>
              at < q && q[|at|] < n && In(doc, q)
    decreases At(doc, at), 0, n
  {
    var e := At(doc, at);
    if n > 0 {
      PathsUnderAllMean(doc, at, n - 1, q);
      var child := at + [n - 1];
      assert Parent(child) == at;
      PathsUnderMean(doc, child, q);
      assert child <= q <==> at < q && q[|at|] == n - 1;
    }
  }

  lemma {:induction false} WhereMeans(ps: seq<Path>, keep: Path -> bool, q: Path)
    ensures q in Where(ps, keep) <==> q in ps && keep(q)
    decreases |ps|
  {
    if ps != [] {
      WhereMeans(ps[..|ps| - 1], keep, q);
      assert ps == ps[..|ps| - 1] + [ps[|ps| - 1]];
    }
  }

  /** A query returns exactly the elements that match. */
  lemma QueryMeans(doc: Element, s: Selector, q: Path)
    ensures q in QueryAll(doc, s) <==> Matches(doc, q, s)
  {
    PathsUnderMean(doc, [], q);
    WhereMeans(PathsUnder(doc, []), Matching(doc, s), q);
  }

  ghost predicate Distinct(ps: seq<Path>) {
    forall i, j :: 0 <= i < j < |ps| ==> ps[i] != ps[j]
  }

  lemma DistinctConcat(a: seq<Path>, b: seq<Path>)
    requires Distinct(a) && Distinct(b) && forall q :: q in a ==> q !in b
    ensures Distinct(a + b)
  {
    forall i, j | 0 <= i < j < |a + b| ensures (a + b)[i] != (a + b)[j] {
      if i < |a| <= j {
        assert a[i] in a && b[j - |a|] in b;
      }
    }
  }

  lemma {:induction false} PathsUnderDistinct(doc: Element, at: Path)
    requires In(doc, at)
    ensures Distinct(PathsUnder(At(doc, at), at))
    decreases At(doc, at), 1
  {
    var e := At(doc, at);
    var below := PathsUnderAll(e.children, at, |e.children|, e);
    PathsUnderAllDistinct(doc, at, |e.children|);
    PathsUnderAllMean(doc, at, |e.children|, at);
    DistinctConcat([at], below);
  }

  lemma {:induction false} PathsUnderAllDistinct(doc: Element, at: Path, n: nat)
    requires In(doc, at) && n <= |At(doc, at).children|
    ensures Distinct(PathsUnderAll(At(doc, at).children, at, n, At(doc, at)))
    decreases At(doc, at), 0, n
  {
    if n > 0 {
      var e := At(doc, at);
      var child := at + [n - 1];
      assert Parent(child) == at;
      PathsUnderAllDistinct(doc, at, n - 1);
      PathsUnderDistinct(doc, child);
      var before := PathsUnderAll(e.children, at, n - 1, e);
      forall q | q in before ensures q !in PathsUnder(e.children[n - 1], child) {
        PathsUnderAllMean(doc, at, n - 1, q);
        PathsUnderMean(doc, child, q);
      }
      DistinctConcat(before, PathsUnder(e.children[n - 1], child));
    }
  }

  lemma {:induction false} WhereDistinct(ps: seq<Path>, keep: Path -> bool)
    requires Distinct(ps)
    ensures Distinct(Where(ps, keep))
    decreases |ps|
  {
    if ps != [] {
      var n := |ps| - 1;
      WhereDistinct(ps[..n], keep);
      WhereMeans(ps[..n], keep, ps[n]);
      if keep(ps[n]) {
        DistinctConcat(Where(ps[..n], keep), [ps[n]]);
      }
    }
  }

  /** A list without repetition holds `p` alone exactly when `p` is its only member. */
  lemma OnlyMember(r: seq<Path>, p: Path)
    requires Distinct(r)
    ensures r == [p] <==> p in r && forall q :: q in r ==> q == p
  {
    if p in r && forall q :: q in r ==> q == p {
      assert |r| > 1 ==> r[0] != r[1];
      forall i | 0 <= i < |r| ensures r[i] == p {
        assert r[i] in r;
      }
    }
  }

  lemma QueryDistinct(doc: Element, s: Selector)
    ensures Distinct(QueryAll(doc, s))
  {
    PathsUnderDistinct(doc, []);
    WhereDistinct(PathsUnder(doc, []), Matching(doc, s));
  }

  /** `p` and nothing else. */
  ghost predicate MatchesOnly(doc: Element, s: Selector, p: Path) {
    Matches(doc, p, s) && forall q :: Matches(doc, q, s) ==> q == p
  }

  /** A query has one result, namely `p`, exactly when `p` matches and nothing else does. */
  lemma SingleResult(doc: Element, s: Selector, p: Path)
    ensures QueryAll(doc, s) == [p] <==> MatchesOnly(doc, s, p)
  {
    var r := QueryAll(doc, s);
    QueryDistinct(doc, s);
    OnlyMember(r, p);
    QueryMeans(doc, s, p);
    hide QueryAll, Matches, Distinct;
    if r == [p] {
      forall q | Matches(doc, q, s) ensures q == p {
        QueryMeans(doc, s, q);
      }
    } else if MatchesOnly(doc, s, p) {
      forall q | q in r ensures q == p {
        QueryMeans(doc, s, q);
      }
    }
  }

  // ---------------------------------------------------------------- the CSS path

  predicate StableId(e: Element, n: Naming) {
    e.id != "" && !n.autoId(e.id)
  }

  /** At most two class names of reasonable length that do not look generated. */
  function StableClasses(classes: seq<string>, n: Naming): (cs: seq<string>)
    ensures forall c :: c in cs ==> c in classes
  {
    if classes == [] then []
    else
      var before := StableClasses(classes[..|classes| - 1], n);
      var c := classes[|classes| - 1];
      assert classes == classes[..|classes| - 1] + [c];
      if |before| == 2 || |c| < 2 || |c| > 30 || n.autoClass(c) then before else before + [c]
  }

  function IdCompound(id: string): Compound {
    Compound("", id, [], None, 0)
  }

  /** Tag, classes, and the position where the tag alone would not do. */
  function SegmentFor(doc: Element, p: Path, n: Naming): Compound
    requires In(doc, p)
  {
    var e := At(doc, p);
    Compound(e.tag, "", StableClasses(e.classes, n), None, if CountOfType(doc, p) > 1 then NthOfType(doc, p) else 0)
  }

  /** The path selector, climbing at most `depth` elements and stopping at a stable id. */
  function CssPath(doc: Element, p: Path, n: Naming, depth: nat): Selector
    requires In(doc, p)
    decreases depth
  {
    if depth == 0 then []
    else if StableId(At(doc, p), n) then [IdCompound(At(doc, p).id)]
    else if p == [] then [SegmentFor(doc, p, n)]
    else ParentIn(doc, p); CssPath(doc, Parent(p), n, depth - 1) + [SegmentFor(doc, p, n)]
  }

  method CollectStableClasses(classes: seq<string>, n: Naming) returns (out: seq<string>)
    ensures out == StableClasses(classes, n)
  {
    out := [];
    var i := 0;
    while i < |classes| && |out| < 2
      invariant i <= |classes| && |out| <= 2 && out == StableClasses(classes[..i], n)
    {
      assert classes[..i + 1][..i] == classes[..i];
      if 2 <= |classes[i]| <= 30 && !n.autoClass(classes[i]) {
        out := out + [classes[i]];
      }
      i := i + 1;
    }
    assert classes[..|classes|] == classes;
    TwoIsEnough(classes, n, i);
  }

  lemma {:induction false} TwoIsEnough(classes: seq<string>, n: Naming, i: nat)
    requires i <= |classes| && (i == |classes| || |StableClasses(classes[..i], n)| == 2)
    ensures StableClasses(classes[..i], n) == StableClasses(classes, n)
    decreases |classes|
  {
    if i < |classes| {
      var front := classes[..|classes| - 1];
      assert front[..i] == classes[..i];
      TwoIsEnough(front, n, i);
    } else {
      assert classes[..i] == classes;
    }
  }

  lemma ClimbStep(doc: Element, p: Path, n: Naming, depth: nat, parts: Selector)
    requires In(doc, p) && depth > 0 && !StableId(At(doc, p), n)
    ensures var rest := [SegmentFor(doc, p, n)] + parts;
            if p == [] then CssPath(doc, p, n, depth) + parts == rest
            else In(doc, Parent(p)) && CssPath(doc, p, n, depth) + parts == CssPath(doc, Parent(p), n, depth - 1) + rest
  {
    if p != [] {
      ParentIn(doc, p);
      Regroup(CssPath(doc, Parent(p), n, depth - 1), [SegmentFor(doc, p, n)], parts);
    }
  }

  /** The climbing loop, for a limit of `limit` parts. */
  method BuildCssPath(doc: Element, p: Path, n: Naming, limit: nat) returns (parts: Selector)
    requires In(doc, p)
    ensures parts == CssPath(doc, p, n, limit)
  {
    parts := [];
    var cur := Some(p);
    while cur.Some? && |parts| < limit
      invariant |parts| <= limit
      invariant cur.Some? ==> In(doc, cur.value)
      invariant cur.Some? ==> CssPath(doc, p, n, limit) == CssPath(doc, cur.value, n, limit - |parts|) + parts
      invariant cur.None? ==> CssPath(doc, p, n, limit) == parts
      decreases limit - |parts|
    {
      var e := At(doc, cur.value);
      if StableId(e, n) {
        parts, cur := [IdCompound(e.id)] + parts, None;
      } else {
        ClimbStep(doc, cur.value, n, limit - |parts|, parts);
        parts := [SegmentFor(doc, cur.value, n)] + parts;
        cur := if cur.value == [] then None else Some(Parent(cur.value));
      }
    }
    assert [] + parts == parts;
  }

  lemma SegmentFits(doc: Element, p: Path, n: Naming)
    requires In(doc, p)
    ensures Fits(doc, p, SegmentFor(doc, p, n))
    ensures StableId(At(doc, p), n) ==> Fits(doc, p, IdCompound(At(doc, p).id))
  {}

  /** Every element matches its own path, whatever its depth. */
  lemma {:induction false} MatchesOwnPath(doc: Element, p: Path, n: Naming, depth: nat)
    requires In(doc, p) && depth > 0
    ensures Matches(doc, p, CssPath(doc, p, n, depth))
    decreases depth
  {
    SegmentFits(doc, p, n);
    var s := CssPath(doc, p, n, depth);
    if !StableId(At(doc, p), n) && p != [] {
      ParentIn(doc, p);
      assert s[..|s| - 1] == CssPath(doc, Parent(p), n, depth - 1);
      if depth > 1 {
        MatchesOwnPath(doc, Parent(p), n, depth - 1);
      }
    }
  }

  /** The climb ends at the root or at a stable id that no other element has. */
  ghost predicate Anchored(doc: Element, p: Path, n: Naming, depth: nat)
    requires In(doc, p)
    decreases depth
  {
    && depth > 0
    && if StableId(At(doc, p), n) then forall q :: In(doc, q) && At(doc, q).id == At(doc, p).id ==> q == p
       else if p == [] then true
       else ParentIn(doc, p); Anchored(doc, Parent(p), n, depth - 1)
  }

  ghost predicate RootTagOnlyAtRoot(doc: Element) {
    forall q :: In(doc, q) && At(doc, q).tag == doc.tag ==> q == []
  }

  /** Tags are never empty. */
  ghost predicate TagsNamed(doc: Element) {
    forall q :: In(doc, q) ==> At(doc, q).tag != ""
  }

  lemma {:induction false} PathMatchesNothingElse(doc: Element, p: Path, n: Naming, depth: nat, q: Path)
    requires In(doc, p) && RootTagOnlyAtRoot(doc) && TagsNamed(doc) && Anchored(doc, p, n, depth)
    requires Matches(doc, q, CssPath(doc, p, n, depth))
    ensures q == p
    decreases depth
  {
    var s := CssPath(doc, p, n, depth);
    if StableId(At(doc, p), n) {
    } else if p == [] {
      assert Fits(doc, q, SegmentFor(doc, p, n));
    } else {
      ParentIn(doc, p);
      assert s[..|s| - 1] == CssPath(doc, Parent(p), n, depth - 1) && s[|s| - 1] == SegmentFor(doc, p, n);
      PathNotEmpty(doc, Parent(p), n, depth - 1);
      PathMatchesNothingElse(doc, Parent(p), n, depth - 1, Parent(q));
      TypeDetermines(doc, p, q);
    }
  }

  lemma PathNotEmpty(doc: Element, p: Path, n: Naming, depth: nat)
    requires In(doc, p) && depth > 0
    ensures CssPath(doc, p, n, depth) != []
  {}

  /** An element at depth at most 8 with no stable id on its path is anchored at the root. */
  lemma {:induction false} ShallowIsAnchored(doc: Element, p: Path, n: Naming, depth: nat)
    requires In(doc, p) && |p| < depth
    requires forall k :: 0 <= k <= |p| && In(doc, p[..k]) ==> !StableId(At(doc, p[..k]), n)
    ensures Anchored(doc, p, n, depth)
    decreases depth
  {
    assert p[..|p|] == p;
    if p != [] {
      ParentIn(doc, p);
      assert forall k :: 0 <= k < |p| ==> Parent(p)[..k] == p[..k];
      ShallowIsAnchored(doc, Parent(p), n, depth - 1);
    }
  }

  /** CSS locator: in a document whose root tag occurs only at the root, the selector built for an element
      whose climb is anchored matches that element and no other. */
  lemma CssLocates(doc: Element, p: Path, n: Naming)
    requires In(doc, p) && RootTagOnlyAtRoot(doc) && TagsNamed(doc)
    requires Anchored(doc, p, n, CSS_DEPTH)
    ensures QueryAll(doc, CssPath(doc, p, n, CSS_DEPTH)) == [p]
  {
    var s := CssPath(doc, p, n, CSS_DEPTH);
    MatchesOwnPath(doc, p, n, CSS_DEPTH);
    forall q | Matches(doc, q, s) ensures q == p {
      PathMatchesNothingElse(doc, p, n, CSS_DEPTH, q);
    }
    SingleResult(doc, s, p);
  }

  /** In particular for every element at depth at most 8 with no stable id on its path. */
  lemma CssLocatesShallow(doc: Element, p: Path, n: Naming)
    requires In(doc, p) && RootTagOnlyAtRoot(doc) && TagsNamed(doc) && |p| + 1 <= CSS_DEPTH
    requires forall k :: 0 <= k <= |p| && In(doc, p[..k]) ==> !StableId(At(doc, p[..k]), n)
    ensures QueryAll(doc, CssPath(doc, p, n, CSS_DEPTH)) == [p]
  {
    ShallowIsAnchored(doc, p, n, CSS_DEPTH);
    CssLocates(doc, p, n);
  }

  // ---------------------------------------------------------------- the XPath

  /** A location path from the document node: child steps with a tag and a position. */
  datatype XStep = XStep(tag: string, position: nat)

  /** Each step selects, among the children of the node so far that have its tag, the one at its
      position (XPath 1.0 section 2.5). The only child of the document node is the root. */
  predicate Selects(doc: Element, steps: seq<XStep>, p: Path) {
    && steps != [] && In(doc, p)
    && At(doc, p).tag == steps[|steps| - 1].tag && NthOfType(doc, p) == steps[|steps| - 1].position
    && if |steps| == 1 then p == [] else p != [] && Selects(doc, steps[..|steps| - 1], Parent(p))
  }

  /** The location path of an element, at most `depth` steps. */
  function XPathOf(doc: Element, p: Path, depth: nat): seq<XStep>
    requires In(doc, p)
    decreases depth
  {
    if depth == 0 then []
    else
      var step := [XStep(At(doc, p).tag, NthOfType(doc, p))];
      if p == [] then step else ParentIn(doc, p); XPathOf(doc, Parent(p), depth - 1) + step
  }

  lemma XClimbStep(doc: Element, p: Path, depth: nat, steps: seq<XStep>)
    requires In(doc, p) && depth > 0
    ensures var rest := [XStep(At(doc, p).tag, NthOfType(doc, p))] + steps;
            if p == [] then XPathOf(doc, p, depth) + steps == rest
            else In(doc, Parent(p)) && XPathOf(doc, p, depth) + steps == XPathOf(doc, Parent(p), depth - 1) + rest
  {
    if p != [] {
      ParentIn(doc, p);
      Regroup(XPathOf(doc, Parent(p), depth - 1), [XStep(At(doc, p).tag, NthOfType(doc, p))], steps);
    }
  }

  /** The climbing loop, counting back over the earlier siblings at every level. */
  method BuildXPath(doc: Element, p: Path, limit: nat) returns (steps: seq<XStep>)
    requires In(doc, p)
    ensures steps == XPathOf(doc, p, limit)
  {
    steps := [];
    var cur := Some(p);
    while cur.Some? && |steps| < limit
      invariant |steps| <= limit
      invariant cur.Some? ==> In(doc, cur.value)
      invariant cur.Some? ==> XPathOf(doc, p, limit) == XPathOf(doc, cur.value, limit - |steps|) + steps
      invariant cur.None? ==> XPathOf(doc, p, limit) == steps
      decreases limit - |steps|
    {
      var position := CountBack(doc, cur.value);
      XClimbStep(doc, cur.value, limit - |steps|, steps);
      steps := [XStep(At(doc, cur.value).tag, position)] + steps;
      cur := if cur.value == [] then None else Some(Parent(cur.value));
    }
    assert [] + steps == steps;
  }

  method CountBack(doc: Element, p: Path) returns (i: nat)
    requires In(doc, p)
    ensures i == NthOfType(doc, p)
  {
    i := 1;
    if p == [] {
      return;
    }
    ParentIn(doc, p);
    var siblings, tag := At(doc, Parent(p)).children, At(doc, p).tag;
    var sibling: nat := p[|p| - 1];
    while sibling > 0
      invariant sibling <= |siblings|
      invariant i + Tagged(siblings, tag, sibling) == NthOfType(doc, p)
    {
      sibling := sibling - 1;
      if siblings[sibling].tag == tag {
        i := i + 1;
      }
    }
  }

  lemma {:induction false} XPathLength(doc: Element, p: Path, depth: nat)
    requires In(doc, p)
    ensures |XPathOf(doc, p, depth)| == if |p| + 1 <= depth then |p| + 1 else depth
    decreases depth
  {
    if depth > 0 && p != [] {
      ParentIn(doc, p);
      XPathLength(doc, Parent(p), depth - 1);
    }
  }

  lemma {:induction false} SelectsDepth(doc: Element, steps: seq<XStep>, p: Path)
    requires Selects(doc, steps, p)
    ensures |steps| == |p| + 1
    decreases |steps|
  {
    if |steps| > 1 {
      SelectsDepth(doc, steps[..|steps| - 1], Parent(p));
    }
  }

  lemma {:induction false} XPathSelects(doc: Element, p: Path, depth: nat, q: Path)
    requires In(doc, p) && |p| + 1 <= depth
    ensures Selects(doc, XPathOf(doc, p, depth), q) <==> q == p
    decreases depth
  {
    var s := XPathOf(doc, p, depth);
    if p == [] {
    } else {
      ParentIn(doc, p);
      XPathLength(doc, Parent(p), depth - 1);
      assert s[..|s| - 1] == XPathOf(doc, Parent(p), depth - 1);
      if q != [] {
        XPathSelects(doc, Parent(p), depth - 1, Parent(q));
        if Selects(doc, s, q) {
          TypeDetermines(doc, p, q);
        }
      }
    }
  }

  /** XPath locator: evaluating the recorded path finds the element exactly when its depth is at most
      12, and then finds nothing else. */
  lemma XPathLocates(doc: Element, p: Path)
    requires In(doc, p)
    ensures Selects(doc, XPathOf(doc, p, XPATH_DEPTH), p) <==> |p| + 1 <= XPATH_DEPTH
    ensures |p| + 1 <= XPATH_DEPTH ==> forall q :: Selects(doc, XPathOf(doc, p, XPATH_DEPTH), q) ==> q == p
  {
    var s := XPathOf(doc, p, XPATH_DEPTH);
    XPathLength(doc, p, XPATH_DEPTH);
    if |p| + 1 <= XPATH_DEPTH {
      forall q ensures Selects(doc, s, q) <==> q == p {
        XPathSelects(doc, p, XPATH_DEPTH, q);
      }
    } else if Selects(doc, s, p) {
      SelectsDepth(doc, s, p);
    }
  }

  /** Distinct elements within that depth get distinct paths. */
  lemma XPathsDiffer(doc: Element, p: Path, q: Path)
    requires In(doc, p) && In(doc, q) && |p| + 1 <= XPATH_DEPTH && |q| + 1 <= XPATH_DEPTH
    requires XPathOf(doc, p, XPATH_DEPTH) == XPathOf(doc, q, XPATH_DEPTH)
    ensures p == q
  {
    XPathSelects(doc, p, XPATH_DEPTH, q);
    XPathSelects(doc, q, XPATH_DEPTH, q);
  }

  /** Beyond that depth the recorded path starts below the root, and finds nothing at all. */
  lemma {:induction false} DeepPathFindsNothing(doc: Element, p: Path, depth: nat, q: Path)
    requires In(doc, p) && RootTagOnlyAtRoot(doc) && 0 < depth <= |p|
    ensures !Selects(doc, XPathOf(doc, p, depth), q)
    decreases depth
  {
    var s := XPathOf(doc, p, depth);
    ParentIn(doc, p);
    XPathLength(doc, p, depth);
    if depth > 1 && q != [] {
      assert s[..|s| - 1] == XPathOf(doc, Parent(p), depth - 1);
      DeepPathFindsNothing(doc, Parent(p), depth - 1, Parent(q));
    }
  }

  // ---------------------------------------------------------------- recording selectors

  datatype Kind = TestId | Id | Name | Aria | ByPath

  datatype Candidate = Candidate(kind: Kind, sel: Selector)

  /** What is stored about an element to find it again. `[]` stands for an absent selector. */
  datatype Recorded = Recorded(tag: string, text: string, selector: Selector, kind: Kind, unique: bool,
                               testid: Selector, aria: Selector, css: Selector, xpath: seq<XStep>)

  const TESTID_ATTRS := ["data-testid", "data-test-id", "data-test", "data-cy", "data-qa"]

  predicate HasAttr(e: Element, name: string) {
    name in e.attrs && e.attrs[name] != ""
  }

  function AttrSelector(tag: string, e: Element, name: string): Selector
    requires HasAttr(e, name)
  {
    [Compound(tag, "", [], Some((name, e.attrs[name])), 0)]
  }

  function TestIds(e: Element, names: seq<string>): seq<Candidate> {
    if names == [] then []
    else if HasAttr(e, names[0]) then [Candidate(TestId, AttrSelector("", e, names[0]))] + TestIds(e, names[1..])
    else TestIds(e, names[1..])
  }

  /** In order of preference. */
  function Candidates(e: Element, n: Naming): seq<Candidate> {
    TestIds(e, TESTID_ATTRS)
    + (if StableId(e, n) then [Candidate(Id, [IdCompound(e.id)])] else [])
    + (if HasAttr(e, "name") then [Candidate(Name, AttrSelector(e.tag, e, "name"))] else [])
    + (if HasAttr(e, "aria-label") then [Candidate(Aria, AttrSelector(e.tag, e, "aria-label"))] else [])
  }

  predicate Unique(doc: Element, s: Selector) {
    |QueryAll(doc, s)| == 1
  }

  function FirstUnique(doc: Element, cs: seq<Candidate>): (r: Option<Candidate>)
    ensures r.Some? ==> r.value in cs && Unique(doc, r.value.sel)
    ensures r.None? ==> forall c :: c in cs ==> !Unique(doc, c.sel)
  {
    if cs == [] then None
    else if Unique(doc, cs[0].sel) then Some(cs[0])
    else FirstUnique(doc, cs[1..])
  }

  /** The selector to rely on: the first unique candidate, else the path if unique, else the first
      candidate, else the path. */
  function Choose(doc: Element, cs: seq<Candidate>, path: Selector): (Candidate, bool) {
    match FirstUnique(doc, cs)
    case Some(c) => (c, true)
    case None =>
      if Unique(doc, path) then (Candidate(ByPath, path), true)
      else if cs != [] then (cs[0], false)
      else (Candidate(ByPath, path), false)
  }

  function SelectorsFor(doc: Element, p: Path, n: Naming): Recorded
    requires In(doc, p)
  {
    var e := At(doc, p);
    var path := CssPath(doc, p, n, CSS_DEPTH);
    var testIds := TestIds(e, TESTID_ATTRS);
    var (chosen, unique) := Choose(doc, Candidates(e, n), path);
    Recorded(e.tag, e.text, chosen.sel, chosen.kind, unique,
             if testIds == [] then [] else testIds[0].sel,
             if HasAttr(e, "aria-label") then AttrSelector(e.tag, e, "aria-label") else [],
             path, XPathOf(doc, p, XPATH_DEPTH))
  }

  lemma {:induction false} TestIdsMatch(doc: Element, p: Path, names: seq<string>, c: Candidate)
    requires In(doc, p) && c in TestIds(At(doc, p), names)
    ensures Matches(doc, p, c.sel)
    decreases |names|
  {
    if !(HasAttr(At(doc, p), names[0]) && c.sel == AttrSelector("", At(doc, p), names[0])) {
      TestIdsMatch(doc, p, names[1..], c);
    }
  }

  lemma CandidatesMatch(doc: Element, p: Path, n: Naming, c: Candidate)
    requires In(doc, p) && c in Candidates(At(doc, p), n)
    ensures Matches(doc, p, c.sel)
  {
    if c in TestIds(At(doc, p), TESTID_ATTRS) {
      TestIdsMatch(doc, p, TESTID_ATTRS, c);
    }
  }

  /** The chosen selector always matches the element; it is reported unique exactly when it matches
      nothing else, and not unique only when no candidate, nor the path, would single the element out. */
  lemma ReportIsHonest(doc: Element, p: Path, n: Naming)
    requires In(doc, p)
    ensures var r := SelectorsFor(doc, p, n);
            && Matches(doc, p, r.selector)
            && (r.unique <==> MatchesOnly(doc, r.selector, p))
            && (!r.unique ==> !MatchesOnly(doc, CssPath(doc, p, n, CSS_DEPTH), p))
            && (!r.unique ==> forall c :: c in Candidates(At(doc, p), n) ==> !MatchesOnly(doc, c.sel, p))
  {
    var cs := Candidates(At(doc, p), n);
    var path := CssPath(doc, p, n, CSS_DEPTH);
    forall c | c in cs ensures Matches(doc, p, c.sel) && (Unique(doc, c.sel) <==> MatchesOnly(doc, c.sel, p)) {
      CandidatesMatch(doc, p, n, c);
      UniqueIsOnly(doc, c.sel, p);
    }
    MatchesOwnPath(doc, p, n, CSS_DEPTH);
    UniqueIsOnly(doc, path, p);
  }

  lemma UniqueIsOnly(doc: Element, s: Selector, p: Path)
    requires Matches(doc, p, s)
    ensures Unique(doc, s) <==> QueryAll(doc, s) == [p]
    ensures Unique(doc, s) <==> MatchesOnly(doc, s, p)
  {
    SingleResult(doc, s, p);
    QueryMeans(doc, s, p);
  }

  // ---------------------------------------------------------------- looking up

  datatype Strategy = Selector_ | TestId_ | Aria_ | Css_ | XPath_ | Text_ | Nothing

  datatype Found = Found(el: Option<Path>, strategy: Strategy, matches: nat, ambiguous: bool)

  function WithText(doc: Element, text: string): Path -> bool {
    q => In(doc, q) && At(doc, q).text == text
  }

  function SelectedBy(doc: Element, steps: seq<XStep>): Path -> bool {
    q => Selects(doc, steps, q)
  }

  /** One selector's turn: nothing if it is absent or finds nothing. Several results are narrowed by the
      recorded text where there is one. */
  function Try(doc: Element, sel: Selector, text: string, strategy: Strategy): Option<Found> {
    if sel == [] then None
    else
      var found := QueryAll(doc, sel);
      if found == [] then None
      else if |found| == 1 then Some(Found(Some(found[0]), strategy, 1, false))
      else
        var byText := if text == "" then [] else Where(found, WithText(doc, text));
        Some(Found(Some(if byText == [] then found[0] else byText[0]), strategy, |found|, byText == []))
  }

  function TryXPath(doc: Element, steps: seq<XStep>): Option<Found> {
    var found := Where(PathsUnder(doc, []), SelectedBy(doc, steps));
    if found == [] then None else Some(Found(Some(found[0]), XPath_, 1, false))
  }

  function TryText(doc: Element, tag: string, text: string): Option<Found> {
    if text == "" || tag == "" then None
    else
      var found := Where(QueryAll(doc, [Compound(tag, "", [], None, 0)]), WithText(doc, text));
      if found == [] then None else Some(Found(Some(found[0]), Text_, |found|, false))
  }

  function OrElse(a: Option<Found>, b: Option<Found>): Option<Found> {
    if a.Some? then a else b
  }

  function Lookup(doc: Element, r: Recorded): Found {
    var bySelector := OrElse(Try(doc, r.selector, r.text, Selector_),
                             OrElse(Try(doc, r.testid, r.text, TestId_),
                                    OrElse(Try(doc, r.aria, r.text, Aria_), Try(doc, r.css, r.text, Css_))));
    var found := OrElse(bySelector, OrElse(TryXPath(doc, r.xpath), TryText(doc, r.tag, r.text)));
    if found.Some? then found.value else Found(None, Nothing, 0, false)
  }

  /** Right after recording, on the unchanged document, the lookup is decided by the chosen selector. It
      reports one match exactly when the recording said unique, and then returns that very element. */
  lemma LookupFindsTheElement(doc: Element, p: Path, n: Naming)
    requires In(doc, p)
    ensures var r := SelectorsFor(doc, p, n); var f := Lookup(doc, r);
            && f.strategy == Selector_
            && (f.matches == 1 <==> r.unique)
            && (r.unique ==> f == Found(Some(p), Selector_, 1, false))
  {
    var r := SelectorsFor(doc, p, n);
    ReportIsHonest(doc, p, n);
    UniqueIsOnly(doc, r.selector, p);
    QueryMeans(doc, r.selector, p);
  }

  /** In particular an element whose climb is anchored is always reported unique, and always found. */
  lemma AnchoredIsFound(doc: Element, p: Path, n: Naming)
    requires In(doc, p) && RootTagOnlyAtRoot(doc) && TagsNamed(doc) && Anchored(doc, p, n, CSS_DEPTH)
    ensures Lookup(doc, SelectorsFor(doc, p, n)) == Found(Some(p), Selector_, 1, false)
  {
    hide Anchored, SelectorsFor, Lookup;
    var path := CssPath(doc, p, n, CSS_DEPTH);
    CssLocates(doc, p, n);
    SingleResult(doc, path, p);
    ReportIsHonest(doc, p, n);
    LookupFindsTheElement(doc, p, n);
  }

  lemma {:induction false} WhereFirst(ps: seq<Path>, keep: Path -> bool, i: nat)
    requires i < |ps| && keep(ps[i]) && forall j :: 0 <= j < i ==> !keep(ps[j])
    ensures Where(ps, keep) != [] && Where(ps, keep)[0] == ps[i]
    decreases |ps|
  {
    var n := |ps| - 1;
    if i < n {
      WhereFirst(ps[..n], keep, i);
    } else {
      WhereNone(ps[..n], keep);
    }
  }

  lemma {:induction false} WhereNone(ps: seq<Path>, keep: Path -> bool)
    requires forall j :: 0 <= j < |ps| ==> !keep(ps[j])
    ensures Where(ps, keep) == []
    decreases |ps|
  {
    if ps != [] {
      WhereNone(ps[..|ps| - 1], keep);
    }
  }

  /** With several results, the pick is the first with the recorded text, or the first of all when no
      text was recorded. */
  lemma TryPicks(doc: Element, sel: Selector, text: string, strategy: Strategy, i: nat)
    requires var found := QueryAll(doc, sel);
             i < |found| && |found| > 1 && sel != [] && Distinct(found) && WithText(doc, text)(found[i])
    ensures var found := QueryAll(doc, sel); var f := Try(doc, sel, text, strategy);
            && f.Some? && f.value.strategy == strategy && f.value.matches == |found|
            && (f.value.ambiguous <==> text == "")
            && (f.value.el == Some(found[i]) <==>
                if text == "" then i == 0 else forall j :: 0 <= j < i ==> !WithText(doc, text)(found[j]))
  {
    var found := QueryAll(doc, sel);
    hide QueryAll;
    if text != "" {
      var k := FirstIndex(found, WithText(doc, text), i);
      WhereFirst(found, WithText(doc, text), k);
    }
  }

  lemma {:induction false} FirstIndex(ps: seq<Path>, keep: Path -> bool, i: nat) returns (k: nat)
    requires i < |ps| && keep(ps[i])
    ensures k <= i && keep(ps[k]) && forall j :: 0 <= j < k ==> !keep(ps[j])
    decreases i
  {
    if j :| 0 <= j < i && keep(ps[j]) {
      k := FirstIndex(ps, keep, j);
    } else {
      k := i;
    }
  }

  /** When the selector was not unique and a text was recorded, the lookup returns the element if and only
      if it comes first, in document order, among the matches with its text; without a text, if and only
      if it comes first among the matches, and then the answer is marked ambiguous. */
  lemma AmbiguousLookup(doc: Element, p: Path, n: Naming, i: nat)
    requires In(doc, p) && !SelectorsFor(doc, p, n).unique
    requires i < |QueryAll(doc, SelectorsFor(doc, p, n).selector)|
    requires QueryAll(doc, SelectorsFor(doc, p, n).selector)[i] == p
    ensures var r := SelectorsFor(doc, p, n); var f := Lookup(doc, r); var found := QueryAll(doc, r.selector);
            && f.matches == |found| > 1
            && (f.ambiguous <==> r.text == "")
            && (f.el == Some(p) <==>
                if r.text == "" then i == 0 else forall j :: 0 <= j < i ==> !WithText(doc, r.text)(found[j]))
  {
    var r := SelectorsFor(doc, p, n);
    assert r.text == At(doc, p).text;
    ReportIsHonest(doc, p, n);
    hide SelectorsFor, At;
    UniqueIsOnly(doc, r.selector, p);
    QueryDistinct(doc, r.selector);
    TryPicks(doc, r.selector, r.text, Selector_, i);
  }

  ghost predicate MatchesNothing(doc: Element, s: Selector) {
    forall q :: !Matches(doc, q, s)
  }

  lemma NonEmptyQuery(doc: Element, s: Selector)
    ensures QueryAll(doc, s) == [] <==> MatchesNothing(doc, s)
    ensures QueryAll(doc, s) != [] ==> Matches(doc, QueryAll(doc, s)[0], s)
    ensures |QueryAll(doc, s)| == 1 ==> MatchesOnly(doc, s, QueryAll(doc, s)[0])
    ensures s == [] ==> MatchesNothing(doc, s)
  {
    var r := QueryAll(doc, s);
    if r == [] {
      forall q ensures !Matches(doc, q, s) {
        QueryMeans(doc, s, q);
      }
    } else {
      assert r[0] in r;
      QueryMeans(doc, s, r[0]);
      if |r| == 1 {
        SingleResult(doc, s, r[0]);
      }
    }
  }

  lemma TryIsSound(doc: Element, sel: Selector, text: string, strategy: Strategy)
    ensures var f := Try(doc, sel, text, strategy);
            && (f.None? <==> MatchesNothing(doc, sel))
            && (f.Some? ==> f.value.el.Some? && f.value.strategy == strategy && f.value.matches > 0
                            && Matches(doc, f.value.el.value, sel)
                            && (f.value.matches == 1 ==> MatchesOnly(doc, sel, f.value.el.value)))
  {
    hide QueryAll, Matches, Where;
    NonEmptyQuery(doc, sel);
    var found := QueryAll(doc, sel);
    var byText := Where(found, WithText(doc, text));
    if sel != [] && byText != [] {
      WhereMeans(found, WithText(doc, text), byText[0]);
      QueryMeans(doc, sel, byText[0]);
    }
  }

  ghost predicate SelectsNothing(doc: Element, steps: seq<XStep>) {
    forall q :: !Selects(doc, steps, q)
  }

  lemma SelectedMeans(doc: Element, steps: seq<XStep>, q: Path)
    ensures q in Where(PathsUnder(doc, []), SelectedBy(doc, steps)) <==> Selects(doc, steps, q)
  {
    PathsUnderMean(doc, [], q);
    WhereMeans(PathsUnder(doc, []), SelectedBy(doc, steps), q);
  }

  lemma TryXPathIsSound(doc: Element, steps: seq<XStep>)
    ensures var f := TryXPath(doc, steps);
            && (f.None? <==> SelectsNothing(doc, steps))
            && (f.Some? ==> f.value.el.Some? && f.value.strategy == XPath_ && f.value.matches == 1
                            && Selects(doc, steps, f.value.el.value))
  {
    var found := Where(PathsUnder(doc, []), SelectedBy(doc, steps));
    if found == [] {
      forall q ensures !Selects(doc, steps, q) {
        SelectedMeans(doc, steps, q);
      }
    } else {
      assert found[0] in found;
      SelectedMeans(doc, steps, found[0]);
    }
  }

  predicate ByTagAndText(doc: Element, tag: string, text: string, q: Path) {
    tag != "" && text != "" && In(doc, q) && At(doc, q).tag == tag && At(doc, q).text == text
  }

  lemma TryTextIsSound(doc: Element, tag: string, text: string)
    ensures var f := TryText(doc, tag, text);
            && (f.None? <==> forall q :: !ByTagAndText(doc, tag, text, q))
            && (f.Some? ==> f.value.el.Some? && f.value.strategy == Text_ && f.value.matches > 0
                            && ByTagAndText(doc, tag, text, f.value.el.value))
  {
    if tag != "" && text != "" {
      var s := [Compound(tag, "", [], None, 0)];
      var found := Where(QueryAll(doc, s), WithText(doc, text));
      forall q ensures q in found <==> ByTagAndText(doc, tag, text, q) {
        QueryMeans(doc, s, q);
        WhereMeans(QueryAll(doc, s), WithText(doc, text), q);
      }
      if found != [] {
        assert found[0] in found;
      }
    }
  }

  /** On any document, changed or not: an element returned is in it and satisfies the strategy reported,
      and nothing is returned only when no recorded selector, path or text finds anything. */
  lemma LookupIsSound(doc: Element, r: Recorded)
    ensures var f := Lookup(doc, r);
            && (f.el.Some? <==> f.matches > 0)
            && (f.el.None? <==> f.strategy == Nothing)
            && (f.el.Some? ==> Satisfies(doc, r, f.strategy, f.el.value))
            && (f.el.None? ==> forall how, q :: !Satisfies(doc, r, how, q))
            && (f.matches == 1 && f.strategy in {Selector_, TestId_, Aria_, Css_} ==>
                forall q :: Satisfies(doc, r, f.strategy, q) ==> f.el == Some(q))
  {
    TryIsSound(doc, r.selector, r.text, Selector_);
    TryIsSound(doc, r.testid, r.text, TestId_);
    TryIsSound(doc, r.aria, r.text, Aria_);
    TryIsSound(doc, r.css, r.text, Css_);
    TryXPathIsSound(doc, r.xpath);
    TryTextIsSound(doc, r.tag, r.text);
    hide Try, TryXPath, TryText, Matches, Selects, ByTagAndText;
    var f := Lookup(doc, r);
    if f.el.None? {
      forall how, q ensures !Satisfies(doc, r, how, q) {}
    }
  }

  /** What each strategy asks of an element. */
  ghost predicate Satisfies(doc: Element, r: Recorded, how: Strategy, q: Path) {
    match how
    case Selector_ => Matches(doc, q, r.selector)
    case TestId_ => Matches(doc, q, r.testid)
    case Aria_ => Matches(doc, q, r.aria)
    case Css_ => Matches(doc, q, r.css)
    case XPath_ => Selects(doc, r.xpath, q)
    case Text_ => ByTagAndText(doc, r.tag, r.text, q)
    case Nothing => false
  }
}
