/** Recording and looking up an element, in terms of what is on offer and in which order it is tried. */
module LocatorFacts {
  import opened Prelude
  import opened Locators

  // ---------------------------------------------------------------- document order

  /** `p` comes before `q` in document order: it is an ancestor, or further left where they part. */
  predicate Before(p: Path, q: Path) {
    q != [] && if p == [] then true else if p[0] != q[0] then p[0] < q[0] else Before(p[1..], q[1..])
  }

  ghost predicate InDocumentOrder(ps: seq<Path>) {
    forall i, j :: 0 <= i < j < |ps| ==> Before(ps[i], ps[j])
  }

  lemma {:induction false} BeforeUnder(at: Path, p: Path, q: Path)
    ensures Before(at + p, at + q) <==> Before(p, q)
    decreases |at|
  {
    if at == [] {
      assert at + p == p && at + q == q;
    } else {
      assert (at + p)[1..] == at[1..] + p && (at + q)[1..] == at[1..] + q;
      BeforeUnder(at[1..], p, q);
    }
  }

  lemma OrderConcat(a: seq<Path>, b: seq<Path>)
    requires InDocumentOrder(a) && InDocumentOrder(b) && forall p, q :: p in a && q in b ==> Before(p, q)
    ensures InDocumentOrder(a + b)
  {
    hide Before;
    forall i, j | 0 <= i < j < |a + b| ensures Before((a + b)[i], (a + b)[j]) {
      if i < |a| <= j {
        assert a[i] in a && b[j - |a|] in b;
      }
    }
  }

  /** Paths that go through different children, or through one and to its parent. */
  lemma LeftIsBefore(at: Path, p: Path, q: Path)
    requires at <= p && at < q && (p == at || p[|at|] < q[|at|])
    ensures Before(p, q)
  {
    var x, y := p[|at|..], q[|at|..];
    assert p == at + x && q == at + y;
    BeforeUnder(at, x, y);
  }

  lemma {:induction false} PathsInOrder(doc: Element, at: Path)
    requires In(doc, at)
    ensures InDocumentOrder(PathsUnder(At(doc, at), at))
    decreases At(doc, at), 1
  {
    var e := At(doc, at);
    var below := PathsUnderAll(e.children, at, |e.children|, e);
    PathsBelowInOrder(doc, at, |e.children|);
    forall p, q | p in [at] && q in below ensures Before(p, q) {
      PathsUnderAllMean(doc, at, |e.children|, q);
      LeftIsBefore(at, p, q);
    }
    OrderConcat([at], below);
  }

  lemma {:induction false} PathsBelowInOrder(doc: Element, at: Path, n: nat)
    requires In(doc, at) && n <= |At(doc, at).children|
    ensures InDocumentOrder(PathsUnderAll(At(doc, at).children, at, n, At(doc, at)))
    decreases At(doc, at), 0, n
  {
    if n > 0 {
      var e := At(doc, at);
      var child := at + [n - 1];
      assert Parent(child) == at;
      PathsBelowInOrder(doc, at, n - 1);
      PathsInOrder(doc, child);
      var before, last := PathsUnderAll(e.children, at, n - 1, e), PathsUnder(e.children[n - 1], child);
      forall p, q | p in before && q in last ensures Before(p, q) {
        PathsUnderAllMean(doc, at, n - 1, p);
        PathsUnderMean(doc, child, q);
        LeftIsBefore(at, p, q);
      }
      OrderConcat(before, last);
    }
  }

  lemma {:induction false} WhereKeepsOrder(ps: seq<Path>, keep: Path -> bool)
    requires InDocumentOrder(ps)
    ensures InDocumentOrder(Where(ps, keep))
    decreases |ps|
  {
    if ps != [] {
      var n := |ps| - 1;
      WhereKeepsOrder(ps[..n], keep);
      if keep(ps[n]) {
        forall p, q | p in Where(ps[..n], keep) && q in [ps[n]] ensures Before(p, q) {
          WhereMeans(ps[..n], keep, p);
          var i :| 0 <= i < n && ps[..n][i] == p;
          assert Before(ps[i], ps[n]);
        }
        OrderConcat(Where(ps[..n], keep), [ps[n]]);
      }
    }
  }

  /** A query lists its results in document order. */
  lemma QueryInOrder(doc: Element, s: Selector)
    ensures InDocumentOrder(QueryAll(doc, s))
  {
    PathsInOrder(doc, []);
    WhereKeepsOrder(PathsUnder(doc, []), Matching(doc, s));
  }

  // ---------------------------------------------------------------- recording

  predicate Says(e: Element, name: string) {
    name in e.attrs && e.attrs[name] != ""
  }

  function AttrOffer(kind: Kind, tag: string, e: Element, name: string): Option<Candidate> {
    if Says(e, name) then Some(Candidate(kind, [Compound(tag, "", [], Some((name, e.attrs[name])), 0)])) else None
  }

  function IdOffer(e: Element, n: Naming): Option<Candidate> {
    if e.id != "" && !n.autoId(e.id) then Some(Candidate(Id, [Compound("", e.id, [], None, 0)])) else None
  }

  function TestAttr(place: nat): string
    requires place < 5
  {
    ["data-testid", "data-test-id", "data-test", "data-cy", "data-qa"][place]
  }

  /** What an element offers, in order of preference: the test attributes, its id unless it looks generated, its
      name, its label, and the path to it. */
  function Offer(e: Element, n: Naming, path: Selector, place: nat): Option<Candidate>
    requires place <= 8
  {
    if place < 5 then AttrOffer(TestId, "", e, TestAttr(place))
    else if place == 5 then IdOffer(e, n)
    else if place == 6 then AttrOffer(Name, e.tag, e, "name")
    else if place == 7 then AttrOffer(Aria, e.tag, e, "aria-label")
    else Some(Candidate(ByPath, path))
  }

  function AsList(offer: Option<Candidate>): seq<Candidate> {
    if offer.Some? then [offer.value] else []
  }

  /** The offers from a place on. */
  function Offers(e: Element, n: Naming, path: Selector, place: nat): seq<Candidate>
    requires place <= 9
    decreases 9 - place
  {
    if place == 9 then [] else AsList(Offer(e, n, path, place)) + Offers(e, n, path, place + 1)
  }

  lemma TestIdsStep(e: Element, names: seq<string>)
    requires names != []
    ensures TestIds(e, names) == AsList(AttrOffer(TestId, "", e, names[0])) + TestIds(e, names[1..])
  {}

  lemma {:induction false} TestIdsAreOffers(e: Element, n: Naming, path: Selector, place: nat)
    requires place <= 5
    ensures TestIds(e, TESTID_ATTRS[place..]) + Offers(e, n, path, 5) == Offers(e, n, path, place)
    decreases 5 - place
  {
    var names := TESTID_ATTRS[place..];
    if place < 5 {
      assert names[0] == TestAttr(place) && names[1..] == TESTID_ATTRS[place + 1..];
      TestIdsStep(e, names);
      TestIdsAreOffers(e, n, path, place + 1);
      assert Offers(e, n, path, place) == AsList(Offer(e, n, path, place)) + Offers(e, n, path, place + 1);
      assert Offer(e, n, path, place) == AttrOffer(TestId, "", e, names[0]);
      hide Offers, TestIds, AttrOffer, AsList, Offer;
      Regroup(AsList(AttrOffer(TestId, "", e, names[0])), TestIds(e, names[1..]), Offers(e, n, path, 5));
    }
  }

  /** The candidates after the test attributes, as the code lists them. */
  lemma LaterOffers(e: Element, n: Naming, path: Selector)
    ensures Offers(e, n, path, 5)
            == AsList(IdOffer(e, n)) + (AsList(AttrOffer(Name, e.tag, e, "name"))
               + (AsList(AttrOffer(Aria, e.tag, e, "aria-label")) + [Candidate(ByPath, path)]))
  {
    hide IdOffer, AttrOffer;
    assert Offers(e, n, path, 9) == [];
    assert Offers(e, n, path, 8) == [Candidate(ByPath, path)] + [];
    assert Offers(e, n, path, 7) == AsList(AttrOffer(Aria, e.tag, e, "aria-label")) + Offers(e, n, path, 8);
    assert Offers(e, n, path, 6) == AsList(AttrOffer(Name, e.tag, e, "name")) + Offers(e, n, path, 7);
    assert Offers(e, n, path, 5) == AsList(IdOffer(e, n)) + Offers(e, n, path, 6);
  }

  lemma CandidatesListed(e: Element, n: Naming)
    ensures Candidates(e, n)
            == TestIds(e, TESTID_ATTRS) + AsList(IdOffer(e, n)) + AsList(AttrOffer(Name, e.tag, e, "name"))
               + AsList(AttrOffer(Aria, e.tag, e, "aria-label"))
  {
    hide TestIds;
  }

  lemma CandidatesAreOffers(e: Element, n: Naming, path: Selector)
    ensures Candidates(e, n) + [Candidate(ByPath, path)] == Offers(e, n, path, 0)
  {
    TestIdsAreOffers(e, n, path, 0);
    LaterOffers(e, n, path);
    CandidatesListed(e, n);
    assert TESTID_ATTRS[0..] == TESTID_ATTRS;
    hide Offers, TestIds, IdOffer, AttrOffer, Candidates, AsList;
    var a, b, c, d, l := TestIds(e, TESTID_ATTRS), AsList(IdOffer(e, n)), AsList(AttrOffer(Name, e.tag, e, "name")),
      AsList(AttrOffer(Aria, e.tag, e, "aria-label")), [Candidate(ByPath, path)];
    FivePieces(a, b, c, d, l);
  }

  lemma FivePieces(a: seq<Candidate>, b: seq<Candidate>, c: seq<Candidate>, d: seq<Candidate>, l: seq<Candidate>)
    ensures a + b + c + d + l == a + (b + (c + (d + l)))
  {}

  lemma FirstUniqueOf(doc: Element, offer: Option<Candidate>, rest: seq<Candidate>)
    ensures FirstUnique(doc, AsList(offer) + rest) == if offer.Some? && Unique(doc, offer.value.sel) then offer else FirstUnique(doc, rest)
  {
    hide Unique;
    if offer.Some? {
      assert (AsList(offer) + rest)[1..] == rest;
    } else {
      assert AsList(offer) + rest == rest;
    }
  }

  /** The first unique offer from a place on, 9 if there is none. */
  lemma {:induction false} FirstUniqueOffer(doc: Element, e: Element, n: Naming, path: Selector, place: nat) returns (unique: nat)
    requires place <= 9
    ensures place <= unique <= 9
    ensures forall j: nat :: place <= j < unique ==> Offer(e, n, path, j).None? || !Unique(doc, Offer(e, n, path, j).value.sel)
    ensures FirstUnique(doc, Offers(e, n, path, place)) == if unique == 9 then None else Offer(e, n, path, unique)
    ensures unique < 9 ==> Offer(e, n, path, unique).Some? && Unique(doc, Offer(e, n, path, unique).value.sel)
    decreases 9 - place
  {
    hide Unique, Offer, FirstUnique;
    if place == 9 {
      unique := 9;
      NoneUnique(doc);
    } else {
      unique := FirstUniqueOffer(doc, e, n, path, place + 1);
      var offer := Offer(e, n, path, place);
      FirstUniqueOf(doc, offer, Offers(e, n, path, place + 1));
      if offer.Some? && Unique(doc, offer.value.sel) {
        unique := place;
      }
    }
  }

  lemma NoneUnique(doc: Element)
    ensures FirstUnique(doc, []) == None
  {}

  /** The first offer from a place on; the path is always one. */
  lemma {:induction false} FirstOffer(e: Element, n: Naming, path: Selector, place: nat) returns (first: nat)
    requires place <= 8
    ensures place <= first <= 8 && Offers(e, n, path, place) != [] && Offer(e, n, path, first) == Some(Offers(e, n, path, place)[0])
    ensures forall j: nat :: place <= j < first ==> Offer(e, n, path, j).None?
    decreases 9 - place
  {
    hide AttrOffer, IdOffer;
    var offer := Offer(e, n, path, place);
    first := place;
    if offer.None? {
      hide Offer;
      first := FirstOffer(e, n, path, place + 1);
    }
  }

  lemma ChoiceIsFirst(doc: Element, cs: seq<Candidate>, path: Selector)
    ensures var all := cs + [Candidate(ByPath, path)];
            Choose(doc, cs, path) == match FirstUnique(doc, all) case Some(c) => (c, true) case None => (all[0], false)
  {
    FirstUniqueAppended(doc, cs, Candidate(ByPath, path));
    hide Unique, FirstUnique;
  }

  lemma {:induction false} FirstUniqueAppended(doc: Element, cs: seq<Candidate>, c: Candidate)
    ensures FirstUnique(doc, cs + [c])
            == if FirstUnique(doc, cs).Some? then FirstUnique(doc, cs) else if Unique(doc, c.sel) then Some(c) else None
    decreases |cs|
  {
    hide Unique;
    if cs == [] {
      assert cs + [c] == [c];
      assert [c][1..] == [];
    } else {
      assert (cs + [c])[1..] == cs[1..] + [c];
      FirstUniqueAppended(doc, cs[1..], c);
    }
  }

  /** Which selector is relied on: of the nine places, the first whose offer matches the element alone, and if none
      does, the first that has an offer at all. */
  lemma RecordedIsPreferred(doc: Element, p: Path, n: Naming) returns (place: nat)
    requires In(doc, p)
    ensures place <= 8
    ensures var r := SelectorsFor(doc, p, n); var e := At(doc, p); var path := CssPath(doc, p, n, 8);
            && Offer(e, n, path, place) == Some(Candidate(r.kind, r.selector))
            && (r.unique <==> MatchesOnly(doc, r.selector, p))
            && if r.unique then
                 forall j: nat :: j < place && Offer(e, n, path, j).Some? ==> !MatchesOnly(doc, Offer(e, n, path, j).value.sel, p)
               else
                 (forall j: nat :: j < place ==> Offer(e, n, path, j).None?)
                 && forall j: nat :: j <= 8 && Offer(e, n, path, j).Some? ==> !MatchesOnly(doc, Offer(e, n, path, j).value.sel, p)
  {
    hide Unique, FirstUnique, Candidates, Offers, Offer, SelectorsFor, Choose, MatchesOnly, CssPath;
    var e, path := At(doc, p), CssPath(doc, p, n, 8);
    HonestlyUnique(doc, p, n);
    CandidatesAreOffers(e, n, path);
    ChoiceIsFirst(doc, Candidates(e, n), path);
    var unique := FirstUniqueOffer(doc, e, n, path, 0);
    var first := FirstOffer(e, n, path, 0);
    place := if unique < 9 then unique else first;
    SelectorsChoose(doc, p, n);
    forall j: nat | j <= 8 && Offer(e, n, path, j).Some?
      ensures Unique(doc, Offer(e, n, path, j).value.sel) <==> MatchesOnly(doc, Offer(e, n, path, j).value.sel, p)
    {
      OffersMatch(doc, p, n, j);
      UniqueIsOnly(doc, Offer(e, n, path, j).value.sel, p);
    }
  }

  lemma HonestlyUnique(doc: Element, p: Path, n: Naming)
    requires In(doc, p)
    ensures SelectorsFor(doc, p, n).unique <==> MatchesOnly(doc, SelectorsFor(doc, p, n).selector, p)
  {
    ReportIsHonest(doc, p, n);
  }

  lemma SelectorsChoose(doc: Element, p: Path, n: Naming)
    requires In(doc, p)
    ensures var r := SelectorsFor(doc, p, n);
            (Candidate(r.kind, r.selector), r.unique) == Choose(doc, Candidates(At(doc, p), n), CssPath(doc, p, n, 8))
  {
    hide Choose, Candidates, CssPath;
  }

  lemma OffersMatch(doc: Element, p: Path, n: Naming, j: nat)
    requires In(doc, p) && j <= 8 && Offer(At(doc, p), n, CssPath(doc, p, n, 8), j).Some?
    ensures Matches(doc, p, Offer(At(doc, p), n, CssPath(doc, p, n, 8), j).value.sel)
  {
    hide CssPath, AttrOffer, IdOffer, Matches;
    var e := At(doc, p);
    if j < 5 {
      AttrOfferMatches(doc, p, TestId, "", TestAttr(j));
    } else if j == 5 {
      IdOfferMatches(doc, p, n);
    } else if j == 6 {
      AttrOfferMatches(doc, p, Name, e.tag, "name");
    } else if j == 7 {
      AttrOfferMatches(doc, p, Aria, e.tag, "aria-label");
    } else {
      MatchesOwnPath(doc, p, n, 8);
    }
  }

  lemma AttrOfferMatches(doc: Element, p: Path, kind: Kind, tag: string, name: string)
    requires In(doc, p) && (tag == "" || tag == At(doc, p).tag)
    ensures AttrOffer(kind, tag, At(doc, p), name).Some? ==> Matches(doc, p, AttrOffer(kind, tag, At(doc, p), name).value.sel)
  {}

  lemma IdOfferMatches(doc: Element, p: Path, n: Naming)
    requires In(doc, p)
    ensures IdOffer(At(doc, p), n).Some? ==> Matches(doc, p, IdOffer(At(doc, p), n).value.sel)
  {}

  /** Everything else that is recorded: the first test attribute, the label, the path of at most eight compounds, the
      location path of at most twelve steps, tag and text. */
  lemma RecordedMeans(doc: Element, p: Path, n: Naming)
    requires In(doc, p)
    ensures var r := SelectorsFor(doc, p, n); var e := At(doc, p); var path := CssPath(doc, p, n, 8);
            && r.tag == e.tag && r.text == e.text && r.css == path && r.xpath == XPathOf(doc, p, 12)
            && (r.aria == if Offer(e, n, path, 7).Some? then Offer(e, n, path, 7).value.sel else [])
            && if r.testid == [] then forall j: nat :: j < 5 ==> Offer(e, n, path, j).None?
               else exists j: nat :: j < 5 && Offer(e, n, path, j) == Some(Candidate(TestId, r.testid))
                                     && forall i: nat :: i < j ==> Offer(e, n, path, i).None?
  {
    var e, path := At(doc, p), CssPath(doc, p, n, 8);
    FirstTestId(e, n, path, 0);
    assert TESTID_ATTRS[0..] == TESTID_ATTRS;
    hide Choose, Candidates, CssPath, TestIds, XPathOf;
  }

  lemma {:induction false} FirstTestId(e: Element, n: Naming, path: Selector, place: nat)
    requires place <= 5
    ensures var ids := TestIds(e, TESTID_ATTRS[place..]);
            if ids == [] then forall j: nat :: place <= j < 5 ==> Offer(e, n, path, j).None?
            else ids[0].sel != []
                 && exists j: nat :: place <= j < 5 && Offer(e, n, path, j) == Some(Candidate(TestId, ids[0].sel))
                                     && forall i: nat :: place <= i < j ==> Offer(e, n, path, i).None?
    decreases 5 - place
  {
    var names := TESTID_ATTRS[place..];
    if place < 5 {
      assert names[0] == TestAttr(place) && names[1..] == TESTID_ATTRS[place + 1..];
      TestIdsStep(e, names);
      FirstTestId(e, n, path, place + 1);
      assert Offer(e, n, path, place) == AttrOffer(TestId, "", e, names[0]);
      hide TestIds, Offer;
    }
  }

  /** The class names relied on: the first two of 2 to 30 characters that do not look generated. */
  lemma {:induction false} StableClassesMean(classes: seq<string>, n: Naming)
    ensures var cs := StableClasses(classes, n);
            && |cs| <= 2 && (forall c :: c in cs ==> c in classes && 2 <= |c| <= 30 && !n.autoClass(c))
            && (|cs| < 2 ==> forall c :: c in classes && 2 <= |c| <= 30 && !n.autoClass(c) ==> c in cs)
    decreases |classes|
  {
    if classes != [] {
      StableClassesMean(classes[..|classes| - 1], n);
      assert classes == classes[..|classes| - 1] + [classes[|classes| - 1]];
    }
  }

  // ---------------------------------------------------------------- looking up

  /** The order in which the strategies are tried. */
  function Turn(how: Strategy): nat {
    match how
    case Selector_ => 0
    case TestId_ => 1
    case Aria_ => 2
    case Css_ => 3
    case XPath_ => 4
    case Text_ => 5
    case Nothing => 6
  }

  /** The strategy reported is the first under which anything is found. */
  lemma LookupInTurn(doc: Element, r: Recorded)
    ensures var f := Lookup(doc, r);
            forall how, q :: Turn(how) < Turn(f.strategy) ==> !Satisfies(doc, r, how, q)
  {
    TryIsSound(doc, r.selector, r.text, Selector_);
    TryIsSound(doc, r.testid, r.text, TestId_);
    TryIsSound(doc, r.aria, r.text, Aria_);
    TryIsSound(doc, r.css, r.text, Css_);
    TryXPathIsSound(doc, r.xpath);
    TryTextIsSound(doc, r.tag, r.text);
    hide Try, TryXPath, TryText, Matches, Selects, ByTagAndText;
  }

  /** Of the elements a selector finds, the one returned: with several and a text recorded, the first in document
      order with that text, and otherwise the first; ambiguous when several were found and none has the text. */
  lemma SelectorPicks(doc: Element, r: Recorded, sel: Selector, how: Strategy)
    requires Lookup(doc, r).strategy == how
    requires (how == Selector_ && sel == r.selector) || (how == TestId_ && sel == r.testid)
             || (how == Aria_ && sel == r.aria) || (how == Css_ && sel == r.css)
    ensures var f := Lookup(doc, r); var found := QueryAll(doc, sel);
            && f.matches == |found| > 0
            && (f.ambiguous <==> |found| > 1 && (r.text == "" || forall i :: 0 <= i < |found| ==> !HasText(doc, found[i], r.text)))
            && exists k: nat :: k < |found| && f.el == Some(found[k])
                 && if |found| == 1 || f.ambiguous then k == 0
                    else HasText(doc, found[k], r.text) && forall j: nat :: j < k ==> !HasText(doc, found[j], r.text)
  {
    TryIsSound(doc, r.selector, r.text, Selector_);
    TryIsSound(doc, r.testid, r.text, TestId_);
    TryIsSound(doc, r.aria, r.text, Aria_);
    TryIsSound(doc, r.css, r.text, Css_);
    TryXPathIsSound(doc, r.xpath);
    TryTextIsSound(doc, r.tag, r.text);
    hide Try, TryXPath, TryText, Matches, Selects, ByTagAndText, MatchesOnly, MatchesNothing, SelectsNothing, QueryAll, HasText;
    assert Try(doc, sel, r.text, how) == Some(Lookup(doc, r));
    TryMeans(doc, sel, r.text, how);
  }

  predicate HasText(doc: Element, q: Path, text: string) {
    In(doc, q) && At(doc, q).text == text
  }

  lemma TryMeans(doc: Element, sel: Selector, text: string, how: Strategy)
    requires Try(doc, sel, text, how).Some?
    ensures var f := Try(doc, sel, text, how).value; var found := QueryAll(doc, sel);
            && f.matches == |found| > 0
            && (f.ambiguous <==> |found| > 1 && (text == "" || forall i :: 0 <= i < |found| ==> !HasText(doc, found[i], text)))
            && exists k: nat :: k < |found| && f.el == Some(found[k])
                 && if |found| == 1 || f.ambiguous then k == 0
                    else HasText(doc, found[k], text) && forall j: nat :: j < k ==> !HasText(doc, found[j], text)
  {
    var found := QueryAll(doc, sel);
    hide QueryAll;
    FirstWithText(doc, found, text);
  }

  lemma {:induction false} FirstWithText(doc: Element, found: seq<Path>, text: string)
    ensures var byText := Where(found, WithText(doc, text));
            if byText == [] then forall i :: 0 <= i < |found| ==> !HasText(doc, found[i], text)
            else exists k: nat :: k < |found| && byText[0] == found[k] && HasText(doc, found[k], text)
                                  && forall j: nat :: j < k ==> !HasText(doc, found[j], text)
    decreases |found|
  {
    if found != [] {
      var n := |found| - 1;
      var head := found[..n];
      FirstWithText(doc, head, text);
      assert WithText(doc, text)(found[n]) <==> HasText(doc, found[n], text);
      assert forall j :: 0 <= j < n ==> head[j] == found[j];
      hide HasText, WithText;
      if Where(head, WithText(doc, text)) != [] {
        var k: nat :| k < n && Where(head, WithText(doc, text))[0] == head[k] && HasText(doc, head[k], text)
                      && forall j: nat :: j < k ==> !HasText(doc, head[j], text);
        assert found[k] == head[k] && forall j: nat :: j < k ==> !HasText(doc, found[j], text);
      }
    }
  }
}
