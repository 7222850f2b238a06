/** The rules of the annotation store, on values: records, queries, pruning, screenshot eviction. */
module Annotations {
  import opened Prelude
  import opened Domains

  const MAX_ANNOTATIONS := 500
  const MAX_SHOTS := 30
  const MAX_COMMENT := 4000
  const MAX_NOTE := 4000
  const MAX_URL := 2000

  datatype Item = Item(id: string, no: nat, status: string, comment: string, note: string, url: string,
                       tabId: Option<int>, updatedAt: int, hasShot: bool)

  /** The store: the last number given out, the records, and the images by record id. */
  datatype State = State(last: nat, items: seq<Item>, shots: map<string, string>)

  const Empty := State(0, [], map[])

  // ---------------------------------------------------------------- record ids

  function Digit(d: nat): char
    requires d < 10
  {
    "0123456789"[d]
  }

  function Decimal(n: nat): string {
    if n < 10 then [Digit(n)] else Decimal(n / 10) + [Digit(n % 10)]
  }

  function DigitValue(c: char): nat {
    if '0' <= c <= '9' then c as int - '0' as int else 0
  }

  function Value(s: string): nat {
    if s == "" then 0 else Value(s[..|s| - 1]) * 10 + DigitValue(s[|s| - 1])
  }

  lemma {:induction false} DecimalReadsBack(n: nat)
    ensures Value(Decimal(n)) == n
  {
    if n >= 10 {
      DecimalReadsBack(n / 10);
      assert Decimal(n)[..|Decimal(n)| - 1] == Decimal(n / 10);
    } else {
      assert Decimal(n)[..0] == "";
    }
  }

  function IdOf(no: nat): string {
    "a" + Decimal(no)
  }

  /** Different numbers give different ids. */
  lemma IdsDiffer(m: nat, n: nat)
    requires IdOf(m) == IdOf(n)
    ensures m == n
  {
    DecimalReadsBack(m);
    DecimalReadsBack(n);
    assert IdOf(m)[1..] == Decimal(m) && IdOf(n)[1..] == Decimal(n);
  }

  // ---------------------------------------------------------------- queries

  datatype Filter = Filter(status: string, ids: seq<string>, url: string, tabId: Option<int>, since: Option<int>, limit: int)

  function WantedStatus(f: Filter): string {
    if f.status == "" then "open" else f.status
  }

  predicate Contains(s: string, t: string) {
    exists i :: 0 <= i <= |s| && StartsAt(s, t, i)
  }

  predicate StartsAt(s: string, t: string, i: nat)
    requires i <= |s|
  {
    t <= s[i..]
  }

  function Trimmed(ids: seq<string>): (r: seq<string>)
    ensures |r| == |ids| && forall i :: 0 <= i < |r| ==> r[i] == Trim(ids[i])
  {
    seq(|ids|, i requires 0 <= i < |ids| => Trim(ids[i]))
  }

  /** A missing tab number compares as 0. */
  function Number(tabId: Option<int>): int {
    if tabId.Some? then tabId.value else 0
  }

  predicate Meets(it: Item, f: Filter) {
    && (f.ids != [] ==> it.id in Trimmed(f.ids))
    && (WantedStatus(f) != "all" ==> it.status == WantedStatus(f))
    && (f.url != "" ==> Contains(Lower(it.url), Lower(f.url)))
    && (f.tabId.Some? ==> Number(it.tabId) == f.tabId.value)
    && (f.since.Some? ==> it.no > f.since.value)
  }

  function Meeting(items: seq<Item>, f: Filter): seq<Item> {
    if items == [] then []
    else Meeting(items[..|items| - 1], f) + (if Meets(items[|items| - 1], f) then [items[|items| - 1]] else [])
  }

  /** Stable sort by sequence number. */
  function Insert(it: Item, sorted: seq<Item>): seq<Item> {
    if sorted == [] || sorted[|sorted| - 1].no <= it.no then sorted + [it]
    else Insert(it, sorted[..|sorted| - 1]) + [sorted[|sorted| - 1]]
  }

  function SortBySeq(items: seq<Item>): seq<Item> {
    if items == [] then [] else Insert(items[|items| - 1], SortBySeq(items[..|items| - 1]))
  }

  function Newest<T>(list: seq<T>, max: nat): seq<T> {
    if |list| <= max then list else list[|list| - max..]
  }

  function Select(items: seq<Item>, f: Filter): seq<Item> {
    var out := SortBySeq(Meeting(items, f));
    if f.limit > 0 then Newest(out, f.limit) else out
  }

  function PruneItems(items: seq<Item>, max: nat): seq<Item> {
    Newest(SortBySeq(items), max)
  }

  // ---------------------------------------------------------------- what holds of the store

  ghost predicate Increasing(items: seq<Item>) {
    forall i, j :: 0 <= i < j < |items| ==> items[i].no < items[j].no
  }

  ghost predicate Numbered(items: seq<Item>, last: nat) {
    forall i :: 0 <= i < |items| ==> items[i].no <= last && items[i].id == IdOf(items[i].no)
  }

  /** Images belong to numbers already given out. */
  ghost predicate ShotsNumbered(shots: map<string, string>, last: nat) {
    forall id :: id in shots ==> shots[id] != "" && exists n: nat :: n <= last && id == IdOf(n)
  }

  ghost predicate FlagsRight(items: seq<Item>, shots: map<string, string>) {
    forall i :: 0 <= i < |items| ==> (items[i].hasShot <==> items[i].id in shots)
  }

  ghost predicate WellFormed(s: State) {
    && Increasing(s.items) && Numbered(s.items, s.last) && |s.items| <= MAX_ANNOTATIONS
    && ShotsNumbered(s.shots, s.last) && |s.shots| <= MAX_SHOTS
    && FlagsRight(s.items, s.shots)
  }

  /** Sorting does nothing to a list already in order. */
  lemma {:induction false} SortFixesIncreasing(items: seq<Item>)
    requires Increasing(items)
    ensures SortBySeq(items) == items
    decreases |items|
  {
    if items != [] {
      SortFixesIncreasing(items[..|items| - 1]);
    }
  }

  lemma {:induction false} MeetingIsOrdered(items: seq<Item>, f: Filter)
    requires Increasing(items)
    ensures Increasing(Meeting(items, f))
    ensures forall it :: it in Meeting(items, f) <==> it in items && Meets(it, f)
    decreases |items|
  {
    if items != [] {
      var n := |items| - 1;
      MeetingIsOrdered(items[..n], f);
      assert items == items[..n] + [items[n]];
      forall i | 0 <= i < |Meeting(items[..n], f)| ensures Meeting(items[..n], f)[i].no < items[n].no {
        var it := Meeting(items[..n], f)[i];
        assert it in items[..n];
      }
    }
  }

  /** Elements of an ordered list newer than `x`. */
  function NewerThan(items: seq<Item>, x: nat): nat {
    if items == [] then 0 else NewerThan(items[..|items| - 1], x) + (if items[|items| - 1].no > x then 1 else 0)
  }

  lemma {:induction false} NewerThanAt(items: seq<Item>, i: nat)
    requires Increasing(items) && i < |items|
    ensures NewerThan(items, items[i].no) == |items| - 1 - i
    decreases |items|
  {
    var n := |items| - 1;
    if i < n {
      NewerThanAt(items[..n], i);
    } else {
      NoneNewer(items[..n], items[n].no);
    }
  }

  lemma {:induction false} NoneNewer(items: seq<Item>, x: nat)
    requires forall i :: 0 <= i < |items| ==> items[i].no <= x
    ensures NewerThan(items, x) == 0
    decreases |items|
  {
    if items != [] {
      NoneNewer(items[..|items| - 1], x);
    }
  }

  /** The newest `max` of an ordered list are those with fewer than `max` newer ones. */
  lemma NewestByRank(items: seq<Item>, max: nat, it: Item)
    requires Increasing(items)
    ensures it in Newest(items, max) <==> it in items && NewerThan(items, it.no) < max
    ensures Increasing(Newest(items, max)) && |Newest(items, max)| <= max
  {
    if it in items {
      var i :| 0 <= i < |items| && items[i] == it;
      NewerThanAt(items, i);
      if |items| > max && i >= |items| - max {
        assert items[|items| - max..][i - (|items| - max)] == it;
      }
    }
  }

  /** What a query asks of a record, field by field; without a status it asks for open ones. */
  lemma MeetingMeans(it: Item, f: Filter)
    ensures Meets(it, f) <==>
              && (f.ids == [] || exists i :: 0 <= i < |f.ids| && Trim(f.ids[i]) == it.id)
              && (f.status == "all" || it.status == (if f.status == "" then "open" else f.status))
              && (f.url == "" || exists pre, post :: Lower(it.url) == pre + Lower(f.url) + post)
              && (f.tabId.None? || it.tabId == f.tabId || (it.tabId.None? && f.tabId == Some(0)))
              && (f.since.None? || f.since.value < it.no)
  {
    ContainsMeans(Lower(it.url), Lower(f.url));
    if f.ids != [] {
      if it.id in Trimmed(f.ids) {
        var i :| 0 <= i < |f.ids| && Trimmed(f.ids)[i] == it.id;
        assert Trim(f.ids[i]) == it.id;
      }
      if i :| 0 <= i < |f.ids| && Trim(f.ids[i]) == it.id {
        assert Trimmed(f.ids)[i] == it.id;
      }
    }
    hide Trim, Lower;
  }

  lemma ContainsMeans(s: string, t: string)
    ensures Contains(s, t) <==> exists pre, post :: s == pre + t + post
  {
    if i :| 0 <= i <= |s| && StartsAt(s, t, i) {
      assert s == s[..i] + t + s[i + |t|..];
    }
    if pre, post :| s == pre + t + post {
      assert s[|pre|..] == t + post;
      assert StartsAt(s, t, |pre|);
    }
  }

  /** A query on a well-formed store: in creation order, exactly the records it asks for, or with a limit
      exactly the newest of those. */
  lemma SelectMeans(items: seq<Item>, f: Filter, it: Item)
    requires Increasing(items)
    ensures Increasing(Select(items, f))
    ensures it in Select(items, f) <==>
              && it in items
              && (f.ids == [] || exists i :: 0 <= i < |f.ids| && Trim(f.ids[i]) == it.id)
              && (f.status == "all" || it.status == (if f.status == "" then "open" else f.status))
              && (f.url == "" || exists pre, post :: Lower(it.url) == pre + Lower(f.url) + post)
              && (f.tabId.None? || it.tabId == f.tabId || (it.tabId.None? && f.tabId == Some(0)))
              && (f.since.None? || f.since.value < it.no)
              && (f.limit > 0 ==> NewerThan(Meeting(items, f), it.no) < f.limit)
  {
    MeetingMeans(it, f);
    MeetingIsOrdered(items, f);
    SortFixesIncreasing(Meeting(items, f));
    hide Meets, Trim, Lower, Increasing;
    if f.limit > 0 {
      NewestByRank(Meeting(items, f), f.limit, it);
    }
  }

  // ---------------------------------------------------------------- images

  /** The records that have an image, in creation order. */
  function WithImage(items: seq<Item>, shots: map<string, string>): seq<Item> {
    if items == [] then []
    else WithImage(items[..|items| - 1], shots) + (if items[|items| - 1].id in shots then [items[|items| - 1]] else [])
  }

  function IdsOf(items: seq<Item>): (ids: set<string>) {
    set it | it in items :: it.id
  }

  /** Which images survive a cap: those of the newest `max` live records that have one. */
  function ShotsToKeep(items: seq<Item>, shots: map<string, string>, max: nat): set<string> {
    IdsOf(Newest(WithImage(items, shots), max))
  }

  /** How the code finds them: look up each image's record in whatever order the images are listed, sort
      by number, keep the last `max`. */
  function LiveRecords(items: seq<Item>, shotIds: seq<string>): seq<Item> {
    if shotIds == [] then []
    else
      LiveRecords(items, shotIds[..|shotIds| - 1])
      + (match Find(items, shotIds[|shotIds| - 1]) case None => [] case Some(it) => [it])
  }

  function Find(items: seq<Item>, id: string): Option<Item> {
    if items == [] then None
    else if items[|items| - 1].id == id then Some(items[|items| - 1])
    else Find(items[..|items| - 1], id)
  }

  lemma {:induction false} FindMeans(items: seq<Item>, id: string)
    ensures match Find(items, id)
            case None => forall it :: it in items ==> it.id != id
            case Some(it) => it in items && it.id == id
    decreases |items|
  {
    if items != [] {
      FindMeans(items[..|items| - 1], id);
      assert items == items[..|items| - 1] + [items[|items| - 1]];
    }
  }

  lemma {:induction false} WithImageMeans(items: seq<Item>, shots: map<string, string>)
    requires Increasing(items)
    ensures Increasing(WithImage(items, shots))
    ensures forall it :: it in WithImage(items, shots) <==> it in items && it.id in shots
    decreases |items|
  {
    if items != [] {
      var n := |items| - 1;
      WithImageMeans(items[..n], shots);
      assert items == items[..n] + [items[n]];
      forall i | 0 <= i < |WithImage(items[..n], shots)| ensures WithImage(items[..n], shots)[i].no < items[n].no {
        assert WithImage(items[..n], shots)[i] in items[..n];
      }
    }
  }

  /** Two ordered lists with the same members are the same list. */
  lemma {:induction false} OrderedIsUnique(a: seq<Item>, b: seq<Item>)
    requires Increasing(a) && Increasing(b) && forall it :: it in a <==> it in b
    ensures a == b
    decreases |a|
  {
    assert |b| > 0 ==> b[0] in a;
    if a != [] {
      assert a[0] in b;
      var m, n := |a| - 1, |b| - 1;
      assert a[m] in b && b[n] in a;
      assert a[m] == b[n];
      forall it ensures it in a[..m] <==> it in b[..n] {
        SplitLast(a, it);
        SplitLast(b, it);
      }
      OrderedIsUnique(a[..m], b[..n]);
      assert a == a[..m] + [a[m]] && b == b[..n] + [b[n]];
    }
  }

  lemma SplitLast(a: seq<Item>, it: Item)
    requires a != [] && Increasing(a)
    ensures it in a[..|a| - 1] <==> it in a && it != a[|a| - 1]
  {
    if it in a && it != a[|a| - 1] {
      var i :| 0 <= i < |a| && a[i] == it;
      assert a[..|a| - 1][i] == it;
    }
  }

  lemma {:induction false} InsertOrders(it: Item, sorted: seq<Item>)
    requires Increasing(sorted) && forall x :: x in sorted ==> x.no != it.no
    ensures Increasing(Insert(it, sorted))
    ensures forall x :: x in Insert(it, sorted) <==> x in sorted || x == it
    decreases |sorted|
  {
    if sorted != [] && sorted[|sorted| - 1].no > it.no {
      var n := |sorted| - 1;
      assert sorted == sorted[..n] + [sorted[n]];
      InsertOrders(it, sorted[..n]);
      var r := Insert(it, sorted[..n]);
      forall i | 0 <= i < |r| ensures r[i].no < sorted[n].no {
        assert r[i] in r;
      }
    }
  }

  lemma {:induction false} SortOrders(items: seq<Item>)
    requires forall i, j :: 0 <= i < j < |items| ==> items[i].no != items[j].no
    ensures Increasing(SortBySeq(items))
    ensures forall x :: x in SortBySeq(items) <==> x in items
    decreases |items|
  {
    if items != [] {
      var n := |items| - 1;
      var before := items[..n];
      SortOrders(before);
      assert items == before + [items[n]];
      assert forall i :: 0 <= i < n ==> before[i].no != items[n].no;
      InsertOrders(items[n], SortBySeq(before));
      hide Insert, Increasing;
    }
  }

  lemma {:induction false} LiveRecordsMean(items: seq<Item>, shotIds: seq<string>, last: nat)
    requires Increasing(items) && Numbered(items, last)
    requires forall i, j :: 0 <= i < j < |shotIds| ==> shotIds[i] != shotIds[j]
    ensures forall i, j :: 0 <= i < j < |LiveRecords(items, shotIds)| ==>
              LiveRecords(items, shotIds)[i].no != LiveRecords(items, shotIds)[j].no
    ensures forall it :: it in LiveRecords(items, shotIds) <==> it in items && it.id in shotIds
    decreases |shotIds|
  {
    if shotIds != [] {
      var n := |shotIds| - 1;
      var id := shotIds[n];
      LiveRecordsMean(items, shotIds[..n], last);
      assert shotIds == shotIds[..n] + [id];
      FindMeans(items, id);
      var before := LiveRecords(items, shotIds[..n]);
      forall it | it in items && it.id == id ensures Find(items, id) == Some(it) {
        SameNumber(items, last, it, Find(items, id).value);
      }
      if Find(items, id).Some? {
        forall i | 0 <= i < |before| ensures before[i].no != Find(items, id).value.no {
          assert before[i] in before;
          SameNumber(items, last, before[i], Find(items, id).value);
        }
      }
    }
  }

  /** In a numbered, ordered list, id and number both identify a record. */
  lemma SameNumber(items: seq<Item>, last: nat, a: Item, b: Item)
    requires Increasing(items) && Numbered(items, last) && a in items && b in items
    ensures a.no == b.no <==> a == b
    ensures a.id == b.id <==> a == b
  {
    var i :| 0 <= i < |items| && items[i] == a;
    var j :| 0 <= j < |items| && items[j] == b;
    if a.id == b.id {
      IdsDiffer(a.no, b.no);
    }
    assert a.no == b.no ==> i == j;
  }

  /** The code's way and the rule agree, in whatever order the images are listed. */
  lemma KeepIsNewestLive(items: seq<Item>, shots: map<string, string>, shotIds: seq<string>, last: nat, max: nat)
    requires Increasing(items) && Numbered(items, last)
    requires forall i, j :: 0 <= i < j < |shotIds| ==> shotIds[i] != shotIds[j]
    requires forall id :: id in shotIds <==> id in shots
    ensures IdsOf(PruneItems(LiveRecords(items, shotIds), max)) == ShotsToKeep(items, shots, max)
  {
    LiveRecordsMean(items, shotIds, last);
    SortOrders(LiveRecords(items, shotIds));
    WithImageMeans(items, shots);
    OrderedIsUnique(SortBySeq(LiveRecords(items, shotIds)), WithImage(items, shots));
  }

  /** An image survives exactly when its record is live and fewer than `max` newer live records have one. */
  lemma KeptImages(items: seq<Item>, shots: map<string, string>, max: nat, last: nat, it: Item)
    requires Increasing(items) && Numbered(items, last) && it in items
    ensures it.id in ShotsToKeep(items, shots, max) <==>
              it.id in shots && NewerThan(WithImage(items, shots), it.no) < max
  {
    WithImageMeans(items, shots);
    var w := WithImage(items, shots);
    NewestByRank(w, max, it);
    if it.id in ShotsToKeep(items, shots, max) {
      var x :| x in Newest(w, max) && x.id == it.id;
      NewestByRank(w, max, x);
      SameNumber(items, last, x, it);
    }
  }

  // ---------------------------------------------------------------- the operations

  function Clip(s: string, max: nat): string {
    if |s| > max then s[..max] else s
  }

  datatype Input = Input(comment: string, url: string, tabId: Option<int>)

  function Record(no: nat, input: Input, now: int): Item {
    Item(IdOf(no), no, "open", Trim(Clip(input.comment, MAX_COMMENT)), "", Clip(input.url, MAX_URL), input.tabId, now, false)
  }

  /** An empty comment is refused, but its number is used up. */
  function AfterAdd(s: State, input: Input, now: int): State {
    var r := Record(s.last + 1, input, now);
    s.(last := s.last + 1, items := if r.comment == "" then s.items else PruneItems(s.items + [r], MAX_ANNOTATIONS))
  }

  datatype Changes = Changes(status: string, comment: Option<string>, note: Option<string>)

  function Changed(it: Item, c: Changes, now: int): Item {
    it.(status := if c.status != "" then c.status else it.status,
        comment := match c.comment case None => it.comment case Some(t) => Trim(Clip(t, MAX_COMMENT)),
        note := match c.note case None => it.note case Some(t) => Trim(Clip(t, MAX_NOTE)),
        updatedAt := now)
  }

  function AfterPatch(s: State, f: Filter, c: Changes, now: int): State {
    s.(items := seq(|s.items|, i requires 0 <= i < |s.items| =>
      if s.items[i] in Select(s.items, f) then Changed(s.items[i], c, now) else s.items[i]))
  }

  function Without(items: seq<Item>, kill: set<string>): seq<Item> {
    if items == [] then []
    else Without(items[..|items| - 1], kill) + (if items[|items| - 1].id in kill then [] else [items[|items| - 1]])
  }

  function AfterRemove(s: State, f: Filter): State {
    var kill := IdsOf(Select(s.items, f));
    s.(items := Without(s.items, kill), shots := s.shots - kill)
  }

  function Reflag(items: seq<Item>, id: string, shots: map<string, string>): seq<Item> {
    seq(|items|, i requires 0 <= i < |items| =>
      items[i].(hasShot := if items[i].id == id then id in shots else items[i].hasShot && items[i].id in shots))
  }

  function AfterSetShot(s: State, id: string, image: string): State {
    if image == "" then s
    else
      var all := s.shots[id := image];
      var kept := ShotsToKeep(s.items, all, MAX_SHOTS);
      var shots := map k | k in all && k in kept :: all[k];
      s.(shots := shots, items := Reflag(s.items, id, shots))
  }

  // ---------------------------------------------------------------- every operation keeps the store well formed

  lemma {:induction false} WithoutMeans(items: seq<Item>, kill: set<string>)
    requires Increasing(items)
    ensures Increasing(Without(items, kill)) && |Without(items, kill)| <= |items|
    ensures forall it :: it in Without(items, kill) <==> it in items && it.id !in kill
    decreases |items|
  {
    if items != [] {
      var n := |items| - 1;
      WithoutMeans(items[..n], kill);
      assert items == items[..n] + [items[n]];
      forall i | 0 <= i < |Without(items[..n], kill)| ensures Without(items[..n], kill)[i].no < items[n].no {
        assert Without(items[..n], kill)[i] in items[..n];
      }
    }
  }

  /** The number given out next has no image and no record yet. */
  lemma NextIdIsNew(s: State)
    requires WellFormed(s)
    ensures IdOf(s.last + 1) !in s.shots
    ensures forall it :: it in s.items ==> it.id != IdOf(s.last + 1)
  {
    if IdOf(s.last + 1) in s.shots {
      var n: nat :| n <= s.last && IdOf(s.last + 1) == IdOf(n);
      IdsDiffer(s.last + 1, n);
    }
    forall it | it in s.items ensures it.id != IdOf(s.last + 1) {
      if it.id == IdOf(s.last + 1) {
        IdsDiffer(it.no, s.last + 1);
      }
    }
  }

  lemma MoreNumbers(items: seq<Item>, shots: map<string, string>, last: nat)
    ensures Numbered(items, last) ==> Numbered(items, last + 1)
    ensures ShotsNumbered(shots, last) ==> ShotsNumbered(shots, last + 1)
  {
    hide IdOf;
  }

  lemma AddKeeps(s: State, input: Input, now: int)
    requires WellFormed(s)
    ensures WellFormed(AfterAdd(s, input, now))
    ensures var r := Record(s.last + 1, input, now);
            r.comment != "" ==>
              AfterAdd(s, input, now).items
              == (if |s.items| < 500 then s.items else s.items[1..]) + [r]
  {
    hide Record, IdOf, PruneItems, ShotsNumbered, Increasing, Numbered, FlagsRight;
    NextIdIsNew(s);
    RecordFields(s.last + 1, input, now);
    MoreNumbers(s.items, s.shots, s.last);
    AppendKeeps(s, Record(s.last + 1, input, now));
  }

  lemma RecordFields(no: nat, input: Input, now: int)
    ensures var r := Record(no, input, now); r.no == no && r.id == IdOf(no) && !r.hasShot
  {
    hide Trim, Clip, Decimal;
  }

  /** What holds of a list of records, its numbers and its flags together. */
  ghost predicate ListOk(items: seq<Item>, last: nat, shots: map<string, string>) {
    Increasing(items) && Numbered(items, last) && FlagsRight(items, shots)
  }

  lemma PushOk(items: seq<Item>, r: Item, last: nat, shots: map<string, string>)
    requires ListOk(items, last, shots)
    requires r.no == last + 1 && r.id == IdOf(r.no) && !r.hasShot && r.id !in shots
    ensures ListOk(items + [r], last + 1, shots)
  {
    hide IdOf;
  }

  lemma TailOk(items: seq<Item>, last: nat, shots: map<string, string>)
    requires ListOk(items, last, shots) && items != []
    ensures ListOk(items[1..], last, shots)
  {
    hide IdOf;
  }

  /** Pushing the next record and pruning: it comes last, and at the cap the oldest goes. */
  lemma AppendKeeps(s: State, r: Item)
    requires WellFormed(s) && r.no == s.last + 1 && r.id == IdOf(r.no) && !r.hasShot && r.id !in s.shots
    ensures var items := PruneItems(s.items + [r], MAX_ANNOTATIONS);
            && items == (if |s.items| < MAX_ANNOTATIONS then s.items else s.items[1..]) + [r]
            && ListOk(items, s.last + 1, s.shots) && |items| <= MAX_ANNOTATIONS
  {
    var grown := s.items + [r];
    PushOk(s.items, r, s.last, s.shots);
    TailOk(grown, s.last + 1, s.shots);
    SortFixesIncreasing(grown);
    hide SortBySeq, Increasing, Numbered, FlagsRight;
    assert |s.items| == MAX_ANNOTATIONS ==> grown[1..] == s.items[1..] + [r];
  }

  lemma PatchKeeps(s: State, f: Filter, c: Changes, now: int)
    requires WellFormed(s)
    ensures WellFormed(AfterPatch(s, f, c, now))
  {}

  lemma RemoveKeeps(s: State, f: Filter)
    requires WellFormed(s)
    ensures WellFormed(AfterRemove(s, f))
  {
    var kill := IdsOf(Select(s.items, f));
    var s' := AfterRemove(s, f);
    WithoutMeans(s.items, kill);
    forall i | 0 <= i < |s'.items|
      ensures s'.items[i].no <= s.last && s'.items[i].id == IdOf(s'.items[i].no)
      ensures s'.items[i].hasShot <==> s'.items[i].id in s'.shots
    {
      assert s'.items[i] in s'.items;
      var j :| 0 <= j < |s.items| && s.items[j] == s'.items[i];
    }
    FewerKeys(s.shots, s'.shots);
  }

  lemma FewerKeys(m: map<string, string>, sub: map<string, string>)
    requires sub.Keys <= m.Keys
    ensures |sub| <= |m|
  {
    SubsetSize(sub.Keys, m.Keys);
  }

  lemma {:induction false} IdsAtMost(items: seq<Item>)
    ensures |IdsOf(items)| <= |items|
    decreases |items|
  {
    if items != [] {
      var n := |items| - 1;
      IdsAtMost(items[..n]);
      assert items == items[..n] + [items[n]];
      assert IdsOf(items) == IdsOf(items[..n]) + {items[n].id};
    }
  }

  /** Only live records keep their images, and at most `max` of them. */
  lemma KeptAreLive(items: seq<Item>, all: map<string, string>, max: nat)
    requires Increasing(items)
    ensures |ShotsToKeep(items, all, max)| <= max
    ensures forall k :: k in ShotsToKeep(items, all, max) ==> exists it :: it in items && it.id == k
  {
    var w := Newest(WithImage(items, all), max);
    WithImageMeans(items, all);
    IdsAtMost(w);
    forall k | k in ShotsToKeep(items, all, max) ensures exists it :: it in items && it.id == k {
      var it :| it in w && it.id == k;
      assert it in WithImage(items, all);
    }
  }

  lemma ReflagOk(items: seq<Item>, last: nat, id: string, before: map<string, string>, shots: map<string, string>)
    requires ListOk(items, last, before) && shots.Keys <= before.Keys + {id}
    ensures ListOk(Reflag(items, id, shots), last, shots)
  {}

  lemma KeptNumbered(items: seq<Item>, last: nat, shots: map<string, string>)
    requires Numbered(items, last)
    requires forall k :: k in shots ==> shots[k] != "" && exists it :: it in items && it.id == k
    ensures ShotsNumbered(shots, last)
  {
    hide IdOf;
    forall k | k in shots ensures exists n: nat :: n <= last && k == IdOf(n) {
      var it :| it in items && it.id == k;
      assert it.no <= last && k == IdOf(it.no);
    }
  }

  lemma SetShotKeeps(s: State, id: string, image: string)
    requires WellFormed(s)
    ensures WellFormed(AfterSetShot(s, id, image))
  {
    if image != "" {
      var s' := AfterSetShot(s, id, image);
      var all := s.shots[id := image];
      var kept := ShotsToKeep(s.items, all, MAX_SHOTS);
      assert s'.items == Reflag(s.items, id, s'.shots) && s'.last == s.last;
      assert forall k :: k in s'.shots ==> k in kept && k in all && s'.shots[k] == all[k];
      hide AfterSetShot, ShotsToKeep, Reflag, Increasing, FlagsRight, Numbered, IdOf;
      KeptAreLive(s.items, all, MAX_SHOTS);
      KeptNumbered(s.items, s.last, s'.shots);
      SubsetSize(s'.shots.Keys, kept);
      ReflagOk(s.items, s.last, id, s.shots, s'.shots);
    }
  }

  // ---------------------------------------------------------------- runs

  datatype Op =
    | Add(input: Input, now: int)
    | Patch(filter: Filter, changes: Changes, now: int)
    | Remove(filter: Filter)
    | SetShot(id: string, image: string)

  function Apply(s: State, op: Op): State {
    match op
    case Add(input, now) => AfterAdd(s, input, now)
    case Patch(f, c, now) => AfterPatch(s, f, c, now)
    case Remove(f) => AfterRemove(s, f)
    case SetShot(id, image) => AfterSetShot(s, id, image)
  }

  function Run(s: State, ops: seq<Op>): State {
    if ops == [] then s else Apply(Run(s, ops[..|ops| - 1]), ops[|ops| - 1])
  }

  /** From any well-formed stored state, every run keeps records in order and at most 500, at most 30
      images, and flags that say exactly which records have one. */
  lemma {:induction false} RunKeepsWellFormed(s: State, ops: seq<Op>)
    requires WellFormed(s)
    ensures WellFormed(Run(s, ops))
    decreases |ops|
  {
    if ops != [] {
      var n := |ops| - 1;
      RunKeepsWellFormed(s, ops[..n]);
      var p := Run(s, ops[..n]);
      hide WellFormed, AfterAdd, AfterPatch, AfterRemove, AfterSetShot;
      match ops[n] {
        case Add(input, now) => AddKeeps(p, input, now);
        case Patch(f, c, now) => PatchKeeps(p, f, c, now);
        case Remove(f) => RemoveKeeps(p, f);
        case SetShot(id, image) => SetShotKeeps(p, id, image);
      }
    }
  }

  /** So every run from the empty store: records in the order of their numbers, at most 500 of them and 30 images,
      and a record says it has an image exactly if there is one. */
  lemma RunStaysInOrder(ops: seq<Op>)
    ensures var s := Run(Empty, ops);
            && (forall i, j :: 0 <= i < j < |s.items| ==> s.items[i].no < s.items[j].no)
            && |s.items| <= 500 && |s.shots| <= 30
            && forall it :: it in s.items ==> it.no <= s.last && it.id == IdOf(it.no) && (it.hasShot <==> it.id in s.shots)
  {
    RunKeepsWellFormed(Empty, ops);
    hide Run, IdOf;
  }

  /** Evicting images never touches a comment: storing one changes no record but for its image flag. */
  lemma SetShotKeepsComments(s: State, id: string, image: string)
    ensures var s' := AfterSetShot(s, id, image);
            |s'.items| == |s.items|
            && forall i :: 0 <= i < |s.items| ==> s'.items[i].(hasShot := s.items[i].hasShot) == s.items[i]
  {}

  /** Which images are stored after storing one: exactly those of the newest 30 live records that have
      one, the new image included; images of deleted or pruned records go. */
  lemma SetShotStores(s: State, id: string, image: string, k: string)
    requires WellFormed(s) && image != ""
    ensures var all := s.shots[id := image];
            k in AfterSetShot(s, id, image).shots <==>
              exists it :: it in s.items && it.id == k && k in all && NewerThan(WithImage(s.items, all), it.no) < 30
  {
    var all := s.shots[id := image];
    WithImageMeans(s.items, all);
    if k in AfterSetShot(s, id, image).shots {
      var it :| it in Newest(WithImage(s.items, all), MAX_SHOTS) && it.id == k;
      NewestByRank(WithImage(s.items, all), MAX_SHOTS, it);
    }
    if it :| it in s.items && it.id == k && k in all && NewerThan(WithImage(s.items, all), it.no) < MAX_SHOTS {
      KeptImages(s.items, all, MAX_SHOTS, s.last, it);
    }
  }

  // ---------------------------------------------------------------- what operations reach

  /** Patching changes exactly the records the query selects, where they stand. */
  lemma PatchedMeans(s: State, f: Filter, c: Changes, now: int)
    ensures var s' := AfterPatch(s, f, c, now);
            && s'.last == s.last && s'.shots == s.shots && |s'.items| == |s.items|
            && forall i :: 0 <= i < |s.items| ==>
                 if s.items[i] in Select(s.items, f) then s'.items[i] == Changed(s.items[i], c, now) && s'.items[i].updatedAt == now
                 else s'.items[i] == s.items[i]
  {
    hide Select, Trim, Clip;
  }

  /** Removing takes away exactly the records the query selects, and their images. */
  lemma RemovedMeans(s: State, f: Filter, it: Item, id: string)
    requires WellFormed(s)
    ensures var s' := AfterRemove(s, f);
            && s'.last == s.last && Increasing(s'.items)
            && (it in s'.items <==> it in s.items && it !in Select(s.items, f))
            && (id in s'.shots <==> id in s.shots && forall x :: x in Select(s.items, f) ==> x.id != id)
            && (id in s'.shots ==> s'.shots[id] == s.shots[id])
  {
    WithoutMeans(s.items, IdsOf(Select(s.items, f)));
    if it in s.items && it.id in IdsOf(Select(s.items, f)) {
      var x :| x in Select(s.items, f) && x.id == it.id;
      SelectMeans(s.items, f, x);
      SameNumber(s.items, s.last, x, it);
    }
    hide Select, WellFormed;
  }

  // ---------------------------------------------------------------- what records say

  /** Text as it is stored: at most `max` characters of it, without the white space at its ends. */
  ghost predicate Tidied(raw: string, max: nat, out: string) {
    && (out == "" || (!IsSpace(out[0]) && !IsSpace(out[|out| - 1])))
    && exists pre, post :: pre + out + post == (if |raw| <= max then raw else raw[..max]) && forall c :: c in pre + post ==> IsSpace(c)
  }

  lemma TidyingMeans(raw: string, max: nat)
    ensures Tidied(raw, max, Trim(Clip(raw, max)))
  {
    var pre, mid, post := TrimMeans(Clip(raw, max));
    hide Trim;
  }

  /** A new record: the next number and its id, open, the comment tidied, no note, no image, and the first 2000
      characters of the address. It becomes the last of the list, unless the part of the comment that is kept is
      all white space; then it is refused. */
  lemma AddedMeans(s: State, input: Input, now: int)
    requires WellFormed(s)
    ensures var s' := AfterAdd(s, input, now); var kept := if |input.comment| <= 4000 then input.comment else input.comment[..4000];
            && s'.last == s.last + 1 && s'.shots == s.shots
            && if forall c :: c in kept ==> IsSpace(c) then s'.items == s.items
               else
                 s'.items != [] && var r := s'.items[|s'.items| - 1];
                 && r.comment != "" && Tidied(input.comment, 4000, r.comment)
                 && r == Item("a" + Decimal(s.last + 1), s.last + 1, "open", r.comment, "",
                              if |input.url| <= 2000 then input.url else input.url[..2000], input.tabId, now, false)
  {
    AddKeeps(s, input, now);
    TidyingMeans(input.comment, 4000);
    BlankMeans(Clip(input.comment, 4000));
    hide PruneItems, Trim, Tidied, WellFormed, Decimal;
  }

  lemma BlankMeans(s: string)
    ensures Trim(s) == "" <==> forall c :: c in s ==> IsSpace(c)
  {
    var pre, mid, post := TrimMeans(s);
    hide Trim;
    if mid != "" {
      assert mid[0] in s;
    }
  }

  /** A patched record: only what is asked for changes, the texts tidied, and the time. */
  lemma ChangedMeans(it: Item, c: Changes, now: int)
    ensures var r := Changed(it, c, now);
            && r == it.(status := r.status, comment := r.comment, note := r.note, updatedAt := now)
            && r.status == (if c.status == "" then it.status else c.status)
            && (if c.comment.None? then r.comment == it.comment else Tidied(c.comment.value, 4000, r.comment))
            && (if c.note.None? then r.note == it.note else Tidied(c.note.value, 4000, r.note))
  {
    if c.comment.Some? {
      TidyingMeans(c.comment.value, 4000);
    }
    if c.note.Some? {
      TidyingMeans(c.note.value, 4000);
    }
    hide Tidied;
  }
}
