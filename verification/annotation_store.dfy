/** The annotation store object of the service worker. */
module AnnotationStore {
  import opened Prelude
  import opened Annotations

  /** Collects the matching records, orders them, and applies the limit. */
  method FilterAnnotations(items: seq<Item>, f: Filter) returns (out: seq<Item>)
    ensures out == Select(items, f)
  {
    out := [];
    for i := 0 to |items|
      invariant out == Meeting(items[..i], f)
    {
      assert items[..i + 1][..i] == items[..i];
      if Meets(items[i], f) {
        out := out + [items[i]];
      }
    }
    assert items[..|items|] == items;
    out := SortBySeq(out);
    if f.limit > 0 && |out| > f.limit {
      out := out[|out| - f.limit..];
    }
  }

  /** The keys of an object in some order. */
  method KeysOf(m: map<string, string>) returns (ks: seq<string>)
    ensures forall i, j :: 0 <= i < j < |ks| ==> ks[i] != ks[j]
    ensures forall k :: k in ks <==> k in m
  {
    ks := [];
    var rest := m.Keys;
    while rest != {}
      invariant forall i, j :: 0 <= i < j < |ks| ==> ks[i] != ks[j]
      invariant forall k :: k in m <==> k in ks || k in rest
      invariant forall k :: k in ks ==> k !in rest
      decreases rest
    {
      var k :| k in rest;
      rest := rest - {k};
      ks := ks + [k];
    }
  }

  method ShotIdsToKeep(items: seq<Item>, shotIds: seq<string>, max: nat) returns (keep: set<string>)
    ensures keep == IdsOf(PruneItems(LiveRecords(items, shotIds), max))
  {
    var bySeq: map<string, Item> := map[];
    for i := 0 to |items|
      invariant forall id :: Find(items[..i], id) == if id in bySeq then Some(bySeq[id]) else None
    {
      assert items[..i + 1][..i] == items[..i];
      bySeq := bySeq[items[i].id := items[i]];
    }
    assert items[..|items|] == items;
    var live: seq<Item> := [];
    for i := 0 to |shotIds|
      invariant live == LiveRecords(items, shotIds[..i])
    {
      assert shotIds[..i + 1][..i] == shotIds[..i];
      if shotIds[i] in bySeq {
        live := live + [bySeq[shotIds[i]]];
      }
    }
    assert shotIds[..|shotIds|] == shotIds;
    live := SortBySeq(live);
    live := live[if |live| > max then |live| - max else 0..];
    keep := set it | it in live :: it.id;
  }

  class Store {
    var last: nat
    var items: seq<Item>
    var shots: map<string, string>
    var revision: nat

    function Now(): State
      reads this
    {
      State(last, items, shots)
    }

    /** Starts from what storage holds. */
    constructor (stored: State)
      ensures Now() == stored
    {
      last, items, shots, revision := stored.last, stored.items, stored.shots, 0;
    }

    method Add(input: Input, now: int) returns (r: Option<Item>)
      modifies this
      ensures Now() == AfterAdd(old(Now()), input, now)
      ensures var record := Record(old(last) + 1, input, now);
              r == if record.comment == "" then None else Some(record)
      ensures revision == old(revision) + if r.Some? then 1 else 0
    {
      last := last + 1;
      var record := Record(last, input, now);
      if record.comment == "" {
        return None;
      }
      items := items + [record];
      items := PruneItems(items, MAX_ANNOTATIONS);
      revision := revision + 1;
      return Some(record);
    }

    method List(f: Filter) returns (out: seq<Item>)
      ensures out == Select(items, f)
    {
      out := FilterAnnotations(items, f);
    }

    /** Changes the matching records where they stand. */
    method Patch(f: Filter, c: Changes, now: int) returns (count: nat)
      modifies this
      ensures Now() == AfterPatch(old(Now()), f, c, now)
      ensures count == |Select(old(items), f)|
      ensures revision == old(revision) + if count > 0 then 1 else 0
    {
      var targets := FilterAnnotations(items, f);
      for i := 0 to |items|
        invariant |items| == |old(items)| && last == old(last) && shots == old(shots) && revision == old(revision)
        invariant forall j :: 0 <= j < i ==>
                    items[j] == if old(items)[j] in targets then Changed(old(items)[j], c, now) else old(items)[j]
        invariant forall j :: i <= j < |items| ==> items[j] == old(items)[j]
      {
        if items[i] in targets {
          var it := items[i];
          if c.status != "" {
            it := it.(status := c.status);
          }
          if c.comment.Some? {
            it := it.(comment := Domains.Trim(Clip(c.comment.value, MAX_COMMENT)));
          }
          if c.note.Some? {
            it := it.(note := Domains.Trim(Clip(c.note.value, MAX_NOTE)));
          }
          items := items[i := it.(updatedAt := now)];
        }
      }
      if |targets| > 0 {
        revision := revision + 1;
      }
      count := |targets|;
    }

    /** Deletes the matching records and their images. */
    method Remove(f: Filter) returns (removed: nat)
      modifies this
      ensures removed == |Select(old(items), f)|
      ensures removed > 0 ==> Now() == AfterRemove(old(Now()), f)
      ensures removed == 0 ==> Now() == old(Now())
      ensures revision == old(revision) + if removed > 0 then 1 else 0
    {
      var targets := FilterAnnotations(items, f);
      if |targets| == 0 {
        return 0;
      }
      var kill := set it | it in targets :: it.id;
      var kept: seq<Item> := [];
      for i := 0 to |items|
        invariant kept == Without(items[..i], kill)
      {
        assert items[..i + 1][..i] == items[..i];
        if items[i].id !in kill {
          kept := kept + [items[i]];
        }
      }
      assert items[..|items|] == items;
      items := kept;
      shots := shots - kill;
      revision := revision + 1;
      removed := |targets|;
    }

    /** Stores an image, drops the ones past the cap, and corrects the flags. */
    method SetShot(id: string, image: string) returns (stored: bool)
      requires Increasing(items) && Numbered(items, last)
      modifies this
      ensures Now() == AfterSetShot(old(Now()), id, image)
      ensures stored <==> image != "" && id in shots
      ensures revision == old(revision) + if image != "" then 1 else 0
    {
      if image == "" {
        return false;
      }
      shots := shots[id := image];
      ghost var all := shots;
      var ids := KeysOf(shots);
      var keep := ShotIdsToKeep(items, ids, MAX_SHOTS);
      KeepIsNewestLive(items, shots, ids, last, MAX_SHOTS);
      for i := 0 to |ids|
        invariant last == old(last) && items == old(items) && revision == old(revision)
        invariant shots.Keys <= all.Keys && forall k :: k in shots ==> shots[k] == all[k]
        invariant forall k :: k in all ==> (k !in shots <==> k in ids[..i] && k !in keep)
      {
        assert forall k :: k in ids[..i + 1] <==> k in ids[..i] || k == ids[i];
        if ids[i] !in keep {
          shots := shots - {ids[i]};
        }
      }
      assert ids[..|ids|] == ids;
      assert shots == AfterSetShot(old(Now()), id, image).shots;
      SetFlags(id);
      revision := revision + 1;
      stored := id in shots;
    }

    /** The record's own flag, then every flag whose image is gone. */
    method SetFlags(id: string)
      modifies this`items
      ensures items == Reflag(old(items), id, shots)
    {
      for i := 0 to |items|
        invariant |items| == |old(items)|
        invariant forall j :: 0 <= j < i ==> items[j] == Reflag(old(items), id, shots)[j]
        invariant forall j :: i <= j < |items| ==> items[j] == old(items)[j]
      {
        var it := items[i];
        if it.id == id {
          it := it.(hasShot := id in shots);
        }
        if it.hasShot && it.id !in shots {
          it := it.(hasShot := false);
        }
        items := items[i := it];
      }
    }
  }

  lemma InOrderIfWellFormed(s: State)
    requires WellFormed(s)
    ensures Increasing(s.items)
  {}

  /** Removing with a query that matches nothing is the same as not removing. */
  lemma EmptyRemoval(s: State, f: Filter)
    requires WellFormed(s) && Select(s.items, f) == []
    ensures AfterRemove(s, f) == s
  {
    hide Select, WellFormed, Without;
    assert Increasing(s.items) by { InOrderIfWellFormed(s); }
    hide Increasing;
    WithoutMeans(s.items, {});
    OrderedIsUnique(Without(s.items, {}), s.items);
    assert IdsOf(Select(s.items, f)) == {};
    assert s.shots - {} == s.shots;
  }
}
