/** Whole-store runs of the history operations on a small example. */
module Scenarios {
  import opened Wrappers
  import Codec
  import History

  /** The ids of a history list, front first. */
  function Ids<T>(xs: seq<History.Record<T>>): (r: seq<string>)
    ensures |r| == |xs| && forall k :: 0 <= k < |xs| ==> r[k] == xs[k].id
  {
    seq(|xs|, k requires 0 <= k < |xs| => xs[k].id)
  }

  lemma StringsRoundTrip()
    ensures Codec.RoundTrips(Codec.EncodeStr, Codec.ParseStr)
  {
    forall x: string, rest: string ensures Codec.ParseStr(Codec.EncodeStr(x) + rest) == Some((x, rest)) {
      Codec.ParseEncodeStr(x, rest);
    }
  }

  lemma HasIdIds<T>(xs: seq<History.Record<T>>, id: string)
    ensures History.HasId(xs, id) <==> id in Ids(xs)
  {
    if History.HasId(xs, id) {
      var k :| 0 <= k < |xs| && xs[k].id == id;
      assert Ids(xs)[k] == id;
    }
  }

  /** Adding a new id puts it in front of the old ids, cut to the cap. */
  lemma AddNewIds<T>(prev: seq<History.Record<T>>, item: History.Record<T>, maxItems: nat, before: seq<string>)
    requires Ids(prev) == before && item.id !in before && maxItems >= 1
    ensures |before| < maxItems ==> Ids(History.Upsert(prev, item, maxItems)) == [item.id] + before
    ensures |before| >= maxItems ==> Ids(History.Upsert(prev, item, maxItems)) == [item.id] + before[..maxItems - 1]
  {
    HasIdIds(prev, item.id);
    History.UpsertNewId(prev, item, maxItems);
  }

  /** Adding the id found at position 2 of three brings that record to the front. */
  lemma PromoteThird<T>(prev: seq<History.Record<T>>, item: History.Record<T>)
    requires |prev| == 3 && prev[0].id != item.id && prev[1].id != item.id && prev[2].id == item.id
    ensures Ids(History.Upsert(prev, item, 3)) == [item.id, prev[0].id, prev[1].id]
    ensures History.Upsert(prev, item, 3)[0] == item
  {
    History.FindIndexFirst(prev, 2);
    assert History.Upsert(prev, item, 3) == [item] + prev[..2];
  }

  /** Removing the id of the last of three records keeps the first two. */
  lemma RemoveThird<T>(xs: seq<History.Record<T>>)
    requires |xs| == 3 && xs[0].id != xs[2].id && xs[1].id != xs[2].id
    ensures Ids(History.RemoveId(xs, xs[2].id)) == [xs[0].id, xs[1].id]
  {
    var id := xs[2].id;
    assert xs[1..][1..] == [xs[2]];
    assert History.RemoveId([xs[2]], id) == [];
    assert History.RemoveId(xs, id) == [xs[0], xs[1]];
  }

  /** One add of a new id to a store capped at three. */
  lemma AddStep<T>(prev: seq<History.Record<T>>, next: seq<History.Record<T>>, id: string, now: nat, p: T,
                   before: seq<string>)
    requires next == History.Upsert(prev, History.Record(History.ResolveId(Some(id), now), now, p), 3)
    requires Ids(prev) == before && id != "" && id !in before
    ensures |before| < 3 ==> Ids(next) == [id] + before
    ensures |before| >= 3 ==> Ids(next) == [id] + before[..2]
  {
    AddNewIds(prev, History.Record(id, now, p), 3, before);
  }

  /** The same add, spelled out for each length of the list before it. */
  lemma AddToEmpty<T>(prev: seq<History.Record<T>>, next: seq<History.Record<T>>, id: string, now: nat, p: T)
    requires next == History.Upsert(prev, History.Record(History.ResolveId(Some(id), now), now, p), 3)
    requires Ids(prev) == [] && id != ""
    ensures Ids(next) == [id]
  {
    AddStep(prev, next, id, now, p, []);
  }

  lemma AddToOne<T>(prev: seq<History.Record<T>>, next: seq<History.Record<T>>, id: string, now: nat, p: T,
                    x: string)
    requires next == History.Upsert(prev, History.Record(History.ResolveId(Some(id), now), now, p), 3)
    requires Ids(prev) == [x] && id != "" && id != x
    ensures Ids(next) == [id, x]
  {
    AddStep(prev, next, id, now, p, [x]);
  }

  lemma AddToTwo<T>(prev: seq<History.Record<T>>, next: seq<History.Record<T>>, id: string, now: nat, p: T,
                    x: string, y: string)
    requires next == History.Upsert(prev, History.Record(History.ResolveId(Some(id), now), now, p), 3)
    requires Ids(prev) == [x, y] && id != "" && id != x && id != y
    ensures Ids(next) == [id, x, y]
  {
    AddStep(prev, next, id, now, p, [x, y]);
  }

  lemma AddToFull<T>(prev: seq<History.Record<T>>, next: seq<History.Record<T>>, id: string, now: nat, p: T,
                     x: string, y: string, z: string)
    requires next == History.Upsert(prev, History.Record(History.ResolveId(Some(id), now), now, p), 3)
    requires Ids(prev) == [x, y, z] && id != "" && id != x && id != y && id != z
    ensures Ids(next) == [id, x, y]
  {
    AddStep(prev, next, id, now, p, [x, y, z]);
    assert [x, y, z][..2] == [x, y];
  }

  /** Adding again the id at the back of a full store of three brings it to the front. */
  lemma PromoteStep<T>(prev: seq<History.Record<T>>, next: seq<History.Record<T>>, id: string, now: nat, p: T,
                       x: string, y: string)
    requires next == History.Upsert(prev, History.Record(History.ResolveId(Some(id), now), now, p), 3)
    requires Ids(prev) == [x, y, id] && id != "" && x != id && y != id
    ensures Ids(next) == [id, x, y]
  {
    PromoteThird(prev, History.Record(id, now, p));
  }

  /** Removing the id at the back of three records. */
  lemma RemoveStep<T>(prev: seq<History.Record<T>>, next: seq<History.Record<T>>, x: string, y: string, id: string)
    requires next == History.RemoveId(prev, id)
    requires Ids(prev) == [x, y, id] && x != id && y != id
    ensures Ids(next) == [x, y]
  {
    RemoveThird(prev);
  }

  /**
   * A store capped at three: adding a, b, c, d evicts a; adding b again promotes it
   * without growing the list; removing c leaves b, d; clearing deletes the stored entry,
   * and a store opened afterwards on the same key starts empty and loaded.
   */
  method EvictionScenario(payload: string, now: nat) returns (afterAdds: seq<string>, afterPromote: seq<string>,
                                     afterRemove: seq<string>, afterClear: seq<string>,
                                     keyGone: bool, reopened: seq<string>, reopenedLoaded: bool)
    ensures afterAdds == ["d", "c", "b"]
    ensures afterPromote == ["b", "d", "c"]
    ensures afterRemove == ["b", "d"]
    ensures afterClear == [] && keyGone
    ensures reopened == [] && reopenedLoaded
  {
    var store := new History.Store<string>("tool", 3, Codec.EncodeStr, Codec.ParseStr, map[]);
    store.Load();
    ghost var s0 := store.items;
    store.Add(payload, Some("a"), now);
    AddToEmpty(s0, store.items, "a", now, payload);
    ghost var s1 := store.items;
    store.Add(payload, Some("b"), now + 1);
    AddToOne(s1, store.items, "b", now + 1, payload, "a");
    ghost var s2 := store.items;
    store.Add(payload, Some("c"), now + 2);
    AddToTwo(s2, store.items, "c", now + 2, payload, "b", "a");
    ghost var s3 := store.items;
    store.Add(payload, Some("d"), now + 3);
    AddToFull(s3, store.items, "d", now + 3, payload, "c", "b", "a");
    afterAdds := Ids(store.items);
    ghost var s4 := store.items;
    store.Add(payload, Some("b"), now + 4);
    PromoteStep(s4, store.items, "b", now + 4, payload, "d", "c");
    afterPromote := Ids(store.items);
    ghost var s5 := store.items;
    store.Remove("c");
    RemoveStep(s5, store.items, "b", "d", "c");
    afterRemove := Ids(store.items);
    store.Clear();
    afterClear := Ids(store.items);
    keyGone := "tool" !in store.storage;
    var next := new History.Store<string>("tool", 3, Codec.EncodeStr, Codec.ParseStr, store.storage);
    next.Load();
    reopened := Ids(next.items);
    reopenedLoaded := next.loaded;
  }

  /**
   * Removing the only record as written empties the list but does not write: the stored
   * copy still holds the record, and a store opened afterwards loads it again.
   */
  method RemoveLastScenario() returns (items: seq<string>, stored: Option<string>, expected: string,
                                       reopened: seq<string>)
    ensures items == []
    ensures stored == Some(expected)
    ensures reopened == ["a"]
  {
    var store := new History.Store<string>("tool", 3, Codec.EncodeStr, Codec.ParseStr, map[]);
    store.Load();
    ghost var s0 := store.storage;
    store.Add("only", Some("a"), 1);
    ghost var r := History.Record("a", 1, "only");
    assert store.items == [r];
    expected := History.Encode(store.items, Codec.EncodeStr);
    store.RemoveAsWritten("a");
    items := Ids(store.items);
    stored := if "tool" in store.storage then Some(store.storage["tool"]) else None;
    StringsRoundTrip();
    History.RemovedRecordReturns(s0, "tool", r, Codec.EncodeStr, Codec.ParseStr);
    var next := new History.Store<string>("tool", 3, Codec.EncodeStr, Codec.ParseStr, store.storage);
    next.Load();
    reopened := Ids(next.items);
  }

  /** With the corrected removal, removing the only record deletes the key: a reopened store starts empty. */
  method RemoveLastFixedScenario() returns (keyGone: bool, reopened: seq<string>)
    ensures keyGone && reopened == []
  {
    var store := new History.Store<string>("tool", 3, Codec.EncodeStr, Codec.ParseStr, map[]);
    store.Load();
    store.Add("only", Some("a"), 1);
    assert store.items == [History.Record("a", 1, "only")];
    store.Remove("a");
    assert History.RemoveId([History.Record("a", 1, "only")], "a") == [];
    keyGone := "tool" !in store.storage;
    var next := new History.Store<string>("tool", 3, Codec.EncodeStr, Codec.ParseStr, store.storage);
    next.Load();
    reopened := Ids(next.items);
  }

  /** A saved list read back by a newly opened store on the same key is the same list. */
  method ReloadScenario() returns (saved: seq<History.Record<string>>, reloaded: seq<History.Record<string>>)
    ensures saved == reloaded && |saved| == 2
  {
    var store := new History.Store<string>("tool", 3, Codec.EncodeStr, Codec.ParseStr, map[]);
    store.Load();
    store.Add("first", Some("a"), 1);
    store.Add("second", None, 2);
    saved := store.items;
    var next := new History.Store<string>("tool", 3, Codec.EncodeStr, Codec.ParseStr, store.storage);
    StringsRoundTrip();
    History.HydratePersisted(map[], "tool", saved, Codec.EncodeStr, Codec.ParseStr);
    next.Load();
    reloaded := next.items;
  }
}
