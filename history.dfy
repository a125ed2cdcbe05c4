/**
 * The bounded, upserting, per-key history of one tool: records most recently
 * touched first, capped at `maxItems`, mirrored into a key-value store.
 */
module History {
  import opened Wrappers
  import Codec

  /** One entry: the store-managed id and timestamp (milliseconds) and the tool's own fields. */
  datatype Record<T> = Record(id: string, timestamp: nat, payload: T)

  predicate HasId<T>(xs: seq<Record<T>>, id: string) {
    exists i :: 0 <= i < |xs| && xs[i].id == id
  }

  predicate UniqueIds<T>(xs: seq<Record<T>>) {
    forall i, j :: 0 <= i < j < |xs| ==> xs[i].id != xs[j].id
  }

  /** Number of records carrying `id`. */
  function CountId<T>(xs: seq<Record<T>>, id: string): (n: nat)
    ensures n <= |xs|
    ensures n == 0 <==> !HasId(xs, id)
  {
    if |xs| == 0 then 0
    else (if xs[0].id == id then 1 else 0) + CountId(xs[1..], id)
  }

  /** `findIndex(item => item.id === id)`: the first position holding `id`, or -1. */
  function FindIndex<T>(xs: seq<Record<T>>, id: string): (r: int)
    ensures -1 <= r < |xs|
    ensures r == -1 <==> !HasId(xs, id)
    ensures r >= 0 ==> xs[r].id == id && forall i :: 0 <= i < r ==> xs[i].id != id
  {
    if |xs| == 0 then -1
    else if xs[0].id == id then 0
    else
      var k := FindIndex(xs[1..], id);
      assert forall i :: 1 <= i < |xs| ==> xs[i] == xs[1..][i - 1];
      if k == -1 then -1 else k + 1
  }

  /** A record at any position i with no equal id before it is what `findIndex` finds for its id. */
  lemma FindIndexFirst<T>(xs: seq<Record<T>>, i: nat)
    requires i < |xs| && forall k :: 0 <= k < i ==> xs[k].id != xs[i].id
    ensures FindIndex(xs, xs[i].id) == i
  {
  }

  /** The end index JavaScript's `slice(0, end)` uses on a list of length `len`. */
  function SliceEnd(len: nat, end: int): (e: nat)
    ensures e <= len
    ensures 0 <= end ==> e == if end < len then end else len
    ensures end < 0 ==> e == if len + end < 0 then 0 else len + end
  {
    if end < 0 then (if len + end < 0 then 0 else len + end)
    else if end < len then end
    else len
  }

  /** `xs.slice(0, end)`, negative `end` counting from the back. */
  function Slice<T>(xs: seq<Record<T>>, end: int): seq<Record<T>> {
    xs[..SliceEnd(|xs|, end)]
  }

  /** `item.id || Date.now().toString()`: the supplied id unless it is absent or empty. */
  function ResolveId(supplied: Option<string>, now: nat): (id: string)
    ensures id != ""
    ensures supplied.Some? && supplied.value != "" ==> id == supplied.value
    ensures supplied.None? || supplied.value == "" ==> id == Codec.Digits(now)
  {
    if supplied.Some? && supplied.value != "" then supplied.value else Codec.Digits(now)
  }

  /** The updater `addToHistory` hands to `setHistory`, for the already stamped `item`. */
  function Upsert<T>(prev: seq<Record<T>>, item: Record<T>, maxItems: nat): seq<Record<T>> {
    var i := FindIndex(prev, item.id);
    if i != -1 then Slice([item] + prev[..i] + prev[i + 1..], maxItems)
    else [item] + Slice(prev, maxItems - 1)
  }

  /** The updater of `removeFromHistory`: every record whose id differs, in order. */
  function RemoveId<T>(xs: seq<Record<T>>, id: string): (r: seq<Record<T>>)
    ensures |r| <= |xs|
    ensures !HasId(r, id)
  {
    if |xs| == 0 then []
    else
      var rest := RemoveId(xs[1..], id);
      assert forall k :: 1 <= k < |xs| ==> xs[k] == xs[1..][k - 1];
      if xs[0].id == id then rest else [xs[0]] + rest
  }

  /** One record goes per record carrying the id. */
  lemma {:induction false} RemoveIdCount<T>(xs: seq<Record<T>>, id: string)
    ensures |RemoveId(xs, id)| == |xs| - CountId(xs, id)
  {
    if |xs| > 0 {
      RemoveIdCount(xs[1..], id);
    }
  }

  /** The records left are exactly those of `xs` whose id differs. */
  lemma {:induction false} RemoveIdMembers<T>(xs: seq<Record<T>>, id: string)
    ensures forall x :: x in RemoveId(xs, id) <==> x in xs && x.id != id
  {
    if |xs| > 0 {
      RemoveIdMembers(xs[1..], id);
      assert xs == [xs[0]] + xs[1..];
    }
  }

  /** `a` is `b` with some elements left out, the rest in their order. */
  ghost predicate IsSubsequence<T>(a: seq<T>, b: seq<T>)
    decreases |b|
  {
    if |a| == 0 then true
    else if |b| == 0 then false
    else if a[0] == b[0] then IsSubsequence(a[1..], b[1..])
    else IsSubsequence(a, b[1..])
  }

  lemma {:induction false} RemoveIdSubsequence<T>(xs: seq<Record<T>>, id: string)
    ensures IsSubsequence(RemoveId(xs, id), xs)
  {
    if |xs| > 0 {
      RemoveIdSubsequence(xs[1..], id);
      var rest := RemoveId(xs[1..], id);
      if xs[0].id != id {
        assert ([xs[0]] + rest)[1..] == rest;
      } else {
        SubsequenceSkip(rest, xs);
      }
    }
  }

  lemma SubsequenceSkip<T>(a: seq<T>, b: seq<T>)
    requires |b| > 0 && IsSubsequence(a, b[1..])
    ensures IsSubsequence(a, b)
    decreases |a| + |b|
  {
    if |a| > 0 && a[0] == b[0] {
      SubsequenceTail(a, b[1..]);
    }
  }

  lemma SubsequenceTail<T>(a: seq<T>, b: seq<T>)
    requires |a| > 0 && IsSubsequence(a, b)
    ensures IsSubsequence(a[1..], b)
    decreases |a| + |b|
  {
    if |b| > 0 && a[0] != b[0] {
      SubsequenceTail(a, b[1..]);
      SubsequenceSkip(a[1..], b);
    } else if |b| > 0 {
      if |a| > 1 {
        SubsequenceSkip(a[1..], b);
      }
    }
  }

  /** Removing an id that is not there changes nothing. */
  lemma {:induction false} RemoveAbsentId<T>(xs: seq<Record<T>>, id: string)
    requires !HasId(xs, id)
    ensures RemoveId(xs, id) == xs
  {
    if |xs| > 0 {
      assert forall k :: 1 <= k < |xs| ==> xs[k] == xs[1..][k - 1];
      RemoveAbsentId(xs[1..], id);
    }
  }

  lemma {:induction false} RemoveKeepsAbsent<T>(xs: seq<Record<T>>, id: string, other: string)
    requires !HasId(xs, other)
    ensures !HasId(RemoveId(xs, id), other)
  {
    if |xs| > 0 {
      assert !HasId(xs[1..], other) by {
        forall k | 0 <= k < |xs| - 1 ensures xs[1..][k].id != other {
          assert xs[1..][k] == xs[k + 1];
        }
      }
      RemoveKeepsAbsent(xs[1..], id, other);
      var rest := RemoveId(xs[1..], id);
      if xs[0].id != id {
        forall k | 0 <= k < |rest| + 1 ensures ([xs[0]] + rest)[k].id != other {
          if k > 0 {
            assert ([xs[0]] + rest)[k] == rest[k - 1];
          }
        }
      }
    }
  }

  lemma {:induction false} RemoveKeepsUnique<T>(xs: seq<Record<T>>, id: string)
    requires UniqueIds(xs)
    ensures UniqueIds(RemoveId(xs, id))
  {
    if |xs| > 0 {
      assert UniqueIds(xs[1..]) by {
        forall i, j | 0 <= i < j < |xs| - 1 ensures xs[1..][i].id != xs[1..][j].id {
          assert xs[1..][i] == xs[i + 1] && xs[1..][j] == xs[j + 1];
        }
      }
      OnlyPosition(xs, 0);
      assert xs[0 + 1..] == xs[1..];
      RemoveKeepsUnique(xs[1..], id);
      if xs[0].id != id {
        RemoveKeepsAbsent(xs[1..], id, xs[0].id);
        FrontKeepsUnique(xs[0], RemoveId(xs[1..], id));
      }
    }
  }

  /** Removing distributes over concatenation. */
  lemma {:induction false} RemoveIdConcat<T>(a: seq<Record<T>>, b: seq<Record<T>>, id: string)
    ensures RemoveId(a + b, id) == RemoveId(a, id) + RemoveId(b, id)
  {
    if |a| > 0 {
      assert (a + b)[1..] == a[1..] + b;
      RemoveIdConcat(a[1..], b, id);
    } else {
      assert a + b == b;
    }
  }

  /** With unique ids, position `i` is the only one holding its id. */
  lemma OnlyPosition<T>(xs: seq<Record<T>>, i: nat)
    requires UniqueIds(xs) && i < |xs|
    ensures !HasId(xs[..i], xs[i].id) && !HasId(xs[i + 1..], xs[i].id)
  {
    var pre, post := xs[..i], xs[i + 1..];
    forall k | 0 <= k < |post| ensures post[k].id != xs[i].id {
      assert post[k] == xs[i + 1 + k];
    }
    forall k | 0 <= k < |pre| ensures pre[k].id != xs[i].id {
      assert pre[k] == xs[k];
    }
  }

  /** With unique ids, dropping `id` is dropping the one position that holds it. */
  lemma RemoveAtFound<T>(xs: seq<Record<T>>, i: nat)
    requires UniqueIds(xs) && i < |xs|
    ensures RemoveId(xs, xs[i].id) == xs[..i] + xs[i + 1..]
  {
    OnlyPosition(xs, i);
    RemoveAtPosition(xs, i);
  }

  lemma RemoveAtPosition<T>(xs: seq<Record<T>>, i: nat)
    requires i < |xs| && !HasId(xs[..i], xs[i].id) && !HasId(xs[i + 1..], xs[i].id)
    ensures RemoveId(xs, xs[i].id) == xs[..i] + xs[i + 1..]
  {
    RemoveAbsentId(xs[..i], xs[i].id);
    RemoveAbsentId(xs[i + 1..], xs[i].id);
    RemoveSplit(xs[..i], xs[i], xs[i + 1..]);
    Reassemble(xs, i);
  }

  lemma Reassemble<T>(xs: seq<Record<T>>, i: nat)
    requires i < |xs|
    requires RemoveId(xs[..i] + [xs[i]] + xs[i + 1..], xs[i].id) == xs[..i] + xs[i + 1..]
    ensures RemoveId(xs, xs[i].id) == xs[..i] + xs[i + 1..]
  {
    SplitAt(xs, i);
  }

  lemma SplitAt<T>(xs: seq<T>, i: nat)
    requires i < |xs|
    ensures xs == xs[..i] + [xs[i]] + xs[i + 1..]
  {
    assert xs[i..] == [xs[i]] + xs[i + 1..];
    assert xs == xs[..i] + xs[i..];
  }

  lemma RemoveSplit<T>(pre: seq<Record<T>>, x: Record<T>, post: seq<Record<T>>)
    requires RemoveId(pre, x.id) == pre && RemoveId(post, x.id) == post
    ensures RemoveId(pre + [x] + post, x.id) == pre + post
  {
    assert RemoveId([x], x.id) == [] by {
      assert [x][1..] == [];
    }
    RemoveIdConcat([x], post, x.id);
    assert pre + [x] + post == pre + ([x] + post);
    RemoveIdConcat(pre, [x] + post, x.id);
  }

  /**
   * The upsert rule as one statement: with unique ids and a cap of at least one,
   * the result is the item in front of the other records (the old record with the
   * same id dropped), cut to `maxItems`.
   */
  lemma UpsertIsPromoteThenCap<T>(prev: seq<Record<T>>, item: Record<T>, maxItems: nat)
    requires UniqueIds(prev) && maxItems >= 1
    ensures var full := [item] + RemoveId(prev, item.id);
            Upsert(prev, item, maxItems) == full[..if maxItems < |full| then maxItems else |full|]
  {
    var i := FindIndex(prev, item.id);
    if i == -1 {
      RemoveAbsentId(prev, item.id);
      var full := [item] + prev;
      var n := SliceEnd(|prev|, maxItems - 1);
      assert [item] + prev[..n] == full[..n + 1];
    } else {
      RemoveAtFound(prev, i);
      assert [item] + prev[..i] + prev[i + 1..] == [item] + (prev[..i] + prev[i + 1..]);
    }
  }

  /** A record with a new id goes to the front of the first `maxItems - 1` old records. */
  lemma UpsertNewId<T>(prev: seq<Record<T>>, item: Record<T>, maxItems: nat)
    requires !HasId(prev, item.id) && maxItems >= 1
    ensures var r := Upsert(prev, item, maxItems);
            |r| == (if |prev| + 1 < maxItems then |prev| + 1 else maxItems)
            && r[0] == item
            && r[1..] == prev[..|r| - 1]
  {
  }

  /**
   * A cap of zero does not bound the list: `slice(0, -1)` keeps all but the last old
   * record, so adding a new id keeps the length at that of a non-empty list.
   */
  lemma UpsertNewIdZeroCap<T>(prev: seq<Record<T>>, item: Record<T>)
    requires !HasId(prev, item.id) && |prev| >= 1
    ensures |Upsert(prev, item, 0)| == |prev| > 0
  {
  }

  /**
   * A record whose id is present, first at position `i`, replaces it at the front; the
   * length does not grow and is at most `maxItems`; the others keep their relative order.
   */
  lemma UpsertExistingId<T>(prev: seq<Record<T>>, item: Record<T>, maxItems: nat, i: nat)
    requires i < |prev| && prev[i].id == item.id
    requires forall k :: 0 <= k < i ==> prev[k].id != item.id
    ensures var r := Upsert(prev, item, maxItems);
            |r| <= |prev| && |r| <= maxItems
            && (maxItems >= 1 ==> r[0] == item)
            && (forall k :: 1 <= k < |r| ==> r[k] == if k <= i then prev[k - 1] else prev[k])
  {
    FindIndexFirst(prev, i);
    UpsertAt(prev, item, maxItems, i);
  }

  lemma UpsertAt<T>(prev: seq<Record<T>>, item: Record<T>, maxItems: nat, i: nat)
    requires i < |prev| && FindIndex(prev, item.id) == i
    ensures var r := Upsert(prev, item, maxItems);
            |r| <= |prev| && |r| <= maxItems
            && (maxItems >= 1 ==> r[0] == item)
            && (forall k :: 1 <= k < |r| ==> r[k] == if k <= i then prev[k - 1] else prev[k])
  {
    var full := [item] + prev[..i] + prev[i + 1..];
    var r := Upsert(prev, item, maxItems);
    UpsertFound(prev, item, maxItems, i, full, r);
    PromotedOrder(prev, item, i);
    CapKeepsOrder(prev, item, i, full, r, maxItems);
  }

  /** With the id found at `i`, the upsert is the promoted list cut to the cap. */
  lemma UpsertFound<T>(prev: seq<Record<T>>, item: Record<T>, maxItems: nat, i: nat,
                       full: seq<Record<T>>, r: seq<Record<T>>)
    requires i < |prev| && FindIndex(prev, item.id) == i
    requires full == [item] + prev[..i] + prev[i + 1..] && r == Upsert(prev, item, maxItems)
    ensures r == full[..SliceEnd(|full|, maxItems)]
  {
  }

  /** Cutting the promoted list keeps its order and its front. */
  lemma CapKeepsOrder<T>(prev: seq<Record<T>>, item: Record<T>, i: nat, full: seq<Record<T>>,
                         r: seq<Record<T>>, maxItems: nat)
    requires i < |prev| && |full| == |prev| && full[0] == item
    requires forall k {:trigger full[k]} :: 1 <= k < |full| ==> full[k] == if k <= i then prev[k - 1] else prev[k]
    requires r == full[..SliceEnd(|full|, maxItems)]
    ensures |r| <= |prev| && |r| <= maxItems
    ensures maxItems >= 1 ==> r[0] == item
    ensures forall k :: 1 <= k < |r| ==> r[k] == if k <= i then prev[k - 1] else prev[k]
  {
    forall k | 1 <= k < |r| ensures r[k] == if k <= i then prev[k - 1] else prev[k] {
      assert r[k] == full[k];
    }
  }



  /** The list before the cap: the item, then the others in their old order. */
  lemma PromotedOrder<T>(prev: seq<Record<T>>, item: Record<T>, i: nat)
    requires i < |prev|
    ensures var full := [item] + prev[..i] + prev[i + 1..];
            |full| == |prev| && full[0] == item
            && forall k :: 1 <= k < |full| ==> full[k] == if k <= i then prev[k - 1] else prev[k]
  {
    var full := [item] + prev[..i] + prev[i + 1..];
    forall k | 1 <= k < |full| ensures full[k] == if k <= i then prev[k - 1] else prev[k] {
      if k <= i {
        assert full[k] == prev[..i][k - 1];
      } else {
        assert full[k] == prev[i + 1..][k - i - 1];
      }
    }
  }

  lemma PrefixKeepsUnique<T>(xs: seq<Record<T>>, n: nat)
    requires UniqueIds(xs) && n <= |xs|
    ensures UniqueIds(xs[..n]) && (forall x :: x in xs[..n] ==> x in xs)
  {
    forall a, b | 0 <= a < b < n ensures xs[..n][a].id != xs[..n][b].id {
      assert xs[..n][a] == xs[a] && xs[..n][b] == xs[b];
    }
  }

  lemma FrontKeepsUnique<T>(item: Record<T>, rest: seq<Record<T>>)
    requires UniqueIds(rest) && !HasId(rest, item.id)
    ensures UniqueIds([item] + rest)
  {
    var full := [item] + rest;
    forall a, b | 0 <= a < b < |full| ensures full[a].id != full[b].id {
      assert full[b] == rest[b - 1];
      if a > 0 {
        assert full[a] == rest[a - 1];
      }
    }
  }

  /** Unique ids stay unique through an upsert, whatever the cap. */
  lemma UpsertKeepsUnique<T>(prev: seq<Record<T>>, item: Record<T>, maxItems: nat)
    requires UniqueIds(prev)
    ensures UniqueIds(Upsert(prev, item, maxItems))
  {
    var i := FindIndex(prev, item.id);
    if i != -1 {
      RemoveAtFound(prev, i);
      RemoveKeepsUnique(prev, item.id);
      var rest := prev[..i] + prev[i + 1..];
      FrontKeepsUnique(item, rest);
      var full := [item] + rest;
      assert [item] + prev[..i] + prev[i + 1..] == full;
      PrefixKeepsUnique(full, SliceEnd(|full|, maxItems));
    } else {
      var n := SliceEnd(|prev|, maxItems - 1);
      PrefixKeepsUnique(prev, n);
      assert !HasId(prev[..n], item.id) by {
        forall k | 0 <= k < n ensures prev[..n][k].id != item.id {
          assert prev[..n][k] == prev[k];
        }
      }
      FrontKeepsUnique(item, prev[..n]);
    }
  }

  /** With a cap of at least one the list never exceeds the cap. */
  lemma UpsertBounded<T>(prev: seq<Record<T>>, item: Record<T>, maxItems: nat)
    requires maxItems >= 1
    ensures 1 <= |Upsert(prev, item, maxItems)| <= maxItems
    ensures Upsert(prev, item, maxItems)[0] == item
  {
  }

  /** Repeated upserts, in call order. */
  function AddAll<T>(xs: seq<Record<T>>, items: seq<Record<T>>, maxItems: nat): seq<Record<T>>
    decreases |items|
  {
    if |items| == 0 then xs else AddAll(Upsert(xs, items[0], maxItems), items[1..], maxItems)
  }

  function Reverse<T>(s: seq<T>): (r: seq<T>)
    ensures |r| == |s|
    ensures forall i :: 0 <= i < |s| ==> r[i] == s[|s| - 1 - i]
  {
    if |s| == 0 then [] else [s[|s| - 1]] + Reverse(s[..|s| - 1])
  }

  function Take<T>(s: seq<T>, n: nat): (r: seq<T>)
    ensures |r| == if n < |s| then n else |s|
    ensures r == s[..|r|]
  {
    if n < |s| then s[..n] else s
  }

  /**
   * Adding records with distinct ids one after another, starting empty, leaves the
   * last `maxItems` of them, most recent first.
   */
  lemma AddDistinctKeepsMostRecent<T>(items: seq<Record<T>>, maxItems: nat)
    requires UniqueIds(items) && maxItems >= 1
    ensures AddAll([], items, maxItems) == Take(Reverse(items), maxItems)
  {
    assert [] + items == items;
    AddDistinctFrom([], items, maxItems);
  }

  lemma {:induction false} AddDistinctFrom<T>(done: seq<Record<T>>, items: seq<Record<T>>, maxItems: nat)
    requires UniqueIds(done + items) && maxItems >= 1
    ensures AddAll(Take(Reverse(done), maxItems), items, maxItems) == Take(Reverse(done + items), maxItems)
    decreases |items|
  {
    if |items| == 0 {
      assert done + items == done;
    } else {
      var x := items[0];
      var done' := done + [x];
      SplitFirst(done, items);
      AddOneDistinct(done, x, maxItems, done + items);
      AddDistinctFrom(done', items[1..], maxItems);
    }
  }

  /** Moving the first of `items` over to `done` keeps the whole sequence. */
  lemma SplitFirst<T>(done: seq<T>, items: seq<T>)
    requires |items| > 0
    ensures (done + items)[..|done|] == done && (done + items)[|done|] == items[0]
    ensures done + [items[0]] + items[1..] == done + items
  {
    assert items == [items[0]] + items[1..];
  }

  /** One step of the above: a new id in front of the reversed, capped history. */
  lemma AddOneDistinct<T>(done: seq<Record<T>>, x: Record<T>, maxItems: nat, all: seq<Record<T>>)
    requires maxItems >= 1 && UniqueIds(all) && |done| < |all|
    requires all[..|done|] == done && all[|done|] == x
    ensures Upsert(Take(Reverse(done), maxItems), x, maxItems) == Take(Reverse(done + [x]), maxItems)
  {
    var prev := Take(Reverse(done), maxItems);
    NewIdNotInReversed(done, x, maxItems, all);
    UpsertNewIsTake(prev, x, maxItems);
    ReverseSnoc(done, x);
    TakeCons(x, Reverse(done), maxItems);
    TakeTake(Reverse(done), maxItems);
  }

  lemma NewIdNotInReversed<T>(done: seq<Record<T>>, x: Record<T>, maxItems: nat, all: seq<Record<T>>)
    requires UniqueIds(all) && |done| < |all|
    requires all[..|done|] == done && all[|done|] == x
    ensures !HasId(Take(Reverse(done), maxItems), x.id)
  {
    var prev := Take(Reverse(done), maxItems);
    forall k | 0 <= k < |prev| ensures prev[k].id != x.id {
      assert prev[k] == done[|done| - 1 - k] == all[|done| - 1 - k];
    }
  }

  lemma UpsertNewIsTake<T>(prev: seq<Record<T>>, x: Record<T>, maxItems: nat)
    requires !HasId(prev, x.id) && maxItems >= 1
    ensures Upsert(prev, x, maxItems) == [x] + Take(prev, maxItems - 1)
  {
    assert FindIndex(prev, x.id) == -1;
  }

  lemma ReverseSnoc<T>(s: seq<T>, x: T)
    ensures Reverse(s + [x]) == [x] + Reverse(s)
  {
    assert (s + [x])[..|s|] == s;
  }

  lemma TakeCons<T>(x: T, s: seq<T>, n: nat)
    requires n >= 1
    ensures Take([x] + s, n) == [x] + Take(s, n - 1)
  {
  }

  lemma TakeTake<T>(s: seq<T>, n: nat)
    requires n >= 1
    ensures Take(Take(s, n), n - 1) == Take(s, n - 1)
  {
  }

  // ---------------------------------------------------------------------------
  // The stored form.

  function EncodeRecord<T>(r: Record<T>, encodePayload: T -> string): string {
    Codec.EncodeStr(r.id) + Codec.EncodeNat(r.timestamp) + encodePayload(r.payload)
  }

  function ParseRecord<T>(s: string, parsePayload: string -> Option<(T, string)>): Option<(Record<T>, string)> {
    match Codec.ParseStr(s)
    case None => None
    case Some((id, t)) =>
      match Codec.ParseNat(t)
      case None => None
      case Some((ts, u)) =>
        match parsePayload(u)
        case None => None
        case Some((p, v)) => Some((Record(id, ts, p), v))
  }

  function RecordEncoder<T>(encodePayload: T -> string): Record<T> -> string {
    r => EncodeRecord(r, encodePayload)
  }

  function RecordParser<T>(parsePayload: string -> Option<(T, string)>): string -> Option<(Record<T>, string)> {
    s => ParseRecord(s, parsePayload)
  }

  lemma RecordRoundTrips<T(!new)>(encodePayload: T -> string, parsePayload: string -> Option<(T, string)>)
    requires Codec.RoundTrips(encodePayload, parsePayload)
    ensures Codec.RoundTrips(RecordEncoder(encodePayload), RecordParser(parsePayload))
  {
    forall r: Record<T>, rest: string
      ensures RecordParser(parsePayload)(RecordEncoder(encodePayload)(r) + rest) == Some((r, rest))
    {
      var tail := encodePayload(r.payload) + rest;
      var mid := Codec.EncodeNat(r.timestamp) + tail;
      assert EncodeRecord(r, encodePayload) + rest == Codec.EncodeStr(r.id) + mid;
      Codec.ParseEncodeStr(r.id, mid);
      Codec.ParseEncodeNat(r.timestamp, tail);
      assert parsePayload(tail) == Some((r.payload, rest));
    }
  }

  /** `JSON.stringify(history)`, in the model's text format. */
  function Encode<T>(xs: seq<Record<T>>, encodePayload: T -> string): string {
    Codec.EncodeSeq(xs, RecordEncoder(encodePayload))
  }

  /** `JSON.parse` plus rebuilding the timestamps; None where the source's parse throws. */
  function Decode<T>(s: string, parsePayload: string -> Option<(T, string)>): Option<seq<Record<T>>> {
    match Codec.ParseSeq(s, RecordParser(parsePayload))
    case None => None
    case Some((xs, rest)) => if rest == "" then Some(xs) else None
  }

  /** What is saved is read back: same records, same order, same timestamps. */
  lemma DecodeEncode<T(!new)>(xs: seq<Record<T>>, encodePayload: T -> string, parsePayload: string -> Option<(T, string)>)
    requires Codec.RoundTrips(encodePayload, parsePayload)
    ensures Decode(Encode(xs, encodePayload), parsePayload) == Some(xs)
  {
    RecordRoundTrips(encodePayload, parsePayload);
    Codec.ParseEncodeSeq(xs, RecordEncoder(encodePayload), RecordParser(parsePayload), "");
    assert Encode(xs, encodePayload) + "" == Encode(xs, encodePayload);
  }

  /** The save effect: the whole list is written only once loaded and when it is non-empty. */
  function Persisted<T>(storage: map<string, string>, key: string, loaded: bool,
                        xs: seq<Record<T>>, encodePayload: T -> string): (r: map<string, string>)
    ensures forall k :: k != key ==> (k in r <==> k in storage) && (k in r ==> r[k] == storage[k])
    ensures loaded && |xs| > 0 ==> key in r && r[key] == Encode(xs, encodePayload)
    ensures !(loaded && |xs| > 0) ==> r == storage
  {
    if loaded && |xs| > 0 then storage[key := Encode(xs, encodePayload)] else storage
  }

  /**
   * The load effect's outcome for the list: the parsed stored value when the key holds
   * a non-empty text that parses, otherwise the list as it was.
   */
  function Hydrated<T>(storage: map<string, string>, key: string, current: seq<Record<T>>,
                       parsePayload: string -> Option<(T, string)>): seq<Record<T>> {
    if key in storage && storage[key] != "" then
      match Decode(storage[key], parsePayload)
      case Some(xs) => xs
      case None => current
    else current
  }

  /**
   * Load after save: a non-empty list written by the save effect is what a fresh
   * store under the same key loads.
   */
  lemma HydratePersisted<T(!new)>(storage: map<string, string>, key: string, xs: seq<Record<T>>,
                                  encodePayload: T -> string, parsePayload: string -> Option<(T, string)>)
    requires Codec.RoundTrips(encodePayload, parsePayload) && |xs| > 0
    ensures Hydrated(Persisted(storage, key, true, xs, encodePayload), key, [], parsePayload) == xs
  {
    DecodeEncode(xs, encodePayload, parsePayload);
    Codec.EncodeSeqNonEmpty(xs, RecordEncoder(encodePayload));
  }

  /**
   * Removing the only record of a saved list, as written: the save effect skips the
   * empty list, so a fresh store under the same key loads the removed record again.
   */
  lemma RemovedRecordReturns<T(!new)>(storage: map<string, string>, key: string, r: Record<T>,
                                      encodePayload: T -> string, parsePayload: string -> Option<(T, string)>)
    requires Codec.RoundTrips(encodePayload, parsePayload)
    ensures var saved := Persisted(storage, key, true, [r], encodePayload);
            var after := RemoveId([r], r.id);
            after == [] && Hydrated(Persisted(saved, key, true, after, encodePayload), key, [], parsePayload) == [r]
  {
    assert RemoveId([r], r.id) == [];
    HydratePersisted(storage, key, [r], encodePayload, parsePayload);
  }

  /** The storage after a removal that keeps storage in step with the list. */
  function AfterRemove<T>(storage: map<string, string>, key: string, loaded: bool,
                          xs: seq<Record<T>>, encodePayload: T -> string): (r: map<string, string>)
    ensures forall k :: k != key ==> (k in r <==> k in storage) && (k in r ==> r[k] == storage[k])
    ensures loaded && |xs| > 0 ==> key in r && r[key] == Encode(xs, encodePayload)
    ensures loaded && xs == [] ==> key !in r
    ensures !loaded ==> r == storage
  {
    if loaded && xs == [] then storage - {key} else Persisted(storage, key, loaded, xs, encodePayload)
  }

  /** After a removal that keeps storage in step, a fresh store loads exactly the list left. */
  lemma ReloadAfterRemove<T(!new)>(storage: map<string, string>, key: string, xs: seq<Record<T>>, id: string,
                                   encodePayload: T -> string, parsePayload: string -> Option<(T, string)>)
    requires Codec.RoundTrips(encodePayload, parsePayload)
    ensures var left := RemoveId(xs, id);
            Hydrated(AfterRemove(storage, key, true, left, encodePayload), key, [], parsePayload) == left
  {
    var left := RemoveId(xs, id);
    if left == [] {
      HydrateCleared(storage, key, parsePayload);
    } else {
      HydratePersisted(storage, key, left, encodePayload, parsePayload);
    }
  }

  /** Load after clear: with the key deleted a fresh store starts empty. */
  lemma HydrateCleared<T>(storage: map<string, string>, key: string, parsePayload: string -> Option<(T, string)>)
    ensures Hydrated(storage - {key}, key, [], parsePayload) == []
  {
  }

  /** `exportHistory`'s file name: `<key>-history-<part of the ISO time before 'T'>.json`. */
  function ExportFileName(key: string, isoNow: string): string {
    key + "-history-" + BeforeT(isoNow) + ".json"
  }

  /** `s.split("T")[0]`. */
  function BeforeT(s: string): (r: string)
    ensures |r| <= |s| && r == s[..|r|]
    ensures forall i :: 0 <= i < |r| ==> r[i] != 'T'
    ensures |r| < |s| ==> s[|r|] == 'T'
  {
    if |s| == 0 || s[0] == 'T' then "" else [s[0]] + BeforeT(s[1..])
  }

  /** For an ISO time `date + "T" + time`, the file name carries exactly the date. */
  lemma ExportFileNameOfIso(key: string, date: string, time: string)
    requires forall i :: 0 <= i < |date| ==> date[i] != 'T'
    ensures ExportFileName(key, date + "T" + time) == key + "-history-" + date + ".json"
  {
    BeforeTOfIso(date, time);
  }

  lemma {:induction false} BeforeTOfIso(date: string, time: string)
    requires forall i :: 0 <= i < |date| ==> date[i] != 'T'
    ensures BeforeT(date + "T" + time) == date
  {
    if |date| > 0 {
      assert (date + "T" + time)[1..] == date[1..] + "T" + time;
      BeforeTOfIso(date[1..], time);
      assert date == [date[0]] + date[1..];
    }
  }

  // ---------------------------------------------------------------------------
  // The hook's state.

  /**
   * One `usePersistentHistory(storageKey, maxItems)` instance: the in-memory list, the
   * `isLoaded` flag and the browser storage it mirrors into (a map from key to text).
   */
  class Store<T(!new)> {
    const key: string
    const maxItems: nat
    const encodePayload: T -> string
    const parsePayload: string -> Option<(T, string)>
    var items: seq<Record<T>>
    var loaded: bool
    var storage: map<string, string>

    /** The payload codec reads back what it writes. */
    ghost predicate CodecSound() {
      Codec.RoundTrips(encodePayload, parsePayload)
    }

    /** The invariant the design promises: ids unique and the cap respected. */
    ghost predicate WellFormed()
      reads this
    {
      UniqueIds(items) && |items| <= maxItems
    }

    constructor (key: string, maxItems: nat, encodePayload: T -> string,
                 parsePayload: string -> Option<(T, string)>, storage: map<string, string>)
      ensures this.key == key && this.maxItems == maxItems
      ensures this.encodePayload == encodePayload && this.parsePayload == parsePayload
      ensures items == [] && !loaded && this.storage == storage
    {
      this.key := key;
      this.maxItems := maxItems;
      this.encodePayload := encodePayload;
      this.parsePayload := parsePayload;
      this.items := [];
      this.loaded := false;
      this.storage := storage;
    }

    /** The save effect, run after every change of the list or of `loaded`. */
    method SaveEffect()
      modifies this`storage
      ensures storage == Persisted(old(storage), key, loaded, items, encodePayload)
    {
      if loaded && |items| > 0 {
        storage := storage[key := Encode(items, encodePayload)];
      }
    }

    /** The load effect on mount; a missing key or an unparsable value leaves the list as it is. */
    method Load()
      modifies this
      ensures loaded
      ensures items == Hydrated(old(storage), key, old(items), parsePayload)
      ensures storage == Persisted(old(storage), key, true, items, encodePayload)
    {
      if key in storage && storage[key] != "" {
        var parsed := Decode(storage[key], parsePayload);
        if parsed.Some? {
          items := parsed.value;
        }
      }
      loaded := true;
      SaveEffect();
    }

    /**
     * `addToHistory`: resolve the id, stamp the time, upsert, then the save effect.
     * The stored record is the new front of the list.
     */
    method Add(payload: T, suppliedId: Option<string>, now: nat)
      modifies this
      ensures items == Upsert(old(items), Record(ResolveId(suppliedId, now), now, payload), maxItems)
      ensures maxItems >= 1 ==> items[0] == Record(ResolveId(suppliedId, now), now, payload)
      ensures maxItems >= 1 && old(WellFormed()) ==> WellFormed()
      ensures loaded == old(loaded)
      ensures storage == Persisted(old(storage), key, loaded, items, encodePayload)
    {
      var item := Record(ResolveId(suppliedId, now), now, payload);
      items := Upsert(items, item, maxItems);
      if maxItems >= 1 {
        UpsertBounded(old(items), item, maxItems);
        if old(WellFormed()) {
          UpsertKeepsUnique(old(items), item, maxItems);
        }
      }
      SaveEffect();
    }

    /**
     * `removeFromHistory` as written: drop the records with `id`, then the save effect,
     * which writes nothing for an empty list, so removing the last record leaves it stored.
     */
    method RemoveAsWritten(id: string)
      modifies this
      ensures items == RemoveId(old(items), id)
      ensures old(WellFormed()) ==> WellFormed()
      ensures loaded == old(loaded)
      ensures storage == Persisted(old(storage), key, loaded, items, encodePayload)
    {
      if WellFormed() {
        RemoveKeepsUnique(items, id);
      }
      items := RemoveId(items, id);
      SaveEffect();
    }

    /**
     * `removeFromHistory` with storage kept in step: a removal that empties a loaded
     * list deletes the key, as `clearHistory` does; otherwise the save effect.
     */
    method Remove(id: string)
      modifies this
      ensures items == RemoveId(old(items), id)
      ensures old(WellFormed()) ==> WellFormed()
      ensures loaded == old(loaded)
      ensures storage == AfterRemove(old(storage), key, loaded, items, encodePayload)
    {
      RemoveAsWritten(id);
      if loaded && items == [] {
        storage := storage - {key};
      }
    }

    /** `clearHistory`: empty the list and delete the key; no empty list is written. */
    method Clear()
      modifies this
      ensures items == [] && WellFormed()
      ensures loaded == old(loaded)
      ensures storage == old(storage) - {key}
    {
      items := [];
      storage := storage - {key};
      SaveEffect();
    }

    /** `exportHistory`: the download's file name and its text. */
    method Export(isoNow: string) returns (fileName: string, content: string)
      ensures fileName == ExportFileName(key, isoNow)
      ensures content == Encode(items, encodePayload)
    {
      fileName := key + "-history-" + BeforeT(isoNow) + ".json";
      content := Encode(items, encodePayload);
    }
  }
}
