/** A Python dict used as a counter (`if k in d: d[k] += 1 else: d[k] = 1`):
    the keys in insertion order, which is the order Python iterates them in,
    and the count of each key. */
module Counters {

  datatype Counter<K(==)> = Counter(keys: seq<K>, count: map<K, nat>)

  /** The dict invariant: keys are distinct, exactly the keys have a count,
      and every count is at least one. */
  ghost predicate Valid<K>(c: Counter<K>) {
    && (forall i, j | 0 <= i < j < |c.keys| :: c.keys[i] != c.keys[j])
    && (forall k | k in c.count :: k in c.keys)
    && (forall i | 0 <= i < |c.keys| :: c.keys[i] in c.count)
    && (forall k | k in c.count :: c.count[k] >= 1)
  }

  function Empty<K(==)>(): (c: Counter<K>)
    ensures Valid(c)
  {
    Counter([], map[])
  }

  /** d.get(k, 0) */
  function Get<K(==)>(c: Counter<K>, k: K): nat {
    if k in c.count then c.count[k] else 0
  }

  /** One `if k in d: d[k] += 1 else: d[k] = 1` step. */
  function Add<K(==)>(c: Counter<K>, k: K): Counter<K> {
    if k in c.count then Counter(c.keys, c.count[k := c.count[k] + 1])
    else Counter(c.keys + [k], c.count[k := 1])
  }

  /** Counting every element of ks, in order. */
  function AddAll<K(==)>(c: Counter<K>, ks: seq<K>): Counter<K>
    decreases |ks|
  {
    if |ks| == 0 then c else Add(AddAll(c, ks[..|ks| - 1]), ks[|ks| - 1])
  }

  lemma AddStep<K>(c: Counter<K>, k: K)
    requires Valid(c)
    ensures Valid(Add(c, k))
    ensures forall x :: Get(Add(c, k), x) == Get(c, x) + (if x == k then 1 else 0)
    ensures k in c.keys ==> Add(c, k).keys == c.keys
    ensures k !in c.keys ==> Add(c, k).keys == c.keys + [k]
  {
  }

  /** Counting ks adds to every entry the number of times it occurs in ks and
      keeps the table a valid dict. */
  lemma {:induction false} AddAllCount<K>(c: Counter<K>, ks: seq<K>)
    requires Valid(c)
    ensures Valid(AddAll(c, ks))
    ensures forall x :: Get(AddAll(c, ks), x) == Get(c, x) + multiset(ks)[x]
    decreases |ks|
  {
    if |ks| > 0 {
      var init, last := ks[..|ks| - 1], ks[|ks| - 1];
      assert ks == init + [last];
      AddAllCount(c, init);
      AddStep(AddAll(c, init), last);
    }
  }

  lemma AddAllSnoc<K>(c: Counter<K>, ks: seq<K>, x: K)
    ensures AddAll(c, ks + [x]) == Add(AddAll(c, ks), x)
  {
    assert (ks + [x])[..|ks|] == ks;
  }

  /** Counting xs then ys is counting xs + ys. */
  lemma {:induction false} AddAllAppend<K>(c: Counter<K>, xs: seq<K>, ys: seq<K>)
    ensures AddAll(c, xs + ys) == AddAll(AddAll(c, xs), ys)
    decreases |ys|
  {
    if |ys| == 0 {
      assert xs + ys == xs;
    } else {
      assert (xs + ys)[..|xs + ys| - 1] == xs + ys[..|ys| - 1];
      AddAllAppend(c, xs, ys[..|ys| - 1]);
    }
  }

  /** A table built from nothing by counting ks has exactly the elements of
      ks as its keys. */
  lemma CountedKeys<K>(ks: seq<K>)
    ensures Valid(AddAll(Empty(), ks))
    ensures forall x :: x in AddAll(Empty(), ks).keys <==> x in ks
  {
    AddAllCount(Empty(), ks);
    var c := AddAll(Empty(), ks);
    forall x
      ensures x in c.keys <==> x in ks
    {
      assert Get(c, x) == multiset(ks)[x];
    }
  }

  /** Index of the first occurrence of k in ks. */
  function FirstIndex<K(==)>(ks: seq<K>, k: K): (i: nat)
    requires k in ks
    ensures i < |ks| && ks[i] == k && k !in ks[..i]
  {
    if ks[0] == k then 0 else 1 + FirstIndex(ks[1..], k)
  }

  lemma {:induction false} FirstIndexSnoc<K>(ks: seq<K>, x: K, k: K)
    requires k in ks
    ensures FirstIndex(ks + [x], k) == FirstIndex(ks, k)
  {
    if ks[0] != k {
      assert (ks + [x])[1..] == ks[1..] + [x];
      FirstIndexSnoc(ks[1..], x, k);
    }
  }

  /** Insertion order: the old keys stay in front, and the keys that counting
      ks adds come after them in the order of their first occurrence in ks. */
  lemma {:induction false} AddAllOrder<K>(c: Counter<K>, ks: seq<K>)
    requires Valid(c)
    ensures Ordered(c, ks, AddAll(c, ks))
    decreases |ks|
  {
    if |ks| > 0 {
      var init, last := ks[..|ks| - 1], ks[|ks| - 1];
      assert ks == init + [last];
      AddAllOrder(c, init);
      AddAllCount(c, init);
      AddAllOrderStep(c, init, last);
    }
  }

  /** The insertion-order facts about the table e obtained from c by
      counting ks. */
  ghost predicate Ordered<K>(c: Counter<K>, ks: seq<K>, e: Counter<K>) {
    && |c.keys| <= |e.keys| && e.keys[..|c.keys|] == c.keys
    && (forall k | k in c.keys :: k in e.keys)
    && (forall k | k in ks :: k in e.keys)
    && (forall p | |c.keys| <= p < |e.keys| :: e.keys[p] in ks)
    && (forall p, q | |c.keys| <= p < q < |e.keys| :: FirstIndex(ks, e.keys[p]) < FirstIndex(ks, e.keys[q]))
  }

  lemma AddAllOrderStep<K>(c: Counter<K>, init: seq<K>, last: K)
    requires Valid(AddAll(c, init)) && Ordered(c, init, AddAll(c, init))
    ensures Ordered(c, init + [last], AddAll(c, init + [last]))
  {
    var ks := init + [last];
    var d := AddAll(c, init);
    AddAllSnoc(c, init, last);
    forall p | |c.keys| <= p < |d.keys|
      ensures FirstIndex(ks, d.keys[p]) == FirstIndex(init, d.keys[p])
    {
      FirstIndexSnoc(init, last, d.keys[p]);
    }
    if last !in d.keys {
      assert last !in init;
      assert FirstIndex(ks, last) == |init|;
    }
  }

  /** The Python scan `for k, v in d.items(): if v > best: best, arg = v, k`
      over the first n keys, starting from best = 0: the largest count, and
      the index of the FIRST key that has it (-1 when no count is positive). */
  function Top<K(==)>(c: Counter<K>, n: nat): (r: (nat, int))
    requires n <= |c.keys|
    ensures -1 <= r.1 < n
    ensures r.1 == -1 ==> r.0 == 0
    ensures r.1 >= 0 ==> r.0 == Get(c, c.keys[r.1]) > 0
    ensures forall i | 0 <= i < n :: Get(c, c.keys[i]) <= r.0
    ensures r.1 >= 0 ==> forall i | 0 <= i < r.1 :: Get(c, c.keys[i]) < r.0
  {
    if n == 0 then (0, -1)
    else
      var prev := Top(c, n - 1);
      if Get(c, c.keys[n - 1]) > prev.0 then (Get(c, c.keys[n - 1]), n - 1) else prev
  }

  /** In a valid dict the scan finds a key whenever there is one. */
  lemma TopFindsKey<K>(c: Counter<K>)
    requires Valid(c) && |c.keys| > 0
    ensures Top(c, |c.keys|).1 >= 0
  {
    assert c.keys[0] in c.count;
  }

  /** Over a table built by counting ks, the scan picks a key of ks with the
      largest count, and among the keys with that count the one whose first
      occurrence in ks comes first; an empty ks gives count 0 and no key. */
  lemma {:induction false} TopIsFirstMaximum<K>(ks: seq<K>)
    ensures var c := AddAll(Empty(), ks); var t := Top(c, |c.keys|);
      && (|ks| == 0 ==> t == (0, -1))
      && (|ks| > 0 ==> t.1 >= 0 && c.keys[t.1] in ks && t.0 == multiset(ks)[c.keys[t.1]])
      && (forall h | h in ks :: multiset(ks)[h] <= t.0)
      && (forall h | h in ks && multiset(ks)[h] == t.0 :: FirstIndex(ks, c.keys[t.1]) <= FirstIndex(ks, h))
  {
    var c := AddAll(Empty(), ks);
    CountedTable(ks);
    if |ks| == 0 {
      assert c.keys == [];
    } else {
      TopOfCounted(c, ks);
    }
  }

  /** What counting ks into an empty table yields, in the terms the scan's
      lemma below uses. */
  lemma CountedTable<K>(ks: seq<K>)
    ensures var c := AddAll(Empty(), ks);
      && Valid(c)
      && (forall x :: Get(c, x) == multiset(ks)[x])
      && (forall k :: k in c.keys <==> k in ks)
      && (forall p, q | 0 <= p < q < |c.keys| :: FirstIndex(ks, c.keys[p]) < FirstIndex(ks, c.keys[q]))
  {
    AddAllCount(Empty(), ks);
    AddAllOrder(Empty(), ks);
  }

  lemma TopOfCounted<K>(c: Counter<K>, ks: seq<K>)
    requires Valid(c) && |ks| > 0
    requires forall x :: Get(c, x) == multiset(ks)[x]
    requires forall k :: k in c.keys <==> k in ks
    requires forall p, q | 0 <= p < q < |c.keys| :: FirstIndex(ks, c.keys[p]) < FirstIndex(ks, c.keys[q])
    ensures var t := Top(c, |c.keys|);
      && t.1 >= 0 && c.keys[t.1] in ks && t.0 == multiset(ks)[c.keys[t.1]]
      && (forall h | h in ks :: multiset(ks)[h] <= t.0)
      && (forall h | h in ks && multiset(ks)[h] == t.0 :: FirstIndex(ks, c.keys[t.1]) <= FirstIndex(ks, h))
  {
    var t := Top(c, |c.keys|);
    assert ks[0] in c.keys;
    TopFindsKey(c);
    assert Get(c, c.keys[t.1]) == multiset(ks)[c.keys[t.1]];
    forall h | h in ks
      ensures multiset(ks)[h] <= t.0
      ensures multiset(ks)[h] == t.0 ==> FirstIndex(ks, c.keys[t.1]) <= FirstIndex(ks, h)
    {
      var q :| 0 <= q < |c.keys| && c.keys[q] == h;
      assert Get(c, h) == multiset(ks)[h];
      TopBeats(c, ks, q);
    }
  }

  /** The scan's pick against the key at position q of the table. */
  lemma TopBeats<K>(c: Counter<K>, ks: seq<K>, q: nat)
    requires q < |c.keys| && Top(c, |c.keys|).1 >= 0
    requires forall k :: k in c.keys ==> k in ks
    requires forall p, q | 0 <= p < q < |c.keys| :: FirstIndex(ks, c.keys[p]) < FirstIndex(ks, c.keys[q])
    ensures var t := Top(c, |c.keys|);
      && Get(c, c.keys[q]) <= t.0
      && (Get(c, c.keys[q]) == t.0 ==> FirstIndex(ks, c.keys[t.1]) <= FirstIndex(ks, c.keys[q]))
  {
    var t := Top(c, |c.keys|);
    if q > t.1 {
      assert FirstIndex(ks, c.keys[t.1]) < FirstIndex(ks, c.keys[q]);
    }
  }
}
