/** A JavaScript `Map<string, V>` as an insertion-ordered association list.
    `Set` has the semantics of `Map.prototype.set`: overwriting a key keeps the key's
    original position, a new key is appended.  `Get` is `Map.prototype.get`, with `None`
    standing for `undefined`. */
module Tables {
  import opened Options

  type Table<V> = seq<(string, V)>

  /** The keys of a table, in iteration order (`Map.prototype.keys`). */
  function Keys<V>(t: Table<V>): seq<string>
  {
    seq(|t|, i requires 0 <= i < |t| => t[i].0)
  }

  /** No key occurs twice: the shape of every JavaScript `Map`. */
  predicate UniqueKeys<V>(t: Table<V>)
  {
    NoDup(Keys(t))
  }

  /** Every entry is stored under the name its value reports (tables built with
      `map.set(child.getName(), child)`). */
  predicate KeyedBy<V>(t: Table<V>, name: V -> string)
  {
    forall i :: 0 <= i < |t| ==> t[i].0 == name(t[i].1)
  }

  function Get<V>(t: Table<V>, k: string): (r: Option<V>)
    ensures r.Some? <==> k in Keys(t)
    ensures r.Some? ==> exists i :: 0 <= i < |t| && t[i].0 == k && t[i].1 == r.value
    ensures UniqueKeys(t) ==> forall i :: 0 <= i < |t| && t[i].0 == k ==> r == Some(t[i].1)
  {
    if |t| == 0 then None
    else if t[0].0 == k then
      assert Keys(t)[0] == k;
      assert forall i :: 0 <= i < |t| ==> Keys(t)[i] == t[i].0;
      Some(t[0].1)
    else
      var r := Get(t[1..], k);
      assert forall i :: 1 <= i < |t| ==> t[1..][i - 1] == t[i];
      assert Keys(t) == [t[0].0] + Keys(t[1..]);
      assert Keys(t[1..]) == Keys(t)[1..];
      r
  }

  function Set<V>(t: Table<V>, k: string, v: V): (r: Table<V>)
    ensures Keys(r) == if k in Keys(t) then Keys(t) else Keys(t) + [k]
    ensures forall i :: 0 <= i < |t| && t[i].0 != k ==> r[i] == t[i]
    ensures forall i :: 0 <= i < |r| ==> r[i] == (k, v) || (i < |t| && r[i] == t[i])
    ensures UniqueKeys(t) ==> UniqueKeys(r)
  {
    if k in Keys(t) then
      var i := FirstIndex(Keys(t), k);
      var r := t[i := (k, v)];
      assert Keys(r) == Keys(t);
      r
    else
      var r := t + [(k, v)];
      assert Keys(r) == Keys(t) + [k];
      r
  }

  /** `Set` below the first entry, when that entry keeps its key. */
  lemma SetTail<V>(t: Table<V>, k: string, v: V)
    requires |t| > 0 && t[0].0 != k
    ensures Set(t, k, v) == [t[0]] + Set(t[1..], k, v)
  {
    assert Keys(t) == [t[0].0] + Keys(t[1..]);
    if k in Keys(t[1..]) {
      var i := FirstIndex(Keys(t[1..]), k);
      assert FirstIndex(Keys(t), k) == 1 + i;
      assert t[1 + i := (k, v)] == [t[0]] + t[1..][i := (k, v)];
    } else {
      assert t + [(k, v)] == [t[0]] + (t[1..] + [(k, v)]);
    }
  }

  /** After `set(k, v)`, `get(k)` is `v` and every other key reads as before. */
  lemma {:induction false} GetSet<V>(t: Table<V>, k: string, v: V, k': string)
    ensures Get(Set(t, k, v), k') == if k' == k then Some(v) else Get(t, k')
  {
    if |t| > 0 {
      if t[0].0 == k {
        assert Keys(t)[0] == k;
        assert Set(t, k, v) == [(k, v)] + t[1..];
      } else {
        SetTail(t, k, v);
        GetSet(t[1..], k, v, k');
        assert ([t[0]] + Set(t[1..], k, v))[1..] == Set(t[1..], k, v);
      }
    }
  }

  /** The value of the LAST entry of `es` stored under `k`: an independent reading of
      "the later registration wins". */
  function LastWith<V>(es: Table<V>, k: string): (r: Option<V>)
    ensures r.Some? <==> k in Keys(es)
    ensures r.Some? ==> exists i :: 0 <= i < |es| && es[i].0 == k && es[i].1 == r.value
                                    && forall j :: i < j < |es| ==> es[j].0 != k
  {
    if |es| == 0 then None
    else if es[|es| - 1].0 == k then
      assert Keys(es)[|es| - 1] == k;
      Some(es[|es| - 1].1)
    else
      assert Keys(es) == Keys(es[..|es| - 1]) + [es[|es| - 1].0];
      LastWith(es[..|es| - 1], k)
  }

  /** `for (const e of es) map.set(e.key, e.value)`: the entries are applied left to
      right, so the last one is applied last. */
  function PutAll<V>(t: Table<V>, es: Table<V>): (r: Table<V>)
    ensures Keys(t) <= Keys(r)
    ensures forall k :: k in Keys(r) <==> k in Keys(t) || k in Keys(es)
    ensures forall k :: Get(r, k) == if LastWith(es, k).Some? then LastWith(es, k) else Get(t, k)
    ensures UniqueKeys(t) ==> UniqueKeys(r)
  {
    if |es| == 0 then t
    else
      var e := es[|es| - 1];
      var front := es[..|es| - 1];
      assert Keys(es) == Keys(front) + [e.0];
      var r := Set(PutAll(t, front), e.0, e.1);
      assert forall k :: Get(r, k) == if LastWith(es, k).Some? then LastWith(es, k) else Get(t, k) by {
        forall k ensures Get(r, k) == if LastWith(es, k).Some? then LastWith(es, k) else Get(t, k) {
          GetSet(PutAll(t, front), e.0, e.1, k);
        }
      }
      r
  }

  /** Looking a key up in a table keyed by `name` yields a value whose name is that key. */
  lemma GetKeyed<V>(t: Table<V>, name: V -> string, k: string)
    requires KeyedBy(t, name)
    ensures Get(t, k).Some? ==> name(Get(t, k).value) == k
  {
  }

  /** Adding entries that are keyed by `name` to a table keyed by `name` keeps it so. */
  lemma {:induction false} PutAllKeyed<V>(t: Table<V>, es: Table<V>, name: V -> string)
    requires KeyedBy(t, name) && KeyedBy(es, name)
    ensures KeyedBy(PutAll(t, es), name)
  {
    if |es| > 0 {
      var front := es[..|es| - 1];
      PutAllKeyed(t, front, name);
    }
  }

  /** Every value stored in the table satisfies `p`. */
  predicate AllValues<V>(t: Table<V>, p: V -> bool)
  {
    forall i :: 0 <= i < |t| ==> p(t[i].1)
  }

  /** Adding values that satisfy `p` to a table whose values satisfy `p` keeps it so. */
  lemma {:induction false} PutAllValues<V>(t: Table<V>, es: Table<V>, p: V -> bool)
    requires AllValues(t, p) && AllValues(es, p)
    ensures AllValues(PutAll(t, es), p)
  {
    if |es| > 0 {
      PutAllValues(t, es[..|es| - 1], p);
    }
  }

  predicate NoDup(xs: seq<string>)
  {
    forall i, j :: 0 <= i < j < |xs| ==> xs[i] != xs[j]
  }

  /** The position of the first occurrence of `x` in `xs`. */
  function FirstIndex(xs: seq<string>, x: string): (i: nat)
    requires x in xs
    ensures i < |xs| && xs[i] == x
    ensures forall j :: 0 <= j < i ==> xs[j] != x
  {
    if xs[0] == x then 0 else 1 + FirstIndex(xs[1..], x)
  }

  lemma {:induction false} FirstIndexExtend(xs: seq<string>, y: string, x: string)
    requires x in xs
    ensures FirstIndex(xs + [y], x) == FirstIndex(xs, x)
  {
    if xs[0] != x {
      assert (xs + [y])[1..] == xs[1..] + [y];
      FirstIndexExtend(xs[1..], y, x);
    }
  }

  /** `ks` lists distinct elements of `xs`, ordered by where each first occurs in `xs`. */
  predicate FirstOccurrenceOrder(ks: seq<string>, xs: seq<string>)
  {
    && NoDup(ks)
    && (forall i :: 0 <= i < |ks| ==> ks[i] in xs)
    && forall i, j :: 0 <= i < j < |ks| ==> FirstIndex(xs, ks[i]) < FirstIndex(xs, ks[j])
  }

  lemma FirstOccurrenceOrderOld(ks: seq<string>, xs: seq<string>, y: string)
    requires FirstOccurrenceOrder(ks, xs)
    ensures FirstOccurrenceOrder(ks, xs + [y])
  {
    forall x | x in xs
      ensures FirstIndex(xs + [y], x) == FirstIndex(xs, x)
    {
      FirstIndexExtend(xs, y, x);
    }
    assert forall i :: 0 <= i < |ks| ==> ks[i] in xs;
  }

  lemma FirstOccurrenceOrderNew(ks: seq<string>, xs: seq<string>, y: string)
    requires FirstOccurrenceOrder(ks, xs) && y !in xs
    ensures FirstOccurrenceOrder(ks + [y], xs + [y])
  {
    FirstOccurrenceOrderOld(ks, xs, y);
    assert FirstIndex(xs + [y], y) == |xs|;
    assert forall i :: 0 <= i < |ks| ==> FirstIndex(xs + [y], ks[i]) < |xs|;
  }

  lemma KeysOfFront<V>(es: Table<V>)
    requires |es| > 0
    ensures Keys(es) == Keys(es[..|es| - 1]) + [es[|es| - 1].0]
  {
  }

  lemma PutAllLastKey<V>(t: Table<V>, es: Table<V>)
    requires |es| > 0
    ensures var k := es[|es| - 1].0; var ks := Keys(PutAll(t, es[..|es| - 1]));
            Keys(PutAll(t, es)) == if k in ks then ks else ks + [k]
  {
  }

  /** Filling an empty map visits each key once, in the order of its FIRST insertion,
      whichever entry for that key ends up stored. */
  lemma {:induction false} PutAllOrder<V>(es: Table<V>)
    ensures FirstOccurrenceOrder(Keys(PutAll([], es)), Keys(es))
  {
    if |es| > 0 {
      var e := es[|es| - 1];
      var front := es[..|es| - 1];
      var ks' := Keys(PutAll([], front));
      PutAllOrder(front);
      PutAllLastKey([], es);
      KeysOfFront(es);
      assert e.0 in ks' <==> e.0 in Keys(front);
      if e.0 in ks' {
        FirstOccurrenceOrderOld(ks', Keys(front), e.0);
      } else {
        FirstOccurrenceOrderNew(ks', Keys(front), e.0);
      }
    }
  }

  /** A duplicate-free sequence has as many elements as its set. */
  lemma {:induction false} DistinctCount(xs: seq<string>)
    requires NoDup(xs)
    ensures |set x | x in xs| == |xs|
  {
    if |xs| > 0 {
      DistinctCount(xs[1..]);
      assert (set x | x in xs) == {xs[0]} + (set x | x in xs[1..]);
      assert xs[0] !in xs[1..];
    }
  }

  /** Filling an empty map leaves one entry per distinct key. */
  lemma PutAllCount<V>(es: Table<V>)
    ensures |PutAll([], es)| == |set k | k in Keys(es)|
  {
    var ks := Keys(PutAll([], es));
    PutAllOrder(es);
    DistinctCount(ks);
    assert forall k :: k in ks <==> k in Keys(es);
    assert (set k | k in ks) == (set k | k in Keys(es));
  }

  /** A table with unique keys in which only `n` is found, with value `v`, is `[(n, v)]`. */
  lemma SingleKeyTable<V>(t: Table<V>, n: string, v: V)
    requires UniqueKeys(t)
    requires forall k :: Get(t, k).Some? <==> k == n
    requires Get(t, n) == Some(v)
    ensures t == [(n, v)]
  {
    forall i | 0 <= i < |t|
      ensures Keys(t)[i] == n
    {
      assert Get(t, Keys(t)[i]).Some?;
    }
    OneDistinctKey(Keys(t), n);
    assert n in Keys(t);
    assert |t| == 1 && t[0].0 == n;
  }

  /** A duplicate-free sequence holding only one value has at most one element. */
  lemma OneDistinctKey(ks: seq<string>, n: string)
    requires NoDup(ks)
    requires forall i :: 0 <= i < |ks| ==> ks[i] == n
    ensures |ks| <= 1
  {
    if |ks| >= 2 {
      FirstTwoDiffer(ks);
      assert false;
    }
  }

  lemma FirstTwoDiffer(ks: seq<string>)
    requires NoDup(ks) && |ks| >= 2
    ensures ks[0] != ks[1]
  {
  }
}
