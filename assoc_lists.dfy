/**
 * Insertion-ordered maps as association lists, the way Kotlin's `associate`
 * builds them: into a `LinkedHashMap`, putting each pair in turn. A put on a
 * key already present replaces its value and keeps its position; a put on a new
 * key appends it.
 */
module AssocLists {
  import opened Wrappers
  import Strings

  type AssocList<K, V> = seq<(K, V)>

  function Keys<K, V>(l: AssocList<K, V>): (ks: seq<K>)
    ensures |ks| == |l|
    ensures forall i :: 0 <= i < |l| ==> ks[i] == l[i].0
  {
    seq(|l|, i requires 0 <= i < |l| => l[i].0)
  }

  ghost predicate UniqueKeys<K, V>(l: AssocList<K, V>) {
    forall i, j :: 0 <= i < j < |l| ==> l[i].0 != l[j].0
  }

  /** `m[k]`: the value stored under `k`, if any. */
  function Lookup<K(==), V>(l: AssocList<K, V>, k: K): (r: Option<V>)
    ensures r.None? <==> k !in Keys(l)
  {
    if l == [] then None else if l[0].0 == k then Some(l[0].1) else Lookup(l[1..], k)
  }

  /** A lookup finds the value of the first entry carrying the key. */
  lemma {:induction false} LookupFirst<K, V>(l: AssocList<K, V>, k: K)
    ensures var i := Strings.FirstIndex(Keys(l), k); Lookup(l, k) == if i < |l| then Some(l[i].1) else None
    decreases |l|
  {
    if l != [] && l[0].0 != k {
      LookupFirst(l[1..], k);
      assert Keys(l) == [l[0].0] + Keys(l[1..]);
    }
  }

  /** In a list with unique keys, each entry is what its key looks up. */
  lemma {:induction false} LookupEntry<K, V>(l: AssocList<K, V>, i: nat)
    requires UniqueKeys(l) && i < |l|
    ensures Lookup(l, l[i].0) == Some(l[i].1)
    decreases i
  {
    if i > 0 {
      var rest := l[1..];
      assert l[0].0 != l[i].0;
      assert rest[i - 1] == l[i];
      assert UniqueKeys(rest) by {
        forall j, k | 0 <= j < k < |rest| ensures rest[j].0 != rest[k].0 {
          assert rest[j] == l[j + 1] && rest[k] == l[k + 1];
        }
      }
      LookupEntry(rest, i - 1);
    }
  }

  /** `LinkedHashMap.put`: replace the value of a present key in place, or append a new key. */
  function Put<K(==), V>(l: AssocList<K, V>, k: K, v: V): (r: AssocList<K, V>)
    ensures Keys(r) == if k in Keys(l) then Keys(l) else Keys(l) + [k]
  {
    if k in Keys(l) then
      var r := seq(|l|, i requires 0 <= i < |l| => if l[i].0 == k then (k, v) else l[i]);
      assert Keys(r) == Keys(l);
      r
    else
      var r := l + [(k, v)];
      assert Keys(r) == Keys(l) + [k];
      r
  }

  /** After a put, the key maps to the new value and every other key to its old one. */
  lemma PutLookup<K, V>(l: AssocList<K, V>, k: K, v: V, k': K)
    ensures Lookup(Put(l, k, v), k') == if k' == k then Some(v) else Lookup(l, k')
  {
    var r := Put(l, k, v);
    LookupFirst(r, k');
    LookupFirst(l, k');
    if k !in Keys(l) {
      FirstIndexAppend(Keys(l), k);
    }
  }

  /** A put keeps the keys unique and only ever stores the new pair or an old one. */
  lemma PutEntries<K, V>(l: AssocList<K, V>, k: K, v: V)
    ensures UniqueKeys(l) ==> UniqueKeys(Put(l, k, v))
    ensures forall i :: 0 <= i < |Put(l, k, v)| ==> Put(l, k, v)[i] in l || Put(l, k, v)[i] == (k, v)
  {
    var r := Put(l, k, v);
    if k !in Keys(l) {
      assert forall i :: 0 <= i < |l| ==> r[i] == l[i];
    }
  }

  lemma FirstIndexAppend<K>(ks: seq<K>, k: K)
    requires k !in ks
    ensures Strings.FirstIndex(ks + [k], k) == |ks|
    ensures forall k' :: k' in ks ==> Strings.FirstIndex(ks + [k], k') == Strings.FirstIndex(ks, k')
  {
    assert (ks + [k])[|ks|] == k;
    forall k' | k' in ks
      ensures Strings.FirstIndex(ks + [k], k') == Strings.FirstIndex(ks, k')
    {
      FirstIndexExtend(ks, k, k');
    }
  }

  /** `pairs.associate { it }`: every pair put in order into an empty map. */
  function Associate<K(==), V>(ps: seq<(K, V)>): (r: AssocList<K, V>)
    ensures UniqueKeys(r)
    ensures forall i :: 0 <= i < |r| ==> r[i] in ps
    decreases |ps|
  {
    if ps == [] then []
    else
      var init := ps[..|ps| - 1];
      var (k, v) := ps[|ps| - 1];
      PutEntries(Associate(init), k, v);
      assert forall i :: 0 <= i < |init| ==> init[i] in ps;
      Put(Associate(init), k, v)
  }

  /** A later pair overwrites an earlier one: a key takes the value of its last pair. */
  lemma {:induction false} AssociateLastWins<K, V>(ps: seq<(K, V)>, j: nat)
    requires j < |ps|
    requires forall j' :: j < j' < |ps| ==> ps[j'].0 != ps[j].0
    ensures Lookup(Associate(ps), ps[j].0) == Some(ps[j].1)
    decreases |ps|
  {
    var init := ps[..|ps| - 1];
    PutLookup(Associate(init), ps[|ps| - 1].0, ps[|ps| - 1].1, ps[j].0);
    if j < |ps| - 1 {
      assert init[j] == ps[j];
      AssociateLastWins(init, j);
    }
  }

  /** A key that no pair carries is absent from the result. */
  lemma {:induction false} AssociateAbsent<K, V>(ps: seq<(K, V)>, k: K)
    requires forall j :: 0 <= j < |ps| ==> ps[j].0 != k
    ensures Lookup(Associate(ps), k) == None
    decreases |ps|
  {
    if ps != [] {
      PutLookup(Associate(ps[..|ps| - 1]), ps[|ps| - 1].0, ps[|ps| - 1].1, k);
      AssociateAbsent(ps[..|ps| - 1], k);
    }
  }

  /** `xs` lists its elements in the order of their first occurrence in `ks`. */
  ghost predicate InFirstOccurrenceOrder<K>(xs: seq<K>, ks: seq<K>) {
    forall i, j :: 0 <= i < j < |xs| ==> Strings.FirstIndex(ks, xs[i]) < Strings.FirstIndex(ks, xs[j])
  }

  lemma FirstIndexExtend<K>(ks: seq<K>, k: K, x: K)
    requires x in ks
    ensures Strings.FirstIndex(ks + [k], x) == Strings.FirstIndex(ks, x)
  {
    var i := Strings.FirstIndex(ks, x);
    assert (ks + [k])[i] == x;
    assert forall j :: 0 <= j < |ks| ==> (ks + [k])[j] == ks[j];
  }

  lemma KeyOrderStep<K>(xs: seq<K>, ks: seq<K>, k: K, ys: seq<K>)
    requires forall x :: x in xs <==> x in ks
    requires InFirstOccurrenceOrder(xs, ks)
    requires ys == if k in xs then xs else xs + [k]
    ensures forall x :: x in ys <==> x in ks + [k]
    ensures InFirstOccurrenceOrder(ys, ks + [k])
  {
    var ks' := ks + [k];
    forall x | x in xs ensures Strings.FirstIndex(ks', x) == Strings.FirstIndex(ks, x) {
      FirstIndexExtend(ks, k, x);
    }
    if k !in xs {
      FirstIndexAppend(ks, k);
      forall i, j | 0 <= i < j < |ys|
        ensures Strings.FirstIndex(ks', ys[i]) < Strings.FirstIndex(ks', ys[j])
      {
        assert ys[i] == xs[i] && ys[i] in xs;
        if j < |xs| {
          assert ys[j] == xs[j] && ys[j] in xs;
        }
      }
    }
  }

  /** The last pair is put into the result of the others, and its key ends the keys. */
  lemma AssociateSnoc<K, V>(ps: seq<(K, V)>)
    requires ps != []
    ensures Keys(ps) == Keys(ps[..|ps| - 1]) + [ps[|ps| - 1].0]
    ensures Keys(Associate(ps)) == (if ps[|ps| - 1].0 in Keys(Associate(ps[..|ps| - 1]))
      then Keys(Associate(ps[..|ps| - 1])) else Keys(Associate(ps[..|ps| - 1])) + [ps[|ps| - 1].0])
  {
    var init, last := ps[..|ps| - 1], ps[|ps| - 1];
    assert Associate(ps) == Put(Associate(init), last.0, last.1);
    KeysSnoc(init, last);
    assert init + [last] == ps;
  }

  lemma KeysSnoc<K, V>(l: AssocList<K, V>, e: (K, V))
    ensures Keys(l + [e]) == Keys(l) + [e.0]
  {
    assert forall i :: 0 <= i < |l| ==> (l + [e])[i] == l[i];
  }

  /**
   * The keys of the result are those of the pairs, each once, in the order
   * of their first occurrence among the pairs.
   */
  lemma {:induction false} AssociateKeyOrder<K, V>(ps: seq<(K, V)>)
    ensures forall k :: k in Keys(Associate(ps)) <==> k in Keys(ps)
    ensures InFirstOccurrenceOrder(Keys(Associate(ps)), Keys(ps))
    decreases |ps|
  {
    if ps != [] {
      var init := ps[..|ps| - 1];
      var (k, v) := ps[|ps| - 1];
      AssociateKeyOrder(init);
      AssociateSnoc(ps);
      KeyOrderStep(Keys(Associate(init)), Keys(init), k, Keys(Associate(ps)));
    }
  }

  /** Pairs whose keys are already distinct come out unchanged. */
  lemma {:induction false} AssociateDistinct<K, V>(ps: seq<(K, V)>)
    requires UniqueKeys(ps)
    ensures Associate(ps) == ps
    decreases |ps|
  {
    if ps != [] {
      var init := ps[..|ps| - 1];
      var (k, v) := ps[|ps| - 1];
      assert UniqueKeys(init) by {
        forall i, j | 0 <= i < j < |init| ensures init[i].0 != init[j].0 {
          assert init[i] == ps[i] && init[j] == ps[j];
        }
      }
      AssociateDistinct(init);
      assert k !in Keys(init) by {
        forall i | 0 <= i < |init| ensures Keys(init)[i] != k {
          assert init[i] == ps[i];
        }
      }
      assert Put(init, k, v) == init + [(k, v)];
      assert init + [(k, v)] == ps;
    }
  }
}
