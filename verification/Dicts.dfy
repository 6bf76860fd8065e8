/** Python's insertion-ordered `dict`. */
module Dicts {
  import opened Options
  import opened Sequences

  /** `order` lists the keys by first insertion; `at` holds the values. */
  datatype Dict<K(!new), +V> = Dict(order: seq<K>, at: map<K, V>) {

    ghost predicate Valid() {
      && NoDuplicates(order)
      && (forall k :: k in order <==> k in at)
    }

    /** `d.get(k)` */
    function Get(k: K): Option<V> {
      if k in at then Some(at[k]) else None
    }
  }

  /** One assignment `d[key] = value`. */
  datatype Pair<+K, +V> = Pair(key: K, value: V)

  function Empty<K(!new), V>(): Dict<K, V> {
    Dict([], map[])
  }

  /** `d[k] = v`: an existing key keeps its position, a new one goes to the end. */
  function Put<K(==, !new), V>(d: Dict<K, V>, k: K, v: V): Dict<K, V> {
    Dict(if k in d.at then d.order else d.order + [k], d.at[k := v])
  }

  /** `d.pop(k, None)` and `del d[k]` as seen by the dictionary. */
  function Pop<K(==, !new), V>(d: Dict<K, V>, k: K): Dict<K, V> {
    DropAll(d, {k})
  }

  /** The assignments of `pairs`, one after the other. */
  function PutAll<K(==, !new), V>(d: Dict<K, V>, pairs: seq<Pair<K, V>>): (r: Dict<K, V>)
    ensures |d.order| <= |r.order|
  {
    if pairs == [] then d
    else
      var last := pairs[|pairs| - 1];
      Put(PutAll(d, pairs[..|pairs| - 1]), last.key, last.value)
  }

  function DropAll<K(==, !new), V>(d: Dict<K, V>, drop: set<K>): (r: Dict<K, V>)
    ensures |r.order| <= |d.order|
  {
    WithoutShrinks(d.order, drop);
    Dict(Without(d.order, drop), d.at - drop)
  }

  lemma PutValid<K(!new), V>(d: Dict<K, V>, k: K, v: V)
    requires d.Valid()
    ensures Put(d, k, v).Valid()
  {
    if k !in d.at {
      NoDuplicatesAppend(d.order, k);
    }
  }

  lemma PutTwice<K(!new), V>(d: Dict<K, V>, k: K, v: V, w: V)
    ensures Put(Put(d, k, v), k, w) == Put(d, k, w)
  {
    assert d.at[k := v][k := w] == d.at[k := w];
  }

  lemma {:induction false} PutAllValid<K(!new), V>(d: Dict<K, V>, pairs: seq<Pair<K, V>>)
    requires d.Valid()
    ensures PutAll(d, pairs).Valid()
  {
    if pairs != [] {
      var front, last := pairs[..|pairs| - 1], pairs[|pairs| - 1];
      PutAllValid(d, front);
      PutValid(PutAll(d, front), last.key, last.value);
    }
  }

  lemma DropAllValid<K(!new), V>(d: Dict<K, V>, drop: set<K>)
    requires d.Valid()
    ensures DropAll(d, drop).Valid()
  {
    WithoutMembers(d.order, drop);
    WithoutKeepsNoDuplicates(d.order, drop);
  }

  lemma PopSize<K(!new), V>(d: Dict<K, V>, k: K)
    requires d.Valid()
    ensures |Pop(d, k).order| == if k in d.at then |d.order| - 1 else |d.order|
  {
    WithoutOne(d.order, k);
  }

  lemma {:induction false} PutAllFront<K(!new), V>(d: Dict<K, V>, head: Pair<K, V>, rest: seq<Pair<K, V>>)
    ensures PutAll(d, [head] + rest) == PutAll(Put(d, head.key, head.value), rest)
  {
    if rest == [] {
      assert PutAll(d, ([head] + rest)[..0]) == d;
    } else {
      var front, last := rest[..|rest| - 1], rest[|rest| - 1];
      assert ([head] + rest)[..|rest|] == [head] + front;
      assert ([head] + rest)[|rest|] == last;
      PutAllFront(d, head, front);
    }
  }

  lemma DropOneMore<K(!new), V>(d: Dict<K, V>, drop: set<K>, k: K)
    ensures Pop(DropAll(d, drop), k) == DropAll(d, drop + {k})
  {
    WithoutTwice(d.order, drop, {k});
  }

  lemma DropOneThenRest<K(!new), V>(d: Dict<K, V>, names: seq<K>)
    requires names != []
    ensures DropAll(Pop(d, names[0]), SetOf(names[1..])) == DropAll(d, SetOf(names))
  {
    WithoutTwice(d.order, {names[0]}, SetOf(names[1..]));
    assert names == [names[0]] + names[1..];
    assert SetOf(names) == {names[0]} + SetOf(names[1..]);
  }

  lemma DropNothing<K(!new), V>(d: Dict<K, V>, drop: set<K>)
    requires drop == {}
    ensures DropAll(d, drop) == d
  {
    WithoutNothing(d.order, drop);
    assert d.at - drop == d.at;
  }

  /** `part` is `whole` cut off after some keys. */
  ghost predicate CutOff<K(!new), V>(part: Dict<K, V>, whole: Dict<K, V>) {
    && part.order <= whole.order
    && part.at.Keys == SetOf(part.order)
    && forall k :: k in part.at ==> k in whole.at && part.at[k] == whole.at[k]
  }

  /** A loop that has copied every key has copied the whole. */
  lemma CutOffAll<K(!new), V>(part: Dict<K, V>, whole: Dict<K, V>)
    requires CutOff(part, whole) && whole.Valid() && |part.order| == |whole.order|
    ensures part == whole
  {
    assert part.order == whole.order;
    assert part.at.Keys == whole.at.Keys;
  }

  lemma CutOffMore<K(!new), V>(part: Dict<K, V>, whole: Dict<K, V>)
    requires CutOff(part, whole) && whole.Valid() && |part.order| < |whole.order|
    ensures
      var k := whole.order[|part.order|];
      CutOff(Put(part, k, whole.at[k]), whole) && |Put(part, k, whole.at[k]).order| == |part.order| + 1
  {
    var n := |part.order|;
    var k := whole.order[n];
    assert k !in part.order by {
      forall i | 0 <= i < n ensures part.order[i] != k {
        assert Differ(whole.order, i, n);
      }
    }
    assert Put(part, k, whole.at[k]).order == whole.order[..n + 1];
  }

  function KeysOf<K(==, !new), V>(pairs: seq<Pair<K, V>>): seq<K> {
    seq(|pairs|, i requires 0 <= i < |pairs| => pairs[i].key)
  }

  /** A PUT body's member map lists its GUIDs in first-occurrence order. */
  lemma {:induction false} MembersInFirstOccurrenceOrder<K(!new), V>(pairs: seq<Pair<K, V>>)
    ensures PutAll(Empty(), pairs).order == FirstOccurrences(KeysOf(pairs))
  {
    if pairs != [] {
      var front := pairs[..|pairs| - 1];
      MembersInFirstOccurrenceOrder(front);
      PutAllValid(Empty(), front);
      FirstOccurrencesMembers(KeysOf(front), pairs[|pairs| - 1].key);
      assert KeysOf(pairs)[..|pairs| - 1] == KeysOf(front);
    }
  }

  /** A GUID gets the membership of its last occurrence in the request. */
  lemma {:induction false} LastMembershipWins<K(!new), V>(d: Dict<K, V>, pairs: seq<Pair<K, V>>, i: nat)
    requires i < |pairs| && pairs[i].key !in KeysOf(pairs)[i + 1..]
    ensures PutAll(d, pairs).Get(pairs[i].key) == Some(pairs[i].value)
  {
    var front, last := pairs[..|pairs| - 1], pairs[|pairs| - 1];
    if i < |front| {
      assert KeysOf(pairs)[i + 1..] == KeysOf(front)[i + 1..] + [last.key];
      LastMembershipWins(d, front, i);
    }
  }

  /** POST keeps the old GUIDs in place and lets the new ones follow, in first-occurrence order. */
  lemma {:induction false} AddedMembersFollow<K(!new), V>(d: Dict<K, V>, pairs: seq<Pair<K, V>>)
    requires d.Valid()
    ensures PutAll(d, pairs).order == d.order + Without(FirstOccurrences(KeysOf(pairs)), SetOf(d.order))
  {
    if pairs != [] {
      var front, last := pairs[..|pairs| - 1], pairs[|pairs| - 1];
      AddedMembersFollow(d, front);
      PutAllValid(d, front);
      assert KeysOf(pairs)[..|pairs| - 1] == KeysOf(front);
      var heads := FirstOccurrences(KeysOf(front));
      FirstOccurrencesMembers(KeysOf(front), last.key);
      WithoutMembers(heads, SetOf(d.order));
      assert last.key in PutAll(d, front).at <==> last.key in d.order || last.key in heads;
      if last.key !in KeysOf(front) {
        assert (heads + [last.key])[..|heads|] == heads;
      }
    }
  }

  /** POST leaves every GUID it does not name as it was. */
  lemma {:induction false} UnnamedMembersKept<K(!new), V>(d: Dict<K, V>, pairs: seq<Pair<K, V>>, g: K)
    requires g !in KeysOf(pairs)
    ensures PutAll(d, pairs).Get(g) == d.Get(g)
  {
    if pairs != [] {
      var front, last := pairs[..|pairs| - 1], pairs[|pairs| - 1];
      assert KeysOf(pairs) == KeysOf(front) + [last.key];
      UnnamedMembersKept(d, front, g);
    }
  }

  lemma {:induction false} PutAllKeys<K(!new), V>(d: Dict<K, V>, pairs: seq<Pair<K, V>>)
    ensures forall k :: k in PutAll(d, pairs).at ==> k in d.at || exists q :: q in pairs && q.key == k
  {
    if pairs != [] {
      var front := pairs[..|pairs| - 1];
      PutAllKeys(d, front);
      assert pairs == front + [pairs[|pairs| - 1]];
    }
  }

  lemma {:induction false} PutAllEmptiness<K(!new), V>(d: Dict<K, V>, pairs: seq<Pair<K, V>>)
    requires d.Valid()
    ensures PutAll(d, pairs).order == [] <==> d.order == [] && pairs == []
  {
    if pairs != [] {
      PutAllEmptiness(d, pairs[..|pairs| - 1]);
      PutAllValid(d, pairs[..|pairs| - 1]);
    }
  }
}
