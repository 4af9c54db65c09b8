/** The ECMAScript `Map` (section 24.1 of ECMA-262, ES2021), as far as the services use it: a list of
    entries in insertion order whose removed entries stay behind as empty slots, so that an iterator is
    an index into that list and may be interleaved with updates (section 24.1.5.1). */
module EcmaMap {

  datatype Slot<+K> = Gone | Key(key: K)

  datatype Map<K(==, !new), V> = Map(slots: seq<Slot<K>>, vals: map<K, V>) {

    ghost predicate Valid() {
      && (forall k :: k in vals <==> Key(k) in slots)
      && DistinctKeys(slots)
    }

    function Set(k: K, v: V): (m: Map<K, V>)
      requires Valid()
      ensures m.Valid()
    {
      if k in vals then Map(slots, vals[k := v])
      else
        var m := Map(slots + [Key(k)], vals[k := v]);
        assert forall x :: Key(x) in m.slots <==> Key(x) in slots || x == k;
        m
    }

    function Delete(k: K): (m: Map<K, V>)
      requires Valid()
      ensures m.Valid()
    {
      EraseKeys(slots, k);
      Map(Erase(slots, k), vals - {k})
    }
  }

  ghost predicate DistinctKeys<K>(slots: seq<Slot<K>>) {
    forall i, j :: 0 <= i < j < |slots| && slots[i].Key? ==> slots[i] != slots[j]
  }

  function Empty<K(!new), V>(): (m: Map<K, V>)
    ensures m.Valid()
  {
    Map([], map[])
  }

  /** Deleting a key empties its slot; every other slot keeps its place. */
  function Erase<K(==)>(slots: seq<Slot<K>>, k: K): (r: seq<Slot<K>>)
    ensures |r| == |slots|
    ensures forall i :: 0 <= i < |r| ==> r[i] == if slots[i] == Key(k) then Gone else slots[i]
  {
    seq(|slots|, i requires 0 <= i < |slots| => if slots[i] == Key(k) then Gone else slots[i])
  }

  lemma {:induction false} EraseKeys<K(!new)>(slots: seq<Slot<K>>, k: K)
    requires DistinctKeys(slots)
    ensures DistinctKeys(Erase(slots, k))
    ensures forall x :: Key(x) in Erase(slots, k) <==> x != k && Key(x) in slots
  {
    var r := Erase(slots, k);
    forall x | x != k && Key(x) in slots
      ensures Key(x) in r
    {
      var i :| 0 <= i < |slots| && slots[i] == Key(x);
      assert r[i] == Key(x);
    }
  }

  /** Where an iterator standing at `pos` finds its next entry; `|slots|` when it is exhausted. */
  function Seek<K>(slots: seq<Slot<K>>, pos: nat): (p: nat)
    requires pos <= |slots|
    ensures pos <= p <= |slots|
    ensures p < |slots| ==> slots[p].Key?
    ensures forall i :: pos <= i < p ==> slots[i] == Gone
    decreases |slots| - pos
  {
    if pos == |slots| || slots[pos].Key? then pos else Seek(slots, pos + 1)
  }

  ghost predicate Precedes<K(!new)>(slots: seq<Slot<K>>, x: K, y: K) {
    exists i, j :: 0 <= i < j < |slots| && slots[i] == Key(x) && slots[j] == Key(y)
  }

  /** The keys come in the order of their entries. */
  ghost predicate InOrder<K(!new)>(slots: seq<Slot<K>>, keys: seq<K>) {
    && (forall k :: k in keys ==> Key(k) in slots)
    && forall i, j :: 0 <= i < j < |keys| ==> Precedes(slots, keys[i], keys[j])
  }

  lemma {:induction false} PrecedesLater<K(!new)>(slots: seq<Slot<K>>, x: K, y: K)
    requires slots != [] && Key(x) in slots[..|slots| - 1]
    requires slots[|slots| - 1] == Key(y) || Precedes(slots[..|slots| - 1], x, y)
    ensures Precedes(slots, x, y)
  {
    var front := slots[..|slots| - 1];
    if Precedes(front, x, y) {
      var i, j :| 0 <= i < j < |front| && front[i] == Key(x) && front[j] == Key(y);
      assert slots[i] == Key(x) && slots[j] == Key(y);
    } else {
      var i :| 0 <= i < |front| && front[i] == Key(x);
      assert slots[i] == Key(x);
    }
  }

  /** Keys of the entries before the last, in order, and then possibly the last entry's. */
  lemma {:induction false} InOrderSnoc<K(!new)>(slots: seq<Slot<K>>, keys: seq<K>, more: seq<K>)
    requires slots != [] && InOrder(slots[..|slots| - 1], keys)
    requires more == [] || (|more| == 1 && slots[|slots| - 1] == Key(more[0]))
    ensures InOrder(slots, keys + more)
  {
    var front, all := slots[..|slots| - 1], keys + more;
    forall i, j | 0 <= i < j < |all| ensures Precedes(slots, all[i], all[j]) {
      assert all[i] == keys[i] && Key(keys[i]) in front;
      if j < |keys| { assert Precedes(front, keys[i], keys[j]); }
      PrecedesLater(slots, all[i], all[j]);
    }
    forall k | k in all ensures Key(k) in slots {
      if k in keys { assert Key(k) in front; }
    }
  }
}
