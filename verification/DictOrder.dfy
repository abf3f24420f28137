/** Where the entries stand in their chains, on which it depends what a lookup finds and when it resizes. */
module DictOrder {
  import opened Base
  import opened DictSpec
  import opened DictLaws
  import opened DictRuns

  /** The chain of a key. */
  function ChainOf<K, D>(ht: HashType<K>, t: Table<K, D>, key: K): Chain<K, D>
    requires t.slots != []
  {
    t.slots[ht.hash(key) % |t.slots|]
  }

  /** The tables differ in nothing but the chain of the key. */
  ghost predicate SameElsewhere<K, D>(ht: HashType<K>, t: Table<K, D>, r: Table<K, D>, key: K)
    requires t.slots != []
  {
    && |r.slots| == |t.slots|
    && forall j :: 0 <= j < |t.slots| && j != ht.hash(key) % |t.slots| ==> r.slots[j] == t.slots[j]
  }

  /** The entries of the key are those of the table that have an equal key, wherever they are. */
  lemma BindingsAreEntries<K(!new), D>(ht: HashType<K>, t: Table<K, D>, key: K, it: Item<K, D>)
    requires LawfulType(ht) && TableOk(ht, t)
    ensures multiset(Bindings(ht, t, key))[it] == if ht.equals(it.key, key) then Contents(t)[it] else 0
  {
    BindingsAreAll(ht, t, key);
    SelectCounts(Flatten(t.slots), HasKey(ht, key), it);
  }

  lemma {:induction false} SelectCounts<T>(s: seq<T>, p: T -> bool, x: T)
    ensures multiset(Select(s, p))[x] == if p(x) then multiset(s)[x] else 0
  {
    if s != [] {
      SelectCounts(s[1..], p, x);
      assert s == [s[0]] + s[1..];
    }
  }

  // ----- Put -----

  /** The new entry stands before all others of its chain, and is what the next lookup of its key finds, which then
      changes nothing. */
  lemma PutGoesFirst<K(!new), D>(ht: HashType<K>, t: Table<K, D>, key: K, data: D)
    requires LawfulType(ht)
    ensures var r, it := Put(ht, t, key, data), Item(key, ht.hash(key), data);
      && r.num == t.num + 1
      && (if t.slots == [] then r.slots == [[it]]
          else SameElsewhere(ht, t, r, key) && ChainOf(ht, r, key) == [it] + ChainOf(ht, t, key))
      && !Resizes(ht, r, key) && Lookup(ht, r, key) == Found(r, Some(it))
  {
    var r := Put(ht, t, key, data);
    assert ht.equals(key, key);
    assert t.slots == [] ==> Rehash(t.slots, 1) == [[]];
    FirstIsFound(ht, r, key);
  }

  /** An entry in front is found without any change. */
  lemma FirstIsFound<K, D>(ht: HashType<K>, t: Table<K, D>, key: K)
    requires t.num > 0 && t.slots != [] && ChainOf(ht, t, key) != [] && ht.equals(ChainOf(ht, t, key)[0].key, key)
    ensures !Resizes(ht, t, key) && Lookup(ht, t, key) == Found(t, Some(ChainOf(ht, t, key)[0]))
  {
    var c := ChainOf(ht, t, key);
    assert Position(c, HasKey(ht, key)) == 0;
    assert MoveToFront(c, 0) == c;
    assert t.slots[ht.hash(key) % |t.slots| := c] == t.slots;
  }

  // ----- Lookup -----

  /** A lookup makes the table larger exactly if the first entry of the chain is another one and not the only one, and
      the table two thirds full; then it is less than two thirds full. */
  lemma LookupGrows<K(!new), D>(ht: HashType<K>, t: Table<K, D>, key: K)
    requires LawfulType(ht) && TableOk(ht, t)
    ensures var r := Lookup(ht, t, key).table;
      && (|r.slots| > |t.slots| <==>
            && t.slots != [] && |ChainOf(ht, t, key)| >= 2 && !ht.equals(ChainOf(ht, t, key)[0].key, key)
            && 3 * t.num >= 2 * |t.slots|)
      && (|r.slots| != |t.slots| ==> |r.slots| > |t.slots| && 3 * t.num < 2 * |r.slots|)
  {
    if Resizes(ht, t, key) {
      GrownSizeLaw(t.num, |t.slots|);
      LookupSize(ht, t, key);
    }
    if t.slots != [] && t.num == 0 {
      NoChains(t.slots, ht.hash(key) % |t.slots|);
    }
  }

  lemma {:induction false} NoChains<K, D>(slots: seq<Chain<K, D>>, i: nat)
    requires Count(slots) == 0 && i < |slots|
    ensures slots[i] == []
  {
    if i > 0 { NoChains(slots[1..], i - 1); }
  }

  /** What is counted as moved by an operation are all entries of the table if it gets larger. */
  lemma MovedWhenResized<K(!new), D>(ht: HashType<K>, t: Table<K, D>, op: Op<K, D>)
    requires LawfulType(ht) && TableOk(ht, t)
    ensures Moved(ht, t, op) == if |Apply(ht, t, op).slots| > |t.slots| then |Flatten(t.slots)| else 0
  {
    FlattenSize(t.slots);
    if op.LookupOp? { LookupGrows(ht, t, op.key); }
    assert t.slots == [] ==> Flatten(t.slots) == [];
  }

  /** A lookup that finds an entry leaves it at the front of its chain, before the others in their former order, and
      everything else as it was; when it resizes, that is the table rebuilt at its new size. A further lookup of the
      key finds the entry there and changes nothing. */
  lemma HitComesFirst<K(!new), D>(ht: HashType<K>, t: Table<K, D>, key: K) returns (at: nat)
    requires LawfulType(ht) && TableOk(ht, t) && Lookup(ht, t, key).item.Some?
    ensures t.slots != []
    ensures var f := Lookup(ht, t, key);
      var r := if |f.table.slots| == |t.slots| then t else t.(slots := Rehash(t.slots, |f.table.slots|));
      && SameElsewhere(ht, r, f.table, key) && f.table.num == t.num
      && var c := ChainOf(ht, r, key);
        && at < |c| && c[at] == f.item.value && ht.equals(c[at].key, key)
        && (forall j :: 0 <= j < at ==> !ht.equals(c[j].key, key))
        && ChainOf(ht, f.table, key) == [c[at]] + c[..at] + c[at + 1..]
    ensures var f := Lookup(ht, t, key); !Resizes(ht, f.table, key) && Lookup(ht, f.table, key) == f
  {
    var f, r := Lookup(ht, t, key), Resized(ht, t, key);
    if Resizes(ht, t, key) {
      GrownSizeLaw(t.num, |t.slots|);
      LookupSize(ht, t, key);
    }
    var i := ht.hash(key) % |r.slots|;
    at := Position(r.slots[i], HasKey(ht, key));
    assert f.table.slots == r.slots[i := MoveToFront(r.slots[i], at)];
    forall j | 0 <= j < at
      ensures !ht.equals(r.slots[i][j].key, key)
    {
      assert !HasKey<K, D>(ht, key)(r.slots[i][j]);
    }
    FirstIsFound(ht, f.table, key);
  }

  /** A lookup that finds nothing leaves every chain as it is, in the resized table if it resizes. */
  lemma MissLeavesChains<K(!new), D>(ht: HashType<K>, t: Table<K, D>, key: K)
    requires LawfulType(ht) && TableOk(ht, t) && Lookup(ht, t, key).item.None?
    ensures var r := Lookup(ht, t, key).table;
      r == if |r.slots| == |t.slots| then t else t.(slots := Rehash(t.slots, |r.slots|))
  {
    if Resizes(ht, t, key) {
      GrownSizeLaw(t.num, |t.slots|);
      LookupSize(ht, t, key);
    }
  }

  // ----- Deletions -----

  /** An entry is deleted from its place in the chain, and nothing else is moved. */
  lemma DeletedInPlace<K, D>(ht: HashType<K>, t: Table<K, D>, key: K, p: Item<K, D> -> bool) returns (at: nat)
    requires Delete(ht, t, key, p).hit
    ensures t.slots != []
    ensures var r, c := Delete(ht, t, key, p).table, ChainOf(ht, t, key);
      && SameElsewhere(ht, t, r, key) && r.num == t.num - 1
      && at < |c| && p(c[at]) && (forall j :: 0 <= j < at ==> !p(c[j]))
      && ChainOf(ht, r, key) == c[..at] + c[at + 1..]
  {
    at := Position(ChainOf(ht, t, key), p);
  }

  /** dict_del takes out the entry of the key that comes first. */
  lemma DelTakesFirst<K(!new), D>(ht: HashType<K>, t: Table<K, D>, key: K)
    requires LawfulType(ht) && TableOk(ht, t)
    ensures var r, bound := Apply(ht, t, DelOp(key)), Bindings(ht, t, key);
      if bound == [] then r == t else r.num == t.num - 1 && Bindings(ht, r, key) == bound[1..]
  {
    var bound := Bindings(ht, t, key);
    BindingsHaveKey(ht, t, key);
    DeleteLaw(ht, t, key, HasKey(ht, key));
    var d := Delete(ht, t, key, HasKey(ht, key));
    assert d.hit ==> d.table.num == t.num - 1;
    assert bound != [] ==> Position(bound, HasKey(ht, key)) == 0 && ht.equals(key, key);
    hide Bindings, TableOk, Delete, Contents, LawfulType;
  }

  /** dict_del2 takes out the first entry of the key with these data. */
  lemma Del2TakesMatch<K(!new), D>(ht: HashType<K>, t: Table<K, D>, key: K, data: D) returns (at: nat)
    requires LawfulType(ht) && TableOk(ht, t)
    ensures var r, bound := Apply(ht, t, Del2Op(key, data)), Bindings(ht, t, key);
      if forall j :: 0 <= j < |bound| ==> bound[j].data != data then r == t
      else
        && r.num == t.num - 1 && at < |bound| && bound[at].data == data
        && (forall j :: 0 <= j < at ==> bound[j].data != data)
        && Bindings(ht, r, key) == bound[..at] + bound[at + 1..]
  {
    var bound, p := Bindings(ht, t, key), HasBinding(ht, key, data);
    at := Position(bound, p);
    BindingsHaveKey(ht, t, key);
    MatchAt(ht, bound, key, data);
    DeleteCounts(ht, t, key, p);
    assert Apply(ht, t, Del2Op(key, data)) == Delete(ht, t, key, p).table;
    assert ht.equals(key, key);
    MatchHasKey<K, D>(ht, key, data);
    assert at < |bound| ==> Without(bound, at) == bound[..at] + bound[at + 1..];
    assert at < |bound| ==> bound[at].data == data;
    hide *;
    DeleteLaw(ht, t, key, p);
  }

  lemma MatchHasKey<K, D>(ht: HashType<K>, key: K, data: D)
    ensures forall it: Item<K, D> :: HasBinding<K, D>(ht, key, data)(it) ==> ht.equals(it.key, key)
  {
  }

  lemma DeleteCounts<K, D>(ht: HashType<K>, t: Table<K, D>, key: K, p: Item<K, D> -> bool)
    ensures Delete(ht, t, key, p).hit ==> Delete(ht, t, key, p).table.num == t.num - 1
  {
  }

  lemma MatchAt<K, D>(ht: HashType<K>, bound: Chain<K, D>, key: K, data: D)
    requires forall it :: it in bound ==> ht.equals(it.key, key)
    ensures var at := Position(bound, HasBinding(ht, key, data));
      && (at < |bound| ==> bound[at].data == data)
      && (forall j :: 0 <= j < at ==> bound[j].data != data)
  {
    var at := Position(bound, HasBinding(ht, key, data));
    forall j | 0 <= j < at
      ensures bound[j].data != data
    {
      assert !HasBinding<K, D>(ht, key, data)(bound[j]) && bound[j] in bound;
    }
  }

  // ----- Sizes -----

  /** The new size is 15 or, from 15 on, twice the size and one more, doubled again in the same way as often as the
      entries call for and no oftener. */
  lemma {:induction false} GrownSizeIsLeast(num: nat, size: nat) returns (k: nat)
    requires 3 * num >= 2 * size
    ensures var first := if size < 15 then 15 else 2 * size + 1;
      && GrownSize(num, size) + 1 == (first + 1) * Pow2(k)
      && 3 * num < 2 * GrownSize(num, size)
      && (k > 0 ==> 3 * num >= 2 * ((first + 1) * Pow2(k - 1) - 1))
    decreases 3 * num - 2 * size
  {
    var first := if size < 15 then 15 else (size + 1) * 2 - 1;
    if 3 * num < 2 * first {
      k := 0;
    } else {
      var rest := GrownSizeIsLeast(num, first);
      k := rest + 1;
      hide GrownSize;
      Doubled(first, rest);
      if rest > 0 { Doubled(first, rest - 1); }
    }
  }

  lemma Doubled(size: nat, k: nat)
    ensures (2 * size + 1 + 1) * Pow2(k) == (size + 1) * Pow2(k + 1)
  {
    var p := Pow2(k);
    assert Pow2(k + 1) == 2 * p;
    hide Pow2;
    assert (2 * size + 2) * p == (size + 1) * (2 * p);
  }
}
