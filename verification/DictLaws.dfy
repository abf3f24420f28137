/** What the hash table means to its users, although lookups rebuild and reorder it. */
module DictLaws {
  import opened Base
  import opened DictSpec

  // ----- Selecting items -----

  function Select<T>(s: seq<T>, p: T -> bool): seq<T> {
    if s == [] then [] else (if p(s[0]) then [s[0]] else []) + Select(s[1..], p)
  }

  lemma {:induction false} SelectAppend<T>(s: seq<T>, t: seq<T>, p: T -> bool)
    ensures Select(s + t, p) == Select(s, p) + Select(t, p)
  {
    if s == [] {
      assert s + t == t;
    } else {
      assert (s + t)[0] == s[0] && (s + t)[1..] == s[1..] + t;
      SelectAppend(s[1..], t, p);
      Assoc(if p(s[0]) then [s[0]] else [], Select(s[1..], p), Select(t, p));
    }
  }

  lemma {:induction false} SelectNone<T>(s: seq<T>, p: T -> bool)
    requires forall i :: 0 <= i < |s| ==> !p(s[i])
    ensures Select(s, p) == []
  {
    if s != [] { SelectNone(s[1..], p); }
  }

  lemma {:induction false} SelectSound<T>(s: seq<T>, p: T -> bool)
    ensures forall x :: x in Select(s, p) ==> x in s && p(x)
  {
    if s != [] { SelectSound(s[1..], p); }
  }

  lemma {:induction false} SelectReverse<T>(s: seq<T>, p: T -> bool)
    ensures Select(Reverse(s), p) == Reverse(Select(s, p))
  {
    if s != [] {
      SelectReverse(s[1..], p);
      SelectAppend(Reverse(s[1..]), [s[0]], p);
      assert Select([s[0]], p) == if p(s[0]) then [s[0]] else [];
      if p(s[0]) {
        assert Select(s, p)[1..] == Select(s[1..], p);
      } else {
        assert Select(s, p) == Select(s[1..], p);
        assert Reverse(Select(s[1..], p)) + [] == Reverse(Select(s[1..], p));
      }
    }
  }

  /** Selecting first by a weaker property changes nothing. */
  lemma {:induction false} SelectWithin<T>(s: seq<T>, weak: T -> bool, p: T -> bool)
    requires forall i :: 0 <= i < |s| && p(s[i]) ==> weak(s[i])
    ensures Select(Select(s, weak), p) == Select(s, p)
  {
    if s != [] {
      SelectWithin(s[1..], weak, p);
      if weak(s[0]) {
        assert Select(s, weak)[1..] == Select(s[1..], weak);
      } else {
        assert Select(s, weak) == Select(s[1..], weak);
      }
    }
  }

  lemma {:induction false} ReverseMembers<T>(s: seq<T>)
    ensures forall x :: x in Reverse(s) <==> x in s
    ensures multiset(Reverse(s)) == multiset(s)
  {
    if s != [] {
      ReverseMembers(s[1..]);
      assert s == [s[0]] + s[1..];
    }
  }

  lemma {:induction false} ReverseAppend<T>(s: seq<T>, t: seq<T>)
    ensures Reverse(s + t) == Reverse(t) + Reverse(s)
  {
    if s == [] {
      assert s + t == t;
      assert Reverse(t) + [] == Reverse(t);
    } else {
      assert (s + t)[1..] == s[1..] + t;
      ReverseAppend(s[1..], t);
      Assoc(Reverse(t), Reverse(s[1..]), [s[0]]);
    }
  }

  lemma {:induction false} ReverseTwice<T>(s: seq<T>)
    ensures Reverse(Reverse(s)) == s
  {
    if s != [] {
      ReverseTwice(s[1..]);
      ReverseAppend(Reverse(s[1..]), [s[0]]);
      assert Reverse([s[0]]) == [s[0]];
    }
  }

  // ----- The whole table -----

  function Flatten<K, D>(slots: seq<Chain<K, D>>): Chain<K, D> {
    if slots == [] then [] else slots[0] + Flatten(slots[1..])
  }

  /** The entries for a key, front of the chain first. */
  function Bindings<K, D>(ht: HashType<K>, t: Table<K, D>, key: K): Chain<K, D> {
    if t.slots == [] then [] else Select(t.slots[ht.hash(key) % |t.slots|], HasKey(ht, key))
  }

  ghost function Contents<K, D>(t: Table<K, D>): multiset<Item<K, D>> {
    multiset(Flatten(t.slots))
  }

  lemma {:induction false} FlattenSize<K, D>(slots: seq<Chain<K, D>>)
    ensures |Flatten(slots)| == Count(slots)
  {
    if slots != [] { FlattenSize(slots[1..]); }
  }

  lemma {:induction false} FlattenFrom<K, D>(slots: seq<Chain<K, D>>, x: Item<K, D>) returns (i: nat)
    requires x in Flatten(slots)
    ensures i < |slots| && x in slots[i]
  {
    if x in slots[0] {
      i := 0;
    } else {
      i := FlattenFrom(slots[1..], x);
      i := i + 1;
    }
  }

  lemma AddToBoth<T>(a: multiset<T>, m: multiset<T>, n: multiset<T>, p: multiset<T>, q: multiset<T>)
    requires m + n == p + q
    ensures (a + m) + n == (a + p) + q
  {
    assert (a + m) + n == a + (m + n) && (a + p) + q == a + (p + q);
  }

  lemma Cancel<T>(m: multiset<T>, n: multiset<T>, p: multiset<T>, q: multiset<T>)
    requires m + n == p + (q + n)
    ensures m == p + q
  {
    assert m == (m + n) - n;
    assert p + q == (p + (q + n)) - n;
  }

  /** Exchanging one chain exchanges its items. */
  lemma {:induction false} FlattenUpdate<K, D>(slots: seq<Chain<K, D>>, i: nat, c: Chain<K, D>)
    requires i < |slots|
    ensures multiset(Flatten(slots[i := c])) + multiset(slots[i]) == multiset(Flatten(slots)) + multiset(c)
    ensures Count(slots[i := c]) + |slots[i]| == Count(slots) + |c|
  {
    var updated := slots[i := c];
    if i == 0 {
      assert updated[1..] == slots[1..];
    } else {
      assert updated[1..] == slots[1..][i - 1 := c] && updated[0] == slots[0];
      FlattenUpdate(slots[1..], i - 1, c);
      assert multiset(Flatten(updated)) == multiset(slots[0]) + multiset(Flatten(updated[1..]));
      assert multiset(Flatten(slots)) == multiset(slots[0]) + multiset(Flatten(slots[1..]));
      AddToBoth(multiset(slots[0]), multiset(Flatten(updated[1..])), multiset(slots[i]),
        multiset(Flatten(slots[1..])), multiset(c));
    }
  }

  /** One more item on a chain. */
  lemma FlattenPush<K, D>(slots: seq<Chain<K, D>>, i: nat, x: Item<K, D>)
    requires i < |slots|
    ensures multiset(Flatten(slots[i := [x] + slots[i]])) == multiset(Flatten(slots)) + multiset{x}
    ensures Count(slots[i := [x] + slots[i]]) == Count(slots) + 1
  {
    FlattenUpdate(slots, i, [x] + slots[i]);
    assert multiset([x] + slots[i]) == multiset{x} + multiset(slots[i]);
    Cancel(multiset(Flatten(slots[i := [x] + slots[i]])), multiset(slots[i]), multiset(Flatten(slots)), multiset{x});
  }

  lemma {:induction false} EmptyIsEmpty<K, D>(size: nat)
    ensures Flatten(Empty<K, D>(size)) == [] && Count(Empty<K, D>(size)) == 0
  {
    if size > 0 { EmptyIsEmpty<K, D>(size - 1); }
  }

  /** All entries for a key are in one slot. */
  lemma {:induction false} OnlyOneSlot<K, D>(slots: seq<Chain<K, D>>, i: nat, p: Item<K, D> -> bool)
    requires i < |slots|
    requires forall k, j :: 0 <= k < |slots| && k != i && 0 <= j < |slots[k]| ==> !p(slots[k][j])
    ensures Select(Flatten(slots), p) == Select(slots[i], p)
  {
    SelectAppend(slots[0], Flatten(slots[1..]), p);
    if i == 0 {
      NoSlots(slots[1..], p);
    } else {
      SelectNone(slots[0], p);
      OnlyOneSlot(slots[1..], i - 1, p);
    }
  }

  lemma {:induction false} NoSlots<K, D>(slots: seq<Chain<K, D>>, p: Item<K, D> -> bool)
    requires forall k, j :: 0 <= k < |slots| && 0 <= j < |slots[k]| ==> !p(slots[k][j])
    ensures Select(Flatten(slots), p) == []
  {
    if slots != [] {
      SelectAppend(slots[0], Flatten(slots[1..]), p);
      SelectNone(slots[0], p);
      NoSlots(slots[1..], p);
    }
  }

  lemma BindingsAreAll<K(!new), D>(ht: HashType<K>, t: Table<K, D>, key: K)
    requires LawfulType(ht) && TableOk(ht, t)
    ensures Bindings(ht, t, key) == Select(Flatten(t.slots), HasKey(ht, key))
  {
    if t.slots != [] {
      OnlyOneSlot(t.slots, ht.hash(key) % |t.slots|, HasKey(ht, key));
    }
  }

  // ----- Resizing -----

  function InSlot<K, D>(size: nat, j: nat): Item<K, D> -> bool
    requires size > 0
  {
    (it: Item<K, D>) => it.hash % size == j
  }

  lemma {:induction false} PushAllAt<K, D>(into: seq<Chain<K, D>>, chain: Chain<K, D>, j: nat)
    requires j < |into|
    ensures PushAll(into, chain)[j] == Reverse(Select(chain, InSlot(|into|, j))) + into[j]
    decreases |chain|
  {
    if chain != [] {
      var i := chain[0].hash % |into|;
      PushAllAt(into[i := [chain[0]] + into[i]], chain[1..], j);
      var rest := Reverse(Select(chain[1..], InSlot(|into|, j)));
      if i == j {
        assert Select(chain, InSlot(|into|, j))[1..] == Select(chain[1..], InSlot(|into|, j));
        Assoc(rest, [chain[0]], into[j]);
      } else {
        assert Select(chain, InSlot(|into|, j)) == Select(chain[1..], InSlot(|into|, j));
      }
    } else {
      assert Reverse(Select(chain, InSlot(|into|, j))) == [];
    }
  }

  lemma {:induction false} PushSlotsAt<K, D>(into: seq<Chain<K, D>>, slots: seq<Chain<K, D>>, j: nat)
    requires j < |into|
    ensures PushSlots(into, slots)[j] == Reverse(Select(Flatten(slots), InSlot(|into|, j))) + into[j]
    decreases |slots|
  {
    var p := InSlot<K, D>(|into|, j);
    if slots == [] {
      assert Reverse(Select(Flatten(slots), p)) == [];
    } else {
      PushAllAt(into, slots[0], j);
      PushSlotsAt(PushAll(into, slots[0]), slots[1..], j);
      SelectAppend(slots[0], Flatten(slots[1..]), p);
      ReverseAppend(Select(slots[0], p), Select(Flatten(slots[1..]), p));
      Assoc(Reverse(Select(Flatten(slots[1..]), p)), Reverse(Select(slots[0], p)), into[j]);
    }
  }

  /** dict_expand: each new chain holds, last first, the entries of the whole table whose hash belongs there. */
  lemma RehashAt<K, D>(slots: seq<Chain<K, D>>, size: nat, j: nat)
    requires j < size
    ensures Rehash(slots, size)[j] == Reverse(Select(Flatten(slots), InSlot(size, j)))
  {
    PushSlotsAt(Empty<K, D>(size), slots, j);
  }

  lemma {:induction false} PushAllContents<K, D>(into: seq<Chain<K, D>>, chain: Chain<K, D>)
    requires |into| > 0
    ensures multiset(Flatten(PushAll(into, chain))) == multiset(Flatten(into)) + multiset(chain)
    decreases |chain|
  {
    if chain != [] {
      var i := chain[0].hash % |into|;
      FlattenPush(into, i, chain[0]);
      PushAllContents(into[i := [chain[0]] + into[i]], chain[1..]);
      assert chain == [chain[0]] + chain[1..];
    }
  }

  lemma {:induction false} PushSlotsContents<K, D>(into: seq<Chain<K, D>>, slots: seq<Chain<K, D>>)
    requires |into| > 0
    ensures multiset(Flatten(PushSlots(into, slots))) == multiset(Flatten(into)) + multiset(Flatten(slots))
    decreases |slots|
  {
    if slots != [] {
      PushAllContents(into, slots[0]);
      PushSlotsContents(PushAll(into, slots[0]), slots[1..]);
    }
  }

  /** Resizing loses nothing, keeps every entry in its slot, and reverses the entries of every key. */
  lemma RehashLaw<K(!new), D>(ht: HashType<K>, t: Table<K, D>, size: nat)
    requires LawfulType(ht) && TableOk(ht, t) && size > 0
    ensures var r := t.(slots := Rehash(t.slots, size));
      && TableOk(ht, r) && Contents(r) == Contents(t)
      && forall key :: Bindings(ht, r, key) == Reverse(Bindings(ht, t, key))
  {
    var r := t.(slots := Rehash(t.slots, size));
    RehashContents(t.slots, size);
    forall i, j | 0 <= i < |r.slots| && 0 <= j < |r.slots[i]|
      ensures r.slots[i][j].hash == ht.hash(r.slots[i][j].key) && r.slots[i][j].hash % |r.slots| == i
    {
      RehashItem(ht, t, size, i, r.slots[i][j]);
    }
    forall key
      ensures Bindings(ht, r, key) == Reverse(Bindings(ht, t, key))
    {
      RehashBindings(ht, t, size, key);
    }
  }

  lemma RehashContents<K, D>(slots: seq<Chain<K, D>>, size: nat)
    requires size > 0
    ensures multiset(Flatten(Rehash(slots, size))) == multiset(Flatten(slots))
    ensures Count(Rehash(slots, size)) == Count(slots)
  {
    PushSlotsContents(Empty<K, D>(size), slots);
    EmptyIsEmpty<K, D>(size);
    FlattenSize(slots);
    FlattenSize(Rehash(slots, size));
    assert |multiset(Flatten(slots))| == |Flatten(slots)|;
    assert |multiset(Flatten(Rehash(slots, size)))| == |Flatten(Rehash(slots, size))|;
  }

  lemma RehashItem<K, D>(ht: HashType<K>, t: Table<K, D>, size: nat, i: nat, it: Item<K, D>)
    requires TableOk(ht, t) && i < size && it in Rehash(t.slots, size)[i]
    ensures it.hash == ht.hash(it.key) && it.hash % size == i
  {
    RehashAt(t.slots, size, i);
    ReverseMembers(Select(Flatten(t.slots), InSlot(size, i)));
    SelectSound(Flatten(t.slots), InSlot(size, i));
    var from := FlattenFrom(t.slots, it);
  }

  lemma RehashBindings<K(!new), D>(ht: HashType<K>, t: Table<K, D>, size: nat, key: K)
    requires LawfulType(ht) && TableOk(ht, t) && size > 0
    ensures Bindings(ht, t.(slots := Rehash(t.slots, size)), key) == Reverse(Bindings(ht, t, key))
  {
    var flat, weak, p := Flatten(t.slots), InSlot<K, D>(size, ht.hash(key) % size), HasKey<K, D>(ht, key);
    RehashAt(t.slots, size, ht.hash(key) % size);
    SelectReverse(Select(flat, weak), p);
    forall i | 0 <= i < |flat| && p(flat[i])
      ensures weak(flat[i])
    {
      var from := FlattenFrom(t.slots, flat[i]);
    }
    SelectWithin(flat, weak, p);
    BindingsAreAll(ht, t, key);
  }

  // ----- The operations -----

  lemma InitLaw<K(!new), D>(ht: HashType<K>, size: nat)
    ensures var t := Table(Empty<K, D>(size), 0);
      TableOk(ht, t) && Contents(t) == multiset{} && forall key :: Bindings(ht, t, key) == []
  {
    EmptyIsEmpty<K, D>(size);
  }

  lemma PutIntoLaw<K(!new), D>(ht: HashType<K>, t: Table<K, D>, key: K, data: D)
    requires LawfulType(ht) && TableOk(ht, t) && t.slots != []
    ensures var r, it := Put(ht, t, key, data), Item(key, ht.hash(key), data);
      && TableOk(ht, r) && Contents(r) == Contents(t) + multiset{it}
      && forall k :: Bindings(ht, r, k) == if ht.equals(key, k) then [it] + Bindings(ht, t, k) else Bindings(ht, t, k)
  {
    var i, it := ht.hash(key) % |t.slots|, Item(key, ht.hash(key), data);
    FlattenPush(t.slots, i, it);
    forall k
      ensures Bindings(ht, Put(ht, t, key, data), k)
           == if ht.equals(key, k) then [it] + Bindings(ht, t, k) else Bindings(ht, t, k)
    {
      PutBindings(ht, t, key, data, k);
    }
  }

  lemma PutBindings<K(!new), D>(ht: HashType<K>, t: Table<K, D>, key: K, data: D, k: K)
    requires LawfulType(ht) && t.slots != []
    ensures var it := Item(key, ht.hash(key), data);
            Bindings(ht, Put(ht, t, key, data), k)
            == if ht.equals(key, k) then [it] + Bindings(ht, t, k) else Bindings(ht, t, k)
  {
    var i, it := ht.hash(key) % |t.slots|, Item(key, ht.hash(key), data);
    assert ([it] + t.slots[i])[1..] == t.slots[i];
    assert ht.equals(key, k) ==> ht.hash(key) == ht.hash(k);
  }

  /** dict_put adds one entry, in front of the others for its key. */
  lemma PutLaw<K(!new), D>(ht: HashType<K>, t: Table<K, D>, key: K, data: D)
    requires LawfulType(ht) && TableOk(ht, t)
    ensures var r, it := Put(ht, t, key, data), Item(key, ht.hash(key), data);
      && TableOk(ht, r) && Contents(r) == Contents(t) + multiset{it}
      && forall k :: Bindings(ht, r, k) == if ht.equals(key, k) then [it] + Bindings(ht, t, k) else Bindings(ht, t, k)
  {
    if t.slots == [] {
      RehashLaw(ht, t, 1);
      hide Rehash, TableOk, LawfulType;
      PutIntoLaw(ht, t.(slots := Rehash(t.slots, 1)), key, data);
    } else {
      PutIntoLaw(ht, t, key, data);
    }
  }

  /** What takes the place of one chain may reorder it as long as the entries of each key keep their order. */
  lemma ReplaceChain<K(!new), D>(ht: HashType<K>, t: Table<K, D>, i: nat, c: Chain<K, D>)
    requires LawfulType(ht) && TableOk(ht, t) && i < |t.slots|
    requires multiset(c) == multiset(t.slots[i])
    requires forall k :: Select(c, HasKey(ht, k)) == Select(t.slots[i], HasKey(ht, k))
    ensures var r := t.(slots := t.slots[i := c]);
      TableOk(ht, r) && Contents(r) == Contents(t) && forall k :: Bindings(ht, r, k) == Bindings(ht, t, k)
  {
    FlattenUpdate(t.slots, i, c);
    assert |multiset(c)| == |c| && |multiset(t.slots[i])| == |t.slots[i]|;
    CancelSame(Contents(t.(slots := t.slots[i := c])), multiset(c), Contents(t));
    forall j | 0 <= j < |c|
      ensures c[j].hash == ht.hash(c[j].key) && c[j].hash % |t.slots| == i
    {
      assert c[j] in multiset(c);
      assert c[j] in t.slots[i];
    }
  }

  lemma CancelSame<T>(m: multiset<T>, n: multiset<T>, p: multiset<T>)
    requires m + n == p + n
    ensures m == p
  {
    assert m == (m + n) - n && p == (p + n) - n;
  }

  /** Equal keys are interchangeable. */
  lemma SameKey<K(!new)>(ht: HashType<K>, a: K, b: K)
    requires LawfulType(ht) && ht.equals(a, b)
    ensures forall k :: ht.equals(k, a) == ht.equals(k, b) && ht.equals(a, k) == ht.equals(b, k)
  {
    assert ht.equals(b, a);
  }

  lemma SplitAt<T>(s: seq<T>, i: nat)
    requires i < |s|
    ensures s == s[..i] + ([s[i]] + s[i + 1..])
    ensures MoveToFront(s, i) == [s[i]] + (s[..i] + s[i + 1..])
    ensures multiset(s) == multiset{s[i]} + multiset(Without(s, i))
    ensures multiset(MoveToFront(s, i)) == multiset(s)
  {
    assert s == s[..i] + ([s[i]] + s[i + 1..]);
    assert multiset(s) == multiset(s[..i]) + (multiset{s[i]} + multiset(s[i + 1..]));
  }

  /** Moving an item to the front keeps the order of the selected ones, if it is the first or none of them. */
  lemma SelectMoved<T>(s: seq<T>, at: nat, p: T -> bool)
    requires at < |s| && (p(s[at]) ==> forall j :: 0 <= j < at ==> !p(s[j]))
    ensures Select(MoveToFront(s, at), p) == Select(s, p)
  {
    hide MoveToFront, Select;
    var x, before, after := s[at], s[..at], s[at + 1..];
    SplitAt(s, at);
    SelectAppend(before, [x] + after, p);
    SelectAppend([x], after, p);
    SelectAppend([x], before + after, p);
    SelectAppend(before, after, p);
    SelectOne(x, p);
    if p(x) { SelectNone(before, p); }
  }

  /** Bringing the first match for a key to the front keeps the order among the entries of every key. */
  lemma MoveToFrontKeepsOrder<K(!new), D>(ht: HashType<K>, c: Chain<K, D>, key: K, k: K)
    requires LawfulType(ht) && Position(c, HasKey(ht, key)) < |c|
    ensures Select(MoveToFront(c, Position(c, HasKey(ht, key))), HasKey(ht, k)) == Select(c, HasKey(ht, k))
  {
    hide LawfulType;
    var at := Position(c, HasKey(ht, key));
    if ht.equals(c[at].key, k) {
      forall j | 0 <= j < at
        ensures !HasKey<K, D>(ht, k)(c[j])
      {
        assert !HasKey<K, D>(ht, key)(c[j]);
        DifferentKey(ht, c[j].key, c[at].key, key, k);
      }
    }
    hide MoveToFront, Position, Select;
    SelectMoved(c, at, HasKey(ht, k));
  }

  lemma DifferentKey<K(!new)>(ht: HashType<K>, a: K, b: K, key: K, k: K)
    requires LawfulType(ht) && ht.equals(b, key) && ht.equals(b, k) && !ht.equals(a, key)
    ensures !ht.equals(a, k)
  {
    assert ht.equals(k, b);
  }

  lemma SelectOne<T>(x: T, p: T -> bool)
    ensures Select([x], p) == if p(x) then [x] else []
  {
  }

  lemma {:induction false} FirstSelected<K, D>(c: Chain<K, D>, p: Item<K, D> -> bool)
    ensures if Position(c, p) == |c| then Select(c, p) == []
            else Select(c, p) != [] && Select(c, p)[0] == c[Position(c, p)]
  {
    if c != [] { FirstSelected(c[1..], p); }
  }

  /** dict_do_lookup is observationally pure: it keeps the table in order and its contents the same, and finds an entry
      exactly when there is one. Only the order among the entries of one key can change, and then for all keys at once:
      a lookup that resizes reverses it. */
  lemma LookupLaw<K(!new), D>(ht: HashType<K>, t: Table<K, D>, key: K)
    requires LawfulType(ht) && TableOk(ht, t)
    ensures var f := Lookup(ht, t, key);
      && TableOk(ht, f.table) && Contents(f.table) == Contents(t)
      && (forall k :: Bindings(ht, f.table, k)
                   == if Resizes(ht, t, key) then Reverse(Bindings(ht, t, k)) else Bindings(ht, t, k))
      && f.item == (if Bindings(ht, f.table, key) == [] then None else Some(Bindings(ht, f.table, key)[0]))
  {
    if t.num == 0 || t.slots == [] {
      NothingBound(ht, t, key);
    } else {
      var r := Resized(ht, t, key);
      if Resizes(ht, t, key) { RehashLaw(ht, t, GrownSize(t.num, |t.slots|)); }
      SearchLaw(ht, r, key);
    }
  }

  lemma NothingBound<K(!new), D>(ht: HashType<K>, t: Table<K, D>, key: K)
    requires LawfulType(ht) && TableOk(ht, t) && (t.num == 0 || t.slots == [])
    ensures Bindings(ht, t, key) == []
  {
    BindingsAreAll(ht, t, key);
    FlattenSize(t.slots);
  }

  lemma SearchLaw<K(!new), D>(ht: HashType<K>, t: Table<K, D>, key: K)
    requires LawfulType(ht) && TableOk(ht, t) && t.slots != []
    ensures var f := Search(ht, t, key);
      && TableOk(ht, f.table) && Contents(f.table) == Contents(t)
      && (forall k :: Bindings(ht, f.table, k) == Bindings(ht, t, k))
      && f.item == (if Bindings(ht, t, key) == [] then None else Some(Bindings(ht, t, key)[0]))
  {
    var i := ht.hash(key) % |t.slots|;
    var c := t.slots[i];
    var at := Position(c, HasKey(ht, key));
    FirstSelected(c, HasKey(ht, key));
    if at < |c| {
      forall k
        ensures Select(MoveToFront(c, at), HasKey(ht, k)) == Select(c, HasKey(ht, k))
      {
        MoveToFrontKeepsOrder(ht, c, key, k);
      }
      SplitAt(c, at);
      ReplaceChain(ht, t, i, MoveToFront(c, at));
    }
  }

  lemma {:induction false} SelectSame<T>(s: seq<T>, p: T -> bool, q: T -> bool)
    requires forall x :: p(x) == q(x)
    ensures Select(s, p) == Select(s, q)
  {
    if s != [] { SelectSame(s[1..], p, q); }
  }

  lemma SelectOther<T>(s: seq<T>, at: nat, q: T -> bool)
    requires at < |s| && !q(s[at])
    ensures Select(Without(s, at), q) == Select(s, q)
  {
    assert s == s[..at] + ([s[at]] + s[at + 1..]);
    SelectAppend(s[..at], [s[at]] + s[at + 1..], q);
    SelectAppend([s[at]], s[at + 1..], q);
    SelectAppend(s[..at], s[at + 1..], q);
  }

  lemma {:induction false} PositionIs<K, D>(c: Chain<K, D>, i: nat, p: Item<K, D> -> bool)
    requires i <= |c| && (forall j :: 0 <= j < i ==> !p(c[j])) && (i < |c| ==> p(c[i]))
    ensures Position(c, p) == i
  {
  }

  lemma NoneSelected<K, D>(c: Chain<K, D>, q: Item<K, D> -> bool, p: Item<K, D> -> bool)
    requires forall j :: 0 <= j < |c| ==> !p(c[j])
    ensures forall j :: 0 <= j < |Select(c, q)| ==> !p(Select(c, q)[j])
  {
    SelectSound(c, q);
    forall j | 0 <= j < |Select(c, q)|
      ensures !p(Select(c, q)[j])
    {
      assert Select(c, q)[j] in c;
    }
  }

  /** The first item with a property that implies the selecting one: found, and removed, alike before and after
      selecting. */
  lemma SelectWithout<K, D>(c: Chain<K, D>, q: Item<K, D> -> bool, p: Item<K, D> -> bool)
    requires forall it :: p(it) ==> q(it)
    ensures var at, sel := Position(c, p), Select(c, q);
      if at == |c| then Position(sel, p) == |sel|
      else Position(sel, p) < |sel| && sel[Position(sel, p)] == c[at]
           && Select(Without(c, at), q) == Without(sel, Position(sel, p))
  {
    hide Select, Position;
    var at, sel := Position(c, p), Select(c, q);
    if at == |c| {
      SelectSound(c, q);
      PositionIs(sel, |sel|, p);
    } else {
      var x, before, after := c[at], Select(c[..at], q), Select(c[at + 1..], q);
      SplitAt(c, at);
      SelectAppend(c[..at], [x] + c[at + 1..], q);
      SelectAppend([x], c[at + 1..], q);
      SelectAppend(c[..at], c[at + 1..], q);
      SelectOne(x, q);
      assert sel == before + ([x] + after);
      NoneSelected(c[..at], q, p);
      PositionIs(sel, |before|, p);
      assert Without(sel, |before|) == before + after;
    }
  }

  /** One item fewer on a chain. */
  lemma DropItem<K(!new), D>(ht: HashType<K>, t: Table<K, D>, i: nat, at: nat)
    requires TableOk(ht, t) && t.num > 0 && i < |t.slots| && at < |t.slots[i]|
    ensures var r := Table(t.slots[i := Without(t.slots[i], at)], t.num - 1);
      TableOk(ht, r) && Contents(r) + multiset{t.slots[i][at]} == Contents(t)
  {
    DropContents(t.slots, i, at);
    hide Flatten, Count;
  }

  lemma DropContents<K, D>(slots: seq<Chain<K, D>>, i: nat, at: nat)
    requires i < |slots| && at < |slots[i]|
    ensures multiset(Flatten(slots[i := Without(slots[i], at)])) + multiset{slots[i][at]} == multiset(Flatten(slots))
    ensures Count(slots[i := Without(slots[i], at)]) + 1 == Count(slots)
  {
    hide Flatten, Count;
    var c := slots[i];
    FlattenUpdate(slots, i, Without(c, at));
    SplitAt(c, at);
    Cancel(multiset(Flatten(slots)), multiset(Without(c, at)), multiset(Flatten(slots[i := Without(c, at)])),
           multiset{c[at]});
  }

  lemma DropSelected<K(!new), D>(ht: HashType<K>, c: Chain<K, D>, key: K, p: Item<K, D> -> bool, k: K)
    requires LawfulType(ht) && Position(c, p) < |c| && forall it :: p(it) ==> ht.equals(it.key, key)
    ensures var at, sel := Position(c, p), Select(c, HasKey(ht, key));
      && Position(sel, p) < |sel|
      && Select(Without(c, at), HasKey(ht, k))
         == if ht.equals(key, k) then Without(sel, Position(sel, p)) else Select(c, HasKey(ht, k))
  {
    var at := Position(c, p);
    SelectWithout(c, HasKey(ht, key), p);
    if ht.equals(key, k) {
      SameKey(ht, key, k);
      forall it: Item<K, D>
        ensures HasKey<K, D>(ht, k)(it) == HasKey<K, D>(ht, key)(it)
      {
        assert ht.equals(it.key, k) == ht.equals(it.key, key);
      }
      SelectSame(c, HasKey(ht, k), HasKey(ht, key));
      SelectSame(Without(c, at), HasKey(ht, k), HasKey(ht, key));
    } else {
      SameKey(ht, c[at].key, key);
      SelectOther(c, at, HasKey(ht, k));
    }
  }

  /** dict_del and dict_del2 take out one entry, the first of its key that satisfies the test, and nothing else. */
  lemma DeleteLaw<K(!new), D>(ht: HashType<K>, t: Table<K, D>, key: K, p: Item<K, D> -> bool)
    requires LawfulType(ht) && TableOk(ht, t) && forall it :: p(it) ==> ht.equals(it.key, key)
    ensures var r, bound := Delete(ht, t, key, p), Bindings(ht, t, key);
      && TableOk(ht, r.table)
      && r.hit == (Position(bound, p) < |bound|)
      && (if r.hit then Contents(r.table) + multiset{bound[Position(bound, p)]} == Contents(t) else r.table == t)
      && (r.hit ==>
            forall k ::
              Bindings(ht, r.table, k)
              == if ht.equals(key, k) then Without(bound, Position(bound, p)) else Bindings(ht, t, k))
  {
    if t.num == 0 || t.slots == [] {
      NothingBound(ht, t, key);
    } else {
      var i := ht.hash(key) % |t.slots|;
      var c, at := t.slots[i], Position(t.slots[i], p);
      SelectWithout(c, HasKey(ht, key), p);
      if at < |c| {
        DropItem(ht, t, i, at);
        forall k
          ensures Bindings(ht, Delete(ht, t, key, p).table, k)
               == if ht.equals(key, k) then Without(Bindings(ht, t, key), Position(Bindings(ht, t, key), p))
                  else Bindings(ht, t, k)
        {
          assert ht.equals(key, k) ==> ht.hash(key) == ht.hash(k);
          hide LawfulType, TableOk, Select, Position;
          DropSelected(ht, c, key, p, k);
        }
      }
    }
  }
}
