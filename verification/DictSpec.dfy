/** The hash table of dict.c on values: what each operation makes of the chains. */
module DictSpec {
  import opened Base

  /** hashtype_t: how keys are compared and hashed. Keys are values here, so `dup` and `free` have nothing to do. */
  datatype HashType<!K> = HashType(equals: (K, K) -> bool, hash: K -> nat)

  /** What dict.c relies on: equality is an equivalence, and equal keys have equal hashes. */
  ghost predicate LawfulType<K(!new)>(ht: HashType<K>) {
    && (forall k :: ht.equals(k, k))
    && (forall j, k :: ht.equals(j, k) ==> ht.equals(k, j))
    && (forall i, j, k :: ht.equals(i, j) && ht.equals(j, k) ==> ht.equals(i, k))
    && (forall j, k :: ht.equals(j, k) ==> ht.hash(j) == ht.hash(k))
  }

  datatype Item<K, D> = Item(key: K, hash: nat, data: D)

  type Chain<K, D> = seq<Item<K, D>>

  /** The chains of the slots, front first, and the number of entries. */
  datatype Table<K, D> = Table(slots: seq<Chain<K, D>>, num: nat)

  /** Every entry is in the slot of its hash, and the count is right. */
  ghost predicate TableOk<K, D>(ht: HashType<K>, t: Table<K, D>) {
    && t.num == Count(t.slots)
    && forall i, j :: 0 <= i < |t.slots| && 0 <= j < |t.slots[i]| ==>
         t.slots[i][j].hash == ht.hash(t.slots[i][j].key) && t.slots[i][j].hash % |t.slots| == i
  }

  function Count<K, D>(slots: seq<Chain<K, D>>): nat {
    if slots == [] then 0 else |slots[0]| + Count(slots[1..])
  }

  function Empty<K, D>(size: nat): (r: seq<Chain<K, D>>)
    ensures |r| == size && forall i :: 0 <= i < size ==> r[i] == []
  {
    if size == 0 then [] else [[]] + Empty(size - 1)
  }

  // ----- Resizing -----

  /** The items are pushed, one after the other, on the front of their new chains. */
  function PushAll<K, D>(into: seq<Chain<K, D>>, chain: Chain<K, D>): (r: seq<Chain<K, D>>)
    requires |into| > 0
    ensures |r| == |into|
    decreases |chain|
  {
    if chain == [] then into else
      var i := chain[0].hash % |into|;
      PushAll(into[i := [chain[0]] + into[i]], chain[1..])
  }

  function PushSlots<K, D>(into: seq<Chain<K, D>>, slots: seq<Chain<K, D>>): (r: seq<Chain<K, D>>)
    requires |into| > 0
    ensures |r| == |into|
    decreases |slots|
  {
    if slots == [] then into else PushSlots(PushAll(into, slots[0]), slots[1..])
  }

  /** dict_expand */
  function Rehash<K, D>(slots: seq<Chain<K, D>>, size: nat): (r: seq<Chain<K, D>>)
    requires size > 0
    ensures |r| == size
  {
    PushSlots(Empty(size), slots)
  }

  /** The size loop of dict_do_lookup. */
  function GrownSize(num: nat, size: nat): (r: nat)
    ensures 3 * num < 2 * r
    decreases if 3 * num >= 2 * size then 3 * num - 2 * size + 1 else 0
  {
    if 3 * num < 2 * size then size
    else GrownSize(num, if size < 15 then 15 else (size + 1) * 2 - 1)
  }

  // ----- Operations -----

  function Put<K, D>(ht: HashType<K>, t: Table<K, D>, key: K, data: D): Table<K, D> {
    var slots := if t.slots == [] then Rehash(t.slots, 1) else t.slots;
    var i := ht.hash(key) % |slots|;
    Table(slots[i := [Item(key, ht.hash(key), data)] + slots[i]], t.num + 1)
  }

  /** The position of the first item that satisfies `p`, or the length of the chain. */
  function Position<K, D>(chain: Chain<K, D>, p: Item<K, D> -> bool): (i: nat)
    ensures i <= |chain|
    ensures i < |chain| ==> p(chain[i])
    ensures forall j :: 0 <= j < i ==> !p(chain[j])
  {
    if chain == [] || p(chain[0]) then 0 else 1 + Position(chain[1..], p)
  }

  function HasKey<K, D>(ht: HashType<K>, key: K): Item<K, D> -> bool {
    (it: Item<K, D>) => ht.equals(it.key, key)
  }

  function MoveToFront<T>(s: seq<T>, i: nat): (r: seq<T>)
    requires i < |s|
    ensures |r| == |s|
  {
    [s[i]] + s[..i] + s[i + 1..]
  }

  function Without<T>(s: seq<T>, i: nat): seq<T>
    requires i < |s|
  {
    s[..i] + s[i + 1..]
  }

  datatype Found<K, D> = Found(table: Table<K, D>, item: Option<Item<K, D>>)

  /** The search through one chain, which brings a hit to the front. */
  function Search<K, D>(ht: HashType<K>, t: Table<K, D>, key: K): Found<K, D>
    requires t.slots != []
  {
    var i := ht.hash(key) % |t.slots|;
    var at := Position(t.slots[i], HasKey(ht, key));
    if at == |t.slots[i]| then Found(t, None)
    else Found(t.(slots := t.slots[i := MoveToFront(t.slots[i], at)]), Some(t.slots[i][at]))
  }

  /** A lookup that has to go past the first entry of its chain resizes a table that is two thirds full. */
  predicate Resizes<K, D>(ht: HashType<K>, t: Table<K, D>, key: K) {
    && t.num != 0 && t.slots != []
    && var chain := t.slots[ht.hash(key) % |t.slots|];
       |chain| >= 2 && !ht.equals(chain[0].key, key) && 3 * t.num >= 2 * |t.slots|
  }

  function Resized<K, D>(ht: HashType<K>, t: Table<K, D>, key: K): Table<K, D> {
    if Resizes(ht, t, key) then t.(slots := Rehash(t.slots, GrownSize(t.num, |t.slots|))) else t
  }

  /** dict_do_lookup */
  function Lookup<K, D>(ht: HashType<K>, t: Table<K, D>, key: K): Found<K, D> {
    if t.num == 0 || t.slots == [] then Found(t, None) else Search(ht, Resized(ht, t, key), key)
  }

  datatype Deleted<K, D> = Deleted(table: Table<K, D>, hit: bool)

  /** dict_del and dict_del2: the first item of the chain that satisfies `p` is unlinked. */
  function Delete<K, D>(ht: HashType<K>, t: Table<K, D>, key: K, p: Item<K, D> -> bool): Deleted<K, D> {
    if t.num == 0 || t.slots == [] then Deleted(t, false) else
      var i := ht.hash(key) % |t.slots|;
      var at := Position(t.slots[i], p);
      if at == |t.slots[i]| then Deleted(t, false)
      else Deleted(Table(t.slots[i := Without(t.slots[i], at)], t.num - 1), true)
  }

  function HasBinding<K, D(==)>(ht: HashType<K>, key: K, data: D): Item<K, D> -> bool {
    (it: Item<K, D>) => ht.equals(it.key, key) && it.data == data
  }

  /** dict_clone */
  function Reverse<T>(s: seq<T>): (r: seq<T>)
    ensures |r| == |s|
  {
    if s == [] then [] else Reverse(s[1..]) + [s[0]]
  }

  function Clone<K, D>(t: Table<K, D>): Table<K, D> {
    t.(slots := ReverseChains(t.slots))
  }

  function ReverseChains<K, D>(slots: seq<Chain<K, D>>): (r: seq<Chain<K, D>>)
    ensures |r| == |slots| && forall i :: 0 <= i < |slots| ==> r[i] == Reverse(slots[i])
  {
    if slots == [] then [] else [Reverse(slots[0])] + ReverseChains(slots[1..])
  }
}
