/** Whole lives of a table: what it stores, how large it gets, and how much the resizing costs. */
module DictRuns {
  import opened Base
  import opened DictSpec
  import opened DictLaws

  datatype Op<K, D> = PutOp(key: K, data: D) | LookupOp(key: K) | DelOp(key: K) | Del2Op(key: K, data: D)

  function Apply<K, D(==)>(ht: HashType<K>, t: Table<K, D>, op: Op<K, D>): Table<K, D> {
    match op
    case PutOp(key, data) => Put(ht, t, key, data)
    case LookupOp(key) => Lookup(ht, t, key).table
    case DelOp(key) => Delete(ht, t, key, HasKey(ht, key)).table
    case Del2Op(key, data) => Delete(ht, t, key, HasBinding(ht, key, data)).table
  }

  function RunOps<K, D(==)>(ht: HashType<K>, t: Table<K, D>, ops: seq<Op<K, D>>): Table<K, D>
    decreases |ops|
  {
    if ops == [] then t else Apply(ht, RunOps(ht, t, Front(ops)), Last(ops))
  }

  /** dict_new */
  function New<K, D>(): Table<K, D> { Table(Empty(1), 0) }

  lemma ApplyKeepsOk<K(!new), D>(ht: HashType<K>, t: Table<K, D>, op: Op<K, D>)
    requires LawfulType(ht) && TableOk(ht, t)
    ensures TableOk(ht, Apply(ht, t, op))
  {
    match op
    case PutOp(key, data) => PutLaw(ht, t, key, data);
    case LookupOp(key) => LookupLaw(ht, t, key);
    case DelOp(key) => DeleteLaw(ht, t, key, HasKey(ht, key));
    case Del2Op(key, data) => DeleteLaw(ht, t, key, HasBinding(ht, key, data));
  }

  /** In every run every entry stays in the slot of its hash and the count stays right. */
  lemma {:induction false} RunKeepsOk<K(!new), D>(ht: HashType<K>, ops: seq<Op<K, D>>)
    requires LawfulType(ht)
    ensures TableOk(ht, RunOps(ht, New<K, D>(), ops))
    decreases |ops|
  {
    hide Apply, TableOk;
    if ops == [] {
      InitLaw<K, D>(ht, 1);
    } else {
      RunKeepsOk(ht, Front(ops));
      ApplyKeepsOk(ht, RunOps(ht, New<K, D>(), Front(ops)), Last(ops));
    }
  }

  // ----- A map, as long as no key is put twice -----

  /** What the operations leave bound to a key. */
  function Bound<K, D(==)>(ht: HashType<K>, ops: seq<Op<K, D>>, key: K): Option<D>
    decreases |ops|
  {
    if ops == [] then None else
      var before := Bound(ht, Front(ops), key);
      match Last(ops)
      case PutOp(k, data) => if ht.equals(k, key) then Some(data) else before
      case LookupOp(_) => before
      case DelOp(k) => if ht.equals(k, key) then None else before
      case Del2Op(k, data) => if ht.equals(k, key) && before == Some(data) then None else before
  }

  /** Every put is of a key that is absent, as in define_function_proxy. */
  predicate PutsAreFresh<K, D(==)>(ht: HashType<K>, ops: seq<Op<K, D>>)
    decreases |ops|
  {
    ops == [] || (PutsAreFresh(ht, Front(ops)) && (Last(ops).PutOp? ==> Bound(ht, Front(ops), Last(ops).key).None?))
  }

  predicate Stores<K, D(==)>(ht: HashType<K>, t: Table<K, D>, key: K, o: Option<D>) {
    var b := Bindings(ht, t, key);
    match o
    case None => b == []
    case Some(data) => |b| == 1 && b[0].data == data
  }

  lemma SameBindings<K(!new), D>(ht: HashType<K>, t: Table<K, D>, a: K, b: K)
    requires LawfulType(ht) && ht.equals(a, b)
    ensures Bindings(ht, t, a) == Bindings(ht, t, b)
  {
    if t.slots != [] {
      forall it: Item<K, D>
        ensures HasKey<K, D>(ht, a)(it) == HasKey<K, D>(ht, b)(it)
      {
        SameKey(ht, a, b);
        assert ht.equals(it.key, a) == ht.equals(it.key, b);
      }
      SelectSame(t.slots[ht.hash(a) % |t.slots|], HasKey(ht, a), HasKey(ht, b));
    }
  }

  /** Whatever is deleted is deleted from a chain of at most one entry. */
  lemma DeleteStores<K(!new), D>(ht: HashType<K>, t: Table<K, D>, k: K, p: Item<K, D> -> bool, key: K)
    requires LawfulType(ht) && TableOk(ht, t) && |Bindings(ht, t, k)| <= 1
    requires forall it :: p(it) ==> ht.equals(it.key, k)
    ensures Bindings(ht, Delete(ht, t, k, p).table, key)
         == if ht.equals(k, key) && (forall it :: it in Bindings(ht, t, key) ==> p(it)) then []
            else Bindings(ht, t, key)
  {
    hide LawfulType, TableOk, Delete, Bindings;
    var bound := Bindings(ht, t, k);
    DeleteLaw(ht, t, k, p);
    FirstOfOne(bound, p);
    hide Position;
    if ht.equals(k, key) { SameBindings(ht, t, k, key); }
  }

  lemma FirstOfOne<K, D>(c: Chain<K, D>, p: Item<K, D> -> bool)
    requires |c| <= 1
    ensures Position(c, p) == |c| <==> !(forall it :: it in c ==> p(it)) || c == []
    ensures Position(c, p) < |c| ==> Position(c, p) == 0 && Without(c, 0) == []
  {
  }

  lemma BindingsHaveKey<K, D>(ht: HashType<K>, t: Table<K, D>, key: K)
    ensures forall it :: it in Bindings(ht, t, key) ==> ht.equals(it.key, key)
  {
    if t.slots != [] { SelectSound(t.slots[ht.hash(key) % |t.slots|], HasKey(ht, key)); }
  }

  lemma PutStores<K(!new), D>(ht: HashType<K>, t: Table<K, D>, k: K, data: D, key: K, o: Option<D>)
    requires LawfulType(ht) && TableOk(ht, t)
    requires Stores(ht, t, k, None) && Stores(ht, t, key, o)
    ensures Stores(ht, Put(ht, t, k, data), key, if ht.equals(k, key) then Some(data) else o)
  {
    if ht.equals(k, key) { SameBindings(ht, t, k, key); }
    PutLaw(ht, t, k, data);
    hide LawfulType, TableOk, Bindings, Put;
  }

  lemma LookupStores<K(!new), D>(ht: HashType<K>, t: Table<K, D>, k: K, key: K, o: Option<D>)
    requires LawfulType(ht) && TableOk(ht, t) && Stores(ht, t, key, o)
    ensures Stores(ht, Lookup(ht, t, k).table, key, o)
  {
    LookupLaw(ht, t, k);
    hide LawfulType, TableOk, Bindings, Lookup;
    ReverseOfOne(Bindings(ht, t, key));
  }

  /** Deleting with a property that only entries for `k` can have. */
  lemma DeleteUnstores<K(!new), D>(
    ht: HashType<K>, t: Table<K, D>, k: K, p: Item<K, D> -> bool, key: K, before: Option<D>, o: Option<D>)
    requires LawfulType(ht) && TableOk(ht, t) && Stores(ht, t, k, before) && Stores(ht, t, key, o)
    requires forall it :: p(it) ==> ht.equals(it.key, k)
    requires ht.equals(k, key) ==> before == o
    ensures var b := Bindings(ht, t, key);
            Stores(ht, Delete(ht, t, k, p).table, key, if ht.equals(k, key) && b != [] && p(b[0]) then None else o)
  {
    DeleteStores(ht, t, k, p, key);
    hide LawfulType, TableOk, Bindings, Delete;
    var b := Bindings(ht, t, key);
    assert b != [] ==> b == [b[0]] && b[0] in b;
  }

  /** One more operation on a table that stores what has been bound before. */
  lemma ApplyStores<K(!new), D>(ht: HashType<K>, t: Table<K, D>, ops: seq<Op<K, D>>, key: K)
    requires LawfulType(ht) && TableOk(ht, t) && ops != []
    requires Stores(ht, t, Last(ops).key, Bound(ht, Front(ops), Last(ops).key))
    requires Stores(ht, t, key, Bound(ht, Front(ops), key))
    requires Last(ops).PutOp? ==> Bound(ht, Front(ops), Last(ops).key).None?
    ensures Stores(ht, Apply(ht, t, Last(ops)), key, Bound(ht, ops, key))
  {
    var k, o := Last(ops).key, Bound(ht, Front(ops), key);
    if ht.equals(k, key) {
      SameBindings(ht, t, k, key);
      BindingsHaveKey(ht, t, k);
    }
    hide LawfulType, TableOk, Bindings, Put, Lookup, Delete;
    match Last(ops)
    case PutOp(_, data) => PutStores(ht, t, k, data, key, o);
    case LookupOp(_) => LookupStores(ht, t, k, key, o);
    case DelOp(_) => DeleteUnstores(ht, t, k, HasKey(ht, k), key, Bound(ht, Front(ops), k), o);
    case Del2Op(_, data) => DeleteUnstores(ht, t, k, HasBinding(ht, k, data), key, Bound(ht, Front(ops), k), o);
  }

  lemma ReverseOfOne<T>(s: seq<T>)
    requires |s| <= 1
    ensures Reverse(s) == s
  {
  }

  /** The table refines a map: in a run that puts only absent keys, a lookup of any key finds what is bound to it. */
  lemma {:induction false} RunStores<K(!new), D>(ht: HashType<K>, ops: seq<Op<K, D>>, key: K)
    requires LawfulType(ht) && PutsAreFresh(ht, ops)
    ensures Stores(ht, RunOps(ht, New<K, D>(), ops), key, Bound(ht, ops, key))
    decreases |ops|
  {
    hide Apply, TableOk, Stores, Bound;
    if ops == [] {
      assert Stores(ht, New<K, D>(), key, Bound(ht, ops, key)) by { NothingStored<K, D>(ht, key); }
    } else {
      RunKeepsOk(ht, Front(ops));
      RunStores(ht, Front(ops), Last(ops).key);
      RunStores(ht, Front(ops), key);
      ApplyStores(ht, RunOps(ht, New<K, D>(), Front(ops)), ops, key);
    }
  }

  lemma NothingStored<K(!new), D>(ht: HashType<K>, key: K)
    ensures Stores(ht, New<K, D>(), key, Bound<K, D>(ht, [], key))
  {
  }

  lemma MapLookup<K(!new), D>(ht: HashType<K>, ops: seq<Op<K, D>>, key: K)
    requires LawfulType(ht) && PutsAreFresh(ht, ops)
    ensures var item := Lookup(ht, RunOps(ht, New<K, D>(), ops), key).item;
      match Bound(ht, ops, key)
      case None => item == None
      case Some(data) => item.Some? && item.value.data == data && ht.equals(item.value.key, key)
  {
    var t := RunOps(ht, New<K, D>(), ops);
    RunKeepsOk(ht, ops);
    RunStores(ht, ops, key);
    LookupLaw(ht, t, key);
    ReverseOfOne(Bindings(ht, t, key));
    BindingsHaveKey(ht, t, key);
  }

  // ----- With duplicate keys the newest entry does not always win -----

  predicate LeavesAlone<K, D>(ht: HashType<K>, op: Op<K, D>, key: K) {
    op.LookupOp? || !ht.equals(op.key, key)
  }

  /** 1 for a lookup that resizes. */
  function Resizing<K, D>(ht: HashType<K>, t: Table<K, D>, op: Op<K, D>): nat {
    if op.LookupOp? && Resizes(ht, t, op.key) then 1 else 0
  }

  /** How often a run resizes the table. */
  function Resizings<K, D(==)>(ht: HashType<K>, t: Table<K, D>, ops: seq<Op<K, D>>): nat
    decreases |ops|
  {
    if ops == [] then 0 else Resizings(ht, t, Front(ops)) + Resizing(ht, RunOps(ht, t, Front(ops)), Last(ops))
  }

  function Turned<T>(s: seq<T>, n: nat): seq<T> {
    if n % 2 == 0 then s else Reverse(s)
  }

  lemma ApplyTurns<K(!new), D>(ht: HashType<K>, t: Table<K, D>, op: Op<K, D>, key: K)
    requires LawfulType(ht) && TableOk(ht, t) && LeavesAlone(ht, op, key)
    ensures Bindings(ht, Apply(ht, t, op), key) == Turned(Bindings(ht, t, key), Resizing(ht, t, op))
  {
    hide LawfulType, TableOk, Bindings, Put, Lookup, Delete, Resizes;
    match op
    case PutOp(k, data) => PutLaw(ht, t, k, data);
    case LookupOp(k) => LookupLaw(ht, t, k);
    case DelOp(k) => DeleteOther(ht, t, k, HasKey(ht, k), key);
    case Del2Op(k, data) => DeleteOther(ht, t, k, HasBinding(ht, k, data), key);
  }

  lemma DeleteOther<K(!new), D>(ht: HashType<K>, t: Table<K, D>, k: K, p: Item<K, D> -> bool, key: K)
    requires LawfulType(ht) && TableOk(ht, t) && !ht.equals(k, key)
    requires forall it :: p(it) ==> ht.equals(it.key, k)
    ensures Bindings(ht, Delete(ht, t, k, p).table, key) == Bindings(ht, t, key)
  {
    hide LawfulType, TableOk, Bindings, Delete;
    DeleteLaw(ht, t, k, p);
  }

  /** Operations on other keys, and lookups, leave the entries of a key; each resizing turns their order round. */
  lemma {:induction false} RunTurns<K(!new), D>(ht: HashType<K>, t: Table<K, D>, ops: seq<Op<K, D>>, key: K)
    requires LawfulType(ht) && TableOk(ht, t)
    requires forall i :: 0 <= i < |ops| ==> LeavesAlone(ht, ops[i], key)
    ensures TableOk(ht, RunOps(ht, t, ops))
    ensures Bindings(ht, RunOps(ht, t, ops), key) == Turned(Bindings(ht, t, key), Resizings(ht, t, ops))
    decreases |ops|
  {
    hide Apply, TableOk, Bindings, LawfulType, LeavesAlone, Resizing;
    if ops != [] {
      var before := RunOps(ht, t, Front(ops));
      RunTurns(ht, t, Front(ops), key);
      ApplyKeepsOk(ht, before, Last(ops));
      ApplyTurns(ht, before, Last(ops), key);
      ReverseTwice(Bindings(ht, t, key));
    }
  }

  /** With an even `n` the newest entry is found, with an odd one the entry at the other end of its key's entries: the
      newest exactly if `n` is even or there is no other. */
  ghost predicate Picks<K, D>(found: Option<Item<K, D>>, newest: Item<K, D>, others: Chain<K, D>, n: nat) {
    && found == Some(if n % 2 == 0 || others == [] then newest else Last(others))
    && (newest !in others ==> (found == Some(newest) <==> n % 2 == 0 || others == []))
  }

  /** Which entry a lookup yields when its key was put last before `ops`: it depends on how often the table is resized
      from then on, up to and including the lookup. */
  lemma LookupPicks<K(!new), D>(ht: HashType<K>, t: Table<K, D>, key: K, data: D, ops: seq<Op<K, D>>)
    requires LawfulType(ht) && TableOk(ht, t)
    requires forall i :: 0 <= i < |ops| ==> LeavesAlone(ht, ops[i], key)
    ensures var put := Put(ht, t, key, data);
            Picks(Lookup(ht, RunOps(ht, put, ops), key).item, Item(key, ht.hash(key), data), Bindings(ht, t, key),
                  Resizings(ht, put, ops + [LookupOp(key)]))
  {
    hide *;
    var put := Put(ht, t, key, data);
    var run, m := RunOps(ht, put, ops), Resizings(ht, put, ops);
    var n := Resizing(ht, run, LookupOp(key));
    PutInFront(ht, t, key, data);
    RunTurns(ht, put, ops, key);
    OneMoreLookup(ht, put, ops, key);
    TurnedTwice([Item(key, ht.hash(key), data)] + Bindings(ht, t, key), m, n);
    LookupTurned(ht, run, key);
    TurnedPicks(Item(key, ht.hash(key), data), Bindings(ht, t, key), m + n);
  }

  lemma OneMoreLookup<K(!new), D>(ht: HashType<K>, t: Table<K, D>, ops: seq<Op<K, D>>, key: K)
    ensures Resizings(ht, t, ops + [LookupOp(key)])
         == Resizings(ht, t, ops) + Resizing(ht, RunOps(ht, t, ops), LookupOp(key))
  {
    assert Front(ops + [LookupOp(key)]) == ops;
  }

  lemma PutInFront<K(!new), D>(ht: HashType<K>, t: Table<K, D>, key: K, data: D)
    requires LawfulType(ht) && TableOk(ht, t)
    ensures var put := Put(ht, t, key, data);
            TableOk(ht, put) && Bindings(ht, put, key) == [Item(key, ht.hash(key), data)] + Bindings(ht, t, key)
  {
    PutLaw(ht, t, key, data);
    assert ht.equals(key, key);
  }

  lemma TurnedPicks<K, D>(newest: Item<K, D>, others: Chain<K, D>, n: nat)
    ensures var b := Turned([newest] + others, n); b != [] && Picks(Some(b[0]), newest, others, n)
  {
    TurnedFirst([newest] + others, n);
  }

  lemma LookupTurned<K(!new), D>(ht: HashType<K>, t: Table<K, D>, key: K)
    requires LawfulType(ht) && TableOk(ht, t)
    ensures var b := Turned(Bindings(ht, t, key), Resizing(ht, t, LookupOp(key)));
            b != [] ==> Lookup(ht, t, key).item == Some(b[0])
  {
    hide LawfulType, TableOk, Bindings, Lookup, Resizes;
    LookupLaw(ht, t, key);
  }

  lemma TurnedTwice<T>(s: seq<T>, m: nat, n: nat)
    ensures Turned(Turned(s, m), n) == Turned(s, m + n)
  {
    ReverseTwice(s);
  }

  lemma TurnedFirst<T>(s: seq<T>, n: nat)
    requires s != []
    ensures Turned(s, n) != [] && Turned(s, n)[0] == if n % 2 == 0 then s[0] else Last(s)
  {
    LastFirst(s);
  }

  lemma LastFirst<T>(s: seq<T>)
    requires s != []
    ensures Reverse(s)[0] == Last(s)
  {
    if |s| > 1 { LastFirst(s[1..]); }
  }

  /** For every key type: put one key twice, then another in front of it, into a new table. The next lookup of the
      first key, which resizes, yields the older entry, and so does the one after that, which does not. */
  lemma NewestCanLose<K(!new), D>(ht: HashType<K>, a: K, b: K, x: D, y: D, z: D)
    requires LawfulType(ht) && !ht.equals(a, b)
    ensures var ops := [PutOp(a, x), PutOp(a, y), PutOp(b, z)];
            var t, older := RunOps(ht, New(), ops), Some(Item(a, ht.hash(a), x));
            && Lookup(ht, t, a).item == older && Resizes(ht, t, a)
            && var t' := Lookup(ht, t, a).table; Lookup(ht, t', a).item == older && !Resizes(ht, t', a)
  {
    var ops := [PutOp(a, x), PutOp(a, y), PutOp(b, z)];
    var older, newer, other := Item(a, ht.hash(a), x), Item(a, ht.hash(a), y), Item(b, ht.hash(b), z);
    var t := RunOps(ht, New(), ops);
    RunKeepsOk(ht, ops);
    ThreePuts(ht, a, b, x, y, z);
    InOneSlot(ht, other, newer, older, a);
    assert Resizes(ht, t, a) by { assert t.slots[0][0] == other && !ht.equals(b, a); }
    LookupLaw(ht, t, a);
    LookupSize(ht, t, a);
    LookupLaw(ht, Lookup(ht, t, a).table, a);
    hide LawfulType, TableOk, Bindings, Lookup;
    assert Reverse([newer, older]) == [older, newer] by { assert [newer, older][1..] == [older]; }
  }

  lemma ThreePuts<K(!new), D>(ht: HashType<K>, a: K, b: K, x: D, y: D, z: D)
    ensures RunOps(ht, New(), [PutOp(a, x), PutOp(a, y), PutOp(b, z)])
         == Table([[Item(b, ht.hash(b), z), Item(a, ht.hash(a), y), Item(a, ht.hash(a), x)]], 3)
  {
    var ops: seq<Op<K, D>> := [PutOp(a, x), PutOp(a, y), PutOp(b, z)];
    assert Front(ops) == [PutOp(a, x), PutOp(a, y)];
    assert Front(Front(ops)) == [PutOp(a, x)];
    assert Front(Front(Front(ops))) == [];
    var older, newer, other := Item(a, ht.hash(a), x), Item(a, ht.hash(a), y), Item(b, ht.hash(b), z);
    PutInOneSlot(ht, [], 0, a, x);
    PutInOneSlot(ht, [older], 1, a, y);
    PutInOneSlot(ht, [newer, older], 2, b, z);
    hide Put;
    assert [older] + [] == [older] && [newer] + [older] == [newer, older];
    assert [other] + [newer, older] == [other, newer, older];
    var t0 := New<K, D>();
    assert t0 == Table([[]], 0);
    assert RunOps(ht, t0, Front(Front(ops))) == Table([[older]], 1);
    assert RunOps(ht, t0, Front(ops)) == Table([[newer, older]], 2);
  }

  lemma InOneSlot<K(!new), D>(ht: HashType<K>, other: Item<K, D>, newer: Item<K, D>, older: Item<K, D>, a: K)
    requires LawfulType(ht) && newer.key == a && older.key == a && !ht.equals(a, other.key)
    ensures Bindings(ht, Table([[other, newer, older]], 3), a) == [newer, older]
  {
    var p := HasKey<K, D>(ht, a);
    assert ht.equals(a, a) && p(newer) && p(older) && !p(other);
    assert [other, newer, older][1..] == [newer, older] && [newer, older][1..] == [older];
    SelectOne(older, p);
    assert Select([newer, older], p) == [newer, older];
  }

  lemma PutInOneSlot<K, D>(ht: HashType<K>, c: Chain<K, D>, num: nat, key: K, data: D)
    ensures Put(ht, Table([c], num), key, data) == Table([[Item(key, ht.hash(key), data)] + c], num + 1)
  {
    assert [c][0 := [Item(key, ht.hash(key), data)] + c] == [[Item(key, ht.hash(key), data)] + c];
  }

  /** A resizing lookup leaves the table less than two thirds full. */
  lemma LookupSize<K, D>(ht: HashType<K>, t: Table<K, D>, key: K)
    requires Resizes(ht, t, key)
    ensures var t' := Lookup(ht, t, key).table; t'.num == t.num && 3 * t'.num < 2 * |t'.slots|
  {
    var r := Resized(ht, t, key);
    assert |r.slots| == GrownSize(t.num, |t.slots|);
    assert |Search(ht, r, key).table.slots| == |r.slots| && Search(ht, r, key).table.num == r.num;
  }

  // ----- Size and cost -----

  /** Entries moved by the operation. */
  function Moved<K, D>(ht: HashType<K>, t: Table<K, D>, op: Op<K, D>): nat {
    if op.LookupOp? && Resizes(ht, t, op.key) then t.num else 0
  }

  function MovedBy<K, D(==)>(ht: HashType<K>, t: Table<K, D>, ops: seq<Op<K, D>>): nat
    decreases |ops|
  {
    if ops == [] then 0 else MovedBy(ht, t, Front(ops)) + Moved(ht, RunOps(ht, t, Front(ops)), Last(ops))
  }

  function Puts<K, D>(ops: seq<Op<K, D>>): nat
    decreases |ops|
  {
    if ops == [] then 0 else Puts(Front(ops)) + if Last(ops).PutOp? then 1 else 0
  }

  /** The sizes dict_new leads to. */
  ghost predicate TableSize(size: nat) {
    size == 1 || exists k: nat :: k >= 4 && size == Pow2(k) - 1
  }

  /** The size loop: the table grows, to less than two thirds full, and not beyond what the entries call for. */
  lemma {:induction false} GrownSizeLaw(num: nat, size: nat)
    requires 3 * num >= 2 * size
    ensures var r := GrownSize(num, size);
      && r > size && 3 * num < 2 * r && r <= (if 3 * num + 1 > 15 then 3 * num + 1 else 15)
      && (size >= 15 || size == 1 ==> r >= 2 * size)
      && (TableSize(size) ==> TableSize(r))
      && (num <= 357913940 ==> 3 * num <= INT_MAX && 2 * r <= INT_MAX)
    decreases 3 * num - 2 * size
  {
    var next := if size < 15 then 15 else (size + 1) * 2 - 1;
    if TableSize(size) {
      if size >= 15 {
        var k: nat :| k >= 4 && size == Pow2(k) - 1;
        assert next == Pow2(k + 1) - 1;
      } else {
        assert Pow2(4) == 16;
      }
      assert TableSize(next);
    }
    if 3 * num >= 2 * next { GrownSizeLaw(num, next); }
  }

  /** Size, entries and cost of a table that began as dict_new. */
  ghost predicate Affordable<K, D>(t: Table<K, D>, moved: nat, puts: nat) {
    && t.num <= puts && TableSize(|t.slots|)
    && |t.slots| <= (if 3 * puts + 1 > 15 then 3 * puts + 1 else 15)
    && 3 * moved <= 4 * |t.slots|
  }

  lemma TableSizes(size: nat)
    requires TableSize(size)
    ensures size == 1 || size >= 15
  {
    if size != 1 {
      var k: nat :| k >= 4 && size == Pow2(k) - 1;
      Pow2Monotone(4, k);
      assert Pow2(4) == 16;
    }
  }

  lemma {:induction false} Pow2Monotone(m: nat, n: nat)
    requires m <= n
    ensures Pow2(m) <= Pow2(n)
    decreases n
  {
    if m < n { Pow2Monotone(m, n - 1); }
  }

  lemma ApplyAffordable<K(!new), D>(ht: HashType<K>, t: Table<K, D>, op: Op<K, D>, moved: nat, puts: nat)
    requires Affordable(t, moved, puts)
    ensures Affordable(Apply(ht, t, op), moved + Moved(ht, t, op), puts + if op.PutOp? then 1 else 0)
  {
    TableSizes(|t.slots|);
    hide TableSize, Rehash, Position;
    if op.LookupOp? && Resizes(ht, t, op.key) {
      GrownSizeLaw(t.num, |t.slots|);
    }
  }

  lemma {:induction false} RunAffordable<K(!new), D>(ht: HashType<K>, ops: seq<Op<K, D>>)
    ensures Affordable(RunOps(ht, New<K, D>(), ops), MovedBy(ht, New<K, D>(), ops), Puts(ops))
    decreases |ops|
  {
    hide Apply;
    if ops != [] {
      RunAffordable(ht, Front(ops));
      ApplyAffordable(ht, RunOps(ht, New<K, D>(), Front(ops)), Last(ops), MovedBy(ht, New<K, D>(), Front(ops)),
                      Puts(Front(ops)));
    }
  }

  /** All resizing in a run together moves at most four entries per put and twenty more; the size is always
      1 or one less than a power of two from 16 on. */
  lemma RehashingIsAmortised<K(!new), D>(ht: HashType<K>, ops: seq<Op<K, D>>)
    ensures MovedBy(ht, New<K, D>(), ops) <= 4 * Puts(ops) + 20
    ensures TableSize(|RunOps(ht, New<K, D>(), ops).slots|)
  {
    RunAffordable(ht, ops);
  }

  // ----- Clones -----

  /** A clone has the same entries in the same slots, each chain the other way round; its clone is the original. */
  lemma CloneLaw<K(!new), D>(ht: HashType<K>, t: Table<K, D>)
    requires LawfulType(ht) && TableOk(ht, t)
    ensures TableOk(ht, Clone(t)) && Contents(Clone(t)) == Contents(t)
    ensures forall key :: Bindings(ht, Clone(t), key) == Reverse(Bindings(ht, t, key))
    ensures Clone(Clone(t)) == t
    ensures |Clone(t).slots| == |t.slots| && forall i :: 0 <= i < |t.slots| ==> Opposite(Clone(t).slots[i], t.slots[i])
  {
    ReverseContents(t.slots);
    CloneItems(ht, t);
    CloneChains(t);
    forall key
      ensures Bindings(ht, Clone(t), key) == Reverse(Bindings(ht, t, key))
    {
      if t.slots != [] { SelectReverse(t.slots[ht.hash(key) % |t.slots|], HasKey(ht, key)); }
    }
  }

  ghost predicate Opposite<T>(r: seq<T>, s: seq<T>) {
    |r| == |s| && forall j :: 0 <= j < |s| ==> r[j] == s[|s| - 1 - j]
  }

  lemma CloneChains<K, D>(t: Table<K, D>)
    ensures Clone(Clone(t)) == t
    ensures |Clone(t).slots| == |t.slots| && forall i :: 0 <= i < |t.slots| ==> Opposite(Clone(t).slots[i], t.slots[i])
  {
    hide Reverse, ReverseChains, Opposite;
    forall i | 0 <= i < |t.slots|
      ensures Clone(Clone(t)).slots[i] == t.slots[i] && Opposite(Clone(t).slots[i], t.slots[i])
    {
      ReverseTwice(t.slots[i]);
      ReverseIsOpposite(t.slots[i]);
    }
  }

  lemma ReverseIsOpposite<T>(s: seq<T>)
    ensures Opposite(Reverse(s), s)
  {
    forall j | 0 <= j < |s|
      ensures Reverse(s)[j] == s[|s| - 1 - j]
    {
      ReverseAt(s, j);
    }
  }

  lemma {:induction false} ReverseAt<T>(s: seq<T>, j: nat)
    requires j < |s|
    ensures Reverse(s)[j] == s[|s| - 1 - j]
  {
    if j < |s| - 1 { ReverseAt(s[1..], j); }
  }

  lemma CloneItems<K(!new), D>(ht: HashType<K>, t: Table<K, D>)
    requires TableOk(ht, t)
    ensures TableOk(ht, Clone(t))
  {
    ReverseContents(t.slots);
    var r: seq<Chain<K, D>> := Clone(t).slots;
    assert |r| == |t.slots| && forall i :: 0 <= i < |r| ==> r[i] == Reverse(t.slots[i]);
    hide Flatten, Count, Reverse, ReverseChains;
    forall i, j | 0 <= i < |r| && 0 <= j < |r[i]|
      ensures r[i][j].hash == ht.hash(r[i][j].key) && r[i][j].hash % |r| == i
    {
      ReverseAt(t.slots[i], j);
      assert r[i][j] == t.slots[i][|t.slots[i]| - 1 - j];
    }
  }

  lemma {:induction false} ReverseContents<K, D>(slots: seq<Chain<K, D>>)
    ensures multiset(Flatten(ReverseChains(slots))) == multiset(Flatten(slots))
    ensures Count(ReverseChains(slots)) == Count(slots)
  {
    if slots != [] {
      ReverseContents(slots[1..]);
      ReverseMembers(slots[0]);
      assert ReverseChains(slots)[1..] == ReverseChains(slots[1..]);
    }
  }
}
