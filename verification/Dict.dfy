/** The hash table of dict.c in its own form: an array of slots with chains of entries, relinked in place. */
module Dict {
  import opened Base
  import opened DictSpec
  import opened DictLaws
  import opened DictRuns

  /** dictentry_t. Only the links change while an entry is in a table. */
  class Entry<K, D> {
    const key: K
    const hash: nat
    const data: D
    var next: Entry?<K, D>

    constructor (key: K, hash: nat, data: D, next: Entry?<K, D>)
      ensures this.key == key && this.hash == hash && this.data == data && this.next == next
    {
      this.key, this.hash, this.data, this.next := key, hash, data, next;
    }
  }

  function ItemOf<K, D>(e: Entry<K, D>): Item<K, D> {
    Item(e.key, e.hash, e.data)
  }

  ghost function Items<K, D>(c: seq<Entry<K, D>>): (r: Chain<K, D>)
    ensures |r| == |c| && forall i :: 0 <= i < |c| ==> r[i] == ItemOf(c[i])
  {
    seq(|c|, i requires 0 <= i < |c| => ItemOf(c[i]))
  }

  ghost function AllItems<K, D>(cs: seq<seq<Entry<K, D>>>): (r: seq<Chain<K, D>>)
    ensures |r| == |cs| && forall i :: 0 <= i < |cs| ==> r[i] == Items(cs[i])
  {
    seq(|cs|, i requires 0 <= i < |cs| => Items(cs[i]))
  }

  ghost predicate Distinct<T>(c: seq<T>) {
    forall i, j :: 0 <= i < j < |c| ==> c[i] != c[j]
  }

  /** The entry after position `i` of a chain. */
  ghost function After<K, D>(c: seq<Entry<K, D>>, i: nat): Entry?<K, D> {
    if i + 1 < |c| then c[i + 1] else null
  }

  /** From `head` the links lead through exactly these entries. */
  ghost predicate Linked<K, D>(head: Entry?<K, D>, c: seq<Entry<K, D>>, nodes: set<Entry<K, D>>)
    requires forall j :: 0 <= j < |c| ==> c[j] in nodes
    reads nodes
  {
    && head == (if c == [] then null else c[0])
    && forall i {:trigger After(c, i)} :: 0 <= i < |c| ==> c[i].next == After(c, i)
  }

  /** The slot leads through its chain of known entries, all with the hash of the slot. */
  ghost predicate ChainOk<K, D>(head: Entry?<K, D>, c: seq<Entry<K, D>>, i: nat, size: nat, nodes: set<Entry<K, D>>)
    requires size > 0
    reads nodes
  {
    && (forall j :: 0 <= j < |c| ==> c[j] in nodes)
    && (forall j :: 0 <= j < |c| ==> c[j].hash % size == i)
    && Distinct(c) && Linked(head, c, nodes)
  }

  /** Every slot leads through its chain. Chains share no entry because their hashes differ. */
  ghost predicate Chained<K, D>(slots: array<Entry?<K, D>>, cs: seq<seq<Entry<K, D>>>, nodes: set<Entry<K, D>>)
    reads slots, nodes
  {
    && |cs| == slots.Length
    && forall i :: 0 <= i < |cs| ==> ChainOk(slots[i], cs[i], i, |cs|, nodes)
  }

  // ----- Relinking -----

  /** An entry is linked in at the front of the chain of its hash. */
  method PushEntry<K, D>(
    e: Entry<K, D>, newslots: array<Entry?<K, D>>,
    ghost cs: seq<seq<Entry<K, D>>>, ghost nodes: set<Entry<K, D>>)
    requires newslots.Length > 0 && Chained(newslots, cs, nodes) && e !in nodes
    modifies newslots, e`next
    ensures Chained(newslots, cs[e.hash % |cs| := [e] + cs[e.hash % |cs|]], nodes + {e})
  {
    var newhash := e.hash % newslots.Length;
    ghost var heads, others := newslots[..], OthersOf(nodes, newslots.Length, newhash);
    OthersOk(newslots, cs, newhash, nodes);
    assert ChainOk(newslots[newhash], cs[newhash], newhash, |cs|, nodes);
    hide Chained, OtherChains;
    e.next := newslots[newhash];
    newslots[newhash] := e;
    LinkedFront(e, heads[newhash], cs[newhash], nodes);
    Rejoin(newslots, heads, cs, newhash, [e] + cs[newhash], others, nodes + {e});
  }

  // ----- Relinking one chain leaves the others alone -----

  /** The entries that belong to other slots than `at`. */
  ghost function OthersOf<K, D>(nodes: set<Entry<K, D>>, size: nat, at: nat): set<Entry<K, D>>
    requires size > 0
  {
    set x | x in nodes && x.hash % size != at
  }

  ghost predicate OtherChains<K, D>(
    heads: seq<Entry?<K, D>>, cs: seq<seq<Entry<K, D>>>, at: nat, others: set<Entry<K, D>>)
    reads others
  {
    |cs| == |heads| && forall i :: 0 <= i < |cs| && i != at ==> ChainOk(heads[i], cs[i], i, |cs|, others)
  }

  lemma ChainNarrow<K, D>(
    head: Entry?<K, D>, c: seq<Entry<K, D>>, i: nat, size: nat, many: set<Entry<K, D>>, few: set<Entry<K, D>>)
    requires size > 0 && ChainOk(head, c, i, size, many)
    requires forall j :: 0 <= j < |c| ==> c[j] in few
    ensures ChainOk(head, c, i, size, few)
  {
  }

  lemma OthersOk<K, D>(slots: array<Entry?<K, D>>, cs: seq<seq<Entry<K, D>>>, at: nat, nodes: set<Entry<K, D>>)
    requires slots.Length > 0 && Chained(slots, cs, nodes)
    ensures OtherChains(slots[..], cs, at, OthersOf(nodes, slots.Length, at))
  {
    forall i | 0 <= i < |cs| && i != at
      ensures ChainOk(slots[i], cs[i], i, |cs|, OthersOf(nodes, slots.Length, at))
    {
      assert ChainOk(slots[i], cs[i], i, |cs|, nodes);
      ChainNarrow(slots[i], cs[i], i, |cs|, nodes, OthersOf(nodes, slots.Length, at));
    }
  }

  lemma Rejoin<K, D>(
    slots: array<Entry?<K, D>>, heads: seq<Entry?<K, D>>, cs: seq<seq<Entry<K, D>>>, at: nat, c: seq<Entry<K, D>>,
    others: set<Entry<K, D>>, nodes: set<Entry<K, D>>)
    requires at < |cs| == slots.Length && OtherChains(heads, cs, at, others) && others <= nodes
    requires forall i :: 0 <= i < |cs| && i != at ==> slots[i] == heads[i]
    requires ChainOk(slots[at], c, at, |cs|, nodes)
    ensures Chained(slots, cs[at := c], nodes)
  {
    forall i | 0 <= i < |cs| && i != at
      ensures ChainOk(slots[i], cs[i], i, |cs|, nodes)
    {
      assert ChainOk(heads[i], cs[i], i, |cs|, others);
    }
  }

  lemma LinkedFront<K, D>(e: Entry<K, D>, head: Entry?<K, D>, c: seq<Entry<K, D>>, nodes: set<Entry<K, D>>)
    requires forall j :: 0 <= j < |c| ==> c[j] in nodes
    requires Linked(head, c, nodes) && e.next == head
    ensures Linked(e, [e] + c, nodes + {e})
  {
    var c' := [e] + c;
    forall j | 0 <= j < |c'|
      ensures c'[j].next == After(c', j)
    {
      if j > 0 { assert c'[j] == c[j - 1] && c[j - 1].next == After(c, j - 1); }
    }
  }

  lemma LinkedHead<K, D>(e: Entry?<K, D>, c: seq<Entry<K, D>>, nodes: set<Entry<K, D>>)
    requires forall j :: 0 <= j < |c| ==> c[j] in nodes
    requires Linked(e, c, nodes)
    ensures if e == null then c == [] else c != [] && e == c[0]
  {
  }

  lemma LinkedTail<K, D>(c: seq<Entry<K, D>>, nodes: set<Entry<K, D>>)
    requires c != [] && Distinct(c)
    requires forall j :: 0 <= j < |c| ==> c[j] in nodes
    requires Linked(c[0], c, nodes)
    ensures forall j :: 0 <= j < |c[1..]| ==> c[1..][j] in nodes - {c[0]}
    ensures Linked(c[0].next, c[1..], nodes - {c[0]}) && Distinct(c[1..])
  {
    var c' := c[1..];
    assert c[0].next == After(c, 0);
    forall j | 0 <= j < |c'|
      ensures c'[j].next == After(c', j)
    {
      assert c'[j] == c[j + 1] && c[j + 1].next == After(c, j + 1);
    }
  }

  /** The inner loop of dict_expand: the entries of one old chain go to the fronts of the new ones. */
  method MoveChain<K, D>(
    head: Entry?<K, D>, newslots: array<Entry?<K, D>>,
    ghost chain: seq<Entry<K, D>>, ghost own: set<Entry<K, D>>,
    ghost cs: seq<seq<Entry<K, D>>>, ghost nodes: set<Entry<K, D>>)
    returns (ghost cs': seq<seq<Entry<K, D>>>)
    requires newslots.Length > 0 && Chained(newslots, cs, nodes)
    requires forall j :: 0 <= j < |chain| ==> chain[j] in own
    requires Linked(head, chain, own) && Distinct(chain) && own !! nodes
    modifies newslots, own
    ensures Chained(newslots, cs', nodes + own)
    ensures AllItems(cs') == PushAll(AllItems(cs), Items(chain))
  {
    hide PushAll, AllItems, Items, Chained, Linked, Distinct;
    ChainedSize(newslots, cs, nodes);
    cs' := cs;
    var e := head;
    ghost var rest: seq<Entry<K, D>> := chain;
    ghost var left, done: set<Entry<K, D>> := own, nodes;
    while e != null
      invariant Chained(newslots, cs', done) && |cs'| == newslots.Length
      invariant done + left == nodes + own && done !! left && left <= own
      invariant forall j :: 0 <= j < |rest| ==> rest[j] in left
      invariant Linked(e, rest, left) && Distinct(rest)
      invariant PushAll(AllItems(cs'), Items(rest)) == PushAll(AllItems(cs), Items(chain))
      decreases |rest|
    {
      LinkedHead(e, rest, left);
      LinkedTail(rest, left);
      ChainedSize(newslots, cs', done);
      PushItem(cs', rest, e.hash % |cs'|);
      var next := e.next;
      PushEntry(e, newslots, cs', done);
      cs' := cs'[e.hash % |cs'| := [e] + cs'[e.hash % |cs'|]];
      left, done, rest := left - {e}, done + {e}, rest[1..];
      e := next;
    }
    LinkedHead(e, rest, left);
    ChainedSize(newslots, cs', done);
    NothingToPush(cs');
    MoreNodes(newslots, cs', done, nodes + own);
  }

  lemma NothingToPush<K, D>(cs: seq<seq<Entry<K, D>>>)
    requires |cs| > 0
    ensures PushAll(AllItems(cs), Items([])) == AllItems(cs)
  {
  }

  lemma ChainedSize<K, D>(slots: array<Entry?<K, D>>, cs: seq<seq<Entry<K, D>>>, nodes: set<Entry<K, D>>)
    requires Chained(slots, cs, nodes)
    ensures |cs| == slots.Length
  {
  }

  lemma MoreNodes<K, D>(
    slots: array<Entry?<K, D>>, cs: seq<seq<Entry<K, D>>>, few: set<Entry<K, D>>, many: set<Entry<K, D>>)
    requires Chained(slots, cs, few) && few <= many
    ensures Chained(slots, cs, many)
  {
    forall i | 0 <= i < |cs|
      ensures ChainOk(slots[i], cs[i], i, |cs|, many)
    {
      assert ChainOk(slots[i], cs[i], i, |cs|, few);
    }
  }

  lemma PushItem<K, D>(cs: seq<seq<Entry<K, D>>>, rest: seq<Entry<K, D>>, i: nat)
    requires rest != [] && i < |cs| && i == rest[0].hash % |cs|
    ensures PushAll(AllItems(cs), Items(rest)) == PushAll(AllItems(cs[i := [rest[0]] + cs[i]]), Items(rest[1..]))
  {
    assert Items(rest)[1..] == Items(rest[1..]);
    assert Items([rest[0]] + cs[i]) == [ItemOf(rest[0])] + Items(cs[i]);
    assert AllItems(cs[i := [rest[0]] + cs[i]]) == AllItems(cs)[i := [ItemOf(rest[0])] + AllItems(cs)[i]];
  }

  lemma PushChain<K, D>(cs: seq<seq<Entry<K, D>>>, cs': seq<seq<Entry<K, D>>>, rest: seq<seq<Entry<K, D>>>)
    requires |cs| > 0 && rest != [] && AllItems(cs') == PushAll(AllItems(cs), Items(rest[0]))
    ensures PushSlots(AllItems(cs), AllItems(rest)) == PushSlots(AllItems(cs'), AllItems(rest[1..]))
  {
    assert AllItems(rest)[1..] == AllItems(rest[1..]);
  }

  /** The old chains that dict_expand has not reached, none of whose entries has been moved. */
  ghost predicate Remaining<K, D>(
    slots: array<Entry?<K, D>>, chains: seq<seq<Entry<K, D>>>, t: nat, left: set<Entry<K, D>>)
    reads slots, left
  {
    |chains| == slots.Length && forall u :: t <= u < |chains| ==> ChainOk(slots[u], chains[u], u, |chains|, left)
  }

  lemma RestRemains<K, D>(
    slots: array<Entry?<K, D>>, chains: seq<seq<Entry<K, D>>>, t: nat, left: set<Entry<K, D>>, own: set<Entry<K, D>>)
    requires t < slots.Length && Remaining(slots, chains, t, left)
    requires forall x :: x in own ==> x in chains[t]
    ensures Remaining(slots, chains, t + 1, left - own)
  {
    forall u | t + 1 <= u < |chains|
      ensures ChainOk(slots[u], chains[u], u, |chains|, left - own)
    {
      assert ChainOk(slots[t], chains[t], t, |chains|, left);
      ChainNarrow(slots[u], chains[u], u, |chains|, left, left - own);
    }
  }

  /** The outer loop of dict_expand: one old slot is emptied into the new ones. */
  method MoveSlot<K, D>(
    slots: array<Entry?<K, D>>, newslots: array<Entry?<K, D>>, t: nat,
    ghost chains: seq<seq<Entry<K, D>>>, ghost cs: seq<seq<Entry<K, D>>>,
    ghost left: set<Entry<K, D>>, ghost moved: set<Entry<K, D>>)
    returns (ghost cs': seq<seq<Entry<K, D>>>, ghost own: set<Entry<K, D>>)
    requires t < slots.Length && slots != newslots && newslots.Length > 0 && left !! moved
    requires Chained(newslots, cs, moved) && Remaining(slots, chains, t, left)
    modifies newslots, left
    ensures own <= left && Chained(newslots, cs', moved + own) && Remaining(slots, chains, t + 1, left - own)
    ensures AllItems(cs') == PushAll(AllItems(cs), Items(chains[t]))
  {
    hide PushAll, AllItems, Items, Chained, Linked, Distinct;
    own := set x | x in chains[t];
    assert ChainOk(slots[t], chains[t], t, |chains|, left);
    LinkedIn(slots[t], chains[t], left, own);
    RestRemains(slots, chains, t, left, own);
    hide Remaining;
    cs' := MoveChain(slots[t], newslots, chains[t], own, cs, moved);
  }

  /** The loops of dict_expand. */
  method MoveAll<K, D>(
    slots: array<Entry?<K, D>>, newslots: array<Entry?<K, D>>,
    ghost chains: seq<seq<Entry<K, D>>>, ghost empty: seq<seq<Entry<K, D>>>, ghost nodes: set<Entry<K, D>>)
    returns (ghost cs: seq<seq<Entry<K, D>>>)
    requires slots != newslots && newslots.Length > 0
    requires Chained(newslots, empty, {}) && Remaining(slots, chains, 0, nodes)
    modifies newslots, nodes
    ensures Chained(newslots, cs, nodes)
    ensures AllItems(cs) == PushSlots(AllItems(empty), AllItems(chains))
  {
    hide PushAll, PushSlots, AllItems, Items, Chained, Linked, Distinct, Remaining, ChainOk;
    RemainingSize(slots, chains, 0, nodes);
    ChainedSize(newslots, empty, {});
    cs := empty;
    ghost var left, moved: set<Entry<K, D>> := nodes, {};
    assert chains[0..] == chains;
    var t := 0;
    while t < slots.Length
      invariant 0 <= t <= slots.Length && |chains| == slots.Length && |cs| == newslots.Length
      invariant left !! moved && left + moved == nodes
      invariant Chained(newslots, cs, moved) && Remaining(slots, chains, t, left)
      invariant PushSlots(AllItems(cs), AllItems(chains[t..])) == PushSlots(AllItems(empty), AllItems(chains))
    {
      assert chains[t..][0] == chains[t] && chains[t..][1..] == chains[t + 1..];
      ghost var cs', own := MoveSlot(slots, newslots, t, chains, cs, left, moved);
      PushChain(cs, cs', chains[t..]);
      ChainedSize(newslots, cs', moved + own);
      cs, left, moved := cs', left - own, moved + own;
      t := t + 1;
    }
    NothingToPushInto(cs, chains[t..]);
    MoreNodes(newslots, cs, moved, nodes);
  }

  lemma AllRemain<K, D>(slots: array<Entry?<K, D>>, chains: seq<seq<Entry<K, D>>>, nodes: set<Entry<K, D>>)
    requires Chained(slots, chains, nodes)
    ensures Remaining(slots, chains, 0, nodes)
  {
  }

  lemma RemainingSize<K, D>(slots: array<Entry?<K, D>>, chains: seq<seq<Entry<K, D>>>, t: nat, left: set<Entry<K, D>>)
    requires Remaining(slots, chains, t, left)
    ensures |chains| == slots.Length
  {
  }

  lemma LinkedIn<K, D>(head: Entry?<K, D>, c: seq<Entry<K, D>>, nodes: set<Entry<K, D>>, own: set<Entry<K, D>>)
    requires forall j :: 0 <= j < |c| ==> c[j] in nodes
    requires forall j :: 0 <= j < |c| ==> c[j] in own
    requires Linked(head, c, nodes)
    ensures Linked(head, c, own)
  {
  }

  function EmptyChains<K, D>(n: nat): (r: seq<seq<Entry<K, D>>>)
    ensures |r| == n && forall i :: 0 <= i < n ==> r[i] == []
  {
    if n == 0 then [] else [[]] + EmptyChains(n - 1)
  }

  lemma EmptyChainsEmpty<K, D>(n: nat)
    ensures AllItems(EmptyChains<K, D>(n)) == Empty(n)
  {
  }

  lemma RehashIs<K, D>(slots: seq<Chain<K, D>>, size: nat)
    requires size > 0
    ensures Rehash(slots, size) == PushSlots(Empty(size), slots)
  {
  }

  lemma NothingToPushInto<K, D>(cs: seq<seq<Entry<K, D>>>, rest: seq<seq<Entry<K, D>>>)
    requires |cs| > 0 && rest == []
    ensures PushSlots(AllItems(cs), AllItems(rest)) == AllItems(cs)
  {
  }

  lemma NothingChained<K, D>(slots: array<Entry?<K, D>>, cs: seq<seq<Entry<K, D>>>, nodes: set<Entry<K, D>>)
    requires |cs| == slots.Length && forall i :: 0 <= i < |cs| ==> cs[i] == [] && slots[i] == null
    ensures Chained(slots, cs, nodes)
  {
  }

  /** A chain whose entry `k` has been moved to the front, as the links say. */
  lemma MovedToFront<K, D>(c: seq<Entry<K, D>>, k: nat, i: nat, size: nat, nodes: set<Entry<K, D>>)
    requires 0 < k < |c| && size > 0 && Distinct(c)
    requires forall j :: 0 <= j < |c| ==> c[j] in nodes && c[j].hash % size == i
    requires c[k].next == c[0] && c[k - 1].next == After(c, k)
    requires forall j {:trigger After(c, j)} :: 0 <= j < |c| && j != k - 1 && j != k ==> c[j].next == After(c, j)
    ensures ChainOk(c[k], MoveToFront(c, k), i, size, nodes)
  {
    var c' := MoveToFront(c, k);
    assert forall j :: 0 <= j < |c'| ==> c'[j] == c[if j == 0 then k else if j <= k then j - 1 else j];
    forall j | 0 <= j < |c'|
      ensures c'[j].next == After(c', j)
    {
      var was := if j == 0 then k else if j <= k then j - 1 else j;
      assert c'[j] == c[was];
      assert was != k && was != k - 1 ==> c[was].next == After(c, was);
    }
  }

  /** A chain from which entry `k` has been unlinked. */
  lemma Unlinked<K, D>(head: Entry?<K, D>, c: seq<Entry<K, D>>, k: nat, i: nat, size: nat, nodes: set<Entry<K, D>>)
    requires k < |c| && size > 0 && Distinct(c)
    requires forall j :: 0 <= j < |c| ==> c[j] in nodes && c[j].hash % size == i
    requires if k == 0 then head == After(c, 0) else head == c[0] && c[k - 1].next == After(c, k)
    requires forall j {:trigger After(c, j)} :: 0 <= j < |c| && j != k - 1 && j != k ==> c[j].next == After(c, j)
    ensures ChainOk(head, Without(c, k), i, size, nodes - {c[k]})
  {
    var c' := Without(c, k);
    assert forall j :: 0 <= j < |c'| ==> c'[j] == c[if j < k then j else j + 1];
    forall j | 0 <= j < |c'|
      ensures c'[j].next == After(c', j)
    {
      var was := if j < k then j else j + 1;
      assert c'[j] == c[was];
      assert was != k && was != k - 1 ==> c[was].next == After(c, was);
    }
  }

  lemma ItemsMoved<K, D>(cs: seq<seq<Entry<K, D>>>, i: nat, k: nat)
    requires i < |cs| && k < |cs[i]|
    ensures AllItems(cs[i := MoveToFront(cs[i], k)]) == AllItems(cs)[i := MoveToFront(AllItems(cs)[i], k)]
    ensures AllItems(cs[i := Without(cs[i], k)]) == AllItems(cs)[i := Without(AllItems(cs)[i], k)]
  {
    assert Items(MoveToFront(cs[i], k)) == MoveToFront(Items(cs[i]), k);
    assert Items(Without(cs[i], k)) == Without(Items(cs[i]), k);
  }

  lemma ItemsPushed<K, D>(cs: seq<seq<Entry<K, D>>>, i: nat, e: Entry<K, D>)
    requires i < |cs|
    ensures AllItems(cs[i := [e] + cs[i]]) == AllItems(cs)[i := [ItemOf(e)] + AllItems(cs)[i]]
  {
    assert Items([e] + cs[i]) == [ItemOf(e)] + Items(cs[i]);
  }

  /** The inner loop of dict_clone: copies of the entries of one chain are pushed on the same slot of the clone. */
  method CloneChain<K, D>(
    head: Entry?<K, D>, t: nat, newslots: array<Entry?<K, D>>,
    ghost c: seq<Entry<K, D>>, ghost nodes: set<Entry<K, D>>,
    ghost cs: seq<seq<Entry<K, D>>>, ghost copies: set<Entry<K, D>>)
    returns (ghost cs': seq<seq<Entry<K, D>>>, ghost copies': set<Entry<K, D>>)
    requires t < newslots.Length && ChainOk(head, c, t, newslots.Length, nodes)
    requires Chained(newslots, cs, copies) && |cs| == newslots.Length && copies !! nodes
    modifies newslots
    ensures Chained(newslots, cs', copies') && |cs'| == |cs| && copies <= copies' && fresh(copies' - copies)
    ensures AllItems(cs') == AllItems(cs)[t := Reverse(Items(c)) + AllItems(cs)[t]]
  {
    hide *;
    cs', copies' := cs, copies;
    var e := head;
    ghost var k := 0;
    NothingCopied(cs, t, c);
    ChainHead(head, c, t, newslots.Length, nodes);
    while e != null
      invariant 0 <= k <= |c| && e == if k < |c| then c[k] else null
      invariant ChainOk(head, c, t, newslots.Length, nodes)
      invariant Chained(newslots, cs', copies') && |cs'| == newslots.Length
      invariant copies <= copies' && fresh(copies' - copies) && copies' !! nodes
      invariant AllItems(cs') == AllItems(cs)[t := Reverse(Items(c[..k])) + AllItems(cs)[t]]
      decreases |c| - k
    {
      ChainAt(head, c, t, newslots.Length, nodes, k);
      ghost var n := CopyEntry(e, t, newslots, cs', copies');
      ReverseNext(c, k, AllItems(cs)[t]);
      cs', copies' := cs'[t := [n] + cs'[t]], copies' + {n};
      e := e.next;
      k := k + 1;
    }
    assert c[..k] == c;
  }

  lemma NothingCopied<K, D>(cs: seq<seq<Entry<K, D>>>, t: nat, c: seq<Entry<K, D>>)
    requires t < |cs|
    ensures AllItems(cs) == AllItems(cs)[t := Reverse(Items(c[..0])) + AllItems(cs)[t]]
  {
    assert Reverse(Items(c[..0])) == [];
    assert [] + AllItems(cs)[t] == AllItems(cs)[t];
  }

  lemma ChainHead<K, D>(head: Entry?<K, D>, c: seq<Entry<K, D>>, i: nat, size: nat, nodes: set<Entry<K, D>>)
    requires size > 0 && ChainOk(head, c, i, size, nodes)
    ensures head == if c == [] then null else c[0]
  {
  }

  lemma ChainLinks<K, D>(head: Entry?<K, D>, c: seq<Entry<K, D>>, i: nat, size: nat, nodes: set<Entry<K, D>>)
    requires size > 0 && ChainOk(head, c, i, size, nodes)
    ensures forall j {:trigger After(c, j)} :: 0 <= j < |c| ==> c[j].next == After(c, j)
  {
  }

  /** One entry of a chain, and the link to the next. */
  lemma ChainAt<K, D>(head: Entry?<K, D>, c: seq<Entry<K, D>>, i: nat, size: nat, nodes: set<Entry<K, D>>, k: nat)
    requires size > 0 && ChainOk(head, c, i, size, nodes) && k < |c|
    ensures c[k] in nodes && c[k].hash % size == i && c[k].next == if k + 1 < |c| then c[k + 1] else null
  {
    assert c[k].next == After(c, k);
  }

  /** The loops of dict_clone. */
  method CloneAll<K, D>(
    slots: array<Entry?<K, D>>, newslots: array<Entry?<K, D>>,
    ghost chains: seq<seq<Entry<K, D>>>, ghost nodes: set<Entry<K, D>>, ghost empty: seq<seq<Entry<K, D>>>)
    returns (ghost cs: seq<seq<Entry<K, D>>>, ghost copies: set<Entry<K, D>>)
    requires slots != newslots && slots.Length == newslots.Length
    requires Remaining(slots, chains, 0, nodes) && Chained(newslots, empty, {})
    requires AllItems(empty) == Empty(slots.Length)
    modifies newslots
    ensures Chained(newslots, cs, copies) && fresh(copies)
    ensures AllItems(cs) == ReverseChains(AllItems(chains))
  {
    hide AllItems, Items, Chained, Linked, Distinct, ChainOk;
    cs, copies := empty, {};
    ChainedSize(newslots, empty, {});
    var t := 0;
    while t < slots.Length
      invariant 0 <= t <= slots.Length && |cs| == newslots.Length && |chains| == slots.Length
      invariant Chained(newslots, cs, copies) && fresh(copies)
      invariant Remaining(slots, chains, t, nodes)
      invariant forall u :: 0 <= u < slots.Length ==> AllItems(cs)[u] == if u < t then Reverse(Items(chains[u])) else []
    {
      assert ChainOk(slots[t], chains[t], t, |chains|, nodes);
      cs, copies := CloneChain(slots[t], t, newslots, chains[t], nodes, cs, copies);
      assert Reverse(Items(chains[t])) + [] == Reverse(Items(chains[t]));
      t := t + 1;
    }
  }

  /** A copy of an entry at the front of the slot. */
  method CopyEntry<K, D>(
    e: Entry<K, D>, t: nat, newslots: array<Entry?<K, D>>,
    ghost cs: seq<seq<Entry<K, D>>>, ghost copies: set<Entry<K, D>>)
    returns (n: Entry<K, D>)
    requires t < newslots.Length == |cs| && e.hash % newslots.Length == t && Chained(newslots, cs, copies)
    modifies newslots
    ensures fresh(n) && Chained(newslots, cs[t := [n] + cs[t]], copies + {n})
    ensures AllItems(cs[t := [n] + cs[t]]) == AllItems(cs)[t := [ItemOf(e)] + AllItems(cs)[t]]
  {
    hide AllItems, Chained;
    n := new Entry(e.key, e.hash, e.data, null);
    PushEntry(n, newslots, cs, copies);
    ItemsPushed(cs, t, n);
  }

  lemma ReverseNext<K, D>(c: seq<Entry<K, D>>, k: nat, rest: Chain<K, D>)
    requires k < |c|
    ensures [ItemOf(c[k])] + (Reverse(Items(c[..k])) + rest) == Reverse(Items(c[..k + 1])) + rest
  {
    assert Items(c[..k + 1]) == Items(c[..k]) + [ItemOf(c[k])];
    ReverseAppend(Items(c[..k]), [ItemOf(c[k])]);
    assert Reverse([ItemOf(c[k])]) == [ItemOf(c[k])];
    Assoc([ItemOf(c[k])], Reverse(Items(c[..k])), rest);
  }

  /** dict_t */
  class Dict<K(!new), D(==)> {
    const keyType: HashType<K>
    var slots: array<Entry?<K, D>>
    var num: nat
    ghost var chains: seq<seq<Entry<K, D>>>
    ghost var nodes: set<Entry<K, D>>

    /** The table the slots and links stand for. */
    ghost function Model(): Table<K, D>
      reads this
    {
      Table(AllItems(chains), num)
    }

    ghost predicate Valid()
      reads this, slots, nodes
    {
      LawfulType(keyType) && Chained(slots, chains, nodes) && TableOk(keyType, Model())
    }

    /** dict_init2; dict_new is the case `size == 1`. */
    constructor (t: HashType<K>, size: nat)
      requires LawfulType(t)
      ensures Valid() && keyType == t && Model() == Table(Empty(size), 0)
      ensures fresh(slots) && nodes == {}
    {
      keyType := t;
      slots := new Entry?<K, D>[size](_ => null);
      num := 0;
      chains := EmptyChains(size);
      nodes := {};
      new;
      EmptyChainsEmpty<K, D>(size);
      InitLaw<K, D>(t, size);
    }

    /** What Valid() says, and back. */
    lemma Parts()
      requires Valid()
      ensures LawfulType(keyType) && Chained(slots, chains, nodes) && TableOk(keyType, Model())
      ensures |chains| == slots.Length && Model() == Table(AllItems(chains), num)
    {
    }

    lemma Whole()
      requires LawfulType(keyType) && Chained(slots, chains, nodes) && TableOk(keyType, Model())
      ensures Valid()
    {
    }

    /** dict_expand */
    method Expand(newlen: nat)
      requires Valid() && slots.Length < newlen
      modifies this, nodes
      ensures Valid() && nodes == old(nodes) && fresh(slots) && slots.Length == newlen
      ensures Model() == old(Model()).(slots := Rehash(old(Model()).slots, newlen))
    {
      hide *;
      Parts();
      var newslots := new Entry?<K, D>[newlen](_ => null);
      ghost var empty: seq<seq<Entry<K, D>>> := EmptyChains(newlen);
      EmptyChainsEmpty<K, D>(newlen);
      RehashLaw(keyType, Model(), newlen);
      RehashIs(AllItems(chains), newlen);
      AllRemain(slots, chains, nodes);
      NothingChained(newslots, empty, {});
      ghost var cs := MoveAll(slots, newslots, chains, empty, nodes);
      ghost var table := Model().(slots := Rehash(Model().slots, newlen));
      slots := newslots;
      chains := cs;
      ModelIs(table);
      Whole();
    }

    lemma ModelIs(table: Table<K, D>)
      requires AllItems(chains) == table.slots && num == table.num
      ensures Model() == table
    {
    }

    /** dict_put */
    method Put(key: K, data: D) returns (e: Entry<K, D>)
      requires Valid()
      modifies this, slots, nodes
      ensures Valid() && fresh(e) && nodes == old(nodes) + {e} && (slots == old(slots) || fresh(slots))
      ensures Model() == DictSpec.Put(keyType, old(Model()), key, data)
      ensures ItemOf(e) == Item(key, keyType.hash(key), data)
    {
      hide Valid, Chained, TableOk, LawfulType, Rehash, AllItems, Bindings, Contents;
      ghost var model := Model();
      Parts();
      PutLaw(keyType, model, key, data);
      var hash := keyType.hash(key);
      if slots.Length == 0 {
        Expand(1);
        Parts();
      }
      var hash2 := hash % slots.Length;
      e := new Entry(key, hash, data, null);
      PushEntry(e, slots, chains, nodes);
      ItemsPushed(chains, hash2, e);
      chains := chains[hash2 := [e] + chains[hash2]];
      nodes := nodes + {e};
      num := num + 1;
      assert Model() == DictSpec.Put(keyType, model, key, data);
      Whole();
    }

    /** `e` with the entry `prev` before it is entry `k` of the chain: it is taken from there and put in front. */
    method BringToFront(hash: nat, e: Entry<K, D>, prev: Entry<K, D>, ghost k: nat)
      requires hash < slots.Length && Chained(slots, chains, nodes)
      requires 0 < k < |chains[hash]| && e == chains[hash][k] && prev == chains[hash][k - 1]
      modifies this`chains, slots, nodes
      ensures Chained(slots, chains, nodes) && chains == old(chains)[hash := MoveToFront(old(chains)[hash], k)]
    {
      ghost var c := chains[hash];
      assert ChainOk(slots[hash], c, hash, |chains|, nodes);
      assert forall j {:trigger After(c, j)} :: 0 <= j < |c| ==> c[j].next == After(c, j);
      ghost var heads, others := slots[..], OthersOf(nodes, slots.Length, hash);
      OthersOk(slots, chains, hash, nodes);
      hide Chained, OtherChains;
      prev.next := e.next;
      e.next := slots[hash];
      slots[hash] := e;
      MovedToFront(c, k, hash, |chains|, nodes);
      Rejoin(slots, heads, chains, hash, MoveToFront(c, k), others, nodes);
      chains := chains[hash := MoveToFront(c, k)];
    }

    /** The last loop of dict_do_lookup, from the second entry on. */
    method SearchRest(hash: nat, key: K, second: Entry?<K, D>) returns (e: Entry?<K, D>)
      requires Valid() && slots.Length > 0 && hash == keyType.hash(key) % slots.Length
      requires slots[hash] != null ==> !keyType.equals(slots[hash].key, key) && second == slots[hash].next
      requires slots[hash] == null ==> second == null
      modifies this`chains, slots, nodes
      ensures Valid()
      ensures Model() == Search(keyType, old(Model()), key).table
      ensures e != null ==> e in nodes
      ensures Search(keyType, old(Model()), key).item == if e == null then None else Some(ItemOf(e))
    {
      SearchLaw(keyType, Model(), key);
      ghost var c := chains[hash];
      var p := HasKey<K, D>(keyType, key);
      assert ChainOk(slots[hash], c, hash, |chains|, nodes);
      assert c != [] ==> c[0].next == After(c, 0);
      hide AllItems, TableOk, LawfulType, MoveToFront;
      var last := slots[hash];
      e := second;
      ghost var k := if c == [] then 0 else 1;
      while e != null
        invariant c != [] ==> 0 < k <= |c| && last == c[k - 1]
        invariant c == [] ==> k == 0
        invariant e == if k < |c| then c[k] else null
        invariant forall j :: 0 <= j < k ==> !p(ItemOf(c[j]))
        decreases |c| - k
      {
        assert c[k].next == After(c, k);
        if keyType.equals(e.key, key) {
          PositionIs(Items(c), k, p);
          ItemsMoved(chains, hash, k);
          BringToFront(hash, e, last, k);
          return;
        }
        last := e;
        e := e.next;
        k := k + 1;
      }
      PositionIs(Items(c), |c|, p);
    }

    /** The test of the first entry in dict_do_lookup, before and after resizing: a hit, or the second entry. */
    method CheckFirst(hash: nat, key: K) returns (hit: bool, e: Entry?<K, D>)
      requires Valid() && slots.Length > 0 && hash == keyType.hash(key) % slots.Length
      ensures hit ==> e != null && e in nodes && Search(keyType, Model(), key) == Found(Model(), Some(ItemOf(e)))
      ensures hit ==> !Resizes(keyType, Model(), key)
      ensures !hit ==> (slots[hash] != null ==> !keyType.equals(slots[hash].key, key) && e == slots[hash].next)
      ensures !hit ==> (slots[hash] == null ==> e == null)
      ensures !hit ==> (Resizes(keyType, Model(), key) <==> num != 0 && e != null && num * 3 >= slots.Length * 2)
    {
      FirstOfChain(hash);
      e := slots[hash];
      hit := false;
      if e != null && keyType.equals(e.key, key) {
        FirstMatches(key);
        hit := true;
      } else if e != null {
        e := e.next;
      }
    }

    /** The resizing in dict_do_lookup. */
    method Grow()
      requires Valid() && num * 3 >= slots.Length * 2
      modifies this, nodes
      ensures Valid() && nodes == old(nodes) && fresh(slots)
      ensures Model() == old(Model()).(slots := Rehash(old(Model()).slots, GrownSize(old(num), old(slots.Length))))
      ensures slots.Length == GrownSize(old(num), old(slots.Length))
    {
      hide Rehash, AllItems, Chained, TableOk, LawfulType;
      var newsize := NewSize(num, slots.Length);
      Expand(newsize);
    }

    /** The size loop of dict_do_lookup. */
    static method NewSize(num: nat, size: nat) returns (newsize: nat)
      requires num * 3 >= size * 2
      ensures newsize == GrownSize(num, size) && newsize > size
    {
      hide GrownSize;
      newsize := size;
      while num * 3 >= newsize * 2
        invariant GrownSize(num, newsize) == GrownSize(num, size)
        invariant newsize >= size && (num * 3 < newsize * 2 ==> newsize > size)
        decreases if num * 3 >= newsize * 2 then num * 3 - newsize * 2 + 1 else 0
      {
        GrownSizeNext(num, newsize);
        newsize := if newsize < 15 then 15 else (newsize + 1) * 2 - 1;
      }
      GrownSizeDone(num, newsize);
    }

    /** dict_do_lookup */
    method DoLookup(key: K) returns (e: Entry?<K, D>)
      requires Valid()
      modifies this, slots, nodes
      ensures Valid() && nodes == old(nodes) && (slots == old(slots) || fresh(slots))
      ensures Model() == DictSpec.Lookup(keyType, old(Model()), key).table
      ensures e != null ==> e in nodes
      ensures DictSpec.Lookup(keyType, old(Model()), key).item == if e == null then None else Some(ItemOf(e))
    {
      hide Valid, Rehash, GrownSize, Search, Resizes, AllItems;
      if num == 0 {
        return null;
      }
      SlotsExist();
      var ohash := keyType.hash(key);
      var hit;
      hit, e := CheckFirst(ohash % slots.Length, key);
      if hit {
        return;
      }
      if e != null && num * 3 >= slots.Length * 2 {
        Grow();
        hit, e := CheckFirst(ohash % slots.Length, key);
        if hit {
          return;
        }
      }
      e := SearchRest(ohash % slots.Length, key, e);
    }

    /** dict_lookup: the data of the entry found, if any */
    method Lookup(key: K) returns (data: Option<D>)
      requires Valid()
      modifies this, slots, nodes
      ensures Valid() && nodes == old(nodes) && (slots == old(slots) || fresh(slots))
      ensures Model() == DictSpec.Lookup(keyType, old(Model()), key).table
      ensures var item := DictSpec.Lookup(keyType, old(Model()), key).item;
              data == if item.Some? then Some(item.value.data) else None
    {
      var e := DoLookup(key);
      data := if e == null then None else Some(e.data);
    }

    /** dict_contains */
    method Contains(key: K) returns (found: bool)
      requires Valid()
      modifies this, slots, nodes
      ensures Valid() && nodes == old(nodes) && (slots == old(slots) || fresh(slots))
      ensures Model() == DictSpec.Lookup(keyType, old(Model()), key).table
      ensures found == DictSpec.Lookup(keyType, old(Model()), key).item.Some?
    {
      var e := DoLookup(key);
      found := e != null;
    }

    /** `e`, entry `k` of its chain and with `prev` before it, is taken out. */
    method Unlink(hash: nat, e: Entry<K, D>, prev: Entry?<K, D>, ghost k: nat)
      requires hash < slots.Length && Chained(slots, chains, nodes) && num > 0
      requires k < |chains[hash]| && e == chains[hash][k] && prev == if k == 0 then null else chains[hash][k - 1]
      modifies this, slots, nodes
      ensures Chained(slots, chains, nodes) && chains == old(chains)[hash := Without(old(chains)[hash], k)]
      ensures slots == old(slots) && nodes == old(nodes) - {e} && num == old(num) - 1
    {
      ghost var c := chains[hash];
      assert ChainOk(slots[hash], c, hash, |chains|, nodes);
      assert forall j {:trigger After(c, j)} :: 0 <= j < |c| ==> c[j].next == After(c, j);
      assert forall j :: 0 <= j < |c| ==> c[j] in nodes && c[j].hash % |chains| == hash;
      assert Distinct(c) && slots[hash] == c[0] && |chains| == slots.Length;
      ghost var heads, others := slots[..], OthersOf(nodes, slots.Length, hash);
      OthersOk(slots, chains, hash, nodes);
      hide Chained, ChainOk, Linked, Without, OtherChains;
      if prev == null {
        slots[hash] := e.next;
      } else {
        prev.next := e.next;
        assert forall j :: 0 <= j < |c| && j != k - 1 ==> c[j] != prev;
      }
      Unlinked(slots[hash], c, k, hash, |chains|, nodes);
      Rejoin(slots, heads, chains, hash, Without(c, k), others, nodes - {e});
      chains := chains[hash := Without(c, k)];
      nodes := nodes - {e};
      num := num - 1;
    }

    /** The loop shared by dict_del and dict_del2, which differ in the test on the entry. */
    method DeleteFirst(key: K, p: Item<K, D> -> bool) returns (hit: bool)
      requires Valid() && forall it :: p(it) ==> keyType.equals(it.key, key)
      modifies this, slots, nodes
      ensures Valid() && slots == old(slots) && nodes <= old(nodes)
      ensures Model() == Delete(keyType, old(Model()), key, p).table
      ensures hit == Delete(keyType, old(Model()), key, p).hit
    {
      hide Valid, AllItems, TableOk, LawfulType, Without, Chained, ChainOk, Bindings, Contents;
      Parts();
      DeleteLaw(keyType, Model(), key, p);
      if num == 0 {
        return false;
      }
      SlotsExist();
      var hash := keyType.hash(key) % slots.Length;
      FirstOfChain(hash);
      ghost var c := chains[hash];
      ChainLinks(slots[hash], c, hash, |chains|, nodes);
      var e, prev: Entry?<K, D> := slots[hash], null;
      ghost var k := 0;
      while e != null
        invariant 0 <= k <= |c| && e == (if k < |c| then c[k] else null)
        invariant prev == if k == 0 then null else c[k - 1]
        invariant forall j :: 0 <= j < k ==> !p(ItemOf(c[j]))
        decreases |c| - k
      {
        assert c[k].next == After(c, k);
        if p(ItemOf(e)) {
          PositionIs(Items(c), k, p);
          ItemsMoved(chains, hash, k);
          Unlink(hash, e, prev, k);
          Whole();
          return true;
        }
        prev := e;
        e := e.next;
        k := k + 1;
      }
      PositionIs(Items(c), |c|, p);
      return false;
    }

    /** dict_del */
    method Del(key: K) returns (hit: bool)
      requires Valid()
      modifies this, slots, nodes
      ensures Valid() && slots == old(slots) && nodes <= old(nodes)
      ensures Model() == Delete(keyType, old(Model()), key, HasKey(keyType, key)).table
      ensures hit == Delete(keyType, old(Model()), key, HasKey(keyType, key)).hit
    {
      hit := DeleteFirst(key, HasKey(keyType, key));
    }

    /** dict_del2 */
    method Del2(key: K, data: D) returns (hit: bool)
      requires Valid()
      modifies this, slots, nodes
      ensures Valid() && slots == old(slots) && nodes <= old(nodes)
      ensures Model() == Delete(keyType, old(Model()), key, HasBinding(keyType, key, data)).table
      ensures hit == Delete(keyType, old(Model()), key, HasBinding(keyType, key, data)).hit
    {
      hit := DeleteFirst(key, HasBinding(keyType, key, data));
    }

    /** dict_clone */
    method Clone() returns (h: Dict<K, D>)
      requires Valid()
      ensures h.Valid() && h.keyType == keyType && fresh(h) && fresh(h.slots) && fresh(h.nodes)
      ensures h.Model() == DictSpec.Clone(Model())
    {
      hide *;
      Parts();
      CloneLaw(keyType, Model());
      AllRemain(slots, chains, nodes);
      h := new Dict(keyType, slots.Length);
      h.Parts();
      ghost var cs, copies := CloneAll(slots, h.slots, chains, nodes, h.chains);
      h.chains := cs;
      h.nodes := copies;
      h.num := num;
      h.ModelIs(Table(ReverseChains(AllItems(chains)), num));
      CloneIs(Model());
      h.Whole();
    }

    lemma CloneIs(t: Table<K, D>)
      ensures DictSpec.Clone(t) == Table(ReverseChains(t.slots), t.num)
    {
    }

    lemma SlotsExist()
      requires Valid() && num > 0
      ensures slots.Length == |Model().slots| > 0
    {
    }

    /** What the first link of a slot says about its chain. */
    lemma FirstOfChain(hash: nat)
      requires Valid() && hash < slots.Length
      ensures |chains| == slots.Length && (slots[hash] == null <==> chains[hash] == [])
      ensures slots[hash] != null ==>
                && slots[hash] in nodes && slots[hash] == chains[hash][0]
                && (slots[hash].next != null <==> |chains[hash]| >= 2)
      ensures |Model().slots| == slots.Length && Model().slots[hash] == Items(chains[hash])
      ensures ChainOk(slots[hash], chains[hash], hash, |chains|, nodes)
    {
      assert ChainOk(slots[hash], chains[hash], hash, |chains|, nodes);
      if chains[hash] != [] { assert chains[hash][0].next == After(chains[hash], 0); }
    }

    /** A match in front stays in front. */
    lemma FirstMatches(key: K)
      requires Valid() && slots.Length > 0
      requires var e := slots[keyType.hash(key) % slots.Length]; e != null && keyType.equals(e.key, key)
      ensures Search(keyType, Model(), key) ==
              Found(Model(), Some(ItemOf(slots[keyType.hash(key) % slots.Length])))
    {
      var i := keyType.hash(key) % slots.Length;
      FirstOfChain(i);
      var c := Items(chains[i]);
      PositionIs(c, 0, HasKey(keyType, key));
      assert MoveToFront(c, 0) == c;
      assert Model().slots[i := c] == Model().slots;
    }
  }

  lemma GrownSizeNext(num: nat, size: nat)
    requires 3 * num >= 2 * size
    ensures GrownSize(num, size) == GrownSize(num, if size < 15 then 15 else (size + 1) * 2 - 1)
  {
  }

  lemma GrownSizeDone(num: nat, size: nat)
    requires 3 * num < 2 * size
    ensures GrownSize(num, size) == size
  {
  }
}
