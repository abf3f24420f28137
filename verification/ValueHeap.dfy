/** Values in memory, as function.c builds, copies and releases them. */
module ValueHeap {
  import opened Base
  import opened Codec
  import opened GrowingArrays

  /** What a pointer to a value leads to: nothing, a value that is not an array, or an array of such. */
  datatype Tree = Hole | Plain(v: Value) | List(items: seq<Tree>)

  /** What value_clone makes of it: nothing of a void or a function. */
  function CloneOf(t: Tree): Tree {
    match t
    case Hole => Hole
    case Plain(v) => if v.Void? || v.Function? then Hole else t
    case List(items) => List(CloneOfAll(items))
  }

  function CloneOfAll(ts: seq<Tree>): (r: seq<Tree>)
    ensures |r| == |ts|
  {
    if ts == [] then [] else CloneOfAll(ts[..|ts| - 1]) + [CloneOf(ts[|ts| - 1])]
  }

  /** No null pointer in it. */
  predicate Solid(t: Tree) {
    match t
    case Hole => false
    case Plain(_) => true
    case List(items) => forall i :: 0 <= i < |items| ==> Solid(items[i])
  }

  /** Neither a void nor a function in it. */
  predicate Clonable(t: Tree) {
    match t
    case Hole => false
    case Plain(v) => !v.Void? && !v.Function?
    case List(items) => forall i :: 0 <= i < |items| ==> Clonable(items[i])
  }

  lemma {:induction false} CloneOfAllAt(ts: seq<Tree>, i: nat)
    requires i < |ts|
    ensures CloneOfAll(ts)[i] == CloneOf(ts[i])
  {
    if i < |ts| - 1 { CloneOfAllAt(ts[..|ts| - 1], i); }
  }

  lemma CloneOfAllNext(ts: seq<Tree>, i: nat)
    requires i < |ts|
    ensures CloneOfAll(ts[..i + 1]) == CloneOfAll(ts[..i]) + [CloneOf(ts[i])]
  {
    assert ts[..i + 1][..i] == ts[..i];
  }

  /** A clone is equal to its original exactly if there is no void and no function in that; and exactly then
      it has no null pointer, so that it can itself be cloned and destroyed. */
  lemma {:induction false} CloneIsFaithful(t: Tree)
    requires Solid(t)
    ensures CloneOf(t) == t <==> Clonable(t)
    ensures Solid(CloneOf(t)) <==> Clonable(t)
  {
    if t.List? {
      var ts := t.items;
      forall i | 0 <= i < |ts|
        ensures CloneOfAll(ts)[i] == CloneOf(ts[i])
        ensures CloneOf(ts[i]) == ts[i] <==> Clonable(ts[i])
        ensures Solid(CloneOf(ts[i])) <==> Clonable(ts[i])
      {
        CloneOfAllAt(ts, i);
        CloneIsFaithful(ts[i]);
      }
      if Clonable(t) { assert CloneOfAll(ts) == ts; }
    }
  }

  /** The element at these indices, one for each level of arrays. */
  function At(t: Tree, path: seq<nat>): Option<Tree>
    decreases |path|
  {
    if path == [] then Some(t)
    else if t.List? && path[0] < |t.items| then At(t.items[path[0]], path[1..])
    else None
  }

  /** A clone has what its original has, at every place: an array of the same length where there is an array, nothing
      where there is a void, a function or nothing, and everywhere else the same value. */
  lemma {:induction false} CloneByPlaces(t: Tree, path: seq<nat>)
    ensures match At(t, path)
      case None => At(CloneOf(t), path).None?
      case Some(List(items)) =>
        var c := At(CloneOf(t), path); c.Some? && c.value.List? && |c.value.items| == |items|
      case Some(Plain(v)) => At(CloneOf(t), path) == Some(if v.Void? || v.Function? then Hole else Plain(v))
      case Some(Hole) => At(CloneOf(t), path) == Some(Hole)
    decreases |path|
  {
    if path != [] && t.List? && path[0] < |t.items| {
      CloneOfAllAt(t.items, path[0]);
      CloneByPlaces(t.items[path[0]], path[1..]);
    }
  }

  /** What is allocated, and how many pointers realloc has moved. */
  class Allocator {
    ghost var live: set<object>
    ghost var moved: nat

    constructor ()
      ensures live == {} && moved == 0
    {
      live, moved := {}, 0;
    }

    /** free: never twice. */
    method Free(o: object)
      requires o in live
      modifies this`live
      ensures live == old(live) - {o}
    {
      live := live - {o};
    }
  }

  /** array_internal_t */
  class Internal {
    var size: nat
    constructor ()
      ensures size == 0
    {
      size := 0;
    }
  }

  /** c_function_def_t, as far as it owns blocks */
  class CFunction {
    const params: array<byte>
    const ret: array<byte>
    constructor (params: array<byte>, ret: array<byte>)
      ensures this.params == params && this.ret == ret
    {
      this.params, this.ret := params, ret;
    }
  }

  /** value_t. `plain` is what it holds unless that is an array; a string is in a block of its own, and a function has
      a record. */
  class Cell {
    const plain: Value
    const str: array?<byte>
    const internal: Internal?
    const record: CFunction?
    var length: nat
    var data: array?<Cell?>

    ghost var tree: Tree
    ghost var kids: set<object>

    constructor (plain: Value, str: array?<byte>, internal: Internal?, record: CFunction?)
      ensures this.plain == plain && this.str == str && this.internal == internal && this.record == record
      ensures length == 0 && data == null && kids == RecordBlocks(record)
      ensures tree == (if internal == null then Plain(plain) else List([]))
    {
      this.plain, this.str, this.internal, this.record := plain, str, internal, record;
      length, data, kids := 0, null, RecordBlocks(record);
      tree := if internal == null then Plain(plain) else List([]);
    }

    /** The blocks of the cell itself. */
    ghost function Own(): set<object>
      reads this
    {
      {this} + (if str == null then {} else {str}) + (if internal == null then {} else {internal})
      + (if data == null then {} else {data})
    }

    /** All blocks of the value. */
    ghost function Repr(): set<object>
      reads this
    {
      Own() + kids
    }

    /** The cell holds `tree`, in blocks that are its own. */
    ghost predicate Valid()
      reads this, Repr()
      decreases Repr(), 0
    {
      && Own() !! kids
      && match tree {
        case Hole => false
        case Plain(v) =>
          && internal == null && data == null && v == plain && !v.Array?
          && kids == RecordBlocks(record) && (record != null <==> v.Function?)
          && (record != null ==> record.params != record.ret)
          && if v.Str? then str != null && str[..] == v.s else str == null
        case List(items) =>
          && ArrayShape() && length == |items| && str == null && internal.size == Appends(length).size
          && ItemsOk(Items(), items, kids)
      }
    }

    /** The block of pointers is as large as the cell says. */
    ghost predicate ArrayShape()
      reads this, internal
    {
      && internal != null && length <= internal.size
      && (if data == null then internal.size == 0 else data.Length == internal.size)
    }

    ghost function Items(): seq<Cell?>
      requires ArrayShape()
      reads this, internal, data
    {
      if data == null then [] else data[..length]
    }
  }

  ghost function RecordBlocks(record: CFunction?): set<object> {
    if record == null then {} else {record, record.params, record.ret}
  }

  /** The pointers lead to `items`, in blocks of their own that make up `kids`. */
  ghost predicate ItemsOk(cells: seq<Cell?>, items: seq<Tree>, kids: set<object>)
    reads kids
    decreases kids, 1 + |cells|
  {
    && |cells| == |items|
    && if cells == [] then kids == {}
       else if cells[0] == null then items[0] == Hole && ItemsOk(cells[1..], items[1..], kids)
       else
         && cells[0] in kids && cells[0].Repr() <= kids
         && cells[0].Valid() && cells[0].tree == items[0]
         && ItemsOk(cells[1..], items[1..], kids - cells[0].Repr())
  }

  ghost function ReprOf(v: Cell?): set<object>
    reads v
  {
    if v == null then {} else v.Repr()
  }

  ghost function TreeOf(v: Cell?): Tree
    reads v
  {
    if v == null then Hole else v.tree
  }

  lemma {:induction false} ItemAppended(cells: seq<Cell?>, items: seq<Tree>, kids: set<object>, v: Cell?)
    requires ItemsOk(cells, items, kids) && ReprOf(v) !! kids && (v != null ==> v.Valid())
    ensures ItemsOk(cells + [v], items + [TreeOf(v)], kids + ReprOf(v))
    decreases |cells|
  {
    if cells == [] {
      assert v != null ==> kids + ReprOf(v) - v.Repr() == {};
    } else {
      assert (cells + [v])[1..] == cells[1..] + [v];
      assert (items + [TreeOf(v)])[1..] == items[1..] + [TreeOf(v)];
      var rest := if cells[0] == null then kids else kids - cells[0].Repr();
      ItemAppended(cells[1..], items[1..], rest, v);
      assert cells[0] != null ==> kids + ReprOf(v) - cells[0].Repr() == rest + ReprOf(v);
    }
  }

  /** value_new_void, value_new_float32, value_new_int32, value_new_boolean and value_new_string */
  method NewPlain(a: Allocator, v: Value) returns (c: Cell)
    requires !v.Array? && !v.Function?
    modifies a`live
    ensures fresh(c) && fresh(c.Repr()) && c.Valid() && c.tree == Plain(v)
    ensures a.live == old(a.live) + c.Repr()
  {
    var str: array?<byte> := null;
    if v.Str? {
      str := Strdup(v.s);
    }
    c := new Cell(v, str, null, null);
    a.live := a.live + c.Repr();
  }

  /** value_new_cfunction */
  method NewCFunction(a: Allocator, id: nat, params: CString, ret: CString) returns (c: Cell)
    modifies a`live
    ensures fresh(c) && fresh(c.Repr()) && c.Valid() && c.tree == Plain(Function(id))
    ensures c.record.params[..] == params && c.record.ret[..] == ret
    ensures a.live == old(a.live) + c.Repr()
  {
    var p := Strdup(params);
    var r := Strdup(ret);
    var f := new CFunction(p, r);
    c := new Cell(Function(id), null, null, f);
    a.live := a.live + c.Repr();
  }

  method Strdup(s: CString) returns (str: array<byte>)
    ensures fresh(str) && str[..] == s
  {
    str := new byte[|s|](i requires 0 <= i < |s| => s[i]);
  }

  /** array_new */
  method ArrayNew(a: Allocator) returns (c: Cell)
    modifies a`live
    ensures fresh(c) && fresh(c.Repr()) && c.Valid() && c.tree == List([])
    ensures a.live == old(a.live) + c.Repr()
  {
    var internal := new Internal();
    c := new Cell(Void, null, internal, null);
    a.live := a.live + c.Repr();
  }

  /** malloc or realloc: a larger block with the same pointers. */
  method Realloc(from: array?<Cell?>, length: nat, size: nat) returns (data: array<Cell?>)
    requires length <= size && (if from == null then length == 0 else length <= from.Length)
    ensures fresh(data) && data.Length == size
    ensures from != null ==> data[..length] == from[..length]
  {
    data := new Cell?[size](_ => null);
    for i := 0 to length
      invariant from != null ==> data[..i] == from[..i]
    {
      data[i] := from[i];
    }
  }

  /** The growing part of array_append. */
  method MakeRoom(a: Allocator, c: Cell)
    requires c.ArrayShape() && c.internal.size == Appends(c.length).size
    requires c.data != null ==> c.data in a.live
    modifies a, c`data, c.internal
    ensures c.ArrayShape() && c.internal.size == Appends(c.length + 1).size > c.length && c.data != null
    ensures c.data[..c.length] == old(c.Items())
    ensures if c.data == old(c.data) then a.live == old(a.live)
            else fresh(c.data) && a.live == old(a.live - (if c.data == null then {} else {c.data})) + {c.data}
    ensures a.moved == old(a.moved) + Appends(c.length + 1).moved - Appends(c.length).moved
  {
    hide Appends;
    AppendsLaw(c.length + 1);
    AppendsNext(c.length);
    if c.internal.size <= c.length {
      c.internal.size := Grow(c.internal.size);
      var data := Realloc(c.data, c.length, c.internal.size);
      a.moved := a.moved + c.length;
      if c.data != null {
        a.Free(c.data);
      }
      c.data := data;
      a.live := a.live + {data};
    }
  }

  /** The other part: array->data[array->length++] = value */
  method PutLast(c: Cell, v: Cell?)
    requires c.ArrayShape() && c.str == null && c.data != null
    requires c.length < c.internal.size == Appends(c.length + 1).size
    requires c.tree.List? && |c.tree.items| == c.length && ItemsOk(c.Items(), c.tree.items, c.kids)
    requires v != null ==> v.Valid()
    requires c.Own() !! c.kids && c.Repr() !! ReprOf(v)
    modifies c, c.data
    ensures c.Valid() && c.tree == List(old(c.tree.items) + [old(TreeOf(v))])
    ensures c.kids == old(c.kids) + old(ReprOf(v)) && c.data == old(c.data) && c.length == old(c.length) + 1
  {
    hide ItemsOk, Appends;
    ghost var cells, items, t := c.Items(), c.tree.items, TreeOf(v);
    ItemAppended(cells, items, c.kids, v);
    c.data[c.length] := v;
    c.length := c.length + 1;
    assert c.Items() == cells + [v];
    c.kids := c.kids + ReprOf(v);
    c.tree := List(items + [t]);
  }

  /** array_append */
  method ArrayAppend(a: Allocator, c: Cell, v: Cell?)
    requires c.Valid() && c.tree.List? && (v != null ==> v.Valid())
    requires c.Repr() !! ReprOf(v) && c.Repr() + ReprOf(v) <= a.live && a !in c.Repr() + ReprOf(v)
    modifies a, c, c.internal, c.data
    ensures c.Valid() && c.tree == List(old(c.tree.items) + [old(TreeOf(v))])
    ensures c.kids == old(c.kids) + old(ReprOf(v)) && c.length == old(c.length) + 1
    ensures if c.data == old(c.data) then a.live == old(a.live)
            else fresh(c.data) && a.live == old(a.live - (if c.data == null then {} else {c.data})) + {c.data}
    ensures a.moved == old(a.moved) + Appends(c.length).moved - Appends(old(c.length)).moved
  {
    hide ItemsOk, Appends;
    MakeRoom(a, c);
    assert v != null ==> v.Valid();
    PutLast(c, v);
  }

  /** value_clone: a copy in blocks of its own, or null for a void or a function. */
  method ValueClone(a: Allocator, src: Cell) returns (c: Cell?)
    requires src.Valid() && Solid(src.tree) && a !in src.Repr()
    modifies a
    ensures TreeOf(c) == CloneOf(src.tree)
    ensures c != null ==> c.Valid() && fresh(c.Repr())
    ensures a.live == old(a.live) + ReprOf(c)
    decreases src.tree, 2
  {
    if src.internal == null {
      if src.plain.Void? || src.plain.Function? {
        return null;
      }
      c := NewPlain(a, if src.str == null then src.plain else Str(src.str[..]));
    } else {
      c := CloneArray(a, src);
    }
  }

  method CloneArray(a: Allocator, src: Cell) returns (c: Cell)
    requires src.Valid() && Solid(src.tree) && src.tree.List? && a !in src.Repr()
    modifies a
    ensures c.tree == CloneOf(src.tree) && c.Valid() && fresh(c.Repr())
    ensures a.live == old(a.live) + c.Repr()
    decreases src.tree, 1
  {
    hide Appends, ItemsOk;
    ghost var items := src.tree.items;
    c := ArrayNew(a);
    for i := 0 to src.length
      invariant fresh(c) && fresh(c.internal) && (c.data == null || fresh(c.data))
      invariant c.Valid() && fresh(c.Repr()) && c.tree == List(CloneOfAll(items[..i]))
      invariant a.live == old(a.live) + c.Repr()
    {
      hide Cell.Valid, Cell.Repr, Cell.Own, CloneOfAll, Solid;
      CloneItem(a, c, src, i);
      CloneOfAllNext(items, i);
    }
    assert items[..|items|] == items;
  }

  method CloneItem(a: Allocator, c: Cell, src: Cell, i: nat)
    requires src.Valid() && Solid(src.tree) && src.tree.List? && a !in src.Repr() && i < src.length
    requires c.Valid() && c.tree.List? && a !in c.Repr() && c.Repr() <= a.live && c.Repr() !! src.Repr()
    modifies a, c, c.internal, c.data
    ensures c.Valid() && c.tree == List(old(c.tree.items) + [CloneOf(src.tree.items[i])])
    ensures fresh(c.Repr() - old(c.Repr())) && (c.data == old(c.data) || fresh(c.data))
    ensures a.live == old(a.live) - old(c.Repr()) + c.Repr()
    decreases src.tree, 0
  {
    hide Appends, ItemsOk;
    AppendsLaw(src.length);
    ItemAt(src.Items(), src.tree.items, src.kids, i);
    AppendClone(a, c, src.data[i]);
  }

  lemma {:induction false} ItemAt(cells: seq<Cell?>, items: seq<Tree>, kids: set<object>, i: nat)
    requires i < |cells| == |items| && ItemsOk(cells, items, kids) && Solid(List(items))
    ensures cells[i] != null && cells[i].Valid() && cells[i].Repr() <= kids
    ensures cells[i].tree == items[i] && Solid(items[i])
    decreases i
  {
    if i > 0 {
      ItemAt(cells[1..], items[1..], if cells[0] == null then kids else kids - cells[0].Repr(), i - 1);
    }
  }

  lemma NextItem(cells: seq<Cell?>, items: seq<Tree>, i: nat, kids: set<object>)
    requires i < |cells| == |items| && ItemsOk(cells[i..], items[i..], kids) && Solid(List(items))
    ensures cells[i] != null && cells[i].Valid() && cells[i].Repr() <= kids
    ensures cells[i].tree == items[i] && Solid(items[i])
    ensures ItemsOk(cells[i + 1..], items[i + 1..], kids - cells[i].Repr())
  {
    assert cells[i..][1..] == cells[i + 1..] && items[i..][1..] == items[i + 1..];
  }

  lemma NoItems(cells: seq<Cell?>, items: seq<Tree>, kids: set<object>)
    requires ItemsOk(cells, items, kids) && cells == []
    ensures kids == {}
  {
  }

  method AppendClone(a: Allocator, c: Cell, item: Cell)
    requires item.Valid() && Solid(item.tree) && a !in item.Repr()
    requires c.Valid() && c.tree.List? && a !in c.Repr() && c.Repr() <= a.live && c.Repr() !! item.Repr()
    modifies a, c, c.internal, c.data
    ensures c.Valid() && c.tree == List(old(c.tree.items) + [CloneOf(old(item.tree))])
    ensures fresh(c.Repr() - old(c.Repr())) && (c.data == old(c.data) || fresh(c.data))
    ensures a.live == old(a.live) - old(c.Repr()) + c.Repr()
    decreases item.tree, 3
  {
    hide Appends, ItemsOk;
    var e := ValueClone(a, item);
    assert c.Valid();
    ArrayAppend(a, c, e);
  }

  /** value_destroy: all blocks of the value are freed, once each. */
  method ValueDestroy(a: Allocator, v: Cell)
    requires v.Valid() && Solid(v.tree) && v.Repr() <= a.live && a !in v.Repr()
    modifies a, v.Repr()
    ensures a.live == old(a.live) - old(v.Repr())
    decreases v.tree
  {
    if v.internal == null {
      if v.str != null {
        a.Free(v.str);
      }
      if v.record != null {
        a.Free(v.record.params);
        a.Free(v.record.ret);
        a.Free(v.record);
      }
      a.Free(v);
    } else {
      DestroyItems(a, v);
      if v.data != null {
        a.Free(v.data);
      }
      a.Free(v.internal);
      a.Free(v);
    }
  }

  method DestroyItems(a: Allocator, v: Cell)
    requires v.Valid() && Solid(v.tree) && v.tree.List? && v.Repr() <= a.live && a !in v.Repr()
    modifies a, v.kids, v.data
    ensures a.live == old(a.live) - v.kids
    decreases v.tree, 0
  {
    hide Appends, ItemsOk;
    ghost var cells, items, rest := v.Items(), v.tree.items, v.kids;
    AppendsLaw(v.length);
    hide Cell.Valid, Solid;
    for i := 0 to v.length
      invariant rest <= v.kids && ItemsOk(cells[i..], items[i..], rest)
      invariant forall j :: i <= j < v.length ==> v.data[j] == cells[j]
      invariant a.live == old(a.live) - (v.kids - rest)
    {
      var item := v.data[i];
      NextItem(cells, items, i, rest);
      rest := rest - item.Repr();
      ValueDestroy(a, item);
      v.data[i] := null;
    }
    NoItems(cells[v.length..], items[v.length..], rest);
  }

  /** A copy made and released again: it is equal, exactly what was allocated before is so afterwards, and the
      original is as it was. */
  method CloneAndDestroy(a: Allocator, src: Cell)
    requires src.Valid() && Solid(src.tree) && Clonable(src.tree) && a !in src.Repr()
    modifies a
    ensures a.live == old(a.live) && src.Valid()
  {
    hide ItemsOk;
    CloneIsFaithful(src.tree);
    var c := ValueClone(a, src);
    assert c.tree == src.tree && src.Valid();
    ValueDestroy(a, c);
  }
}
