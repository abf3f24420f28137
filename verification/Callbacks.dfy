/** The parent's registry of callbacks is a table of dict.c: define_function_proxy looks a name up and puts it if it is
    absent, process_callbacks looks names up. */
module Callbacks {
  import opened Base
  import opened Session
  import opened DictSpec
  import opened DictRuns
  import opened KeyTypes

  /** What happens to the registry. */
  datatype Use = Defined(name: CString, numParams: byte, fn: HostFn) | Sought(name: CString)

  function RegistryAfter(uses: seq<Use>): Registry
    decreases |uses|
  {
    if uses == [] then map[] else
      var reg := RegistryAfter(Front(uses));
      match Last(uses)
      case Defined(name, n, fn) => Define(reg, DefineFunction(name, n, fn))
      case Sought(_) => reg
  }

  type TableOp = Op<Option<CString>, HostFn>

  /** The operations on the table. What dict_contains says decides whether there is a put. */
  ghost function TableOps(uses: seq<Use>): seq<TableOp>
    decreases |uses|
  {
    if uses == [] then [] else
      var before := TableOps(Front(uses));
      match Last(uses)
      case Defined(name, _, fn) =>
        if InTable(before, name).Some? then before + [LookupOp(Some(name))]
        else before + [LookupOp(Some(name))] + [PutOp(Some(name), fn)]
      case Sought(name) => before + [LookupOp(Some(name))]
  }

  /** What a lookup finds after these operations on a new table. */
  ghost function InTable(ops: seq<TableOp>, name: CString): Option<HostFn> {
    var item := Lookup(CHAR_PTR, RunOps(CHAR_PTR, New(), ops), Some(name)).item;
    if item.Some? then Some(item.value.data) else None
  }

  function InRegistry(reg: Registry, name: CString): Option<HostFn> {
    if name in reg then Some(reg[name]) else None
  }

  lemma InTableIsBound(ops: seq<TableOp>, name: CString)
    requires PutsAreFresh(CHAR_PTR, ops)
    ensures InTable(ops, name) == Bound(CHAR_PTR, ops, Some(name))
  {
    KeyTypesLawful();
    MapLookup(CHAR_PTR, ops, Some(name));
  }

  /** One more operation. */
  lemma BoundNext(ops: seq<TableOp>, op: TableOp, name: CString)
    requires PutsAreFresh(CHAR_PTR, ops) && !op.DelOp? && !op.Del2Op?
    requires op.PutOp? ==> Bound(CHAR_PTR, ops, op.key) == None
    ensures PutsAreFresh(CHAR_PTR, ops + [op])
    ensures Bound(CHAR_PTR, ops + [op], Some(name))
         == if op.PutOp? && op.key == Some(name) then Some(op.data) else Bound(CHAR_PTR, ops, Some(name))
  {
    assert Front(ops + [op]) == ops;
  }

  lemma {:induction false} RegistryIsBound(uses: seq<Use>, name: CString)
    ensures PutsAreFresh(CHAR_PTR, TableOps(uses))
    ensures Bound(CHAR_PTR, TableOps(uses), Some(name)) == InRegistry(RegistryAfter(uses), name)
    decreases |uses|
  {
    hide Bound, PutsAreFresh, InTable;
    if uses == [] {
      NothingBoundYet(name);
    } else {
      var before, use := TableOps(Front(uses)), Last(uses);
      var look: TableOp := LookupOp(Some(use.name));
      RegistryIsBound(Front(uses), name);
      RegistryIsBound(Front(uses), use.name);
      InTableIsBound(before, use.name);
      BoundNext(before, look, name);
      BoundNext(before, look, use.name);
      if use.Defined? && InTable(before, use.name).None? {
        BoundNext(before + [look], PutOp(Some(use.name), use.fn), name);
      }
    }
  }

  lemma NothingBoundYet(name: CString)
    ensures PutsAreFresh<Option<CString>, HostFn>(CHAR_PTR, [])
    ensures Bound<Option<CString>, HostFn>(CHAR_PTR, [], Some(name)) == None
  {
  }

  /** However names are defined and looked up, the table finds what the registry has, and so the proxy that keeps its
      callbacks in the table is the one that keeps them in the registry. */
  lemma TableIsRegistry(uses: seq<Use>, name: CString)
    ensures InTable(TableOps(uses), name) == InRegistry(RegistryAfter(uses), name)
  {
    RegistryIsBound(uses, name);
    InTableIsBound(TableOps(uses), name);
  }
}
