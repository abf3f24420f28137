/** The messages on the two pipes: their tags, how they are written, and how each side reads them. */
module Frames {
  import opened Base
  import opened Codec
  import opened CodecLaws
  import opened Session

  // Commands, parent to child
  const DEFINE_CONSTANT: byte := 1
  const DEFINE_FUNCTION: byte := 2
  const COMPILE_SCRIPT: byte := 3
  const IS_FUNCTION: byte := 4
  const CALL_FUNCTION: byte := 5

  // Responses, child to parent
  const RESP_CALLBACK: byte := 10
  const RESP_RETURN: byte := 11
  const RESP_ERROR: byte := 12
  const RESP_LOG: byte := 13

  const MAX_STRING_SIZE := READ_VALUE.maxString

  /** What crosses the pipe for a request; the function itself stays in the parent. */
  datatype Command =
    | ConstantCmd(name: CString, value: Value)
    | FunctionCmd(name: CString, numParams: byte)
    | CompileCmd(script: CString)
    | IsFunctionCmd(name: CString)
    | CallCmd(name: CString, args: Value)

  function ToCommand(req: Request): Command {
    match req
    case DefineConstant(name, value) => ConstantCmd(name, value)
    case DefineFunction(name, n, _) => FunctionCmd(name, n)
    case CompileScript(script) => CompileCmd(script)
    case IsFunction(name) => IsFunctionCmd(name)
    case CallFunction(name, args) => CallCmd(name, args)
  }

  /** What the child sends: log lines, callbacks, the two ends of a call, and the bare results after RESP_RETURN
      or for IS_FUNCTION. */
  datatype Unit =
    | LogU(msg: CString)
    | CallU(name: CString, args: Value)
    | ErrorU
    | ReturnU
    | FlagU(b: bool)
    | ValU(v: Value)

  function BoolByte(b: bool): byte { if b then 1 else 0 }

  function CommandBytes(c: Command): (r: seq<byte>)
    ensures |r| > 0
  {
    match c
    case ConstantCmd(name, value) => [DEFINE_CONSTANT] + EncodeString(name) + Encode(value)
    case FunctionCmd(name, n) => [DEFINE_FUNCTION] + EncodeString(name) + [n]
    case CompileCmd(script) => [COMPILE_SCRIPT] + EncodeString(script)
    case IsFunctionCmd(name) => [IS_FUNCTION] + EncodeString(name)
    case CallCmd(name, args) => [CALL_FUNCTION] + EncodeString(name) + Encode(args)
  }

  function UnitBytes(u: Unit): (r: seq<byte>)
    ensures |r| > 0
  {
    match u
    case LogU(msg) => [RESP_LOG] + EncodeString(msg)
    case CallU(name, args) => [RESP_CALLBACK] + EncodeString(name) + Encode(args)
    case ErrorU => [RESP_ERROR]
    case ReturnU => [RESP_RETURN]
    case FlagU(b) => [BoolByte(b)]
    case ValU(v) => Encode(v)
  }

  // ----- Reading -----

  datatype NamedParse = MoreNamed | BadNamed | GotNamed(name: CString, v: Value, n: nat)
  datatype UnitParse = MoreUnit | BadUnit | Junk | GotUnit(u: Unit, n: nat)
  datatype CommandParse = MoreCommand | BadCommand | JunkCommand | GotCommand(c: Command, n: nat)

  /** After the tag: a string and a value, as in RESP_CALLBACK, DEFINE_CONSTANT and CALL_FUNCTION. */
  function ParseNamed(s: seq<byte>, lim: Limits): (p: NamedParse)
    requires |s| > 0
    ensures p.GotNamed? ==> 1 < p.n <= |s|
  {
    match DecodeString(s[1..], lim.maxString)
    case MoreChars => MoreNamed
    case BadString => BadNamed
    case GotString(name, n) =>
      match Decode(s[1 + n..], 0, lim)
      case More => MoreNamed
      case Bad => BadNamed
      case Ok(v, m, _) => GotNamed(name, v, 1 + n + m)
  }

  /** One turn of the loop in process_callbacks. An unknown tag is skipped. */
  function ParseFrame(s: seq<byte>): (p: UnitParse)
    ensures p.GotUnit? ==> 1 <= p.n <= |s|
    ensures p.Junk? ==> |s| > 0
  {
    if s == [] then MoreUnit
    else if s[0] == RESP_CALLBACK then
      match ParseNamed(s, READ_VALUE)
      case MoreNamed => MoreUnit
      case BadNamed => BadUnit
      case GotNamed(name, args, n) => GotUnit(CallU(name, args), n)
    else if s[0] == RESP_LOG then
      match DecodeString(s[1..], MAX_STRING_SIZE)
      case MoreChars => MoreUnit
      case BadString => BadUnit
      case GotString(msg, n) => GotUnit(LogU(msg), 1 + n)
    else if s[0] == RESP_ERROR then GotUnit(ErrorU, 1)
    else if s[0] == RESP_RETURN then GotUnit(ReturnU, 1)
    else Junk
  }

  /** The result of a compilation or of is_function: one byte. */
  function ParseFlag(s: seq<byte>): (p: UnitParse) {
    if s == [] then MoreUnit else GotUnit(FlagU(s[0] != 0), 1)
  }

  /** The result of a call. */
  function ParseVal(s: seq<byte>): (p: UnitParse)
    ensures p.GotUnit? ==> 1 <= p.n <= |s|
  {
    match Decode(s, 0, READ_VALUE)
    case More => MoreUnit
    case Bad => BadUnit
    case Ok(v, n, _) => GotUnit(ValU(v), n)
  }

  /** One turn of child_loop. */
  function ParseCommand(s: seq<byte>): (p: CommandParse)
    ensures p.GotCommand? ==> 1 <= p.n <= |s|
  {
    if s == [] then MoreCommand
    else if s[0] == DEFINE_CONSTANT || s[0] == CALL_FUNCTION then
      match ParseNamed(s, READ_VALUE_NOLIMIT)
      case MoreNamed => MoreCommand
      case BadNamed => BadCommand
      case GotNamed(name, v, n) =>
        GotCommand(if s[0] == DEFINE_CONSTANT then ConstantCmd(name, v) else CallCmd(name, v), n)
    else if s[0] == DEFINE_FUNCTION || s[0] == COMPILE_SCRIPT || s[0] == IS_FUNCTION then
      match DecodeString(s[1..], 0)
      case MoreChars => MoreCommand
      case BadString => BadCommand
      case GotString(name, n) =>
        if s[0] == DEFINE_FUNCTION then
          if |s| < 1 + n + 1 then MoreCommand else GotCommand(FunctionCmd(name, s[1 + n]), 1 + n + 1)
        else GotCommand(if s[0] == COMPILE_SCRIPT then CompileCmd(name) else IsFunctionCmd(name), 1 + n)
    else JunkCommand
  }

  // ----- Reading back what was written -----

  /** The parent's readers accept the unit: its strings and values keep the limits. */
  predicate WithinLimits(u: Unit) {
    match u
    case LogU(msg) => |msg| < MAX_STRING_SIZE
    case CallU(name, args) => |name| < MAX_STRING_SIZE && Admits(args, 0, READ_VALUE)
    case ValU(v) => Admits(v, 0, READ_VALUE)
    case _ => true
  }

  predicate UnitWellFormed(u: Unit) {
    match u
    case CallU(_, args) => WellFormed(args)
    case ValU(v) => WellFormed(v)
    case _ => true
  }

  /** The child's unlimited readers accept the value. */
  predicate Sendable(v: Value) {
    WellFormed(v) && Admits(v, 0, READ_VALUE_NOLIMIT)
  }

  predicate CommandSendable(c: Command) {
    match c
    case ConstantCmd(_, v) => Sendable(v)
    case CallCmd(_, args) => Sendable(args)
    case _ => true
  }

  /** The reader the parent uses at this unit. */
  function ParseLike(u: Unit, s: seq<byte>): UnitParse {
    if u.FlagU? then ParseFlag(s) else if u.ValU? then ParseVal(s) else ParseFrame(s)
  }

  lemma NamedReads(tag: byte, name: CString, v: Value, tail: seq<byte>, lim: Limits)
    requires WellFormed(v)
    ensures ParseNamed([tag] + EncodeString(name) + Encode(v) + tail, lim)
         == if (lim.maxString == 0 || |name| < lim.maxString) && Admits(v, 0, lim)
            then GotNamed(name, v, 1 + |EncodeString(name)| + |Encode(v)|) else BadNamed
  {
    hide Decode, DecodeString, EncodeString, Encode, Admits;
    var b := [tag] + EncodeString(name) + Encode(v) + tail;
    assert b[1..] == EncodeString(name) + (Encode(v) + tail);
    StringRoundTrip(name, Encode(v) + tail, lim.maxString);
    RoundTrip(v, tail, 0, lim);
    assert b[1 + |EncodeString(name)|..] == Encode(v) + tail;
  }

  lemma UnitReads(u: Unit, tail: seq<byte>)
    requires UnitWellFormed(u)
    ensures ParseLike(u, UnitBytes(u) + tail) == if WithinLimits(u) then GotUnit(u, |UnitBytes(u)|) else BadUnit
  {
    hide Decode, DecodeString, EncodeString, Encode, Admits, ParseNamed;
    var b := UnitBytes(u) + tail;
    match u
    case LogU(msg) =>
      StringRoundTrip(msg, tail, MAX_STRING_SIZE);
      assert b[1..] == EncodeString(msg) + tail;
    case CallU(name, args) => NamedReads(RESP_CALLBACK, name, args, tail, READ_VALUE);
    case ValU(v) => RoundTrip(v, tail, 0, READ_VALUE);
    case _ =>
  }

  lemma CommandReads(c: Command, tail: seq<byte>)
    requires CommandSendable(c)
    ensures ParseCommand(CommandBytes(c) + tail) == GotCommand(c, |CommandBytes(c)|)
  {
    hide Decode, DecodeString, EncodeString, Encode, Admits, ParseNamed;
    var b := CommandBytes(c) + tail;
    match c
    case ConstantCmd(name, v) => NamedReads(DEFINE_CONSTANT, name, v, tail, READ_VALUE_NOLIMIT);
    case CallCmd(name, v) => NamedReads(CALL_FUNCTION, name, v, tail, READ_VALUE_NOLIMIT);
    case FunctionCmd(name, n) =>
      TaggedReads(DEFINE_FUNCTION, name, [n] + tail);
      Assoc([DEFINE_FUNCTION] + EncodeString(name), [n], tail);
      assert b[1 + 4 + |name|] == b[1 + 4 + |name|..][0] == n;
    case CompileCmd(script) => TaggedReads(COMPILE_SCRIPT, script, tail);
    case IsFunctionCmd(name) => TaggedReads(IS_FUNCTION, name, tail);
  }

  lemma TaggedReads(tag: byte, name: CString, tail: seq<byte>)
    ensures var b := [tag] + EncodeString(name) + tail;
            DecodeString(b[1..], 0) == GotString(name, 4 + |name|) && b[1 + 4 + |name|..] == tail
  {
    hide DecodeString;
    var b := [tag] + EncodeString(name) + tail;
    StringRoundTrip(name, tail, 0);
    assert b[1..] == EncodeString(name) + tail;
  }

  // ----- Later bytes do not change a verdict -----

  lemma NamedExtends(s: seq<byte>, t: seq<byte>, lim: Limits)
    requires |s| > 0 && !ParseNamed(s, lim).MoreNamed?
    ensures ParseNamed(s + t, lim) == ParseNamed(s, lim)
  {
    hide Decode, DecodeString;
    assert (s + t)[1..] == s[1..] + t;
    StringExtends(s[1..], t, lim.maxString);
    var p := DecodeString(s[1..], lim.maxString);
    if p.GotString? {
      assert (s + t)[1 + p.n..] == s[1 + p.n..] + t;
      Extends(s[1 + p.n..], t, 0, lim);
    }
  }

  lemma UnitExtends(u: Unit, s: seq<byte>, t: seq<byte>)
    requires !ParseLike(u, s).MoreUnit?
    ensures ParseLike(u, s + t) == ParseLike(u, s)
  {
    hide Decode, DecodeString, ParseNamed;
    if u.ValU? {
      Extends(s, t, 0, READ_VALUE);
    } else if u.FlagU? {
    } else if s[0] == RESP_CALLBACK {
      NamedExtends(s, t, READ_VALUE);
    } else if s[0] == RESP_LOG {
      assert (s + t)[1..] == s[1..] + t;
      StringExtends(s[1..], t, MAX_STRING_SIZE);
    }
  }

  lemma CommandExtends(s: seq<byte>, t: seq<byte>)
    requires !ParseCommand(s).MoreCommand?
    ensures ParseCommand(s + t) == ParseCommand(s)
  {
    hide Decode, DecodeString, ParseNamed;
    if s[0] == DEFINE_CONSTANT || s[0] == CALL_FUNCTION {
      NamedExtends(s, t, READ_VALUE_NOLIMIT);
    } else if s[0] == DEFINE_FUNCTION || s[0] == COMPILE_SCRIPT || s[0] == IS_FUNCTION {
      assert (s + t)[1..] == s[1..] + t;
      StringExtends(s[1..], t, 0);
    }
  }

  // ----- A message cut short -----

  /** Part of a unit is not yet a unit, is rejected only when the limits are broken, and is never junk. */
  lemma UnitCutShort(u: Unit, p: seq<byte>)
    requires UnitWellFormed(u) && p < UnitBytes(u)
    ensures ParseLike(u, p).MoreUnit? || (ParseLike(u, p).BadUnit? && !WithinLimits(u))
  {
    hide ParseLike, UnitBytes, WithinLimits;
    var b := UnitBytes(u);
    UnitReads(u, []);
    assert b + [] == b == p + b[|p|..];
    if !ParseLike(u, p).MoreUnit? {
      UnitExtends(u, p, b[|p|..]);
      UnitParseSize(u, p);
    }
  }

  lemma UnitParseSize(u: Unit, s: seq<byte>)
    ensures ParseLike(u, s).GotUnit? ==> ParseLike(u, s).n <= |s|
  {
  }

  lemma CommandCutShort(c: Command, p: seq<byte>)
    requires CommandSendable(c) && p < CommandBytes(c)
    ensures ParseCommand(p).MoreCommand?
  {
    hide ParseCommand, CommandBytes;
    var b := CommandBytes(c);
    CommandReads(c, []);
    assert b + [] == b == p + b[|p|..];
    if !ParseCommand(p).MoreCommand? {
      CommandExtends(p, b[|p|..]);
    }
  }
}
