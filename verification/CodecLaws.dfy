/** What the wire format guarantees: readers never need to look past a value, concatenated
    encodings split in one way, and what the size limits admit and do not admit. */
module CodecLaws {
  import opened Base
  import opened Codec

  // ----- Readers do not look ahead -----

  lemma StringExtends(s: seq<byte>, t: seq<byte>, maxString: nat)
    requires !DecodeString(s, maxString).MoreChars?
    ensures DecodeString(s + t, maxString) == DecodeString(s, maxString)
  {
    assert (s + t)[..4] == s[..4];
    var l := BytesInt(s[..4]);
    if 0 <= l && 4 + l <= |s| {
      assert (s + t)[4..4 + l] == s[4..4 + l];
    }
  }

  /** Once a reader has a verdict, later bytes do not change it. */
  lemma {:induction false} Extends(s: seq<byte>, t: seq<byte>, count: int, lim: Limits)
    requires !Decode(s, count, lim).More?
    ensures Decode(s + t, count, lim) == Decode(s, count, lim)
    decreases |s|, 0
  {
    hide DecodeElems, DecodeString, BytesInt;
    assert (s + t)[0] == s[0];
    if s[0] == 4 {
      assert (s + t)[1..] == s[1..] + t;
      StringExtends(s[1..], t, lim.maxString);
    } else if 1 <= s[0] <= 2 || s[0] == 5 {
      assert (s + t)[1..5] == s[1..5];
      assert (s + t)[5..] == s[5..] + t;
      if s[0] == 5 && !Refused(BytesInt(s[1..5]), count, lim) {
        ElemsExtends(s[5..], t, BytesInt(s[1..5]), count, lim);
      }
    }
  }

  lemma {:induction false} ElemsExtends(s: seq<byte>, t: seq<byte>, k: int, count: int, lim: Limits)
    requires !DecodeElems(s, k, count, lim).MoreElems?
    ensures DecodeElems(s + t, k, count, lim) == DecodeElems(s, k, count, lim)
    decreases |s|, 1
  {
    hide Decode, DecodeArray;
    if k > 0 {
      Extends(s, t, count, lim);
      var p := Decode(s, count, lim);
      if p.Ok? {
        ElemsExtends(s[p.n..], t, k - 1, p.count, lim);
        assert (s + t)[p.n..] == s[p.n..] + t;
      }
    }
  }

  /** A value cut short never reads as complete, and as long as its limits are kept it never reads as wrong. */
  lemma {:induction false} CutShort(v: Value, p: seq<byte>, count: int, lim: Limits)
    requires WellFormed(v) && p < Encode(v)
    ensures !Decode(p, count, lim).Ok?
    ensures Admits(v, count, lim) ==> Decode(p, count, lim).More?
  {
    hide Decode, Encode, Admits;
    var e := Encode(v);
    RoundTrip(v, [], count, lim);
    assert e + [] == e == p + e[|p|..];
    if !Decode(p, count, lim).More? {
      Extends(p, e[|p|..], count, lim);
    }
  }

  // ----- Encodings split in one way -----

  /** With the counter far enough below zero the unlimited reader takes every value without functions. */
  lemma {:induction false} AdmittedWithSlack(v: Value, count: int)
    requires WellFormed(v) && FunctionFree(v) && count + Total(v) <= 0
    ensures Admits(v, count, READ_VALUE_NOLIMIT)
    decreases v, 0
  {
    if v.Array? {
      AllAdmittedWithSlack(v.elems, count);
    }
  }

  lemma {:induction false} AllAdmittedWithSlack(vs: seq<Value>, count: int)
    requires WellFormedAll(vs) && FunctionFreeAll(vs) && count + TotalAll(vs) <= 0
    ensures AdmitsAll(vs, count, READ_VALUE_NOLIMIT)
    decreases vs, 1
  {
    hide Admits, Total, WellFormed, FunctionFree;
    if vs != [] {
      AdmittedWithSlack(vs[0], count);
      AllAdmittedWithSlack(vs[1..], count + Total(vs[0]));
    }
  }

  /** Unique decodability: an encoding followed by anything determines the value and where it ends.
      So write_value is injective and no encoding is a proper prefix of another. */
  lemma UniqueDecoding(v: Value, w: Value, s: seq<byte>, t: seq<byte>)
    requires WellFormed(v) && FunctionFree(v) && WellFormed(w) && FunctionFree(w)
    requires Encode(v) + s == Encode(w) + t
    ensures v == w && s == t
  {
    hide Decode, Encode, Admits, WellFormed, FunctionFree;
    var slack := -(Total(v) + Total(w));
    AdmittedWithSlack(v, slack);
    AdmittedWithSlack(w, slack);
    RoundTrip(v, s, slack, READ_VALUE_NOLIMIT);
    RoundTrip(w, t, slack, READ_VALUE_NOLIMIT);
    assert s == (Encode(v) + s)[|Encode(v)|..];
    assert t == (Encode(w) + t)[|Encode(w)|..];
  }

  lemma {:induction false} UniqueDecodingAll(vs: seq<Value>, ws: seq<Value>)
    requires WellFormedAll(vs) && FunctionFreeAll(vs) && WellFormedAll(ws) && FunctionFreeAll(ws)
    requires EncodeAll(vs) == EncodeAll(ws)
    ensures vs == ws
    decreases |vs|
  {
    hide Encode, WellFormed, FunctionFree;
    if vs != [] && ws != [] {
      UniqueDecoding(vs[0], ws[0], EncodeAll(vs[1..]), EncodeAll(ws[1..]));
      UniqueDecodingAll(vs[1..], ws[1..]);
      assert vs == [vs[0]] + vs[1..] && ws == [ws[0]] + ws[1..];
    }
  }

  // ----- What the limits admit -----

  predicate StringsBelow(v: Value, maxString: nat)
    decreases v
  {
    match v
    case Str(s) => maxString == 0 || |s| < maxString
    case Array(elems) => AllStringsBelow(elems, maxString)
    case _ => true
  }

  predicate AllStringsBelow(vs: seq<Value>, maxString: nat)
    decreases vs
  {
    vs == [] || (StringsBelow(vs[0], maxString) && AllStringsBelow(vs[1..], maxString))
  }

  function ArrayBound(lim: Limits): nat {
    if lim.maxArray == 0 || lim.maxArray > INT_MAX then INT_MAX else lim.maxArray
  }

  /** Short strings and fewer array elements in total than the limit are enough to be accepted. */
  lemma {:induction false} SmallIsAdmitted(v: Value, count: nat, lim: Limits)
    requires FunctionFree(v) && StringsBelow(v, lim.maxString) && count + Total(v) < ArrayBound(lim)
    ensures Admits(v, count, lim)
    decreases v, 0
  {
    if v.Array? {
      AllSmallAdmitted(v.elems, count, lim);
    }
  }

  lemma {:induction false} AllSmallAdmitted(vs: seq<Value>, count: nat, lim: Limits)
    requires FunctionFreeAll(vs) && AllStringsBelow(vs, lim.maxString) && count + TotalAll(vs) < ArrayBound(lim)
    ensures AdmitsAll(vs, count, lim)
    decreases vs, 1
  {
    hide Admits, Total, FunctionFree, StringsBelow;
    if vs != [] {
      SmallIsAdmitted(vs[0], count, lim);
      AllSmallAdmitted(vs[1..], count + Total(vs[0]), lim);
    }
  }

  // ----- How large an accepted value can be -----

  /** How deep arrays are nested. */
  function Depth(v: Value): nat
    decreases v
  {
    if v.Array? then 1 + DepthAll(v.elems) else 0
  }

  function DepthAll(vs: seq<Value>): nat
    decreases vs
  {
    if vs == [] then 0 else Max(Depth(vs[0]), DepthAll(vs[1..]))
  }

  function Max(m: nat, n: nat): nat { if m < n then n else m }

  /** An enclosing array is counted only after its elements: every level of nesting adds less than the limit. */
  lemma {:induction false} DepthBoundsTotal(v: Value, count: nat, lim: Limits, h: nat)
    requires Admits(v, count, lim) && lim.maxArray > 0 && Depth(v) <= h
    ensures if v.Array? then count + Total(v) <= h * (lim.maxArray - 1) else Total(v) == 0
    decreases v, 0
  {
    if v.Array? {
      hide Admits, Depth, Total;
      AllDepthBoundsTotal(v.elems, count, lim, h - 1);
      OneLevel(h, lim.maxArray - 1);
    }
  }

  lemma OneLevel(h: nat, width: nat)
    requires h > 0
    ensures h * width == (h - 1) * width + width
    ensures (h - 1) * width >= 0
  {
  }

  lemma {:induction false} AllDepthBoundsTotal(vs: seq<Value>, count: nat, lim: Limits, h: nat)
    requires AdmitsAll(vs, count, lim) && lim.maxArray > 0 && DepthAll(vs) <= h
    ensures count + TotalAll(vs) <= Max(count, h * (lim.maxArray - 1))
    decreases vs, 1
  {
    hide Admits, Depth, Total;
    if vs != [] {
      DepthBoundsTotal(vs[0], count, lim, h);
      AllDepthBoundsTotal(vs[1..], count + Total(vs[0]), lim, h);
    }
  }

  function Voids(n: nat): (vs: seq<Value>)
    ensures |vs| == n
  {
    if n == 0 then [] else [Void] + Voids(n - 1)
  }

  /** Arrays of `width` elements nested `depth` deep. */
  function Nested(depth: nat, width: nat): Value {
    if depth == 0 || width == 0 then Void else Array([Nested(depth - 1, width)] + Voids(width - 1))
  }

  lemma {:induction false} VoidsAdmitted(n: nat, count: int, lim: Limits)
    ensures AdmitsAll(Voids(n), count, lim) && WellFormedAll(Voids(n))
    ensures TotalAll(Voids(n)) == 0 && DepthAll(Voids(n)) == 0
  {
    if n > 0 {
      VoidsAdmitted(n - 1, count, lim);
      assert Voids(n)[0] == Void && Voids(n)[1..] == Voids(n - 1);
      assert count + Total(Void) == count;
    }
  }

  lemma {:induction false} NestedAdmitted(depth: nat, width: nat, lim: Limits)
    requires 0 < width < lim.maxArray <= INT_MAX
    ensures var v := Nested(depth, width);
            WellFormed(v) && Admits(v, 0, lim) && Depth(v) == depth && Total(v) == depth * width
  {
    if depth > 0 {
      NestedAdmitted(depth - 1, width, lim);
      var inner := Nested(depth - 1, width);
      var elems := [inner] + Voids(width - 1);
      VoidsAdmitted(width - 1, Total(inner), lim);
      assert elems[1..] == Voids(width - 1);
      OneLevel(depth, width);
      assert AdmitsAll(elems, 0, lim) && TotalAll(elems) == Total(inner) && DepthAll(elems) == depth - 1;
      assert WellFormedAll(elems) && |elems| == width;
    }
  }

  /** The reader takes arrays of just below the limit at any depth of nesting, with a counter that can hold the total,
      and has then counted all of them. */
  lemma NestedIsRead(depth: nat, tail: seq<byte>, lim: Limits)
    requires 1 < lim.maxArray <= INT_MAX
    ensures var v := Nested(depth, lim.maxArray - 1);
            Decode(Encode(v) + tail, 0, lim) == Ok(v, |Encode(v)|, depth * (lim.maxArray - 1))
  {
    hide Decode, Encode, Admits, Nested, WellFormed;
    NestedAdmitted(depth, lim.maxArray - 1, lim);
    RoundTrip(Nested(depth, lim.maxArray - 1), tail, 0, lim);
  }

  /** Every value that a limited reader accepts and whose arrays are nested at most `h` deep has at most `bound`
      array elements in all. */
  ghost predicate TotalsBounded(h: nat, bound: nat, lim: Limits) {
    forall v :: WellFormed(v) && Depth(v) <= h && Admits(v, 0, lim) ==> Total(v) <= bound
  }

  /** The largest total at each nesting depth is the depth times one less than the limit. */
  lemma LargestTotal(h: nat, bound: nat, lim: Limits)
    requires 1 < lim.maxArray <= INT_MAX
    ensures TotalsBounded(h, bound, lim) <==> h * (lim.maxArray - 1) <= bound
  {
    hide WellFormed, Admits, Total, Depth, Nested;
    forall v | Depth(v) <= h && Admits(v, 0, lim)
      ensures Total(v) <= h * (lim.maxArray - 1)
    {
      DepthBoundsTotal(v, 0, lim, h);
    }
    NestedAdmitted(h, lim.maxArray - 1, lim);
  }

  /** So the limit bounds the total exactly without nesting, and the C counter is exact up to this depth. */
  lemma LimitBoundsTotal(h: nat)
    ensures TotalsBounded(h, READ_VALUE.maxArray - 1, READ_VALUE) <==> h <= 1
    ensures TotalsBounded(h, INT_MAX, READ_VALUE) <==> h <= 2099202
  {
    LargestTotal(h, READ_VALUE.maxArray - 1, READ_VALUE);
    LargestTotal(h, INT_MAX, READ_VALUE);
  }
}
