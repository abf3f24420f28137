/** The key types of dict.c, with their hashes. */
module KeyTypes {
  import opened Base
  import opened Crc32
  import opened CrcLaws
  import opened CrcPolynomial
  import opened DictSpec
  import opened DictRuns

  /** charptr_type: strings compared by their characters; NULL is a key of its own, with hash 0. */
  const CHAR_PTR: HashType<Option<CString>> :=
    HashType((a: Option<CString>, b: Option<CString>) => a == b,
             (a: Option<CString>) => match a case None => 0 case Some(s) => Hash(s))

  /** A pointer, or an integer in its place, as the four bytes that are hashed on a 32-bit machine. */
  type Pointer = p: nat | p < TWO_32

  /** ptr_type and int_type */
  const PTR: HashType<Pointer> :=
    HashType((a: Pointer, b: Pointer) => a == b, (a: Pointer) => Hash(LittleEndian(a, 4)))

  lemma KeyTypesLawful()
    ensures LawfulType(CHAR_PTR) && LawfulType(PTR)
    ensures (forall a, b :: CHAR_PTR.equals(a, b) <==> a == b) && (forall a, b :: PTR.equals(a, b) <==> a == b)
  {
    hide Hash, LittleEndian;
  }

  /** Different pointers have different hashes. */
  lemma PointersNeverCollide(a: Pointer, b: Pointer)
    requires PTR.hash(a) == PTR.hash(b)
    ensures a == b
  {
    hide Hash;
    ShortBlocksNeverCollide(LittleEndian(a, 4), LittleEndian(b, 4));
    Pow256Of4();
    UnsignedOfLittleEndian(a, 4);
    UnsignedOfLittleEndian(b, 4);
  }

  /** The hash of NULL is 0, that of a string the remainder of its characters, and no other number is that. */
  lemma CharsAreHashed(s: CString) returns (q: Bits)
    ensures CHAR_PTR.hash(None) == 0
    ensures |q| == 8 * |s| && Divides(s, q, CHAR_PTR.hash(Some(s))) && CHAR_PTR.hash(Some(s)) < TWO_32
    ensures forall p: Bits, h: nat :: |p| == 8 * |s| && h < TWO_32 && Divides(s, p, h) ==> h == CHAR_PTR.hash(Some(s))
  {
    hide Hash, Divides;
    q := HashIsRemainder(s);
    forall p: Bits, h: nat | |p| == 8 * |s| && h < TWO_32 && Divides(s, p, h)
      ensures h == Hash(s)
    {
      RemainderIsUnique(s, p, q, h, Hash(s));
    }
  }

  /** The hash of a pointer is that of its bytes, the lowest first. */
  lemma PointersAreHashed(a: Pointer)
    ensures PTR.hash(a) == Hash(FourBytes(a))
  {
    hide Hash;
    LittleEndianOf4(a);
  }

  /** Strings of one length that differ only within four consecutive characters have different hashes. */
  lemma NearStringsNeverCollide(s: CString, t: CString, from: nat, to: nat)
    requires |s| == |t| && s != t && from <= to <= |s| && to - from <= 4
    requires forall i :: 0 <= i < |s| && !(from <= i < to) ==> s[i] == t[i]
    ensures CHAR_PTR.hash(Some(s)) != CHAR_PTR.hash(Some(t))
  {
    hide Hash;
    var before, u, v, behind := s[..from], s[from..to], t[from..to], s[to..];
    assert before + u + behind == s;
    assert before + v + behind == t;
    BurstsAreDetected(before, u, v, behind);
    assert CHAR_PTR.hash(Some(s)) == Hash(s);
    assert CHAR_PTR.hash(Some(t)) == Hash(t);
  }

  /** An instance of DictRuns.NewestCanLose with integer keys. */
  lemma OlderIntegerFound()
    ensures var ops: seq<Op<Pointer, char>> := [PutOp(1, 'a'), PutOp(1, 'b'), PutOp(2, 'c')];
            Lookup(PTR, RunOps(PTR, New(), ops), 1).item == Some(Item(1, PTR.hash(1), 'a'))
  {
    hide Hash, LittleEndian;
    KeyTypesLawful();
    NewestCanLose<Pointer, char>(PTR, 1, 2, 'a', 'b', 'c');
  }
}
