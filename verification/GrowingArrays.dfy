/** The capacity of an array value as array_append of function.c lets it grow. */
module GrowingArrays {
  import opened Base

  /** size |= 3; size <<= 1; size += 1 */
  function Grow(size: nat): nat {
    2 * (size - size % 4 + 3) + 1
  }

  /** An array's capacity and length, and how many pointers realloc has moved for it so far. */
  datatype Room = Room(size: nat, length: nat, moved: nat)

  const EMPTY := Room(0, 0, 0)

  function Append(r: Room): Room {
    if r.size <= r.length then Room(Grow(r.size), r.length + 1, r.moved + r.length)
    else r.(length := r.length + 1)
  }

  function Appends(n: nat): Room {
    if n == 0 then EMPTY else Append(Appends(n - 1))
  }

  lemma AppendsNext(n: nat)
    ensures Appends(n + 1) == Append(Appends(n)) && Appends(n).length == n
  {
    AppendsLaw(n);
  }

  ghost predicate SizeOk(size: nat) {
    size == 0 || exists k: nat :: k >= 3 && size == Pow2(k) - 1
  }

  lemma GrowKeepsSizeOk(size: nat)
    requires SizeOk(size)
    ensures SizeOk(Grow(size)) && Grow(size) == (if size == 0 then 7 else 2 * size + 1)
  {
    if size == 0 {
      assert Pow2(3) == 8;
    } else {
      var k: nat :| k >= 3 && size == Pow2(k) - 1;
      assert Pow2(k) == 4 * Pow2(k - 2);
      assert Pow2(k + 1) == 2 * Pow2(k);
    }
  }

  /** The capacity is 0 or 2^k - 1 with k >= 3 and suffices; n > 0 appends move fewer than 2n pointers. */
  lemma {:induction false} AppendsLaw(n: nat)
    ensures var r := Appends(n);
            && r.length == n <= r.size && SizeOk(r.size) && (n > 0 ==> r.size < 2 * n + 6)
            && r.moved <= r.size && (n > 0 ==> r.moved < 2 * n)
  {
    if n > 0 {
      AppendsLaw(n - 1);
      GrowKeepsSizeOk(Appends(n - 1).size);
    }
  }

  /** The pointers moved are those of every block that has been full: 7, 15, 31 and so on, up to the last but one. */
  lemma {:induction false} MovedExactly(n: nat) returns (k: nat)
    requires n > 0
    ensures k >= 3 && Appends(n).size == Pow2(k) - 1 && Appends(n).moved == Pow2(k) - k - 5
    ensures k > 3 ==> Pow2(k - 1) - 1 < n
  {
    if n == 1 {
      k := 3;
      assert Pow2(3) == 8 && Append(EMPTY) == Room(7, 1, 0);
      assert Appends(1) == Append(Appends(0)) && Appends(0) == EMPTY;
    } else {
      k := MovedExactly(n - 1);
      AppendsLaw(n - 1);
      if Appends(n - 1).size <= n - 1 {
        GrowKeepsSizeOk(Appends(n - 1).size);
        assert Pow2(k + 1) == 2 * Pow2(k);
        k := k + 1;
      }
    }
  }
}
