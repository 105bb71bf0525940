/** Numbers: C ints that wrap at 32 bits, and rings whose slots are found with counters that wrap. */
module Words {

  const INT := 0x1_0000_0000

  /** Conversion to a C int. */
  function Int32(x: int): (r: int)
    ensures -0x8000_0000 <= r < 0x8000_0000
    ensures -0x8000_0000 <= x < 0x8000_0000 ==> r == x
  {
    (x + 0x8000_0000) % INT - 0x8000_0000
  }

  /** Wrapping once or at every addition is the same. */
  lemma WrapAdd(a: int, b: int)
    ensures Int32(Int32(a) + b) == Int32(a + b)
  {
    var q := (a + 0x8000_0000) / INT;
    assert Int32(a) == a - q * INT;
    assert Int32(a) + b + 0x8000_0000 == a + b + 0x8000_0000 - q * INT;
    WrapShift(a + b + 0x8000_0000, q);
  }

  lemma WrapShift(x: int, q: int)
    ensures (x - q * INT) % INT == x % INT
    decreases if q < 0 then -q else q
  {
    if q > 0 {
      WrapShift(x, q - 1);
      assert (x - q * INT) % INT == (x - (q - 1) * INT) % INT;
    } else if q < 0 {
      WrapShift(x, q + 1);
      assert (x - q * INT) % INT == (x - (q + 1) * INT) % INT;
    }
  }

  function Max(a: nat, b: nat): (m: nat) {
    if a < b then b else a
  }

  // ---- rings ---------------------------------------------------------------------------------------------

  lemma ModStep(a: nat, size: nat)
    requires size > 0
    ensures (a + size) % size == a % size
  {
    var q, r := a / size, a % size;
    assert a + size == size * (q + 1) + r;
    Divides(size, q + 1, r);
  }

  /** A non-zero multiple is not small. */
  lemma Multiple(size: nat, d: int)
    ensures d >= 1 ==> size * d >= size
    ensures d <= -1 ==> size * d + size <= 0
  {
  }

  /** Quotient and remainder are unique. */
  lemma OneQuotient(size: nat, q: int, r: int, q': int, r': int)
    requires 0 <= r < size && 0 <= r' < size && size * q + r == size * q' + r'
    ensures r == r' && q == q'
  {
    var d := q - q';
    assert size * d == size * q - size * q';
    Multiple(size, d);
  }

  lemma Divides(size: nat, q: nat, r: nat)
    requires r < size
    ensures (size * q + r) % size == r
  {
    var x := size * q + r;
    assert x == size * (x / size) + x % size;
    OneQuotient(size, q, r, x / size, x % size);
  }

  lemma {:induction false} AddMultiple(size: nat, m: nat, r: nat)
    requires size > 0
    ensures (size * m + r) % size == r % size
  {
    if m > 0 {
      AddMultiple(size, m - 1, r);
      assert size * m + r == (size * (m - 1) + r) + size;
      ModStep(size * (m - 1) + r, size);
    }
  }

  /** A counter that wraps at a multiple of the ring size finds the same slot as one that does not. */
  lemma SlotOf(x: nat, rounds: nat, size: nat)
    requires size > 0 && rounds > 0
    ensures x % (rounds * size) % size == x % size
  {
    var top := rounds * size;
    assert top > 0;
    var q, r := x / top, x % top;
    assert x == top * q + r;
    assert top * q == size * (rounds * q);
    AddMultiple(size, rounds * q, r);
  }

  lemma SlotsDiffer(size: nat, i: nat, j: nat)
    requires i < j < i + size
    ensures i % size != j % size
  {
    var qi, qj, ri, rj := i / size, j / size, i % size, j % size;
    assert i == size * qi + ri && j == size * qj + rj;
    assert size * (qj - qi) == size * qj - size * qi;
    Multiple(size, qj - qi);
  }
}
