/** do_rand of kernel/proc.c: the Park-Miller generator in Schrage's form. */
module ParkMiller {

  /** 2^31 - 1, and 7^5 with the two constants that make it up. */
  const M := 0x7fff_ffff
  const A := 16807
  const Q := 127773
  const R := 2836
  const INVERSE := 1407677000

  /** The state after one draw, from a state already brought into [1, M - 1]. */
  function Times(x: int): (y: int)
    ensures 0 <= y < M
  {
    A * x % M
  }

  /** x mod M when x is off by one multiple of M. */
  lemma ModShift(x: int, k: int)
    ensures (x + k * M) % M == x % M
    decreases if k < 0 then -k else k
  {
    if k > 0 {
      ModShift(x, k - 1);
      assert (x + k * M) % M == (x + (k - 1) * M) % M;
    } else if k < 0 {
      ModShift(x, k + 1);
      assert (x + k * M) % M == (x + (k + 1) * M) % M;
    }
  }

  /** 16807 has an inverse, so a draw can be undone. */
  lemma Undo(x: int)
    requires 0 <= x < M
    ensures INVERSE * Times(x) % M == x
  {
    var q := A * x / M;
    assert A * x == q * M + Times(x);
    assert A * INVERSE == 11017 * M + 1;
    assert INVERSE * (A * x) == (A * INVERSE) * x;
    assert (A * INVERSE) * x == x + (11017 * x) * M;
    assert INVERSE * (q * M + Times(x)) == INVERSE * Times(x) + (INVERSE * q) * M;
    ModShift(x, 11017 * x);
    ModShift(INVERSE * Times(x), INVERSE * q);
  }

  /** The product is never zero. */
  lemma NonZero(x: int)
    requires 1 <= x < M
    ensures 1 <= Times(x)
  {
    Undo(x);
  }

  /** Different states give different draws: the generator permutes [1, M - 1]. */
  lemma Injective(x: int, y: int)
    requires 0 <= x < M && 0 <= y < M && Times(x) == Times(y)
    ensures x == y
  {
    Undo(x);
    Undo(y);
  }

  /** Schrage's form computes the product without leaving 32 bits, up to one multiple of M. */
  lemma Schrage(x: int)
    requires 1 <= x < M
    ensures var d := A * (x % Q) - R * (x / Q);
            && -M < d < M && (if d < 0 then d + M else d) == Times(x)
  {
    var hi, lo := x / Q, x % Q;
    assert x == Q * hi + lo;
    assert 0 <= hi <= A;
    var d := A * lo - R * hi;
    assert A * x == d + hi * M;
    ModShift(d, hi);
    ModShift(d, 1);
    assert 0 <= A * lo < M && 0 <= R * hi < M;
  }

  /** What rand() returns from a generator state. */
  function Rand(next: nat): (r: nat)
    ensures r <= M - 2
  {
    NonZero(next % (M - 1) + 1);
    Times(next % (M - 1) + 1) - 1
  }

  /** Every value in [0, 0x7ffffffd] is returned from some state. */
  lemma RandOnto(r: nat) returns (next: nat)
    requires r <= M - 2
    ensures next <= M - 2 && Rand(next) == r
  {
    var y := r + 1;
    var x := INVERSE * y % M;
    Redo(y);
    assert x != 0 by {
      assert Times(0) == 0;
    }
    next := x - 1;
  }

  /** A draw leads back to what was undone. */
  lemma Redo(y: int)
    requires 0 <= y < M
    ensures Times(INVERSE * y % M) == y
  {
    var x := INVERSE * y % M;
    var q := INVERSE * y / M;
    assert INVERSE * y == q * M + x;
    assert A * INVERSE == 11017 * M + 1;
    assert A * (INVERSE * y) == (A * INVERSE) * y;
    assert (A * INVERSE) * y == y + (11017 * y) * M;
    assert A * (q * M + x) == A * x + (A * q) * M;
    ModShift(y, 11017 * y);
    ModShift(A * x, A * q);
  }

  class Random {
    var next: nat

    /** The seed of the kernel's generator. */
    constructor ()
      ensures next == 1
    {
      next := 1;
    }

    /** rand(): the next draw, in [0, 0x7ffffffd]. */
    method DoRand() returns (r: nat)
      modifies this
      ensures r == next == Rand(old(next)) && r <= 0x7fff_fffd
    {
      var x: int := next % 0x7fff_fffe + 1;
      var hi, lo := x / Q, x % Q;
      Schrage(x);
      NonZero(x);
      x := A * lo - R * hi;
      if x < 0 {
        x := x + M;
      }
      x := x - 1;
      next := x;
      return next;
    }
  }
}
