/** Counting byte strings: there are more long words over a few letters than
    short files. */
module Counting {
  import opened Bytes
  import opened LzwRatio

  function Pow(m: nat, n: nat): (p: nat)
    ensures m > 0 ==> p > 0
  {
    if n == 0 then 1 else m * Pow(m, n - 1)
  }

  lemma {:induction false} PowSum(m: nat, a: nat, b: nat)
    ensures Pow(m, a + b) == Pow(m, a) * Pow(m, b)
  {
    if a > 0 {
      PowSum(m, a - 1, b);
      assert a - 1 + b == a + b - 1;
      Regroup(m, Pow(m, a - 1), Pow(m, b));
    }
  }

  lemma Regroup(x: nat, y: nat, z: nat)
    ensures x * (y * z) == x * y * z
  {
  }

  /** Twelve letters nine times are more than four bytes. */
  lemma {:induction false} PowCompare(k: nat)
    ensures Pow(256, 4 * k) <= Pow(LETTERS, 9 * k)
  {
    if k > 0 {
      PowCompare(k - 1);
      PowSum(256, 4, 4 * (k - 1));
      PowSum(12, 9, 9 * (k - 1));
      FourAndNine();
      Product(Pow(256, 4), Pow(256, 4 * (k - 1)), Pow(12, 9), Pow(12, 9 * (k - 1)));
    }
  }

  lemma FourAndNine()
    ensures Pow(256, 4) <= Pow(12, 9)
  {
    assert Pow(256, 2) == 65536 && Pow(256, 4) == 65536 * 65536 by { PowSum(256, 2, 2); }
    assert Pow(12, 3) == 1728 && Pow(12, 6) == 1728 * 1728 by { PowSum(12, 3, 3); }
    assert Pow(12, 9) == 1728 * 1728 * 1728 by { PowSum(12, 6, 3); }
  }

  lemma Product(a: nat, b: nat, c: nat, d: nat)
    requires a <= c && b <= d
    ensures a * b <= c * d
  {
    assert a * b <= c * b <= c * d;
  }

  // ----- words as numbers -----

  /** The word of n letters that a number below 12^n is written as. */
  function WordOf(n: nat, x: nat): (w: seq<Byte>)
    ensures |w| == n && AllLetters(w)
  {
    if n == 0 then [] else WordOf(n - 1, x / LETTERS) + [x % LETTERS]
  }

  lemma {:induction false} WordsDiffer(n: nat, x: nat, y: nat)
    requires x < Pow(LETTERS, n) && y < Pow(LETTERS, n) && WordOf(n, x) == WordOf(n, y)
    ensures x == y
  {
    if n > 0 {
      LastDigit(n, x);
      LastDigit(n, y);
      WordsDiffer(n - 1, x / LETTERS, y / LETTERS);
    }
  }

  lemma LastDigit(n: nat, x: nat)
    requires n > 0
    ensures WordOf(n, x)[n - 1] == x % LETTERS && WordOf(n, x)[..n - 1] == WordOf(n - 1, x / LETTERS)
  {
  }

  // ----- files as numbers -----

  /** A file, behind a leading 1, as a number in base 256. */
  function Number(f: seq<Byte>): (n: nat)
    ensures n > 0
  {
    if f == [] then 1 else Number(f[..|f| - 1]) * 256 + f[|f| - 1]
  }

  lemma {:induction false} NumbersDiffer(f: seq<Byte>, g: seq<Byte>)
    requires Number(f) == Number(g)
    ensures f == g
    decreases |f|
  {
    if f != [] && g != [] {
      NumbersDiffer(f[..|f| - 1], g[..|g| - 1]);
      assert f == f[..|f| - 1] + [f[|f| - 1]] && g == g[..|g| - 1] + [g[|g| - 1]];
    }
  }

  lemma {:induction false} NumberBound(f: seq<Byte>, len: nat)
    requires |f| < len
    ensures Number(f) < Pow(256, len)
    decreases len
  {
    if f != [] { NumberBound(f[..|f| - 1], len - 1); }
  }
}
