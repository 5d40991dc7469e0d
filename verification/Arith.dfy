/** Facts about division and powers used by the fixed-width arithmetic. */
module Arith {
  import opened Types
  import opened Wire

  function Pow2(k: nat): (p: nat)
    ensures p >= 1
  {
    if k == 0 then 1 else 2 * Pow2(k - 1)
  }

  lemma MulLe(a: int, b: int, c: nat)
    requires a <= b
    ensures a * c <= b * c
  {
    assert (b - a) * c >= 0;
  }

  lemma MulDistributes(a: int, b: int, c: int)
    ensures (a + b) * c == a * c + b * c
  {
  }

  lemma MulAssociates(a: int, b: int, c: int)
    ensures (a * b) * c == a * (b * c)
  {
  }

  lemma MulSwap(a: int, b: int, c: int)
    ensures a * (b * c) == b * (a * c)
  {
  }

  lemma {:induction false} Pow2Add(a: nat, b: nat)
    ensures Pow2(a + b) == Pow2(a) * Pow2(b)
  {
    if b > 0 {
      Pow2Add(a, b - 1);
      MulSwap(2, Pow2(a), Pow2(b - 1));
    }
  }

  lemma {:induction false} Pow2Mono(a: nat, b: nat)
    requires a <= b
    ensures Pow2(a) <= Pow2(b)
  {
    if a < b {
      Pow2Mono(a, b - 1);
    }
  }

  lemma {:induction false} Pow256IsPow2(k: nat)
    ensures Pow256(k) == Pow2(8 * k)
  {
    if k > 0 {
      Pow256IsPow2(k - 1);
      Pow2Add(8 * (k - 1), 8);
      assert Pow2(8) == 256;
    }
  }

  lemma {:induction false} Pow256Add(a: nat, b: nat)
    ensures Pow256(a + b) == Pow256(a) * Pow256(b)
  {
    if a > 0 {
      Pow256Add(a - 1, b);
      MulAssociates(256, Pow256(a - 1), Pow256(b));
    }
  }

  lemma MulCommutes(a: int, b: int)
    ensures a * b == b * a
  {
  }

  lemma DivMod(a: nat, b: nat)
    requires b > 0
    ensures a == (a / b) * b + a % b && a % b < b
  {
  }

  /** The quotient is the greatest q with q * m <= a. */
  lemma DivBounds(a: nat, m: nat, q: nat)
    requires m > 0
    ensures q <= a / m <==> q * m <= a
  {
    var p := a / m;
    DivMod(a, m);
    if q <= p {
      MulLe(q, p, m);
    } else {
      MulLe(p + 1, q, m);
      MulDistributes(p, 1, m);
    }
  }

  /** Quotient and remainder are determined by their defining equation. */
  lemma DivUnique(a: nat, b: nat, q: nat, r: nat)
    requires a == q * b + r && r < b
    ensures q == a / b && r == a % b
  {
    DivBounds(a, b, q);
    DivBounds(a, b, q + 1);
    MulDistributes(q, 1, b);
    DivMod(a, b);
  }

  predicate IsProduct(p: nat, m: nat, n: nat) {
    p == m * n
  }

  lemma DivDivBound(a: nat, m: nat, n: nat, p: nat, k: nat)
    requires m > 0 && n > 0 && p > 0 && IsProduct(p, m, n)
    ensures k <= a / m / n <==> k <= a / p
  {
    DivBounds(a / m, n, k);
    DivBounds(a, m, k * n);
    DivBounds(a, p, k);
    MulAssociates(k, n, m);
    MulCommutes(m, n);
  }

  lemma DivDiv(a: nat, m: nat, n: nat, p: nat)
    requires m > 0 && n > 0 && p > 0 && IsProduct(p, m, n)
    ensures a / m / n == a / p
  {
    hide IsProduct;
    var x, y := a / m / n, a / p;
    DivDivBound(a, m, n, p, x);
    DivDivBound(a, m, n, p, y);
  }

  lemma DivMonotone(a: nat, b: nat, m: nat)
    requires a <= b && m > 0
    ensures a / m <= b / m
  {
    DivBounds(a, m, a / m);
    DivBounds(b, m, a / m);
  }

  lemma DivAntitone(a: nat, m: nat, n: nat)
    requires 0 < m <= n
    ensures a / n <= a / m
  {
    DivBounds(a, n, a / n);
    MulLe(m, n, a / n);
    DivBounds(a, m, a / n);
  }

  // ---- little-endian values ----

  lemma {:induction false} FromLeConcat(s: Bytes, t: Bytes)
    ensures FromLe(s + t) == FromLe(s) + Pow256(|s|) * FromLe(t)
  {
    if s == [] {
      assert s + t == t;
    } else {
      FromLeConcat(s[1..], t);
      assert (s + t)[1..] == s[1..] + t;
      MulAssociates(256, Pow256(|s| - 1), FromLe(t));
    }
  }

  /** The bytes below and from index i are the remainder and quotient by 256^i. */
  lemma FromLeSplit(s: Bytes, i: nat)
    requires i <= |s|
    ensures FromLe(s) == FromLe(s[..i]) + Pow256(i) * FromLe(s[i..])
    ensures FromLe(s[..i]) == FromLe(s) % Pow256(i)
    ensures FromLe(s[i..]) == FromLe(s) / Pow256(i)
  {
    hide FromLe, Pow256;
    FromLeConcat(s[..i], s[i..]);
    assert s[..i] + s[i..] == s;
    MulCommutes(Pow256(i), FromLe(s[i..]));
    DivUnique(FromLe(s), Pow256(i), FromLe(s[i..]), FromLe(s[..i]));
  }

  lemma FromLeSnoc(s: Bytes, b: byte)
    ensures FromLe(s + [b]) == FromLe(s) + Pow256(|s|) * b
  {
    FromLeConcat(s, [b]);
    assert FromLe([b]) == b;
  }

  lemma {:induction false} FromLeZeros(s: Bytes)
    requires forall i | 0 <= i < |s| :: s[i] == 0
    ensures FromLe(s) == 0
  {
    if s != [] {
      FromLeZeros(s[1..]);
    }
  }

  lemma ZeroHashIsZero()
    ensures forall i | 0 <= i < 32 :: ZERO_HASH[i] == 0
  {
    hide FromLe, Pow256, Pow2;
    forall i | 0 <= i < 32
      ensures ZERO_HASH[i] == 0
    {
      assert ZERO_HASH[i] in ZERO_HASH;
    }
  }

  /** Changing one byte changes the value by the difference at that place. */
  lemma FromLeUpdate(s: Bytes, i: nat, b: byte)
    requires i < |s|
    ensures FromLe(s[i := b]) == FromLe(s) + Pow256(i) * (b - s[i])
  {
    var low, high := s[..i], s[i + 1..];
    assert s == low + ([s[i]] + high) && s[i := b] == low + ([b] + high);
    FromLeConcat(low, [s[i]] + high);
    FromLeConcat(low, [b] + high);
    assert ([s[i]] + high)[1..] == high && ([b] + high)[1..] == high;
    var h := FromLe(high);
    assert Pow256(i) * (b + 256 * h) == Pow256(i) * (s[i] + 256 * h) + Pow256(i) * (b - s[i]);
  }

  lemma {:induction false} FromLeInjective(s: Bytes, t: Bytes)
    requires |s| == |t| && FromLe(s) == FromLe(t)
    ensures s == t
  {
    if s != [] {
      assert s[0] == FromLe(s) % 256 == t[0];
      FromLeInjective(s[1..], t[1..]);
      assert s == [s[0]] + s[1..] && t == [t[0]] + t[1..];
    }
  }
}
