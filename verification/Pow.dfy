/** Proof-of-work targets and their compact four-byte form. */
module Pow {
  import opened Types
  import opened Wire
  import opened Arith
  import opened Uint256

  const MANTISSA_LIMIT: nat := 0x80_0000
  const EXPONENT_UNIT: nat := 0x100_0000

  // ---- compact form as numbers ----

  function Times(a: nat, b: nat): nat {
    MulLe(0, a, b);
    a * b
  }

  function Over(a: nat, b: nat): nat
    requires b > 0
  {
    DivBounds(a, b, 0);
    a / b
  }

  /** The target a compact value denotes, if it denotes one: mantissa * 256^(exponent - 3), rounded down. */
  function TargetOf(bits: u32): Option<nat> {
    var exponent, mantissa, sign := bits / EXPONENT_UNIT, bits % MANTISSA_LIMIT, bits / MANTISSA_LIMIT % 2;
    if mantissa == 0 || sign == 1 then None
    else if exponent <= 3 then Some(Over(mantissa, Pow256(3 - exponent)))
    else if exponent > 32 then None
    else Some(Times(mantissa, Pow256(exponent - 3)))
  }

  /** The target in numbers: mantissa times 256^(exponent - 3), rounded down, and none if the mantissa is zero,
      the sign bit is set or the exponent is above 32. */
  lemma TargetOfParts(exponent: nat, mantissa: nat)
    requires exponent < 0x100 && mantissa < 0x80_0000
    ensures TargetOf(exponent * 0x100_0000 + mantissa) ==
      if mantissa == 0 || exponent > 32 then None
      else if exponent <= 3 then Some(mantissa / Pow256(3 - exponent))
      else Some(mantissa * Pow256(exponent - 3))
    ensures TargetOf(exponent * 0x100_0000 + 0x80_0000 + mantissa) == None
  {
    hide Pow256;
    var bits := exponent * 0x100_0000 + mantissa;
    assert bits / EXPONENT_UNIT == exponent && bits % MANTISSA_LIMIT == mantissa && bits / MANTISSA_LIMIT % 2 == 0;
    var signed := bits + 0x80_0000;
    assert signed / MANTISSA_LIMIT % 2 == 1;
  }

  /** 2^(8k - 1): the targets below it have a compact exponent of at most k. */
  function Bound(k: nat): nat
    requires k > 0
  {
    128 * Pow256(k - 1)
  }

  predicate HasExponent(t: nat, k: nat) {
    k > 0 && t < Bound(k) && (k > 1 ==> t >= Bound(k - 1))
  }

  /** The mantissa of t at exponent k. */
  function MantissaOf(t: nat, k: nat): nat {
    if k <= 3 then Times(t, Pow256(3 - k)) else Over(t, Pow256(k - 3))
  }

  function Compact(k: nat, mantissa: nat): nat {
    k * EXPONENT_UNIT + mantissa
  }

  /** t with the part below its mantissa cleared. */
  function RoundDown(t: nat, k: nat): nat {
    if k <= 3 then t else Times(Over(t, Pow256(k - 3)), Pow256(k - 3))
  }

  lemma BoundStep(k: nat)
    requires k > 0
    ensures Bound(k + 1) == 256 * Bound(k)
  {
  }

  lemma {:induction false} BoundMono(j: nat, k: nat)
    requires 0 < j <= k
    ensures Bound(j) <= Bound(k)
  {
    if j < k {
      BoundMono(j, k - 1);
      BoundStep(k - 1);
    }
  }

  lemma ExponentUnique(t: nat, j: nat, k: nat)
    requires HasExponent(t, j) && HasExponent(t, k)
    ensures j == k
  {
    if j < k {
      BoundMono(j, k - 1);
    } else if k < j {
      BoundMono(k, j - 1);
    }
  }

  lemma MantissaFits(t: nat, k: nat)
    requires HasExponent(t, k)
    ensures MantissaOf(t, k) < MANTISSA_LIMIT
    ensures t > 0 ==> MantissaOf(t, k) > 0
    ensures k > 3 ==> MantissaOf(t, k) >= 0x8000
  {
    Pow256Values();
    assert Pow256(3) == 0x100_0000;
    if k <= 3 {
      SmallExponent(t, k);
    } else {
      var g := Pow256(k - 3);
      Pow256Add(2, k - 3);
      Pow256Add(1, k - 3);
      hide Pow256;
      assert Bound(k) == 128 * (0x1_0000 * g) == MANTISSA_LIMIT * g;
      assert Bound(k - 1) == 128 * (256 * g) == 0x8000 * g;
      DivBounds(t, g, MANTISSA_LIMIT);
      DivBounds(t, g, 0x8000);
    }
  }

  lemma SmallExponent(t: nat, k: nat)
    requires HasExponent(t, k) && k <= 3
    ensures t * Pow256(3 - k) < MANTISSA_LIMIT
    ensures t > 0 ==> t * Pow256(3 - k) > 0
  {
    if k == 1 {
      assert Pow256(0) == 1 && Pow256(2) == 0x1_0000;
    } else if k == 2 {
      assert Pow256(1) == 256;
    } else {
      assert Pow256(0) == 1 && Pow256(2) == 0x1_0000;
    }
  }

  /** Decoding what encoding produced: the target rounded down, or nothing above 2^255. */
  lemma DecodeEncoded(t: nat, k: nat)
    requires t > 0 && HasExponent(t, k) && k <= 33
    ensures Compact(k, MantissaOf(t, k)) <= 0xffff_ffff
    ensures TargetOf(Compact(k, MantissaOf(t, k))) == if k <= 32 then Some(RoundDown(t, k)) else None
  {
    MantissaFits(t, k);
    var m := MantissaOf(t, k);
    CompactFields(k, m);
    if k <= 3 {
      DivUnique(t * Pow256(3 - k), Pow256(3 - k), t, 0);
    }
  }

  lemma CompactFields(k: nat, m: nat)
    requires k <= 33 && m < MANTISSA_LIMIT
    ensures Compact(k, m) <= 0xffff_ffff
    ensures var bits := Compact(k, m);
      bits / EXPONENT_UNIT == k && bits % MANTISSA_LIMIT == m && bits / MANTISSA_LIMIT % 2 == 0
  {
  }

  /** Rounding loses less than one part in 2^15. */
  lemma RoundDownError(t: nat, k: nat)
    requires t > 0 && HasExponent(t, k)
    ensures RoundDown(t, k) <= t < RoundDown(t, k) + (if k <= 3 then 1 else Pow256(k - 3))
    ensures 0x8000 * (t - RoundDown(t, k)) < t
  {
    if k > 3 {
      MantissaFits(t, k);
      var g := Pow256(k - 3);
      var m := t / g;
      DivMod(t, g);
      MulLe(0x8000, m, g);
      hide Pow256;
      assert 0x8000 * (t % g) < 0x8000 * g <= m * g <= t;
    }
  }

  /** Rounding is monotone, also across exponents. */
  lemma RoundDownMonotone(t: nat, u: nat, j: nat, k: nat)
    requires 0 < t <= u && HasExponent(t, j) && HasExponent(u, k)
    ensures RoundDown(t, j) <= RoundDown(u, k)
  {
    RoundDownError(t, j);
    RoundDownError(u, k);
    if j == k {
      if k > 3 {
        DivMonotone(t, u, Pow256(k - 3));
        MulLe(t / Pow256(k - 3), u / Pow256(k - 3), Pow256(k - 3));
      }
    } else {
      if k < j {
        BoundMono(k, j - 1);
        assert false;
      }
      BoundMono(j, k - 1);
      if k > 3 {
        MantissaFits(u, k);
        var g := Pow256(k - 3);
        Pow256Add(1, k - 3);
        MulLe(0x8000, u / g, g);
        hide Pow256;
        assert Bound(k - 1) == 128 * (256 * g) == 0x8000 * g;
      }
    }
  }

  /** A decoded target is its own rounding: decode, encode, decode is decode. */
  lemma DecodedIsExact(bits: u32, t: nat, k: nat)
    requires TargetOf(bits) == Some(t) && t > 0 && HasExponent(t, k)
    ensures k <= 32 && RoundDown(t, k) == t
  {
    var exponent: nat, m: nat := bits / EXPONENT_UNIT, bits % MANTISSA_LIMIT;
    if exponent <= 3 {
      DivBounds(m, Pow256(3 - exponent), t);
      MulLe(1, Pow256(3 - exponent), t);
      MulCommutes(t, Pow256(3 - exponent));
      assert t <= m < MANTISSA_LIMIT;
      assert Bound(3) == MANTISSA_LIMIT;
      if k > 3 {
        BoundMono(3, k - 1);
      }
    } else {
      assert t == m * Pow256(exponent - 3);
      ShiftedIsExact(m, exponent, t, k);
    }
  }

  /** A mantissa shifted left is exact at the exponent of the result. */
  lemma ShiftedIsExact(m: nat, exponent: nat, t: nat, k: nat)
    requires 3 < exponent <= 32 && m < MANTISSA_LIMIT && t == m * Pow256(exponent - 3) && HasExponent(t, k)
    ensures k <= exponent && RoundDown(t, k) == t
  {
    hide Pow256, Bound;
    DecodedBelowBound(m, exponent, Pow256(exponent - 3));
    if k > exponent {
      BoundMono(exponent, k - 1);
      assert false;
    } else if k > 3 {
      Pow256Add(exponent - k, k - 3);
      var g, f := Pow256(k - 3), Pow256(exponent - k);
      MulAssociates(m, f, g);
      DivUnique(t, g, m * f, 0);
    }
  }

  lemma DecodedBelowBound(m: nat, exponent: nat, g: nat)
    requires exponent > 3 && m < MANTISSA_LIMIT && g == Pow256(exponent - 3)
    ensures m * g < Bound(exponent)
  {
    Pow256Add(2, exponent - 3);
    Pow256Values();
    MulLe(m + 1, MANTISSA_LIMIT, g);
    MulDistributes(m, 1, g);
    hide Pow256;
    assert Bound(exponent) == 128 * (0x1_0000 * g) by { assert Pow256(exponent - 1) == 0x1_0000 * g; }
  }

  // ---- encoding ----

  /** The compact exponent of t. */
  function Exponent(t: nat): (k: nat)
    ensures HasExponent(t, k)
  {
    if t < 128 then 1 else
      var k := Exponent(t / 256);
      BoundStep(k);
      if k > 1 then BoundStep(k - 1); k + 1 else k + 1
  }

  lemma ExponentInWord(t: nat)
    requires t < Limit()
    ensures Exponent(t) <= 33
    ensures Exponent(t) <= 32 <==> t < Pow2(255)
  {
    Pow256IsPow2(31);
    Pow2Add(248, 7);
    SmallPowers();
    var k := Exponent(t);
    hide Pow256, Pow2;
    assert Bound(32) == Pow2(255) && Bound(33) == 128 * Limit();
    BoundMono(33, if k > 33 then k - 1 else 33);
    if k <= 32 {
      BoundMono(k, 32);
    } else {
      assert k == 33;
    }
  }

  /** The compact value of a target; zero has none. */
  function Encode(t: nat): Option<u32>
    requires t < Limit()
  {
    if t == 0 then None else
      var k := Exponent(t);
      ExponentInWord(t);
      DecodeEncoded(t, k);
      Some(Compact(k, MantissaOf(t, k)))
  }

  /** What a target becomes when it is encoded and decoded again. */
  function Rounded(t: nat): nat {
    RoundDown(t, Exponent(t))
  }

  /** Encoding then decoding rounds down by less than t / 2^15, and loses the target altogether
      exactly from 2^255 on. */
  lemma EncodeThenDecode(t: nat)
    requires 0 < t < Limit()
    ensures Encode(t).Some?
    ensures TargetOf(Encode(t).value) == if t < Pow2(255) then Some(Rounded(t)) else None
    ensures Rounded(t) <= t && 0x8000 * (t - Rounded(t)) < t
  {
    var k := Exponent(t);
    ExponentInWord(t);
    DecodeEncoded(t, k);
    RoundDownError(t, k);
  }

  lemma ExponentParts(t: nat, k: nat)
    requires HasExponent(t, k)
    ensures k > 0 && t < 128 * Pow256(k - 1) && (k > 1 ==> t >= 128 * Pow256(k - 2))
    ensures Compact(k, MantissaOf(t, k)) == k * 0x100_0000 + if k <= 3 then t * Pow256(3 - k) else t / Pow256(k - 3)
    ensures RoundDown(t, k) == if k <= 3 then t else t / Pow256(k - 3) * Pow256(k - 3)
  {
    hide Pow256;
  }

  lemma EncodedIs(t: nat)
    requires 0 < t < Limit()
    ensures Encode(t).Some? && Encode(t).value == Compact(Exponent(t), MantissaOf(t, Exponent(t)))
  {
    hide Compact, MantissaOf, Exponent, Limit;
  }

  /** The encoding in numbers: the least exponent whose mantissa leaves the sign bit free, and the leading three
      bytes at that exponent; decoding gives the target with everything below them cleared. */
  lemma EncodedParts(t: nat) returns (k: nat)
    requires 0 < t < Pow2(255)
    ensures 0 < k <= 32 && t < 128 * Pow256(k - 1) && (k > 1 ==> t >= 128 * Pow256(k - 2))
    ensures t < Limit() && Encode(t).Some?
    ensures Encode(t).value == k * 0x100_0000 + if k <= 3 then t * Pow256(3 - k) else t / Pow256(k - 3)
    ensures Rounded(t) == if k <= 3 then t else t / Pow256(k - 3) * Pow256(k - 3)
  {
    HalfLimit();
    ExponentInWord(t);
    k := Exponent(t);
    EncodedIs(t);
    hide Encode, Exponent, Pow2, Pow256, HasExponent, RoundDown, MantissaOf, Compact, Limit, Bound;
    ExponentParts(t, k);
  }

  lemma RoundedMonotone(t: nat, u: nat)
    requires 0 < t <= u
    ensures Rounded(t) <= Rounded(u)
  {
    RoundDownMonotone(t, u, Exponent(t), Exponent(u));
  }

  /** A decoded target survives encoding and decoding unchanged, except zero, which has no encoding. */
  lemma DecodeEncodeDecode(bits: u32)
    requires TargetOf(bits).Some?
    ensures TargetOf(bits).value < Pow2(255) < Limit()
    ensures Encode(TargetOf(bits).value).Some? <==> TargetOf(bits).value > 0
    ensures TargetOf(bits).value > 0 ==> TargetOf(Encode(TargetOf(bits).value).value) == TargetOf(bits)
  {
    HalfLimit();
    var t := TargetOf(bits).value;
    if t > 0 {
      var k := Exponent(t);
      DecodedIsExact(bits, t, k);
      BoundMono(k, 32);
      EncodeThenDecode(t);
    }
  }

  lemma HalfLimit()
    ensures Bound(32) == Pow2(255) < Limit()
  {
    hide Pow256, Pow2;
    Pow256IsPow2(31);
    Pow2Add(248, 7);
    SmallPowers();
    Pow256Step(31);
  }

  lemma TargetFits(bits: u32)
    requires TargetOf(bits).Some?
    ensures TargetOf(bits).value < Pow2(255) < Limit()
  {
    HalfLimit();
    if TargetOf(bits).value > 0 {
      DecodeEncodeDecode(bits);
    }
  }

  // ---- byte-level decoding and encoding ----

  /** A zeroed threshold with the three low bytes of a value written at an offset. */
  function PlaceThree(value: nat, offset: nat): Hash
    requires offset <= 29
  {
    ZERO_HASH[..offset] + LeBytes(value, 3) + ZERO_HASH[offset + 3..]
  }

  lemma PlacedField(zeros: Bytes, field: Bytes, offset: nat)
    requires |zeros| == 32 && |field| == 3 && offset <= 29 && forall k | 0 <= k < |zeros| :: zeros[k] == 0
    ensures FromLe(zeros[..offset] + field + zeros[offset + 3..]) == FromLe(field) * Pow256(offset)
  {
    hide FromLe, Pow256;
    var low, high := zeros[..offset], zeros[offset + 3..];
    FromLeZeros(low);
    FromLeZeros(high);
    FromLeConcat(field, high);
    FromLeConcat(low, field + high);
    assert low + field + high == low + (field + high);
    MulCommutes(Pow256(offset), FromLe(field));
  }

  lemma PlacedValue(value: nat, offset: nat)
    requires offset <= 29 && value < Pow256(3)
    ensures FromLe(PlaceThree(value, offset)) == value * Pow256(offset)
  {
    hide FromLe, Pow256, LeBytes;
    FromLeInvertsLeBytes(value, 3);
    ZeroHashIsZero();
    PlacedField(ZERO_HASH, LeBytes(value, 3), offset);
  }

  method FromBits(bits: u32) returns (r: Option<Hash>)
    ensures match TargetOf(bits)
      case None => r == None
      case Some(t) => r.Some? && FromLe(r.value) == t
  {
    hide FromLe, PlaceThree, Pow256;
    var exponent, mantissa := bits / EXPONENT_UNIT, bits % MANTISSA_LIMIT;
    if mantissa == 0 || bits / MANTISSA_LIMIT % 2 == 1 {
      return None;
    }
    MantissaIsThreeBytes();
    if exponent <= 3 {
      var value := Over(mantissa, Pow256(3 - exponent));
      OverShrinks(mantissa, Pow256(3 - exponent));
      PlacedValue(value, 0);
      r := Some(PlaceThree(value, 0));
    } else {
      var offset := exponent - 3;
      if offset + 3 > 32 {
        return None;
      }
      PlacedValue(mantissa, offset);
      r := Some(PlaceThree(mantissa, offset));
    }
  }

  lemma MantissaIsThreeBytes()
    ensures MANTISSA_LIMIT < Pow256(3) && Pow256(0) == 1
  {
    assert Pow256(3) == 0x100_0000;
  }

  lemma OverShrinks(a: nat, b: nat)
    requires b > 0
    ensures Over(a, b) <= a
  {
    DivAntitone(a, 1, b);
  }

  /** The number of bytes up to the highest non-zero one. */
  method SignificantSize(threshold: Hash) returns (r: Option<nat>)
    ensures r == None <==> FromLe(threshold) == 0
    ensures r.Some? ==> 0 < r.value <= 32 && Pow256(r.value - 1) <= FromLe(threshold) < Pow256(r.value)
    ensures r.Some? ==> FromLe(threshold[..r.value]) == FromLe(threshold)
  {
    hide FromLe, Pow256;
    for index := 32 downto 0
      invariant forall j | index <= j < 32 :: threshold[j] == 0
    {
      if threshold[index] != 0 {
        FromLeSplit(threshold, index + 1);
        FromLeZeros(threshold[index + 1..]);
        PrefixStep(threshold, index, threshold[index]);
        MulLe(1, threshold[index], Pow256(index));
        MulCommutes(Pow256(index), threshold[index]);
        return Some(index + 1);
      }
    }
    FromLeZeros(threshold);
    r := None;
  }

  function WeighThree(a: nat, b: nat, c: nat): nat {
    a + 256 * b + 0x1_0000 * c
  }

  lemma ThreeBytes(a: byte, b: byte, c: byte)
    ensures FromLe([a, b, c]) == WeighThree(a, b, c)
  {
    assert [a, b, c][1..] == [b, c] && [b, c][1..] == [c] && [c][1..] == [];
    assert FromLe([c]) == c;
    assert FromLe([b, c]) == b + 256 * FromLe([c]);
  }

  /** The leading three bytes of a number of n bytes. */
  lemma TopThreeBytes(s: Hash, n: nat)
    requires 3 < n <= 32 && FromLe(s[..n]) == FromLe(s)
    ensures WeighThree(s[n - 3], s[n - 2], s[n - 1]) == FromLe(s) / Pow256(n - 3)
  {
    hide Pow256, FromLe;
    var low := s[..n];
    FromLeSplit(low, n - 3);
    assert low[n - 3..] == [s[n - 3], s[n - 2], s[n - 1]];
    ThreeBytes(s[n - 3], s[n - 2], s[n - 1]);
  }

  lemma RawMantissa(t: nat, n: nat) returns (raw: nat)
    requires 0 < n <= 32 && Pow256(n - 1) <= t < Pow256(n)
    ensures raw == MantissaOf(t, n)
    ensures raw < 0x100_0000
    ensures raw >= MANTISSA_LIMIT <==> HasExponent(t, n + 1)
    ensures raw < MANTISSA_LIMIT <==> HasExponent(t, n)
  {
    raw := MantissaOf(t, n);
    assert Pow256(3) == 0x100_0000 && Pow256(2) == 0x1_0000 && Pow256(1) == 256 && Pow256(0) == 1;
    if n > 3 {
      var g := Pow256(n - 3);
      Pow256Add(3, n - 3);
      Pow256Add(2, n - 3);
      DivBounds(t, g, MANTISSA_LIMIT);
      DivBounds(t, g, 0x100_0000);
      if n > 1 {
        assert Bound(n - 1) == 128 * Pow256(n - 2);
      }
      assert Pow256(n - 1) == 256 * Pow256(n - 2);
    } else if n == 1 {
    } else if n == 2 {
    } else {
    }
  }

  lemma ShiftedMantissa(t: nat, n: nat)
    requires 0 < n <= 32
    ensures MantissaOf(t, n) / 256 == MantissaOf(t, n + 1)
  {
    if n >= 4 {
      var g := Pow256(n - 3);
      assert IsProduct(Pow256(n - 2), g, 256) by { MulCommutes(g, 256); }
      DivDiv(t, g, 256, Pow256(n - 2));
    } else if n == 3 {
      assert Pow256(0) == 1 && Pow256(1) == 256;
    } else {
      var f := Pow256(2 - n);
      MulSwap(t, 256, f);
      DivUnique(t * Pow256(3 - n), 256, t * f, 0);
    }
  }

  method ToBits(threshold: Hash) returns (r: Option<u32>)
    ensures FromLe(threshold) < Limit()
    ensures r == Encode(FromLe(threshold))
  {
    hide FromLe, Pow256, MantissaOf, HasExponent;
    ghost var t := FromLe(threshold);
    var significant := SignificantSize(threshold);
    if significant.None? {
      return None;
    }
    var size := significant.value;
    var raw := RawMantissa(t, size);
    ShiftedMantissa(t, size);
    var mantissa := MantissaBytes(threshold, size);
    if mantissa >= MANTISSA_LIMIT {
      mantissa := mantissa / 256;
      size := size + 1;
    }
    ExponentUnique(t, Exponent(t), size);
    if mantissa > MANTISSA_LIMIT - 1 {
      return None;
    }
    r := Some(size * EXPONENT_UNIT + mantissa);
  }

  /** The three-byte window of the threshold that ends at its highest byte. */
  method MantissaBytes(threshold: Hash, size: nat) returns (mantissa: nat)
    requires 0 < size <= 32 && FromLe(threshold[..size]) == FromLe(threshold)
    ensures mantissa == MantissaOf(FromLe(threshold), size)
  {
    if size <= 3 {
      var value: nat := 0;
      assert threshold[..0] == [];
      for index := 0 to size
        invariant value == FromLe(threshold[..index])
      {
        PrefixStep(threshold, index, threshold[index]);
        value := value + Times(Pow256(index), threshold[index]);
      }
      mantissa := Times(value, Pow256(3 - size));
    } else {
      TopThreeBytes(threshold, size);
      mantissa := WeighThree(threshold[size - 3], threshold[size - 2], threshold[size - 1]);
    }
  }

  /** A hash meets a target when it is at or below it as a number. */
  predicate Meets(hash: Hash, threshold: Hash) {
    CompareLe(hash, threshold) != Greater
  }

  lemma MeetsIsNumeric(hash: Hash, threshold: Hash)
    ensures Meets(hash, threshold) <==> FromLe(hash) <= FromLe(threshold)
  {
    CompareLeIsNumeric(hash, threshold);
  }

  // ---- work of a compact target ----

  /** The work of a block with these bits, if they denote a non-zero target. */
  function BlockWork(bits: u32): Option<nat> {
    match TargetOf(bits)
    case None => None
    case Some(t) => if t == 0 then None else Some(WorkOf(t))
  }

  /** A block has work exactly if its target is not zero, and then it is the greatest number that multiplied by
      the target plus one stays within 2^256. */
  lemma WorkIsFloor(bits: u32)
    ensures BlockWork(bits).Some? <==> TargetOf(bits).Some? && TargetOf(bits).value > 0
    ensures BlockWork(bits).Some? ==>
      var w, t := BlockWork(bits).value, TargetOf(bits).value;
      w * (t + 1) <= Pow2(256) < (w + 1) * (t + 1)
  {
    hide TargetOf, Pow2, Pow256;
    Pow256IsPow2(32);
    if BlockWork(bits).Some? {
      var w, t := BlockWork(bits).value, TargetOf(bits).value;
      DivBounds(Limit(), t + 1, w);
      DivBounds(Limit(), t + 1, w + 1);
    }
  }

  /** The program computes the work of these bits without a byte overflow. */
  predicate WorkComputes(bits: u32) {
    match TargetOf(bits)
    case None => true
    case Some(t) => TargetFits(bits); t == 0 || !WorkOverflows(t)
  }

  /** Bits without work cannot overflow. */
  lemma NoWorkComputes(bits: u32)
    requires BlockWork(bits).None?
    ensures WorkComputes(bits)
  {
    hide WorkOverflows;
  }

  method ComputeBlockWork(bits: u32) returns (r: Work)
    ensures r.WorkOverflow? <==> !WorkComputes(bits)
    ensures r.NoWork? <==> BlockWork(bits) == None
    ensures r.Work? ==> BlockWork(bits) == Some(FromLe(r.value))
  {
    hide FromLe, Pow256, Pow2, WorkOverflows;
    var threshold := FromBits(bits);
    if threshold.None? {
      return NoWork;
    }
    TargetFits(bits);
    BelowHalfIsNotMaximal(TargetOf(bits).value);
    r := WorkFromTarget(threshold.value);
  }

  lemma BelowHalfIsNotMaximal(t: nat)
    requires t < Pow2(255)
    ensures t + 1 < Limit()
  {
    Pow256IsPow2(32);
    assert Pow2(256) == 2 * Pow2(255) && Pow2(255) >= 2 by { assert Pow2(255) == 2 * Pow2(254); }
  }

  // ---- bits whose work cannot be computed ----

  lemma OverflowsAtStep(t: nat, k: nat, r: nat, i: nat)
    requires t + 1 < Limit() && k < 256 && i < 32
    requires PartialRemainder(Limit() - 1 - t, t + 1, k) == r && r >= t + 1
    requires (t + 1) / Pow256(i) % 256 == 255 && r % Pow256(i) < (t + 1) % Pow256(i)
    ensures WorkOverflows(t)
  {
    hide FromLe, LeBytes, Pow256, PartialRemainder;
    FromLeInvertsLeBytes(t + 1, 32);
    var divisor := LeBytes(t + 1, 32);
    ByteAt(divisor, i);
    assert OverflowsAt(r, divisor, i);
    assert StepOverflows(Limit() - 1 - t, divisor, k);
  }

  lemma LargePowers()
    ensures Pow256(16) == 0x1_00000000_00000000_00000000_00000000
    ensures Pow256(24) == 0x1_00000000_00000000_00000000_00000000_00000000_00000000
    ensures Pow256(26) == Pow256(24) * 0x1_0000 && Pow256(27) == Pow256(24) * 0x100_0000
    ensures Pow256(29) == Pow256(24) * 0x100_0000_0000 && Pow256(30) == Pow256(24) * 0x1_0000_0000_0000
    ensures Pow256(28) == Pow256(24) * 0x1_0000_0000 && Limit() == Pow256(24) * 0x1_0000_0000_0000_0000
  {
    Pow256Values();
    assert Pow256(3) == 0x100_0000 && Pow256(5) == 0x100_0000_0000 && Pow256(6) == 0x1_0000_0000_0000;
    Pow256Add(8, 8);
    Pow256Add(16, 8);
    Pow256Add(24, 2);
    Pow256Add(24, 3);
    Pow256Add(24, 4);
    Pow256Add(24, 5);
    Pow256Add(24, 6);
    Pow256Add(24, 8);
  }

  /** The easiest bits of a test network: the first subtraction of the division for their work overflows. */
  lemma EasiestBitsOverflow()
    ensures !WorkComputes(0x207f_ffff)
  {
    hide Pow256, Pow2, TargetOf, WorkOverflows, PartialRemainder;
    LargePowers();
    TargetOfParts(0x20, 0x7f_ffff);
    var t: nat := 0x7f_ffff * Pow256(29);
    var n := Limit() - 1 - t;
    SingleStep(n, t + 1);
    OverflowsAtStep(t, 0, n, 30);
  }

  /** The remainder one step before the last. */
  lemma SecondToLast(n: nat, d: nat, q: nat, s: nat)
    requires d > 0 && n / 4 == q * d + s && s < d
    ensures PartialRemainder(n, d, 1) == 2 * s + n / 2 % 2
  {
    assert Pow2(1) == 2 && Pow2(2) == 4;
    DivUnique(n / 4, d, q, s);
  }

  /** So do ordinary bits: those one unit harder than the easiest ones of the main network. */
  lemma AdjustedBitsOverflow()
    ensures !WorkComputes(0x1d00_fffe)
  {
    hide Pow256, TargetOf, WorkOverflows;
    LargePowers();
    TargetOfParts(0x1d, 0xfffe);
    var t: nat := 0xfffe * Pow256(26);
    var n := Limit() - 1 - t;
    var s: nat := 0xc000_7fff_ffff_ffff_ffff_ffff_ffff_ffff_ffff_ffff_ffff_ffff_bfff_7fff;
    assert n / 4 == 0x4000_8000 * (t + 1) + s;
    SecondToLast(n, t + 1, 0x4000_8000, s);
    var r: nat := 2 * s + 1;
    assert n / 2 % 2 == 1;
    OverflowsAtStep(t, 1, r, 27);
  }

  lemma Powers17And18()
    ensures Pow2(17) == 0x2_0000 && Pow2(18) == 0x4_0000
  {
    Pow256IsPow2(2);
    Pow256Values();
    assert Pow2(17) == 2 * Pow2(16) && Pow2(18) == 2 * Pow2(17);
  }

  lemma StepRemainder(n: nat, d: nat, k: nat, q: nat, s: nat)
    requires n / Pow2(k + 1) == q * d + s && s < d
    ensures PartialRemainder(n, d, k) == 2 * s + BitOf(n, k)
  {
    hide Pow2, BitOf;
    DivUnique(n / Pow2(k + 1), d, q, s);
  }

  /** And bits whose mantissa is full in its lowest byte alone, at a small exponent. */
  lemma ShortBitsOverflow()
    ensures !WorkComputes(0x0400_0bff)
  {
    LargePowers();
    Pow256Values();
    var t: nat := 0xb_ff00;
    assert TargetOf(0x0400_0bff) == Some(t);
    hide Pow256, Pow2, TargetOf, WorkOverflows, PartialRemainder;
    Powers17And18();
    var n := Limit() - 1 - t;
    StepRemainder(n, t + 1, 17, 0x555c6b413c7f9aecf180613d67ae308adcdc2a9bdec5933bce0c2fd, 0x63a00);
    assert PartialRemainder(n, t + 1, 17) == 0xc_7400;
    OverflowsAtStep(t, 17, 0xc_7400, 1);
  }

  // ---- bits whose work can be computed ----

  /** Above its lowest byte, m * 256^k + 1 has the bytes of m from place k on and zeros below. */
  lemma ShiftedByte(m: nat, k: nat, i: nat)
    requires 0 < i && 0 < k
    ensures (m * Pow256(k) + 1) / Pow256(i) % 256 == if i < k then 0 else m / Pow256(i - k) % 256
  {
    hide Pow256;
    if i < k {
      Pow256Add(k - i, i);
      MulAssociates(m, Pow256(k - i), Pow256(i));
      BytePower(i);
      DivUnique(m * Pow256(k) + 1, Pow256(i), m * Pow256(k - i), 1);
      MultipleOf256(m, k - i);
    } else {
      BytePower(k);
      Pow256Add(i - k, k);
      MulCommutes(Pow256(i - k), Pow256(k));
      DivDiv(m * Pow256(k) + 1, Pow256(k), Pow256(i - k), Pow256(i));
      DivUnique(m * Pow256(k) + 1, Pow256(k), m, 1);
    }
  }

  lemma BytePower(k: nat)
    requires k > 0
    ensures Pow256(k) >= 256
  {
  }

  lemma MultipleOf256(m: nat, k: nat)
    requires k > 0
    ensures m * Pow256(k) % 256 == 0
  {
    MulSwap(m, 256, Pow256(k - 1));
    DivUnique(m * Pow256(k), 256, m * Pow256(k - 1), 0);
  }

  /** The bytes of a mantissa above its lowest one and those above the mantissa. */
  lemma UpperBytesNotFull(m: nat, j: nat)
    requires m < MANTISSA_LIMIT && m / 256 % 256 != 255 && j > 0
    ensures m / Pow256(j) % 256 != 255
  {
    Pow256Values();
    if j >= 3 {
      assert Pow256(3) == 0x100_0000;
      Pow256Mono(3, j);
      DivBounds(m, Pow256(j), 1);
      DivBounds(m, Pow256(j), 0);
    }
  }

  /** The bytes of a mantissa, none of them 0xff, and those above it. */
  lemma MantissaBytesNotFull(m: nat, j: nat)
    requires m < MANTISSA_LIMIT && m % 256 != 255 && m / 256 % 256 != 255
    ensures m / Pow256(j) % 256 != 255
  {
    if j == 0 {
      assert Pow256(0) == 1;
    } else {
      UpperBytesNotFull(m, j);
    }
  }

  lemma NoFullByte(t: nat)
    requires t + 1 < Limit()
    requires forall i | 0 < i < 32 :: (t + 1) / Pow256(i) % 256 != 255
    ensures !WorkOverflows(t)
  {
    hide FromLe, LeBytes, Pow256, DivOverflows;
    FromLeInvertsLeBytes(t + 1, 32);
    var divisor := LeBytes(t + 1, 32);
    if DivOverflows(Limit() - 1 - t, divisor) {
      OverflowNeedsUnsafe(Limit() - 1 - t, divisor);
      var i :| 0 <= i < |divisor| && UnsafeAt(divisor, i);
      ByteAt(divisor, i);
      LowestIsSafe(divisor);
    }
  }

  lemma LowestIsSafe(divisor: Bytes)
    requires |divisor| > 0
    ensures !UnsafeAt(divisor, 0)
  {
    assert Pow256(0) == 1;
  }

  /** Bit k of a number one below a multiple of 2^(k+1) is set. */
  lemma BitBelowMultiple(n: nat, q: nat, k: nat)
    requires n + 1 == q * Pow2(k + 1)
    ensures BitOf(n, k) == 1
  {
    var p := Pow2(k);
    MulAssociates(q, 2, p);
    MulDistributes(2 * q - 1, 1, p);
    if q == 0 {
      assert false;
    }
    DivUnique(n, p, 2 * q - 1, p - 1);
  }

  lemma OddWithBit(n: nat, d: nat, k: nat)
    requires d > 0 && BitOf(n, k) == 1
    ensures PartialRemainder(n, d, k) % 2 == 1
  {
    hide Pow2, BitOf;
    var x := n / Pow2(k + 1) % d;
    assert (2 * x + 1) % 2 == 1;
  }

  /** In the steps for the bits below a power of 256 that divides n + 1 the remainder is odd. */
  lemma OddRemainder(n: nat, d: nat, q: nat, place: nat, k: nat)
    requires d > 0 && n + 1 == q * Pow256(place) && k < 8 * place
    ensures PartialRemainder(n, d, k) % 2 == 1
  {
    hide Pow256, Pow2, BitOf, PartialRemainder;
    Pow256IsPow2(place);
    Pow2Add(8 * place - k - 1, k + 1);
    MulAssociates(q, Pow2(8 * place - k - 1), Pow2(k + 1));
    BitBelowMultiple(n, q * Pow2(8 * place - k - 1), k);
    OddWithBit(n, d, k);
  }

  /** In the steps above them the remainder is below the divisor, if the power is at least 256^16. */
  lemma SmallRemainder(n: nat, d: nat, place: nat, k: nat)
    requires 16 <= place <= 32 && n < Limit() && d > Pow256(place) && k >= 8 * place
    ensures PartialRemainder(n, d, k) < d
  {
    hide Pow256, Pow2, BitOf;
    var h, p := n / Pow2(k + 1), Pow256(place);
    BringDown(n, k);
    DivMod(h, d);
    assert h % d <= h by { DivBounds(h, d, 0); MulLe(0, h / d, d); }
    Pow256IsPow2(place);
    Pow2Add(8 * place, k - 8 * place);
    MulLe(1, Pow2(k - 8 * place), p);
    MulCommutes(p, Pow2(k - 8 * place));
    DivAntitone(n, p, Pow2(k));
    Pow256Add(32 - place, place);
    DivBounds(n, p, Pow256(32 - place));
    Pow256Mono(32 - place, place);
  }

  lemma EvenMultiple(r: nat, place: nat)
    requires place > 0 && r % Pow256(place) == 0
    ensures r % 2 == 0
  {
    hide Pow256;
    var p := Pow256(place);
    Pow256Step(place - 1);
    DivMod(r, p);
    MulSwap(r / p, 256, Pow256(place - 1));
    TimesWord(r, r / p * Pow256(place - 1));
  }

  lemma TimesWord(r: nat, y: nat)
    requires r == 256 * y
    ensures r % 2 == 0
  {
    DivUnique(r, 2, 128 * y, 0);
  }

  /** One above a mantissa at a place of at least 16 whose second byte is not 0xff, only the lowest byte of
      the mantissa may be 0xff; below it the divisor is 1. */
  lemma FullByteOfShifted(m: nat, place: nat, i: nat)
    requires m < MANTISSA_LIMIT && m / 256 % 256 != 255 && place > 0 && 0 < i
    requires (m * Pow256(place) + 1) / Pow256(i) % 256 == 255
    ensures i == place && (m * Pow256(place) + 1) % Pow256(i) == 1
  {
    hide Pow256;
    ShiftedByte(m, place, i);
    if i > place {
      UpperBytesNotFull(m, i - place);
    } else if i == place {
      BytePower(place);
      DivUnique(m * Pow256(place) + 1, Pow256(place), m, 1);
    }
  }

  lemma PositiveFactor(a: int, b: int, p: nat)
    requires a * p - b * p > 0
    ensures (a - b) * p == a * p - b * p && a - b > 0
  {
    MulDistributes(a - b, b, p);
    if a <= b {
      MulLe(a, b, p);
    }
  }

  lemma OddIsNoMultiple(r: nat, place: nat)
    requires place > 0 && r % 2 == 1
    ensures r % Pow256(place) != 0
  {
    hide Pow256;
    if r % Pow256(place) == 0 {
      EvenMultiple(r, place);
    }
  }

  /** A remainder that is subtracted from is no multiple of the power that the mantissa is shifted by. */
  lemma ShiftedStep(m: nat, place: nat, d: nat, n: nat, k: nat)
    requires 0 < m && 16 <= place <= 32 && d == m * Pow256(place) + 1 && n + d == Limit()
    ensures d <= PartialRemainder(n, d, k) ==> PartialRemainder(n, d, k) % Pow256(place) != 0
  {
    hide Pow256, PartialRemainder;
    if k < 8 * place {
      Pow256Add(32 - place, place);
      PositiveFactor(Pow256(32 - place), m, Pow256(place));
      OddRemainder(n, d, Pow256(32 - place) - m, place, k);
      OddIsNoMultiple(PartialRemainder(n, d, k), place);
    } else {
      MulLe(1, m, Pow256(place));
      SmallRemainder(n, d, place, k);
    }
  }

  /** Where a byte of the divisor overflows, the remainder is such a multiple. */
  lemma ShiftedByteOverflows(m: nat, place: nat, divisor: Hash, r: nat, i: nat)
    requires m < MANTISSA_LIMIT && m / 256 % 256 != 255 && place > 0 && i < 32
    requires FromLe(divisor) == m * Pow256(place) + 1 && OverflowsAt(r, divisor, i)
    ensures r % Pow256(place) == 0
  {
    hide FromLe, Pow256;
    ByteAt(divisor, i);
    LowestNeverOverflows(r, divisor);
    FullByteOfShifted(m, place, i);
  }

  lemma ShiftedNeverOverflows(m: nat, place: nat)
    requires 0 < m < MANTISSA_LIMIT && m / 256 % 256 != 255 && 16 <= place <= 32
    requires m * Pow256(place) + 1 < Limit()
    ensures !WorkOverflows(m * Pow256(place))
  {
    hide FromLe, LeBytes, Pow256, PartialRemainder, OverflowsAt;
    var t := m * Pow256(place);
    var n, d := Limit() - 1 - t, t + 1;
    FromLeInvertsLeBytes(d, 32);
    var divisor := LeBytes(d, 32);
    forall k | 0 <= k < 256
      ensures !StepOverflows(n, divisor, k)
    {
      var r := PartialRemainder(n, d, k);
      ShiftedStep(m, place, d, n, k);
      forall i | 0 <= i < 32 && OverflowsAt(r, divisor, i)
        ensures r % Pow256(place) == 0
      {
        ShiftedByteOverflows(m, place, divisor, r, i);
      }
    }
  }

  lemma LowestNeverOverflows(r: nat, divisor: Bytes)
    requires |divisor| > 0
    ensures !OverflowsAt(r, divisor, 0)
  {
    assert Pow256(0) == 1;
  }

  lemma TargetOfFields(bits: u32)
    requires TargetOf(bits).Some? && bits / EXPONENT_UNIT > 3
    ensures bits / EXPONENT_UNIT <= 32 && 0 < bits % MANTISSA_LIMIT
    ensures TargetOf(bits).value == bits % MANTISSA_LIMIT * Pow256(bits / EXPONENT_UNIT - 3)
  {
    hide Pow256;
  }

  /** A test a caller can make on the bits: if the middle byte of the mantissa is not 0xff, and the lowest one
      is not either or the exponent is at least 19, the work can be computed. */
  lemma PlainMantissaComputes(bits: u32)
    requires bits / 256 % 256 != 255 && (bits % 256 != 255 || bits / EXPONENT_UNIT >= 19)
    ensures WorkComputes(bits)
  {
    hide Pow256, Pow2, WorkOverflows, TargetOf;
    if TargetOf(bits).Some? && TargetOf(bits).value > 0 {
      TargetFits(bits);
      BelowHalfIsNotMaximal(TargetOf(bits).value);
      if bits / EXPONENT_UNIT >= 19 {
        TargetOfFields(bits);
        LowBytes(bits, bits % MANTISSA_LIMIT);
        ShiftedNeverOverflows(bits % MANTISSA_LIMIT, bits / EXPONENT_UNIT - 3);
      } else {
        forall i | 0 < i < 32
          ensures (TargetOf(bits).value + 1) / Pow256(i) % 256 != 255
        {
          TargetByte(bits, i);
        }
        NoFullByte(TargetOf(bits).value);
      }
    }
  }

  lemma LowBytes(bits: nat, m: nat)
    requires m == bits % MANTISSA_LIMIT
    ensures m % 256 == bits % 256 && m / 256 % 256 == bits / 256 % 256
  {
    var q := bits / MANTISSA_LIMIT;
    assert bits == 256 * (256 * (128 * q)) + m;
    assert bits / 256 == 256 * (128 * q) + m / 256;
  }

  lemma TargetByte(bits: u32, i: nat)
    requires TargetOf(bits).Some? && bits % 256 != 255 && bits / 256 % 256 != 255 && i > 0
    ensures (TargetOf(bits).value + 1) / Pow256(i) % 256 != 255
  {
    var exponent: nat, m: nat := bits / EXPONENT_UNIT, bits % MANTISSA_LIMIT;
    var t := TargetOf(bits).value;
    hide Pow256;
    LowBytes(bits, m);
    if exponent <= 3 {
      SmallTargetByte(m, 3 - exponent, t, i);
    } else {
      ShiftedByte(m, exponent - 3, i);
      if i >= exponent - 3 {
        MantissaBytesNotFull(m, i - (exponent - 3));
      }
    }
  }

  /** Adding one to a number whose lowest byte is not full leaves the bytes above it. */
  lemma SmallTargetByte(m: nat, k: nat, t: nat, i: nat)
    requires m < MANTISSA_LIMIT && m % 256 != 255 && m / 256 % 256 != 255 && t == m / Pow256(k) && i > 0
    ensures (t + 1) / Pow256(i) % 256 != 255
  {
    hide Pow256;
    MantissaBytesNotFull(m, k);
    MantissaBytesNotFull(m, k + i);
    Pow256Add(1, i - 1);
    Pow256Add(k, i);
    Pow256Values();
    DivDiv(m, Pow256(k), Pow256(i), Pow256(k + i));
    DivDiv(t + 1, 256, Pow256(i - 1), Pow256(i));
    DivDiv(t, 256, Pow256(i - 1), Pow256(i));
    assert (t + 1) / 256 == t / 256;
  }

  // ---- the easiest bits of the main network and the default ones of the command line ----

  /** While the dividend has only set bits the remainder runs through one below multiples of a power of two. */
  lemma OnesSegment(n: nat, d: nat, c: nat, top: nat, s: nat, k: nat)
    requires d > 0 && k < top && n + 1 == c * Pow2(top) && n / Pow2(top) % d == s
    requires (s + 1) * Pow2(top - k - 1) <= d
    ensures PartialRemainder(n, d, k) == (s + 1) * Pow2(top - k) - 1
  {
    var j, h := top - k - 1, n / Pow2(top);
    OnesPrefix(n, c, top, 0);
    OnesPrefix(n, c, top, j);
    SegmentRemainder(h, d, s, Pow2(j));
    Pow2Add(j, k + 1);
    MulAssociates(c, Pow2(j), Pow2(k + 1));
    BitBelowMultiple(n, c * Pow2(j), k);
    hide PartialRemainder;
    OnesStep(n, d, k, s + 1, Pow2(j));
  }

  lemma OnesStep(n: nat, d: nat, k: nat, a: nat, p: nat)
    requires d > 0 && BitOf(n, k) == 1 && n / Pow2(k + 1) % d + 1 == a * p
    ensures PartialRemainder(n, d, k) == a * (2 * p) - 1
  {
    hide Pow2, BitOf;
    MulSwap(a, 2, p);
  }

  /** The prefix of a number one below c * 2^top that ends j bits below bit top. */
  lemma OnesPrefix(n: nat, c: nat, top: nat, j: nat)
    requires j <= top && n + 1 == c * Pow2(top)
    ensures n / Pow2(top - j) + 1 == c * Pow2(j)
  {
    hide Pow2;
    var p := Pow2(top - j);
    Pow2Add(j, top - j);
    MulAssociates(c, Pow2(j), p);
    MulDistributes(c * Pow2(j) - 1, 1, p);
    PositiveProduct(c * Pow2(j), p);
    DivUnique(n, p, c * Pow2(j) - 1, p - 1);
  }

  lemma PositiveProduct(a: nat, p: nat)
    requires a * p > 0
    ensures a > 0 && p > 0
  {
  }

  lemma SegmentRemainder(h: nat, d: nat, s: nat, p: nat)
    requires d > 0 && p > 0 && h % d == s && 0 < (s + 1) * p <= d
    ensures ((h + 1) * p - 1) % d == (s + 1) * p - 1
  {
    var q := h / d;
    DivMod(h, d);
    MulDistributes(q * d, s + 1, p);
    MulAssociates(q, d, p);
    MulCommutes(d, p);
    MulAssociates(q, p, d);
    DivUnique((h + 1) * p - 1, d, q * p, (s + 1) * p - 1);
  }

  /** A run of set bits in which the remainder stays below the divisor. */
  lemma QuietSegment(n: nat, d: nat, c: nat, top: nat, s: nat, low: nat, k: nat)
    requires d > 0 && low <= k < top && n + 1 == c * Pow2(top) && n / Pow2(top) % d == s
    requires (s + 1) * Pow2(top - low) <= d
    ensures PartialRemainder(n, d, k) < d
  {
    hide Pow2, PartialRemainder;
    Pow2Add(top - k, k - low);
    Pow2Add(top - k - 1, k + 1 - low);
    ScaledUp(s + 1, Pow2(top - k), Pow2(k - low));
    ScaledUp(s + 1, Pow2(top - k - 1), Pow2(k + 1 - low));
    OnesSegment(n, d, c, top, s, k);
  }

  lemma ScaledUp(a: nat, p: nat, q: nat)
    requires q > 0
    ensures a * p <= a * (p * q)
  {
    MulLe(1, q, a * p);
    MulCommutes(q, a * p);
    MulAssociates(a, p, q);
  }

  /** In the first steps the remainder is all that has been brought down. */
  lemma FirstStep(n: nat, d: nat, k: nat)
    requires d > 0 && n / Pow2(k + 1) < d
    ensures PartialRemainder(n, d, k) == n / Pow2(k)
  {
    hide Pow2, BitOf, PartialRemainder;
    BringDown(n, k);
    StepRemainder(n, d, k, 0, n / Pow2(k + 1));
  }

  lemma HighStep(n: nat, d: nat, top: nat, k: nat)
    requires d > 0 && k >= top && n / Pow2(top) < d
    ensures PartialRemainder(n, d, k) < d
  {
    hide Pow2, PartialRemainder;
    Pow2Add(top, k - top);
    Pow2Add(top, k + 1 - top);
    MulLe(1, Pow2(k - top), Pow2(top));
    MulLe(1, Pow2(k + 1 - top), Pow2(top));
    MulCommutes(Pow2(top), Pow2(k - top));
    MulCommutes(Pow2(top), Pow2(k + 1 - top));
    DivAntitone(n, Pow2(top), Pow2(k));
    DivAntitone(n, Pow2(top), Pow2(k + 1));
    FirstStep(n, d, k);
  }

  lemma NoThirdByte(j: nat)
    requires j >= 2
    ensures 0xffff / Pow256(j) % 256 == 0
  {
    hide Pow256;
    Pow256Mono(2, j);
    Pow256Values();
    DivUnique(0xffff, Pow256(j), 0, 0xffff);
  }

  lemma LowOfMaxMantissa(p: nat, q: nat)
    requires p > 1 && q == 256 * p
    ensures (0xffff * p + 1) % p == 1 && (0xffff * p + 1) % q == 0xff * p + 1
  {
    DivUnique(0xffff * p + 1, p, 0xffff, 1);
    DivUnique(0xffff * p + 1, q, 0xff, 0xff * p + 1);
  }

  /** One above 0xffff * 256^place: its full bytes, and what is below the upper one. */
  lemma MaxMantissa(place: nat, i: nat)
    requires place > 0 && i > 0 && (0xffff * Pow256(place) + 1) / Pow256(i) % 256 == 255
    ensures i == place || i == place + 1
    ensures (0xffff * Pow256(place) + 1) % Pow256(place) == 1
    ensures (0xffff * Pow256(place) + 1) % Pow256(place + 1) == 0xff * Pow256(place) + 1
  {
    hide Pow256;
    ShiftedByte(0xffff, place, i);
    BytePower(place);
    Pow256Step(place);
    LowOfMaxMantissa(Pow256(place), Pow256(place + 1));
    if i >= place + 2 {
      NoThirdByte(i - place);
    }
  }

  /** The low part of a remainder is enough for a subtraction without overflow. */
  ghost predicate CoversLow(n: nat, d: nat, place: nat, k: nat)
    requires d > 0
  {
    PartialRemainder(n, d, k) >= d ==> PartialRemainder(n, d, k) % Pow256(place + 1) > 0xff * Pow256(place)
  }

  lemma MaxMantissaComputes(place: nat, n: nat, d: nat)
    requires 16 <= place < 30 && d == 0xffff * Pow256(place) + 1 && n + d == Limit() && n > 0
    requires forall k | 0 <= k < 256 :: CoversLow(n, d, place, k)
    ensures !WorkOverflows(0xffff * Pow256(place))
  {
    hide FromLe, LeBytes, Pow256, PartialRemainder, OverflowsAt;
    FromLeInvertsLeBytes(d, 32);
    var divisor := LeBytes(d, 32);
    forall k | 0 <= k < 256
      ensures !StepOverflows(n, divisor, k)
    {
      var r := PartialRemainder(n, d, k);
      ShiftedStep(0xffff, place, d, n, k);
      assert CoversLow(n, d, place, k);
      if r >= d {
        forall i | 0 <= i < 32
          ensures !OverflowsAt(r, divisor, i)
        {
          MaxMantissaStep(place, divisor, r, i);
        }
      }
    }
  }

  lemma MaxMantissaStep(place: nat, divisor: Hash, r: nat, i: nat)
    requires i < 32 && place > 0 && FromLe(divisor) == 0xffff * Pow256(place) + 1
    requires r % Pow256(place) != 0 && r % Pow256(place + 1) > 0xff * Pow256(place)
    ensures !OverflowsAt(r, divisor, i)
  {
    hide FromLe, Pow256;
    ByteAt(divisor, i);
    LowestNeverOverflows(r, divisor);
    if i > 0 && (0xffff * Pow256(place) + 1) / Pow256(i) % 256 == 255 {
      MaxMantissa(place, i);
    }
  }

  lemma SmallPowersOfTwo()
    ensures Pow2(16) == 0x1_0000 && Pow2(32) == 0x1_0000_0000
    ensures Pow2(15) == 0x8000 && Pow2(17) == 0x2_0000 && Pow2(33) == 0x2_0000_0000
  {
    Pow256IsPow2(2);
    Pow256IsPow2(4);
    Pow256Values();
    assert Pow2(16) == 2 * Pow2(15) && Pow2(17) == 2 * Pow2(16) && Pow2(33) == 2 * Pow2(32);
  }

  lemma DefaultStep(n: nat, d: nat, k: nat)
    requires d == 0xffff * Pow256(28) + 1 && n + d == Limit() && k < 256
    ensures CoversLow(n, d, 28, k)
  {
    LargePowers();
    hide Pow256, Pow2, PartialRemainder;
    SmallPowersOfTwo();
    if k >= 17 {
      HighStep(n, d, 17, k);
    } else if k == 16 {
      FirstStep(n, d, 16);
    } else {
      assert n / 0x1_0000 == d + 0xfffffffffffffffffffffffffffffffffffffffffffffffffffe;
      DivUnique(n / 0x1_0000, d, 1, 0xfffffffffffffffffffffffffffffffffffffffffffffffffffe);
      QuietSegment(n, d, 0xffff00010000000000000000000000000000000000000000000000000000, 16, 0xfffffffffffffffffffffffffffffffffffffffffffffffffffe, 0, k);
    }
  }

  /** The work of the bits that the command line starts from can be computed. */
  lemma DefaultBitsCompute()
    ensures WorkComputes(0x1f00_ffff)
  {
    LargePowers();
    var t := 0xffff * Pow256(28);
    assert TargetOf(0x1f00_ffff) == Some(t);
    hide Pow256, Pow2, TargetOf, WorkOverflows, CoversLow;
    var n, d := Limit() - 1 - t, t + 1;
    forall k | 0 <= k < 256
      ensures CoversLow(n, d, 28, k)
    {
      DefaultStep(n, d, k);
    }
    MaxMantissaComputes(28, n, d);
  }

  lemma EasiestStep(n: nat, d: nat, k: nat)
    requires d == 0xffff * Pow256(26) + 1 && n + d == Limit() && k < 256
    ensures CoversLow(n, d, 26, k)
  {
    LargePowers();
    hide Pow256, Pow2, PartialRemainder;
    SmallPowersOfTwo();
    if k >= 33 {
      HighStep(n, d, 33, k);
    } else if k == 32 {
      FirstStep(n, d, 32);
    } else if k >= 16 {
      assert n / 0x1_0000_0000 == d + 0xffff0000fffffffffffffffffffffffffffffffffffffffffffe;
      DivUnique(n / 0x1_0000_0000, d, 1, 0xffff0000fffffffffffffffffffffffffffffffffffffffffffe);
      if k == 16 {
        OnesSegment(n, d, 0xffffffff000100000000000000000000000000000000000000000000, 32, 0xffff0000fffffffffffffffffffffffffffffffffffffffffffe, 16);
      } else {
        QuietSegment(n, d, 0xffffffff000100000000000000000000000000000000000000000000, 32, 0xffff0000fffffffffffffffffffffffffffffffffffffffffffe, 17, k);
      }
    } else {
      assert n / 0x1_0000 == 0x1_0001 * d + 0xfffffffffffffffffffffffffffffffffffffffffffefffe;
      DivUnique(n / 0x1_0000, d, 0x1_0001, 0xfffffffffffffffffffffffffffffffffffffffffffefffe);
      QuietSegment(n, d, 0xffffffff0001000000000000000000000000000000000000000000000000, 16, 0xfffffffffffffffffffffffffffffffffffffffffffefffe, 0, k);
    }
  }

  /** The work of the easiest bits of the main network can be computed. */
  lemma MaxBitsCompute()
    ensures WorkComputes(0x1d00_ffff)
  {
    LargePowers();
    var t := 0xffff * Pow256(26);
    assert TargetOf(0x1d00_ffff) == Some(t);
    hide Pow256, Pow2, TargetOf, WorkOverflows, CoversLow;
    var n, d := Limit() - 1 - t, t + 1;
    forall k | 0 <= k < 256
      ensures CoversLow(n, d, 26, k)
    {
      EasiestStep(n, d, k);
    }
    MaxMantissaComputes(26, n, d);
  }
}
