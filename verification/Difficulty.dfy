/** Difficulty adjustment of compact targets. */
module Difficulty {
  import opened Types
  import opened Wire
  import opened Arith
  import opened Uint256
  import opened Pow

  const DIFFICULTY_ADJUSTMENT_INTERVAL: nat := 2016
  const TARGET_BLOCK_SPACING: nat := 600
  const TARGET_TIMESPAN: nat := DIFFICULTY_ADJUSTMENT_INTERVAL * TARGET_BLOCK_SPACING
  const MAX_COMPACT_BITS: u32 := 0x1d00_ffff

  datatype DifficultyError = InvalidPreviousBits(bits: u32) | EncodingFailed | Overflow

  function ClampTimespan(actual: u32, target: nat): nat {
    var minimum, maximum := target / 4, if 4 * target > U32_MAX then U32_MAX else 4 * target;
    if actual < minimum then minimum else if actual > maximum then maximum else actual
  }

  function Capped(t: nat): nat {
    if t > MaxTarget() then MaxTarget() else t
  }

  function MaxTarget(): nat {
    0xffff * Pow256(26)
  }

  lemma MaxTargetDecodes()
    ensures TargetOf(MAX_COMPACT_BITS) == Some(MaxTarget())
    ensures MaxTarget() < Pow2(255) < Limit()
  {
    TargetFits(MAX_COMPACT_BITS);
  }

  /** The target scaled by the clamped timespan, before the cap. */
  function Scaled(t: nat, timespan: u32): nat {
    Over(Times(t, ClampTimespan(timespan, TARGET_TIMESPAN)), TARGET_TIMESPAN)
  }

  function AdjustedBits(prevBits: u32, timespan: u32): Result<u32, DifficultyError> {
    match TargetOf(prevBits)
    case None => Err(InvalidPreviousBits(prevBits))
    case Some(t) =>
      var scaled := Scaled(t, timespan);
      if scaled >= Limit() then Err(Overflow) else
        match Encode(Capped(scaled))
        case None => Err(EncodingFailed)
        case Some(bits) => Ok(bits)
  }

  // ---- what an adjustment does to the target ----

  lemma ScaleLower(t: nat, c: nat, n: nat)
    requires 0 < n <= c
    ensures t / 4 <= t * c / (4 * n)
  {
    DivMod(t, 4);
    MulLe(n, c, t);
    MulCommutes(t, c);
    MulCommutes(n, t);
    MulLe(t / 4 * 4, t, n);
    MulAssociates(t / 4, 4, n);
    DivBounds(t * c, 4 * n, t / 4);
  }

  lemma ScaleUpper(t: nat, c: nat, n: nat)
    requires n > 0 && c <= 16 * n
    ensures t * c / (4 * n) <= 4 * t
  {
    MulLe(c, 16 * n, t);
    MulCommutes(t, c);
    MulAssociates(4, t, 4 * n);
    MulSwap(t, 4, n);
    DivMonotone(t * c, 4 * t * (4 * n), 4 * n);
    DivUnique(4 * t * (4 * n), 4 * n, 4 * t, 0);
  }

  lemma ScaleBounds(t: nat, c: nat, n: nat)
    requires n > 0 && n <= c <= 16 * n
    ensures t / 4 <= t * c / (4 * n) <= 4 * t
  {
    ScaleLower(t, c, n);
    ScaleUpper(t, c, n);
  }

  lemma ScaledBand(t: nat, timespan: u32)
    ensures t / 4 <= Scaled(t, timespan) <= 4 * t
  {
    ScaleBounds(t, ClampTimespan(timespan, TARGET_TIMESPAN), TARGET_TIMESPAN / 4);
  }

  lemma ScaledMonotone(t: nat, early: u32, late: u32)
    requires early <= late
    ensures Scaled(t, early) <= Scaled(t, late)
  {
    var c, d := ClampTimespan(early, TARGET_TIMESPAN), ClampTimespan(late, TARGET_TIMESPAN);
    MulLe(c, d, t);
    MulCommutes(t, c);
    MulCommutes(t, d);
    DivMonotone(t * c, t * d, TARGET_TIMESPAN);
  }

  lemma CappedEncodes(scaled: nat)
    requires 0 < scaled < Limit()
    ensures Encode(Capped(scaled)).Some?
    ensures TargetOf(Encode(Capped(scaled)).value) == Some(Rounded(Capped(scaled)))
  {
    MaxTargetDecodes();
    MaxTargetPositive();
    EncodeThenDecode(Capped(scaled));
  }

  lemma MaxTargetPositive()
    ensures MaxTarget() > 0
  {
  }

  /** Adjustment succeeds exactly when the previous target decodes and its scaling is non-zero and
      fits in 256 bits; the new target is then the scaled one, capped and rounded down. */
  lemma AdjustmentSucceeds(prevBits: u32, timespan: u32)
    ensures AdjustedBits(prevBits, timespan).Ok? <==>
      TargetOf(prevBits).Some? && 0 < Scaled(TargetOf(prevBits).value, timespan) < Limit()
    ensures AdjustedBits(prevBits, timespan).Ok? ==>
      TargetOf(AdjustedBits(prevBits, timespan).value) ==
        Some(Rounded(Capped(Scaled(TargetOf(prevBits).value, timespan))))
  {
    hide MaxTarget, Scaled, Encode, Limit;
    if TargetOf(prevBits).Some? {
      var scaled := Scaled(TargetOf(prevBits).value, timespan);
      MaxTargetPositive();
      if 0 < scaled < Limit() {
        CappedEncodes(scaled);
      } else if scaled == 0 {
        ZeroDoesNotEncode();
      }
    }
  }

  /** The scaled target in numbers, with the timespan kept between a quarter of two weeks and four times that. */
  lemma ScaledPlainly(t: nat, timespan: u32)
    ensures Scaled(t, timespan) ==
      if timespan < 302_400 then t / 4 else if timespan <= 4_838_400 then t * timespan / 1_209_600 else 4 * t
  {
    if timespan < 302_400 {
      assert t * 302_400 / 1_209_600 == t / 4;
    } else if timespan > 4_838_400 {
      assert t * 4_838_400 / 1_209_600 == 4 * t;
    }
  }

  /** An adjustment in numbers: the old target times the timespan over two weeks, at least a quarter and at most
      four times the old one, at most the maximum, rounded to what four bytes express. It fails if the old bits
      are no target, or the new one is zero or does not fit in 256 bits. */
  lemma AdjustedTarget(prevBits: u32, timespan: u32)
    ensures TargetOf(prevBits) == None ==> AdjustedBits(prevBits, timespan) == Err(InvalidPreviousBits(prevBits))
    ensures TargetOf(prevBits).Some? ==>
      var t := TargetOf(prevBits).value;
      var scaled :=
        if timespan < 302_400 then t / 4 else if timespan <= 4_838_400 then t * timespan / 1_209_600 else 4 * t;
      var r := AdjustedBits(prevBits, timespan);
      if scaled >= Pow256(32) then r == Err(Overflow)
      else if scaled == 0 then r == Err(EncodingFailed)
      else
        && r.Ok?
        && TargetOf(r.value) == Some(Rounded(if scaled > 0xffff * Pow256(26) then 0xffff * Pow256(26) else scaled))
  {
    hide Scaled, Encode, Rounded, TargetOf, Pow256;
    if TargetOf(prevBits).Some? {
      ScaledPlainly(TargetOf(prevBits).value, timespan);
      AdjustmentSucceeds(prevBits, timespan);
      ZeroDoesNotEncode();
      MaxTargetPositive();
    }
  }

  lemma ZeroDoesNotEncode()
    ensures 0 < Limit() && Encode(0) == None
  {
  }

  /** A successful adjustment never exceeds the maximum target, and up to rounding by less than one
      part in 2^15 stays between a quarter of and four times the previous target. */
  lemma AdjustmentBand(prevBits: u32, timespan: u32, t: nat, u: nat)
    requires TargetOf(prevBits) == Some(t)
    requires AdjustedBits(prevBits, timespan).Ok?
    requires TargetOf(AdjustedBits(prevBits, timespan).value) == Some(u)
    ensures u <= MaxTarget() && u <= 4 * t
    ensures var floor := Capped(t / 4); u >= floor || 0x8000 * (floor - u) < floor
  {
    hide MaxTarget, Scaled, Encode, Limit, Rounded, AdjustedBits;
    AdjustmentSucceeds(prevBits, timespan);
    var scaled := Scaled(t, timespan);
    MaxTargetPositive();
    MaxTargetDecodes();
    EncodeThenDecode(Capped(scaled));
    ScaledBand(t, timespan);
  }

  /** Slower blocks never give a harder target. */
  lemma AdjustmentMonotone(prevBits: u32, early: u32, late: u32)
    requires early <= late
    requires AdjustedBits(prevBits, early).Ok? && AdjustedBits(prevBits, late).Ok?
    ensures TargetOf(AdjustedBits(prevBits, early).value).Some?
    ensures TargetOf(AdjustedBits(prevBits, late).value).Some?
    ensures TargetOf(AdjustedBits(prevBits, early).value).value <= TargetOf(AdjustedBits(prevBits, late).value).value
  {
    hide MaxTarget, Scaled, Encode, Limit, Rounded, AdjustedBits;
    AdjustmentSucceeds(prevBits, early);
    AdjustmentSucceeds(prevBits, late);
    var t := TargetOf(prevBits).value;
    ScaledMonotone(t, early, late);
    MaxTargetPositive();
    RoundedMonotone(Capped(Scaled(t, early)), Capped(Scaled(t, late)));
  }

  // ---- byte-level scaling ----

  const PRODUCT_BYTES: nat := 36

  lemma DigitStep(p: nat, n: nat, digit: nat, carry: nat, low: nat, next: nat)
    requires digit * n + carry == low + 256 * next
    ensures (p * digit) * n + p * carry == p * low + (256 * p) * next
  {
    MulAssociates(p, digit, n);
    CarryStep(p, carry, digit * n, low, next);
  }

  /** Multiplies a threshold by a number into 36 bytes, and divides. For 32-bit operands the result is
      the exact floor, and is missing exactly when the divisor is zero or the quotient leaves 256 bits. */
  method MulDivThreshold(threshold: Hash, numerator: u64, denominator: u64) returns (r: Option<Hash>)
    ensures r.Some? ==> denominator > 0 && FromLe(r.value) == FromLe(threshold) * numerator / denominator
    ensures 0 < denominator <= U32_MAX && numerator <= U32_MAX ==>
      (r.Some? <==> FromLe(threshold) * numerator / denominator < Limit())
    ensures denominator == 0 ==> r == None
  {
    if denominator == 0 {
      return None;
    }
    var product := MultiplyThreshold(threshold, numerator);
    if product.None? {
      return None;
    }
    r := DivLeByU64(product.value, denominator);
  }

  method MultiplyThreshold(threshold: Hash, numerator: u64) returns (r: Option<Bytes>)
    ensures r.Some? ==> |r.value| == PRODUCT_BYTES && FromLe(r.value) == FromLe(threshold) * numerator
    ensures numerator <= U32_MAX ==> r.Some?
  {
    hide FromLe, Pow256;
    var product: Bytes, carry: nat := ZERO_HASH + [0, 0, 0, 0], 0;
    EmptyPrefix(product);
    EmptyPrefix(threshold);
    assert FromLe(threshold[..0]) * numerator == 0;
    for index := 0 to 32
      invariant |product| == PRODUCT_BYTES
      invariant forall j | 32 <= j < PRODUCT_BYTES :: product[j] == 0
      invariant carry < 0x100_0000_0000_0000
      invariant numerator <= U32_MAX ==> carry < 0x1_0000_0000
      invariant FromLe(product[..index]) + Pow256(index) * carry == FromLe(threshold[..index]) * numerator
    {
      var digit: nat := threshold[index];
      var term := Times(digit, numerator);
      MulLe(digit, 255, numerator);
      if term + carry >= 0x1_0000_0000_0000_0000 {
        return None;
      }
      var scaled: nat := term + carry;
      ghost var before := product;
      product := product[index := scaled % 256];
      assert product[..index] == before[..index];
      PrefixStep(product, index, scaled % 256);
      PrefixStep(threshold, index, threshold[index]);
      Pow256Step(index);
      DigitStep(Pow256(index), numerator, digit, carry, scaled % 256, scaled / 256);
      MulDistributes(FromLe(threshold[..index]), Pow256(index) * digit, numerator);
      carry := scaled / 256;
    }
    assert threshold[..32] == threshold;
    r := SpillCarry(product, carry);
  }

  /** Writes the final carry into the bytes above the threshold's. */
  method SpillCarry(product: Bytes, carry: nat) returns (r: Option<Bytes>)
    requires |product| == PRODUCT_BYTES && forall j | 32 <= j < PRODUCT_BYTES :: product[j] == 0
    ensures r.Some? <==> carry < 0x1_0000_0000
    ensures r.Some? ==> |r.value| == PRODUCT_BYTES && FromLe(r.value) == FromLe(product[..32]) + Pow256(32) * carry
  {
    hide FromLe, Pow256, Pow2;
    SmallPowers();
    var out: Bytes, left: nat := product, carry;
    for index := 32 to PRODUCT_BYTES
      invariant |out| == PRODUCT_BYTES
      invariant out[..32] == product[..32]
      invariant forall j | index <= j < PRODUCT_BYTES :: out[j] == 0
      invariant FromLe(out[..index]) + Pow256(index) * left == FromLe(product[..32]) + Pow256(32) * carry
      invariant left == carry / Pow2(8 * (index - 32))
    {
      ghost var before := out;
      CarryByte(carry, index - 32);
      if left == 0 {
        AboveCarry(out, index, carry);
        return Some(out);
      }
      out := out[index := left % 256];
      assert out[..index] == before[..index];
      PrefixStep(out, index, left % 256);
      Pow256Step(index);
      CarryStep(Pow256(index), 0, left, left % 256, left / 256);
      left := left / 256;
    }
    assert out[..PRODUCT_BYTES] == out;
    FourByteCarry(carry);
    r := if left != 0 then None else Some(out);
  }

  lemma CarryByte(carry: nat, k: nat)
    ensures carry / Pow2(8 * k) / 256 == carry / Pow2(8 * (k + 1))
  {
    Pow2Add(8 * k, 8);
    assert Pow2(8) == 256;
    hide Pow2;
    assert IsProduct(Pow2(8 * (k + 1)), Pow2(8 * k), 256);
    DivDiv(carry, Pow2(8 * k), 256, Pow2(8 * (k + 1)));
  }

  lemma FourByteCarry(carry: nat)
    ensures carry / Pow2(32) == 0 <==> carry < 0x1_0000_0000
  {
    Pow256IsPow2(4);
    Pow256Values();
    hide Pow2, Pow256;
    DivBounds(carry, Pow2(32), 1);
    DivBounds(carry, Pow2(32), 0);
  }

  lemma AboveCarry(out: Bytes, index: nat, carry: nat)
    requires 32 <= index < |out| == PRODUCT_BYTES && forall j | index <= j < PRODUCT_BYTES :: out[j] == 0
    requires carry / Pow2(8 * (index - 32)) == 0
    ensures FromLe(out) == FromLe(out[..index]) && carry < 0x1_0000_0000
  {
    hide FromLe, Pow256;
    FromLeSplit(out, index);
    FromLeZeros(out[index..]);
    var p := Pow2(8 * (index - 32));
    DivBounds(carry, p, 1);
    Pow2Add(8 * (index - 32), 32 - 8 * (index - 32));
    Pow256IsPow2(4);
    Pow256Values();
    hide Pow2;
    MulLe(1, Pow2(32 - 8 * (index - 32)), p);
    MulCommutes(p, Pow2(32 - 8 * (index - 32)));
  }

  /** Long division of a little-endian number by a word. */
  method DivLeByU64(input: Bytes, divisor: u64) returns (r: Option<Hash>)
    ensures r.Some? ==> divisor > 0 && FromLe(r.value) == FromLe(input) / divisor
    ensures 0 < divisor <= U32_MAX ==> (r.Some? <==> FromLe(input) / divisor < Limit())
    ensures divisor == 0 ==> r == None
  {
    hide FromLe, Pow256;
    if divisor == 0 {
      return None;
    }
    var output: Bytes, remainder: nat := ZERO_HASH, 0;
    FromLeZeros(output[if |input| < 32 then |input| else 32..]);
    assert input[|input|..] == [];
    FromLeZeros(input[|input|..]);
    DivUnique(0, divisor, 0, 0);
    for index := |input| downto 0
      invariant |output| == 32
      invariant remainder == FromLe(input[index..]) % divisor
      invariant remainder < divisor
      invariant index >= 32 ==> FromLe(input[index..]) / divisor == 0
      invariant index >= 32 ==> output == ZERO_HASH
      invariant index < 32 ==> FromLe(input[index..]) / divisor == FromLe(output[index..])
    {
      var digit: nat := input[index];
      if remainder * 256 + digit >= 0x1_0000_0000_0000_0000 {
        return None;
      }
      var accumulator: nat := remainder * 256 + digit;
      LongDivisionStep(input, index, divisor);
      var quotient := accumulator / divisor;
      DivLt256(remainder, digit, divisor);
      if index >= 32 {
        if quotient != 0 {
          QuotientTooLarge(input, index, divisor);
          return None;
        }
      } else {
        ghost var before := output;
        output := output[index := quotient];
        assert output[index..] == [quotient] + before[index + 1..];
        assert output[index..][1..] == before[index + 1..];
        FromLeHead(output[index..]);
        if index == 31 {
          FromLeZeros(before[32..]);
        }
      }
      remainder := accumulator % divisor;
    }
    assert input[0..] == input && output[0..] == output;
    r := Some(output);
  }

  lemma DivLt256(remainder: nat, digit: nat, divisor: nat)
    requires remainder < divisor && digit < 256
    ensures 0 <= (remainder * 256 + digit) / divisor < 256
  {
    DivBounds(remainder * 256 + digit, divisor, 256);
    DivBounds(remainder * 256 + digit, divisor, 0);
  }

  /** One more digit of the dividend: the quotient gets one more digit. */
  lemma LongDivisionStep(input: Bytes, index: nat, divisor: nat)
    requires index < |input| && divisor > 0
    ensures var accumulator := FromLe(input[index + 1..]) % divisor * 256 + input[index];
      && FromLe(input[index..]) / divisor == FromLe(input[index + 1..]) / divisor * 256 + accumulator / divisor
      && FromLe(input[index..]) % divisor == accumulator % divisor
  {
    hide FromLe;
    var tail := input[index..];
    assert tail[1..] == input[index + 1..];
    FromLeHead(tail);
    var v := FromLe(input[index + 1..]);
    DigitDivision(v, input[index], divisor);
  }

  lemma DigitDivision(v: nat, digit: nat, divisor: nat)
    requires divisor > 0
    ensures var accumulator := v % divisor * 256 + digit;
      && (digit + 256 * v) / divisor == v / divisor * 256 + accumulator / divisor
      && (digit + 256 * v) % divisor == accumulator % divisor
  {
    var q, r := v / divisor, v % divisor;
    var accumulator := r * 256 + digit;
    DivMod(v, divisor);
    DivMod(accumulator, divisor);
    DigitProduct(v, q, r, digit, divisor, accumulator / divisor, accumulator % divisor);
    DivUnique(digit + 256 * v, divisor, q * 256 + accumulator / divisor, accumulator % divisor);
  }

  lemma DigitProduct(v: nat, q: nat, r: nat, digit: nat, divisor: nat, p: nat, s: nat)
    requires v == q * divisor + r && r * 256 + digit == p * divisor + s
    ensures digit + 256 * v == (q * 256 + p) * divisor + s
  {
    MulSwap(q, 256, divisor);
    MulAssociates(q, 256, divisor);
    MulDistributes(q * 256, p, divisor);
  }

  /** A non-zero quotient digit at or above place 32: the quotient does not fit. */
  lemma QuotientTooLarge(input: Bytes, index: nat, divisor: nat)
    requires 32 <= index < |input| && divisor > 0
    requires FromLe(input[index..]) / divisor != 0
    ensures FromLe(input) / divisor >= Limit()
  {
    hide FromLe, Pow256;
    FromLeSplit(input, index);
    var high := FromLe(input[index..]);
    DivBounds(high, divisor, 1);
    DivBounds(high, divisor, 0);
    Pow256Mono(32, index);
    var p := Pow256(index);
    MulLe(divisor, high, p);
    MulCommutes(p, high);
    MulLe(Limit(), p, divisor);
    MulCommutes(p, divisor);
    DivBounds(FromLe(input), divisor, Limit());
  }

  // ---- the adjustment ----

  method CapToMaxTarget(threshold: Hash) returns (r: Hash)
    ensures FromLe(r) == Capped(FromLe(threshold))
  {
    hide FromLe, MaxTarget;
    MaxTargetDecodes();
    var maximum := FromBits(MAX_COMPACT_BITS);
    CompareLeIsNumeric(threshold, maximum.value);
    r := if CompareLe(threshold, maximum.value) == Greater then maximum.value else threshold;
  }

  method AdjustBits(prevBits: u32, actualTimespan: u32) returns (r: Result<u32, DifficultyError>)
    ensures r == AdjustedBits(prevBits, actualTimespan)
  {
    hide FromLe, Encode, Pow256;
    var prevTarget := FromBits(prevBits);
    if prevTarget.None? {
      return Err(InvalidPreviousBits(prevBits));
    }
    var clamped := ClampTimespan(actualTimespan, TARGET_TIMESPAN);
    var scaled := MulDivThreshold(prevTarget.value, clamped, TARGET_TIMESPAN);
    if scaled.None? {
      return Err(Overflow);
    }
    var capped := CapToMaxTarget(scaled.value);
    var bits := ToBits(capped);
    r := if bits.None? then Err(EncodingFailed) else Ok(bits.value);
  }
}
