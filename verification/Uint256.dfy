/** 256-bit little-endian integers for proof-of-work chain work. Each byte-array algorithm is
    proved against the number `FromLe` its bytes denote. */
module Uint256 {
  import opened Types
  import opened Wire
  import opened Arith

  datatype Ordering = Less | Equal | Greater

  const WORD_BYTES: nat := 32

  function Limit(): nat { Pow256(WORD_BYTES) }

  function CompareNumbers(a: nat, b: nat): Ordering {
    if a < b then Less else if a == b then Equal else Greater
  }

  /** Lexicographic comparison from the most significant byte. */
  function CompareLe(left: Bytes, right: Bytes): Ordering
    requires |left| == |right|
  {
    if left == [] then Equal else
      var top := |left| - 1;
      if left[top] != right[top] then CompareNumbers(left[top], right[top])
      else CompareLe(left[..top], right[..top])
  }

  lemma TopDigit(p: nat, a: nat, b: nat)
    ensures a < b ==> p * a + p <= p * b
  {
    if a < b {
      MulLe(a + 1, b, p);
      MulDistributes(a, 1, p);
      MulCommutes(p, a);
      MulCommutes(p, b);
    }
  }

  /** Comparing the bytes compares the numbers. */
  lemma {:induction false} CompareLeIsNumeric(left: Bytes, right: Bytes)
    requires |left| == |right|
    ensures CompareLe(left, right) == CompareNumbers(FromLe(left), FromLe(right))
  {
    hide FromLe, Pow256;
    if left == [] {
      assert right == [];
    } else {
      var top := |left| - 1;
      assert left == left[..top] + [left[top]] && right == right[..top] + [right[top]];
      FromLeSnoc(left[..top], left[top]);
      FromLeSnoc(right[..top], right[top]);
      CompareLeIsNumeric(left[..top], right[..top]);
      TopDigit(Pow256(top), left[top], right[top]);
      TopDigit(Pow256(top), right[top], left[top]);
    }
  }

  // ---- addition, complement, shift ----

  /** One byte rewritten at index i of a number whose higher bytes are still those of `before`. */
  lemma PrefixStep(s: Bytes, i: nat, b: byte)
    requires i < |s| && s[i] == b
    ensures FromLe(s[..i + 1]) == FromLe(s[..i]) + Pow256(i) * b
  {
    assert s[..i + 1] == s[..i] + [b];
    FromLeSnoc(s[..i], b);
  }

  lemma CarryStep(p: nat, carry: nat, b: nat, low: nat, next: nat)
    requires b + carry == low + 256 * next
    ensures p * b + p * carry == p * low + (256 * p) * next
  {
    MulDistributes(b, carry, p);
    MulDistributes(low, 256 * next, p);
    MulAssociates(256, p, next);
    MulSwap(p, 256, next);
    MulCommutes(p, b); MulCommutes(p, carry); MulCommutes(p, low); MulCommutes(p, 256 * next);
  }

  /** Adds a small number; fails exactly when the sum of the lowest byte leaves 64 bits or the
      result leaves 256 bits. */
  method AddU256Le(value: Hash, addend: u64) returns (r: Option<Hash>)
    ensures r.Some? <==> value[0] + addend < 0x1_0000_0000_0000_0000 && FromLe(value) + addend < Limit()
    ensures r.Some? ==> FromLe(r.value) == FromLe(value) + addend
  {
    hide FromLe, Pow256;
    var out: Bytes, carry: nat := value, addend;
    EmptyPrefix(value);
    for i := 0 to 32
      invariant |out| == 32 && out[i..] == value[i..]
      invariant 0 <= carry < 0x1_0000_0000_0000_0000
      invariant i > 0 ==> 0 < carry < 0x100_0000_0000_0000
      invariant i == 0 ==> carry == addend
      invariant i > 0 ==> value[0] + addend < 0x1_0000_0000_0000_0000
      invariant FromLe(out[..i]) + Pow256(i) * carry == FromLe(value[..i]) + addend
    {
      assert out[i] == out[i..][0] == value[i..][0] == value[i];
      var sum: int := out[i] + carry;
      if sum >= 0x1_0000_0000_0000_0000 {
        return None;
      }
      ghost var before := out;
      out := out[i := sum % 256];
      assert out[..i] == before[..i] && out[i + 1..] == before[i..][1..];
      PrefixStep(out, i, sum % 256);
      PrefixStep(value, i, value[i]);
      Pow256Step(i);
      CarryStep(Pow256(i), carry, value[i], sum % 256, sum / 256);
      carry := sum / 256;
      if carry == 0 {
        SharedTail(out, value, i + 1);
        assert Pow256(i + 1) * carry == 0;
        return Some(out);
      }
    }
    assert out[..32] == out && value[..32] == value;
    MulLe(1, carry, Pow256(32));
    MulCommutes(Pow256(32), carry);
    r := None;
  }

  lemma EmptyPrefix(s: Bytes)
    ensures FromLe(s[..0]) == 0 && Pow256(0) == 1
  {
  }

  lemma Pow256Step(i: nat)
    ensures Pow256(i + 1) == 256 * Pow256(i)
  {
  }

  /** Numbers that share their bytes from index i on differ by their low parts. */
  lemma SharedTail(s: Bytes, t: Bytes, i: nat)
    requires |s| == |t| && i <= |s| && s[i..] == t[i..]
    ensures FromLe(s) - FromLe(s[..i]) == FromLe(t) - FromLe(t[..i])
  {
    FromLeSplit(s, i);
    FromLeSplit(t, i);
  }

  lemma ComplementStep(p: nat, b: byte)
    ensures p * (255 - b) == 256 * p - p - p * b
  {
    MulDistributes(255 - b, b, p);
    MulCommutes(p, 255 - b);
    MulCommutes(p, b);
  }

  /** Complement: the two numbers add up to 2^256 - 1. */
  method NotU256Le(value: Hash) returns (out: Hash)
    ensures FromLe(out) == Limit() - 1 - FromLe(value)
  {
    hide FromLe, Pow256;
    var bytes: Bytes := ZERO_HASH;
    EmptyPrefix(bytes);
    EmptyPrefix(value);
    for i := 0 to 32
      invariant |bytes| == 32
      invariant FromLe(bytes[..i]) == Pow256(i) - 1 - FromLe(value[..i])
    {
      ghost var before := bytes;
      bytes := bytes[i := 255 - value[i]];
      assert bytes[..i] == before[..i];
      PrefixStep(bytes, i, 255 - value[i]);
      PrefixStep(value, i, value[i]);
      Pow256Step(i);
      ComplementStep(Pow256(i), value[i]);
    }
    assert bytes[..32] == bytes && value[..32] == value;
    out := bytes;
  }

  /** Shift left by one bit, dropping a bit that leaves the word. */
  method ShlOneU256Le(value: Hash) returns (out: Hash)
    ensures 2 * FromLe(value) < Limit() ==> FromLe(out) == 2 * FromLe(value)
    ensures 2 * FromLe(value) >= Limit() ==> FromLe(out) == 2 * FromLe(value) - Limit()
  {
    hide FromLe, Pow256;
    var bytes: Bytes, carry: nat := ZERO_HASH, 0;
    EmptyPrefix(bytes);
    EmptyPrefix(value);
    for i := 0 to 32
      invariant |bytes| == 32
      invariant 0 <= carry <= 1
      invariant FromLe(bytes[..i]) + Pow256(i) * carry == 2 * FromLe(value[..i])
    {
      ghost var before := bytes;
      var doubled: int := (2 * value[i]) % 256 + carry;
      bytes := bytes[i := doubled];
      assert bytes[..i] == before[..i];
      PrefixStep(bytes, i, doubled);
      PrefixStep(value, i, value[i]);
      Pow256Step(i);
      ghost var b: int := value[i];
      CarryStep(Pow256(i), carry, 2 * b, doubled, value[i] / 128);
      MulSwap(Pow256(i), 2, value[i]);
      carry := value[i] / 128;
    }
    assert bytes[..32] == bytes && value[..32] == value;
    MulCommutes(Pow256(32), carry);
    assert carry == 0 || carry == 1;
    out := bytes;
  }

  // ---- subtraction ----

  /** The outcome of a subtraction whose byte arithmetic is overflow-checked. */
  datatype Difference = Exact(value: Hash) | Negative | ByteOverflow

  /** At byte i the sum of the subtrahend byte and an incoming borrow does not fit in a byte. */
  predicate OverflowsAt(left: nat, right: Bytes, i: nat)
    requires i < |right|
  {
    right[i] == 255 && left % Pow256(i) < FromLe(right) % Pow256(i)
  }

  predicate SubOverflows(left: nat, right: Bytes) {
    exists i | 0 <= i < |right| :: OverflowsAt(left, right, i)
  }

  lemma BorrowStep(p: nat, l: nat, r: nat, borrow: nat, diff: nat, next: nat)
    requires l + 256 * next == r + borrow + diff
    ensures p * diff == p * l - p * r - p * borrow + (256 * p) * next
  {
    MulDistributes(r + borrow, diff, p);
    MulDistributes(r, borrow, p);
    MulDistributes(l, 256 * next, p);
    MulAssociates(256, p, next);
    MulSwap(p, 256, next);
    MulCommutes(p, diff); MulCommutes(p, l); MulCommutes(p, r); MulCommutes(p, borrow); MulCommutes(p, 256 * next);
  }

  /** Byte-wise subtraction with borrow. The byte sum overflows exactly in the stated case; otherwise
      the result is the exact difference, or says that it is negative. */
  method SubU256Le(left: Hash, right: Hash) returns (r: Difference)
    ensures r.ByteOverflow? <==> SubOverflows(FromLe(left), right)
    ensures r.Negative? ==> FromLe(left) < FromLe(right)
    ensures r.Exact? ==> FromLe(left) >= FromLe(right) && FromLe(r.value) == FromLe(left) - FromLe(right)
  {
    hide FromLe, Pow256;
    var bytes: Bytes, borrow: nat := ZERO_HASH, 0;
    EmptyPrefix(bytes);
    EmptyPrefix(left);
    EmptyPrefix(right);
    for i := 0 to 32
      invariant |bytes| == 32
      invariant borrow == if FromLe(left[..i]) < FromLe(right[..i]) then 1 else 0
      invariant FromLe(bytes[..i]) == FromLe(left[..i]) - FromLe(right[..i]) + Pow256(i) * borrow
      invariant forall j | 0 <= j < i :: !OverflowsAt(FromLe(left), right, j)
    {
      FromLeSplit(left, i);
      FromLeSplit(right, i);
      var sum: int := right[i] + borrow;
      if sum > 255 {
        assert OverflowsAt(FromLe(left), right, i);
        return ByteOverflow;
      }
      assert !OverflowsAt(FromLe(left), right, i);
      var subtrahend: nat := sum;
      var next := if left[i] < subtrahend then 1 else 0;
      var diff: int := left[i] - subtrahend + 256 * next;
      ghost var before := bytes;
      bytes := bytes[i := diff];
      assert bytes[..i] == before[..i];
      PrefixStep(bytes, i, diff);
      PrefixStep(left, i, left[i]);
      PrefixStep(right, i, right[i]);
      Pow256Step(i);
      BorrowStep(Pow256(i), left[i], right[i], borrow, diff, next);
      assert FromLe(bytes[..i + 1]) == FromLe(left[..i + 1]) - FromLe(right[..i + 1]) + Pow256(i + 1) * next;
      assert FromLe(bytes[..i + 1]) < Pow256(i + 1) && FromLe(left[..i + 1]) < Pow256(i + 1);
      borrow := next;
    }
    assert bytes[..32] == bytes && left[..32] == left && right[..32] == right;
    r := if borrow != 0 then Negative else Exact(bytes);
  }

  // ---- bits ----

  function BitOf(value: nat, bit: nat): nat {
    value / Pow2(bit) % 2
  }

  lemma ByteAt(s: Bytes, i: nat)
    requires i < |s|
    ensures s[i] == FromLe(s) / Pow256(i) % 256
  {
    hide Pow256, FromLe;
    FromLeSplit(s, i);
    var high := s[i..];
    FromLeHead(high);
    FirstByte(high[0], FromLe(high[1..]));
  }

  lemma FromLeHead(s: Bytes)
    requires s != []
    ensures FromLe(s) == s[0] + 256 * FromLe(s[1..])
  {
  }

  lemma FirstByte(b: byte, rest: nat)
    ensures (b + 256 * rest) % 256 == b
  {
    MulCommutes(256, rest);
    DivUnique(b + 256 * rest, 256, rest, b);
  }

  lemma BitSplit(bit: nat)
    ensures Pow2(bit) == Pow256(bit / 8) * Pow2(bit % 8)
    ensures 1 <= Pow2(bit % 8) <= 128
  {
    Pow256IsPow2(bit / 8);
    Pow2Add(8 * (bit / 8), bit % 8);
    SmallPowers();
  }

  lemma SmallPowers()
    ensures Pow2(0) == 1 && Pow2(1) == 2 && Pow2(2) == 4 && Pow2(3) == 8
    ensures Pow2(4) == 16 && Pow2(5) == 32 && Pow2(6) == 64 && Pow2(7) == 128
  {
  }

  lemma BitChain(v: nat, place: nat, p: nat, whole: nat, half: nat)
    requires place > 0 && p > 0 && whole > 0 && IsProduct(whole, place, p) && half * p == 128
    ensures v / whole % 2 == (v / place % 256) / p % 2
  {
    hide IsProduct;
    DivDiv(v, place, p, whole);
    LowBits(v / place, p, half);
  }

  /** A bit of a byte is the corresponding bit of the number. */
  lemma BitOfByte(s: Bytes, bit: nat)
    requires bit / 8 < |s|
    ensures BitOf(FromLe(s), bit) == s[bit / 8] / Pow2(bit % 8) % 2
  {
    hide FromLe, Pow256, Pow2;
    var i, j := bit / 8, bit % 8;
    ByteAt(s, i);
    BitSplit(bit);
    HalfPower(j);
    BitChain(FromLe(s), Pow256(i), Pow2(j), Pow2(bit), Pow2(7 - j));
  }

  lemma EvenPlus(x: int, y: int)
    ensures (2 * x + y) % 2 == y % 2
  {
  }

  /** A divisor p of 128 sees only the low byte of a number modulo 2. */
  lemma LowBits(v: nat, p: nat, half: nat)
    requires p > 0 && half * p == 128
    ensures v / p % 2 == (v % 256) / p % 2
  {
    var q, b := v / 256, v % 256;
    var x := half * q;
    DivMod(b, p);
    MulDistributes(2 * x, b / p, p);
    MulAssociates(2, x, p);
    MulAssociates(half, q, p);
    MulCommutes(q, p);
    MulAssociates(half, p, q);
    DivUnique(v, p, 2 * x + b / p, b % p);
    EvenPlus(x, b / p);
  }

  lemma HalfPower(j: nat)
    requires j < 8
    ensures Pow2(7 - j) * Pow2(j) == 128
  {
    Pow2Add(7 - j, j);
    SmallPowers();
  }

  function BitIsSet(value: Hash, bit: nat): bool
    requires bit < 256
  {
    value[bit / 8] / Pow2(bit % 8) % 2 == 1
  }

  /** Setting a clear bit adds its power of two. */
  method SetBit(value: Hash, bit: nat) returns (out: Hash)
    requires bit < 256
    ensures BitIsSet(value, bit) ==> out == value
    ensures !BitIsSet(value, bit) ==> FromLe(out) == FromLe(value) + Pow2(bit)
  {
    if BitIsSet(value, bit) {
      return value;
    }
    hide FromLe, Pow256, Pow2;
    var i, p := bit / 8, Pow2(bit % 8);
    BitSplit(bit);
    ByteStaysInRange(value[i], bit % 8);
    out := value[i := value[i] + p];
    FromLeUpdate(value, i, value[i] + p);
  }

  lemma ByteStaysInRange(b: byte, j: nat)
    requires j < 8 && b / Pow2(j) % 2 == 0
    ensures b + Pow2(j) < 256
  {
    EighthPower();
    Pow2Add(j, 8 - j);
    EvenPower(8 - j);
    hide Pow2;
    RoomForBit(b, Pow2(j), Pow2(8 - j));
  }

  lemma EvenPower(k: nat)
    requires k > 0
    ensures Pow2(k) % 2 == 0
  {
  }

  lemma EighthPower()
    ensures Pow2(8) == 256 && Pow2(1) == 2
  {
  }

  lemma RoomForBit(b: nat, p: nat, q: nat)
    requires p > 0 && p * q == 256 && q % 2 == 0 && b < 256 && b / p % 2 == 0
    ensures b + p < 256
  {
    DivBounds(b, p, q);
    DivMod(b, p);
    MulLe(b / p + 2, q, p);
    MulDistributes(b / p, 2, p);
  }

  // ---- division ----

  /** The remainder of the long division just before its step at bit k, with that bit brought down. */
  function PartialRemainder(a: nat, b: nat, k: nat): nat
    requires b > 0
  {
    2 * (a / Pow2(k + 1) % b) + BitOf(a, k)
  }

  /** Some step of dividing a by the divisor subtracts with a byte overflow. */
  predicate DivOverflows(a: nat, divisor: Bytes)
    requires FromLe(divisor) > 0
  {
    exists k | 0 <= k < 256 :: StepOverflows(a, divisor, k)
  }

  predicate StepOverflows(a: nat, divisor: Bytes, k: nat)
    requires FromLe(divisor) > 0
  {
    var r := PartialRemainder(a, FromLe(divisor), k);
    r >= FromLe(divisor) && SubOverflows(r, divisor)
  }

  lemma BringDown(a: nat, k: nat)
    ensures a / Pow2(k) == 2 * (a / Pow2(k + 1)) + BitOf(a, k)
  {
    MulCommutes(Pow2(k), 2);
    assert IsProduct(Pow2(k + 1), Pow2(k), 2);
    DivDiv(a, Pow2(k), 2, Pow2(k + 1));
  }

  lemma DividePrefix(h: nat, bit: nat, b: nat)
    requires b > 0 && bit < 2
    ensures var r := 2 * (h % b) + bit;
      if r >= b then (2 * h + bit) / b == 2 * (h / b) + 1 && (2 * h + bit) % b == r - b
      else (2 * h + bit) / b == 2 * (h / b) && (2 * h + bit) % b == r
  {
    var q, m := h / b, h % b;
    DivMod(h, b);
    MulAssociates(2, q, b);
    MulDistributes(2 * q, 1, b);
    if 2 * m + bit >= b {
      DivUnique(2 * h + bit, b, 2 * q + 1, 2 * m + bit - b);
    } else {
      DivUnique(2 * h + bit, b, 2 * q, 2 * m + bit);
    }
  }

  lemma PartialRemainderBound(a: nat, b: nat, k: nat)
    requires b > 0
    ensures PartialRemainder(a, b, k) <= a
    ensures 2 * (a / Pow2(k + 1) % b) <= a
  {
    BringDown(a, k);
    hide BitOf, Pow2;
    var h := a / Pow2(k + 1);
    assert h % b <= h;
    DivBounds(a, Pow2(k), a / Pow2(k));
    MulLe(1, Pow2(k), a / Pow2(k));
    MulCommutes(Pow2(k), a / Pow2(k));
  }

  /** A multiple of 2^(k+1) has bit k clear. */
  lemma MultipleHasClearBit(q: nat, k: nat)
    ensures BitOf(q * Pow2(k + 1), k) == 0
  {
    var p := Pow2(k);
    MulAssociates(q, 2, p);
    DivUnique(q * Pow2(k + 1), p, q * 2, 0);
  }

  lemma EvenNumberEvenByte(s: Bytes, n: nat)
    requires s != [] && FromLe(s) == 2 * n
    ensures s[0] % 2 == 0
  {
  }

  lemma ZeroIffZero(s: Hash)
    ensures s == ZERO_HASH <==> FromLe(s) == 0
  {
    hide FromLe;
    FromLeZeros(ZERO_HASH);
    if FromLe(s) == 0 {
      FromLeInjective(s, ZERO_HASH);
    }
  }

  datatype Quotient = NoQuotient | Quotient(value: Hash) | QuotientOverflow

  /** Brings down one bit of the dividend: the shift never loses a bit of the remainder. */
  method BringDownBit(remainder: Hash, dividend: Hash, bit: nat, ghost b: nat) returns (next: Hash)
    requires bit < 256 && b > 0
    requires FromLe(remainder) == FromLe(dividend) / Pow2(bit + 1) % b
    ensures FromLe(next) == PartialRemainder(FromLe(dividend), b, bit)
  {
    hide FromLe, Pow2, Pow256, BitOf;
    PartialRemainderBound(FromLe(dividend), b, bit);
    next := ShlOneU256Le(remainder);
    BitOfByte(dividend, bit);
    if BitIsSet(dividend, bit) {
      EvenNumberEvenByte(next, FromLe(remainder));
      FromLeUpdate(next, 0, next[0] + 1);
      assert Pow256(0) == 1 by { EmptyPrefix(next); }
      next := next[0 := next[0] + 1];
    }
  }

  /** Long division is exact floor division on every run whose byte arithmetic does not overflow,
      and overflows exactly when some step is predicted to. */
  method DivU256Le(dividend: Hash, divisor: Hash) returns (r: Quotient)
    ensures r.NoQuotient? <==> FromLe(divisor) == 0
    ensures FromLe(divisor) > 0 ==> (r.QuotientOverflow? <==> DivOverflows(FromLe(dividend), divisor))
    ensures r.Quotient? ==> FromLe(r.value) == FromLe(dividend) / FromLe(divisor)
  {
    hide FromLe, Pow2, Pow256, BitOf, PartialRemainder, SubOverflows;
    ZeroIffZero(divisor);
    if divisor == ZERO_HASH {
      return NoQuotient;
    }
    ghost var a, b := FromLe(dividend), FromLe(divisor);
    CompareLeIsNumeric(dividend, divisor);
    if CompareLe(dividend, divisor) == Less {
      forall k | 0 <= k < 256
        ensures !StepOverflows(a, divisor, k)
      {
        PartialRemainderBound(a, b, k);
      }
      ZeroIffZero(ZERO_HASH);
      DivUnique(a, b, 0, a);
      return Quotient(ZERO_HASH);
    }
    var quotient, remainder := ZERO_HASH, ZERO_HASH;
    ZeroIffZero(ZERO_HASH);
    NothingBroughtDown(a, b);
    for bit := 256 downto 0
      invariant FromLe(remainder) == a / Pow2(bit) % b
      invariant FromLe(quotient) == a / Pow2(bit) / b * Pow2(bit)
      invariant forall k | bit <= k < 256 :: !StepOverflows(a, divisor, k)
    {
      ghost var q := a / Pow2(bit + 1) / b;
      remainder := BringDownBit(remainder, dividend, bit, b);
      CompareLeIsNumeric(divisor, remainder);
      DivisionStep(a, b, bit);
      if CompareLe(divisor, remainder) != Greater {
        var difference := SubU256Le(remainder, divisor);
        if difference.ByteOverflow? {
          assert StepOverflows(a, divisor, bit);
          return QuotientOverflow;
        }
        assert !StepOverflows(a, divisor, bit);
        remainder := difference.value;
        MultipleHasClearBit(q, bit);
        BitOfByte(quotient, bit);
        quotient := SetBit(quotient, bit);
      } else {
        assert !StepOverflows(a, divisor, bit);
      }
    }
    AllBroughtDown(a, b);
    r := Quotient(quotient);
  }

  lemma NothingBroughtDown(a: nat, b: nat)
    requires a < Limit() && b > 0
    ensures a / Pow2(256) % b == 0 && a / Pow2(256) / b * Pow2(256) == 0
  {
    Pow256IsPow2(32);
    hide Pow2, Pow256;
    DivUnique(a, Pow2(256), 0, a);
    DivUnique(0, b, 0, 0);
  }

  lemma AllBroughtDown(a: nat, b: nat)
    requires b > 0
    ensures a / Pow2(0) / b * Pow2(0) == a / b
  {
    assert a / 1 == a;
  }

  /** One step of the division: quotient and remainder of the dividend's prefix that is one bit longer. */
  lemma DivisionStep(a: nat, b: nat, k: nat)
    requires b > 0
    ensures var r, q := PartialRemainder(a, b, k), a / Pow2(k + 1) / b;
      if r >= b then a / Pow2(k) % b == r - b && a / Pow2(k) / b * Pow2(k) == q * Pow2(k + 1) + Pow2(k)
      else a / Pow2(k) % b == r && a / Pow2(k) / b * Pow2(k) == q * Pow2(k + 1)
  {
    BringDown(a, k);
    var h, p := a / Pow2(k + 1), Pow2(k);
    assert Pow2(k + 1) == 2 * p;
    BitIsBit(a, k);
    hide Pow2, BitOf;
    DividePrefix(h, BitOf(a, k), b);
    var q := h / b;
    MulAssociates(q, 2, p);
    MulCommutes(q, 2);
    MulDistributes(2 * q, 1, p);
  }

  lemma BitIsBit(a: nat, k: nat)
    ensures BitOf(a, k) < 2
  {
  }

  // ---- which divisors overflow ----

  /** Byte i is 0xff above a non-zero part and below a byte that is not 0xff. */
  predicate UnsafeAt(divisor: Bytes, i: nat)
    requires i < |divisor|
  {
    divisor[i] == 255 && FromLe(divisor) % Pow256(i) > 0 && exists j | i < j < |divisor| :: divisor[j] != 255
  }

  predicate Unsafe(divisor: Bytes) {
    exists i | 0 <= i < |divisor| :: UnsafeAt(divisor, i)
  }

  /** All bytes 0xff: the largest number of that length, and conversely. */
  lemma {:induction false} AllOnesIsMaximal(s: Bytes)
    ensures FromLe(s) == Pow256(|s|) - 1 <==> forall i | 0 <= i < |s| :: s[i] == 255
  {
    if s != [] {
      AllOnesIsMaximal(s[1..]);
      var t := s[1..];
      assert (forall i | 0 <= i < |s| :: s[i] == 255) <==> s[0] == 255 && (forall i | 0 <= i < |t| :: t[i] == 255) by {
        assert forall i | 0 <= i < |t| :: t[i] == s[i + 1];
        if s[0] == 255 && (forall i | 0 <= i < |t| :: t[i] == 255) {
          forall i | 0 <= i < |s| ensures s[i] == 255 { if i > 0 { assert t[i - 1] == s[i]; } }
        }
      }
    }
  }

  lemma HighPart(divisor: Hash, i: nat)
    requires i < 32 && divisor[i] == 255
    ensures FromLe(divisor) / Pow256(i) < Pow256(32 - i)
    ensures FromLe(divisor) / Pow256(i) + 1 == Pow256(32 - i) <==> !exists j | i < j < 32 :: divisor[j] != 255
  {
    hide FromLe, Pow256;
    FromLeSplit(divisor, i);
    var high := divisor[i..];
    AllOnesIsMaximal(high);
    assert forall j | 0 <= j < |high| :: high[j] == divisor[i + j];
    if !exists j | i < j < 32 :: divisor[j] != 255 {
      forall j | 0 <= j < |high| ensures high[j] == 255 { assert j == 0 || divisor[i + j] == 255; }
    } else {
      var j :| i < j < 32 && divisor[j] != 255;
      assert high[j - i] != 255;
    }
  }

  lemma OverflowNeedsUnsafe(a: nat, divisor: Hash)
    requires a < Limit() && FromLe(divisor) > 0 && DivOverflows(a, divisor)
    ensures Unsafe(divisor)
  {
    hide FromLe, Pow256, PartialRemainder;
    var b := FromLe(divisor);
    var k :| 0 <= k < 256 && StepOverflows(a, divisor, k);
    var r := PartialRemainder(a, b, k);
    PartialRemainderBound(a, b, k);
    var i :| 0 <= i < 32 && OverflowsAt(r, divisor, i);
    HighPart(divisor, i);
    OverflowBoundsQuotient(r, b, i);
    assert UnsafeAt(divisor, i);
  }

  /** A remainder in range whose low part is below the divisor's leaves room above the divisor's high part. */
  lemma OverflowBoundsQuotient(r: nat, b: nat, i: nat)
    requires i < 32 && b <= r < Limit() && r % Pow256(i) < b % Pow256(i)
    ensures b / Pow256(i) + 1 != Pow256(32 - i)
  {
    hide Pow256;
    var p := Pow256(i);
    Pow256Add(32 - i, i);
    DivBounds(r, p, Pow256(32 - i));
    DivMonotone(b, r, p);
    DivMod(r, p);
    DivMod(b, p);
  }

  /** The dividend that makes an unsafe divisor overflow: the next multiple of 256^i above it. */
  lemma UnsafeOverflows(divisor: Hash, i: nat) returns (a: nat)
    requires i < 32 && FromLe(divisor) > 0 && UnsafeAt(divisor, i)
    ensures a < Limit() && DivOverflows(a, divisor)
  {
    hide FromLe, Pow256;
    var b, p := FromLe(divisor), Pow256(i);
    var high := b / p;
    HighPart(divisor, i);
    DivMod(b, p);
    a := (high + 1) * p;
    MulDistributes(high, 1, p);
    MulLe(high + 2, Pow256(32 - i), p);
    MulDistributes(high + 1, 1, p);
    Pow256Add(32 - i, i);
    ByteAt(divisor, i);
    MulLe(1, high, p);
    SingleStep(a, b);
    DivUnique(a, p, high + 1, 0);
    assert OverflowsAt(a, divisor, i);
    assert StepOverflows(a, divisor, 0);
  }

  lemma SingleStep(a: nat, b: nat)
    requires b <= a < 2 * b
    ensures PartialRemainder(a, b, 0) == a
  {
    assert Pow2(1) == 2;
    DivUnique(a / 2, b, 0, a / 2);
  }

  /** Exactly the unsafe divisors overflow for some dividend. */
  lemma OverflowExactlyForUnsafe(divisor: Hash)
    requires FromLe(divisor) > 0
    ensures (exists a: nat :: a < Limit() && DivOverflows(a, divisor)) <==> Unsafe(divisor)
  {
    hide DivOverflows, UnsafeAt;
    if a: nat :| a < Limit() && DivOverflows(a, divisor) {
      OverflowNeedsUnsafe(a, divisor);
    }
    if Unsafe(divisor) {
      var i :| 0 <= i < |divisor| && UnsafeAt(divisor, i);
      var a := UnsafeOverflows(divisor, i);
    }
  }

  /** A divisor without a 0xff byte never overflows, whatever the dividend. */
  lemma NoOnesNeverOverflows(a: nat, divisor: Hash)
    requires a < Limit() && FromLe(divisor) > 0
    requires forall i | 0 <= i < 32 :: divisor[i] != 255
    ensures !DivOverflows(a, divisor)
  {
    if DivOverflows(a, divisor) {
      OverflowNeedsUnsafe(a, divisor);
    }
  }

  // ---- work ----

  /** The expected number of hashes to meet a target. */
  function WorkOf(target: nat): nat {
    Limit() / (target + 1)
  }

  predicate WorkOverflows(target: nat)
    requires target + 1 < Limit()
  {
    FromLeInvertsLeBytes(target + 1, 32);
    DivOverflows(Limit() - 1 - target, LeBytes(target + 1, 32))
  }

  datatype Work = NoWork | Work(value: Hash) | WorkOverflow

  /** Work is a positive floor quotient, and easier targets never have more of it. */
  lemma WorkIsPositiveAndAntitone(t: nat, u: nat)
    requires t <= u < Limit()
    ensures 1 <= WorkOf(u) <= WorkOf(t)
  {
    DivAntitone(Limit(), t + 1, u + 1);
    DivBounds(Limit(), u + 1, 1);
  }

  lemma DivisionByComplement(limit: nat, d: nat)
    requires 0 < d <= limit
    ensures (limit - d) / d + 1 == limit / d
  {
    var n := limit - d;
    DivMod(n, d);
    MulDistributes(n / d, 1, d);
    DivUnique(limit, d, n / d + 1, n % d);
  }

  lemma WorkByComplement(t: nat)
    requires t + 1 <= Limit()
    ensures (Limit() - 1 - t) / (t + 1) + 1 == WorkOf(t)
  {
    hide Limit;
    DivisionByComplement(Limit(), t + 1);
  }

  /** The program's formula computes the work of a target from its complement. */
  method WorkFromTarget(threshold: Hash) returns (r: Work)
    ensures var t := FromLe(threshold);
      && (r.NoWork? <==> t == 0 || t == Limit() - 1)
      && (0 < t < Limit() - 1 ==> (r.WorkOverflow? <==> WorkOverflows(t)))
      && (r.Work? ==> FromLe(r.value) == WorkOf(t))
  {
    hide FromLe, DivOverflows, Pow256;
    ghost var t := FromLe(threshold);
    ZeroIffZero(threshold);
    if threshold == ZERO_HASH {
      return NoWork;
    }
    var targetPlusOne := AddU256Le(threshold, 1);
    if targetPlusOne.None? {
      return NoWork;
    }
    FromLeInvertsLeBytes(t + 1, 32);
    FromLeInjective(targetPlusOne.value, LeBytes(t + 1, 32));
    var inverted := NotU256Le(threshold);
    var quotient := DivU256Le(inverted, targetPlusOne.value);
    if quotient.QuotientOverflow? {
      return WorkOverflow;
    }
    WorkByComplement(t);
    WorkFits(t);
    var work := AddU256Le(quotient.value, 1);
    r := if work.None? then NoWork else Work(work.value);
  }

  lemma WorkFits(t: nat)
    requires 0 < t
    ensures WorkOf(t) < Limit()
  {
    DivBounds(Limit(), t + 1, Limit());
    MulLe(2, t + 1, Limit());
    MulCommutes(t + 1, Limit());
  }

  /** Adds two amounts of chain work modulo 2^256. */
  method AddChainWork(left: Hash, right: Hash) returns (out: Hash)
    ensures var sum := FromLe(left) + FromLe(right);
      FromLe(out) == if sum < Limit() then sum else sum - Limit()
  {
    hide FromLe, Pow256;
    var bytes: Bytes, carry: nat := ZERO_HASH, 0;
    EmptyPrefix(bytes);
    EmptyPrefix(left);
    EmptyPrefix(right);
    for i := 0 to 32
      invariant |bytes| == 32
      invariant 0 <= carry <= 1
      invariant FromLe(bytes[..i]) + Pow256(i) * carry == FromLe(left[..i]) + FromLe(right[..i])
    {
      ghost var before := bytes;
      var a: int, b: int := left[i], right[i];
      var sum: int := a + b + carry;
      bytes := bytes[i := sum % 256];
      assert bytes[..i] == before[..i];
      PrefixStep(bytes, i, sum % 256);
      PrefixStep(left, i, left[i]);
      PrefixStep(right, i, right[i]);
      Pow256Step(i);
      CarryStep(Pow256(i), carry, a + b, sum % 256, sum / 256);
      MulDistributes(a, b, Pow256(i));
      MulCommutes(Pow256(i), a); MulCommutes(Pow256(i), b); MulCommutes(Pow256(i), a + b);
      carry := sum / 256;
    }
    assert bytes[..32] == bytes && left[..32] == left && right[..32] == right;
    assert carry == 0 || carry == 1;
    out := bytes;
  }
}
