/** Little-endian integers, CompactSize, and the bounded reader over untrusted bytes.
    Each read of the reader is specified by a parser on the unread bytes. */
module Wire {
  import opened Types

  datatype DecodeError =
    | Truncated(context: string, needed: nat, remaining: nat)
    | NonCanonicalCompactSize(context: string, compact: nat)
    | LimitExceeded(context: string, actual: nat, limit: nat)
    | TrailingBytes(context: string, remaining: nat)

  /** A parsed value and the bytes left after it. */
  type Parsed<T> = Result<(T, Bytes), DecodeError>

  // ---- fixed-width integers ----

  function Pow256(k: nat): (p: nat)
    ensures p >= 1
  {
    if k == 0 then 1 else 256 * Pow256(k - 1)
  }

  /** The k low bytes of n, least significant first. */
  function LeBytes(n: nat, k: nat): (s: Bytes)
    ensures |s| == k
  {
    if k == 0 then [] else [n % 256] + LeBytes(n / 256, k - 1)
  }

  function FromLe(s: Bytes): (n: nat)
    ensures n < Pow256(|s|)
  {
    if s == [] then 0 else s[0] + 256 * FromLe(s[1..])
  }

  lemma {:induction false} FromLeInvertsLeBytes(n: nat, k: nat)
    requires n < Pow256(k)
    ensures FromLe(LeBytes(n, k)) == n
  {
    if k > 0 {
      var s := LeBytes(n, k);
      assert s[1..] == LeBytes(n / 256, k - 1);
      FromLeInvertsLeBytes(n / 256, k - 1);
    }
  }

  lemma {:induction false} LeBytesInvertsFromLe(s: Bytes)
    ensures LeBytes(FromLe(s), |s|) == s
  {
    if s != [] {
      LeBytesInvertsFromLe(s[1..]);
      assert FromLe(s) % 256 == s[0];
      assert FromLe(s) / 256 == FromLe(s[1..]);
    }
  }

  lemma Pow256Values()
    ensures Pow256(1) == 0x100 && Pow256(2) == 0x1_0000
    ensures Pow256(4) == 0x1_0000_0000 && Pow256(8) == 0x1_0000_0000_0000_0000
  {
    assert Pow256(3) == 0x100_0000;
    assert Pow256(5) == 0x100_0000_0000;
    assert Pow256(6) == 0x1_0000_0000_0000;
    assert Pow256(7) == 0x100_0000_0000_0000;
  }

  function EncodeU32(v: u32): (s: Bytes) { LeBytes(v, 4) }

  function EncodeU64(v: u64): (s: Bytes) { LeBytes(v, 8) }

  /** Two's complement. */
  function EncodeI32(v: i32): (s: Bytes) {
    LeBytes(if v < 0 then v + 0x1_0000_0000 else v, 4)
  }

  function DecodeU32(s: Bytes): u32
    requires |s| == 4
  {
    Pow256Values();
    FromLe(s)
  }

  function DecodeU64(s: Bytes): u64
    requires |s| == 8
  {
    Pow256Values();
    FromLe(s)
  }

  function DecodeI32(s: Bytes): i32
    requires |s| == 4
  {
    Pow256Values();
    var n := FromLe(s);
    if n >= 0x8000_0000 then n - 0x1_0000_0000 else n
  }

  lemma WordsRoundTrip(a: u32, b: u64, c: i32)
    ensures DecodeU32(EncodeU32(a)) == a
    ensures DecodeU64(EncodeU64(b)) == b
    ensures DecodeI32(EncodeI32(c)) == c
  {
    Pow256Values();
    FromLeInvertsLeBytes(a, 4);
    FromLeInvertsLeBytes(b, 8);
    FromLeInvertsLeBytes(if c < 0 then c + 0x1_0000_0000 else c, 4);
  }

  lemma WordsCanonical(s: Bytes)
    ensures |s| == 4 ==> EncodeU32(DecodeU32(s)) == s && EncodeI32(DecodeI32(s)) == s
    ensures |s| == 8 ==> EncodeU64(DecodeU64(s)) == s
  {
    Pow256Values();
    LeBytesInvertsFromLe(s);
  }

  /** Four bytes, least significant first. */
  lemma FourBytes(a: byte, b: byte, c: byte, d: byte)
    ensures FromLe([a, b, c, d]) == a + 0x100 * b + 0x1_0000 * c + 0x100_0000 * d
  {
    assert [a, b, c, d][1..] == [b, c, d] && [b, c, d][1..] == [c, d] && [c, d][1..] == [d];
    assert FromLe([d]) == d;
    assert FromLe([c, d]) == c + 256 * FromLe([d]);
    assert FromLe([b, c, d]) == b + 256 * FromLe([c, d]);
  }

  /** Words are written little-endian; a negative one is written as itself plus 2^32. */
  lemma WordValues(a: u32, b: u64, c: i32)
    ensures |EncodeU32(a)| == 4 && FromLe(EncodeU32(a)) == a
    ensures |EncodeU64(b)| == 8 && FromLe(EncodeU64(b)) == b
    ensures |EncodeI32(c)| == 4 && FromLe(EncodeI32(c)) == c % 0x1_0000_0000
  {
    Pow256Values();
    FromLeInvertsLeBytes(a, 4);
    FromLeInvertsLeBytes(b, 8);
    FromLeInvertsLeBytes(c % 0x1_0000_0000, 4);
  }

  // ---- CompactSize ----

  /** The prefix of a list of v items; like the cast in the program it keeps the low 64 bits. */
  function CompactSize(v: nat): (s: Bytes)
    ensures |s| == CompactSizeLength(v)
  {
    if v <= 0xfc then [v]
    else if v <= 0xffff then [0xfd] + LeBytes(v, 2)
    else if v <= 0xffff_ffff then [0xfe] + LeBytes(v, 4)
    else [0xff] + LeBytes(v, 8)
  }

  function CompactSizeLength(v: nat): nat {
    if v <= 0xfc then 1 else if v <= 0xffff then 3 else if v <= 0xffff_ffff then 5 else 9
  }

  // ---- parsers ----

  function ParseBytes(s: Bytes, n: nat, context: string): Parsed<Bytes> {
    if |s| < n then Err(Truncated(context, n, |s|)) else Ok((s[..n], s[n..]))
  }

  function ParseU32(s: Bytes, context: string): Parsed<u32> {
    var (v, rest) :- ParseBytes(s, 4, context);
    Ok((DecodeU32(v), rest))
  }

  function ParseI32(s: Bytes, context: string): Parsed<i32> {
    var (v, rest) :- ParseBytes(s, 4, context);
    Ok((DecodeI32(v), rest))
  }

  function ParseU64(s: Bytes, context: string): Parsed<u64> {
    var (v, rest) :- ParseBytes(s, 8, context);
    Ok((DecodeU64(v), rest))
  }

  function ParseHash(s: Bytes, context: string): Parsed<Hash> {
    var (v, rest) :- ParseBytes(s, 32, context);
    var hash: Hash := v; Ok((hash, rest))
  }

  function ParsePrefixed(s: Bytes, width: nat, minimum: nat, context: string): Parsed<u64>
    requires width <= 8
  {
    var (v, rest) :- ParseBytes(s, width, context);
    FromLeBound(v);
    var n := FromLe(v);
    if n < minimum then Err(NonCanonicalCompactSize(context, n)) else Ok((n, rest))
  }

  lemma {:induction false} FromLeBound(s: Bytes)
    requires |s| <= 8
    ensures FromLe(s) < 0x1_0000_0000_0000_0000
  {
    Pow256Values();
    Pow256Mono(|s|, 8);
  }

  lemma {:induction false} Pow256Mono(a: nat, b: nat)
    requires a <= b
    ensures Pow256(a) <= Pow256(b)
  {
    if a < b { Pow256Mono(a, b - 1); }
  }

  function ParseCompactSize(s: Bytes, context: string): Parsed<u64> {
    var (tag, rest) :- ParseBytes(s, 1, context);
    if tag[0] <= 0xfc then Ok((tag[0], rest))
    else if tag[0] == 0xfd then ParsePrefixed(rest, 2, 0xfd, context)
    else if tag[0] == 0xfe then ParsePrefixed(rest, 4, 0x1_0000, context)
    else ParsePrefixed(rest, 8, 0x1_0000_0000, context)
  }

  function ParseLimitedLength(s: Bytes, context: string, limit: nat): Parsed<nat> {
    var (v, rest) :- ParseCompactSize(s, context);
    if v > limit then Err(LimitExceeded(context, v, limit)) else Ok((v, rest))
  }

  /** CompactSize is a canonical prefix code: parsing inverts encoding with any bytes
      after it, and whatever parses is the encoding of what it parses to. */
  lemma {:induction false} CompactSizeRoundTrip(v: u64, rest: Bytes, context: string)
    ensures ParseCompactSize(CompactSize(v) + rest, context) == Ok((v, rest))
  {
    var s := CompactSize(v) + rest;
    assert s[1..] == CompactSize(v)[1..] + rest;
    Pow256Values();
    if v > 0xfc {
      var width := CompactSizeLength(v) - 1;
      FromLeInvertsLeBytes(v, width);
      assert CompactSize(v)[1..] == LeBytes(v, width);
      assert s[1..][..width] == LeBytes(v, width);
      assert s[1..][width..] == rest;
    }
  }

  lemma {:induction false} CompactSizeCanonical(s: Bytes, context: string)
    ensures var r := ParseCompactSize(s, context);
      r.Ok? ==> s == CompactSize(r.value.0) + r.value.1
  {
    var r := ParseCompactSize(s, context);
    if r.Ok? {
      Pow256Values();
      var v := r.value.0;
      if s[0] > 0xfc {
        var width := if s[0] == 0xfd then 2 else if s[0] == 0xfe then 4 else 8;
        var field := s[1..][..width];
        LeBytesInvertsFromLe(field);
        assert v == FromLe(field) < Pow256(width);
        assert s[1..] == field + s[1..][width..];
        assert s == [s[0]] + s[1..];
      } else {
        assert s == [v] + s[1..];
      }
    }
  }

  /** The four forms of a compact size: the value itself, or a tag and two, four or eight bytes of it. */
  lemma CompactSizeForms(v: u64)
    ensures v < 0xfd ==> CompactSize(v) == [v]
    ensures v >= 0xfd ==>
      && var s := CompactSize(v);
      && FromLe(s[1..]) == v
      && s[0] == (if v < 0x1_0000 then 0xfd else if v < 0x1_0000_0000 then 0xfe else 0xff)
      && |s| == (if v < 0x1_0000 then 3 else if v < 0x1_0000_0000 then 5 else 9)
  {
    if v >= 0xfd {
      Pow256Values();
      var width := CompactSizeLength(v) - 1;
      FromLeInvertsLeBytes(v, width);
      assert CompactSize(v)[1..] == LeBytes(v, width);
    }
  }

  // ---- the reader ----

  class WireReader {
    const bytes: Bytes
    var position: nat

    constructor (bytes: Bytes)
      ensures this.bytes == bytes && position == 0 && Valid()
      ensures Rest() == bytes
    {
      this.bytes := bytes;
      position := 0;
    }

    ghost predicate Valid()
      reads this
    {
      position <= |bytes|
    }

    ghost function Rest(): Bytes
      reads this
      requires Valid()
    {
      bytes[position..]
    }

    /** The outcome of a read that parses the unread bytes to `parsed`: the parsed value and the
        reader moved past it, or the error of the parse. */
    ghost predicate Reads<T>(parsed: Parsed<T>, r: Result<T, DecodeError>)
      reads this
    {
      Valid() &&
      match parsed
      case Ok((v, rest)) => r == Ok(v) && Rest() == rest
      case Err(e) => r == Err(e)
    }

    method Remaining() returns (n: nat)
      requires Valid()
      ensures n == |Rest()|
    {
      n := |bytes| - position;
    }

    method ReadBytes(length: nat, context: string) returns (r: Result<Bytes, DecodeError>)
      requires Valid()
      modifies this
      ensures Reads(ParseBytes(old(Rest()), length, context), r)
      ensures r.Err? ==> position == old(position)
    {
      var remaining := Remaining();
      if remaining < length {
        return Err(Truncated(context, length, remaining));
      }
      var start := position;
      position := position + length;
      assert bytes[start..][..length] == bytes[start..position];
      r := Ok(bytes[start..position]);
    }

    method ReadU32(context: string) returns (r: Result<u32, DecodeError>)
      requires Valid()
      modifies this
      ensures Reads(ParseU32(old(Rest()), context), r)
    {
      var field :- ReadBytes(4, context);
      r := Ok(DecodeU32(field));
    }

    method ReadI32(context: string) returns (r: Result<i32, DecodeError>)
      requires Valid()
      modifies this
      ensures Reads(ParseI32(old(Rest()), context), r)
    {
      var field :- ReadBytes(4, context);
      r := Ok(DecodeI32(field));
    }

    method ReadU64(context: string) returns (r: Result<u64, DecodeError>)
      requires Valid()
      modifies this
      ensures Reads(ParseU64(old(Rest()), context), r)
    {
      var field :- ReadBytes(8, context);
      r := Ok(DecodeU64(field));
    }

    method ReadHash(context: string) returns (r: Result<Hash, DecodeError>)
      requires Valid()
      modifies this
      ensures Reads(ParseHash(old(Rest()), context), r)
    {
      var field :- ReadBytes(32, context);
      r := Ok(field);
    }

    method ReadCompactSize(context: string) returns (r: Result<u64, DecodeError>)
      requires Valid()
      modifies this
      ensures Reads(ParseCompactSize(old(Rest()), context), r)
    {
      var tag :- ReadBytes(1, context);
      if tag[0] <= 0xfc {
        return Ok(tag[0]);
      }
      var width, minimum := 8, 0x1_0000_0000;
      if tag[0] == 0xfd {
        width, minimum := 2, 0xfd;
      } else if tag[0] == 0xfe {
        width, minimum := 4, 0x1_0000;
      }
      var field :- ReadBytes(width, context);
      FromLeBound(field);
      var value := FromLe(field);
      if value < minimum {
        return Err(NonCanonicalCompactSize(context, value));
      }
      r := Ok(value);
    }

    method ReadLimitedLength(context: string, limit: nat) returns (r: Result<nat, DecodeError>)
      requires Valid()
      modifies this
      ensures Reads(ParseLimitedLength(old(Rest()), context, limit), r)
    {
      var value :- ReadCompactSize(context);
      if value > limit {
        return Err(LimitExceeded(context, value, limit));
      }
      r := Ok(value);
    }

    /** Succeeds exactly when every byte has been consumed. */
    method Finish(context: string) returns (r: Result<(), DecodeError>)
      requires Valid()
      ensures r == if Rest() == [] then Ok(()) else Err(TrailingBytes(context, |Rest()|))
    {
      var remaining := Remaining();
      if remaining != 0 {
        return Err(TrailingBytes(context, remaining));
      }
      r := Ok(());
    }
  }
}
