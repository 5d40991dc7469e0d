/** The script interpreter, its stack and the P2PKH templates. `Run` is the meaning of a script
    as a function of its bytes; the interpreter's program-counter loop is proved equal to it. */
module Script {
  import opened Types
  import opened Wire
  import Arith
  import Crypto

  datatype ScriptError =
    | UnexpectedEnd
    | StackUnderflow
    | UnknownOpcode(opcode: byte)
    | EqualVerifyFailed
    | CheckSigFailed
    | EvalFalse

  const OP_PUSHDATA1: byte := 0x4c
  const OP_PUSHDATA2: byte := 0x4d
  const OP_PUSHDATA4: byte := 0x4e
  const OP_ONE: byte := 0x51
  const OP_DUP: byte := 0x76
  const OP_EQUAL: byte := 0x87
  const OP_EQUALVERIFY: byte := 0x88
  const OP_HASH160: byte := 0xa9
  const OP_CHECKSIG: byte := 0xac

  // ---- meaning of scripts ----

  type Items = seq<Bytes>

  /** The script left to run and the stack after one instruction. */
  type Stepped = Result<(Bytes, Items), ScriptError>

  function TakePush(s: Bytes, n: nat, items: Items): Stepped {
    if |s| < n then Err(UnexpectedEnd) else Ok((s[n..], items + [s[..n]]))
  }

  /** A push whose length is the little-endian integer in the next `width` bytes. */
  function TakeSizedPush(s: Bytes, width: nat, items: Items): Stepped {
    if |s| < width then Err(UnexpectedEnd) else TakePush(s[width..], FromLe(s[..width]), items)
  }

  function Operate(opcode: byte, items: Items, sighash: Hash): Result<Items, ScriptError> {
    var n := |items|;
    if opcode == OP_DUP then
      if n < 1 then Err(StackUnderflow) else Ok(items + [items[n - 1]])
    else if opcode == OP_HASH160 then
      if n < 1 then Err(StackUnderflow) else Ok(items[..n - 1] + [Crypto.Hash160(items[n - 1])])
    else if opcode == OP_EQUAL then
      if n < 2 then Err(StackUnderflow)
      else Ok(items[..n - 2] + [if items[n - 2] == items[n - 1] then [1] else []])
    else if opcode == OP_EQUALVERIFY then
      if n < 2 then Err(StackUnderflow)
      else if items[n - 2] != items[n - 1] then Err(EqualVerifyFailed) else Ok(items[..n - 2])
    else if opcode == OP_CHECKSIG then
      if n < 2 then Err(StackUnderflow)
      else if !Crypto.VerifyDerSignature(items[n - 2], items[n - 1], sighash) then Err(CheckSigFailed)
      else Ok(items[..n - 2] + [[1]])
    else if opcode == 0 then Ok(items + [[]])
    else if opcode == OP_ONE then Ok(items + [[1]])
    else Err(UnknownOpcode(opcode))
  }

  function Step(s: Bytes, items: Items, sighash: Hash): (r: Stepped)
    requires s != []
    ensures r.Ok? ==> |r.value.0| < |s|
  {
    var opcode, rest := s[0], s[1..];
    if 1 <= opcode <= 75 then TakePush(rest, opcode, items)
    else if opcode == OP_PUSHDATA1 then TakeSizedPush(rest, 1, items)
    else if opcode == OP_PUSHDATA2 then TakeSizedPush(rest, 2, items)
    else if opcode == OP_PUSHDATA4 then TakeSizedPush(rest, 4, items)
    else
      var items' :- Operate(opcode, items, sighash);
      Ok((rest, items'))
  }

  function Run(s: Bytes, items: Items, sighash: Hash): Result<Items, ScriptError>
    decreases |s|
  {
    if s == [] then Ok(items) else
      var (rest, items') :- Step(s, items, sighash);
      Run(rest, items', sighash)
  }

  /** Script truth: some byte is non-zero, other than a lone sign bit in the last byte. */
  predicate IsTrue(item: Bytes) {
    exists i :: 0 <= i < |item| && item[i] != 0 && !(i == |item| - 1 && item[i] == 0x80)
  }

  function Verify(scriptSig: Bytes, scriptPubkey: Bytes, sighash: Hash): Result<(), ScriptError> {
    var afterSig :- Run(scriptSig, [], sighash);
    var items :- Run(scriptPubkey, afterSig, sighash);
    if items == [] then Err(StackUnderflow)
    else if IsTrue(items[|items| - 1]) then Ok(()) else Err(EvalFalse)
  }

  // ---- composition ----

  lemma TakePushPrefix(a: Bytes, b: Bytes, n: nat, items: Items)
    ensures var r := TakePush(a, n, items);
      r.Ok? ==> TakePush(a + b, n, items) == Ok((r.value.0 + b, r.value.1))
  {
    if n <= |a| {
      assert (a + b)[..n] == a[..n] && (a + b)[n..] == a[n..] + b;
    }
  }

  lemma TakeSizedPushPrefix(a: Bytes, b: Bytes, width: nat, items: Items)
    ensures var r := TakeSizedPush(a, width, items);
      r.Ok? ==> TakeSizedPush(a + b, width, items) == Ok((r.value.0 + b, r.value.1))
  {
    hide TakePush, FromLe;
    if width <= |a| {
      assert (a + b)[..width] == a[..width] && (a + b)[width..] == a[width..] + b;
      TakePushPrefix(a[width..], b, FromLe(a[..width]), items);
    }
  }

  lemma StepPrefix(a: Bytes, b: Bytes, items: Items, sighash: Hash)
    requires a != []
    ensures var r := Step(a, items, sighash);
      r.Ok? ==> Step(a + b, items, sighash) == Ok((r.value.0 + b, r.value.1))
  {
    hide TakePush, TakeSizedPush, Operate;
    var rest := a[1..];
    assert (a + b)[0] == a[0] && (a + b)[1..] == rest + b;
    TakePushPrefix(rest, b, a[0], items);
    TakeSizedPushPrefix(rest, b, 1, items);
    TakeSizedPushPrefix(rest, b, 2, items);
    TakeSizedPushPrefix(rest, b, 4, items);
  }

  /** Running a concatenation is running its first part and then, on the resulting stack, the second. */
  lemma {:induction false} RunConcat(a: Bytes, b: Bytes, items: Items, sighash: Hash)
    requires Run(a, items, sighash).Ok?
    ensures Run(a + b, items, sighash) == Run(b, Run(a, items, sighash).value, sighash)
    decreases |a|
  {
    if a == [] {
      assert a + b == b;
    } else {
      StepPrefix(a, b, items, sighash);
      var (rest, items') := Step(a, items, sighash).value;
      RunConcat(rest, b, items', sighash);
    }
  }

  // ---- P2PKH templates ----

  /** A push of data; the length prefix keeps the low 32 bits of the length. */
  function PushData(data: Bytes): Bytes {
    var n := |data|;
    if n == 0 then [0]
    else if n <= 75 then [n] + data
    else if n <= 0xff then [OP_PUSHDATA1, n] + data
    else if n <= 0xffff then [OP_PUSHDATA2] + LeBytes(n, 2) + data
    else [OP_PUSHDATA4] + LeBytes(n, 4) + data
  }

  function P2pkhScriptPubkey(pubkeyHash: Hash20): Bytes {
    [OP_DUP, OP_HASH160, 20] + pubkeyHash + [OP_EQUALVERIFY, OP_CHECKSIG]
  }

  function P2pkhScriptSig(signature: Bytes, pubkey: Bytes): Bytes {
    PushData(signature) + PushData(pubkey)
  }

  lemma {:induction false} PushStep(data: Bytes, items: Items, sighash: Hash)
    requires |data| < 0x1_0000_0000
    ensures Step(PushData(data), items, sighash) == Ok(([], items + [data]))
  {
    var s := PushData(data);
    var n := |data|;
    Pow256Values();
    if n > 75 {
      var width := if n <= 0xff then 1 else if n <= 0xffff then 2 else 4;
      var rest := s[1..];
      FromLeInvertsLeBytes(n, width);
      if width == 1 {
        assert LeBytes(n, 1) == [n];
      }
      assert rest[..width] == LeBytes(n, width);
      assert rest[width..] == data;
      assert data[..n] == data && data[n..] == [];
    } else if n > 0 {
      assert s[1..][..n] == data && s[1..][n..] == [];
    } else {
      assert data == [];
    }
  }

  lemma PushDataRuns(data: Bytes, items: Items, sighash: Hash)
    requires |data| < 0x1_0000_0000
    ensures Run(PushData(data), items, sighash) == Ok(items + [data])
  {
    PushStep(data, items, sighash);
  }

  /** Items a script leaves behind were there before or are shorter than the script, or are digests. */
  lemma {:induction false} ItemsAreShort(s: Bytes, items: Items, sighash: Hash, bound: nat)
    requires |s| <= bound && 20 < bound
    requires forall x | x in items :: |x| < bound
    ensures var r := Run(s, items, sighash); r.Ok? ==> forall x | x in r.value :: |x| < bound
    decreases |s|
  {
    if s != [] {
      var r := Step(s, items, sighash);
      if r.Ok? {
        assert forall x | x in r.value.1 :: |x| < bound;
        ItemsAreShort(r.value.0, r.value.1, sighash, bound);
      }
    }
  }

  lemma OversizedPushTruncates(data: Bytes, sighash: Hash)
    requires |data| >= 0x1_0000_0000
    ensures Run(PushData(data), [], sighash) != Ok([data])
  {
    var s := PushData(data);
    var rest := s[1..];
    assert rest[..4] == LeBytes(|data|, 4);
    assert rest[4..] == data;
    Pow256Values();
    var n := FromLe(rest[..4]);
    assert n < Pow256(4) <= |data|;
    assert [] + [data[..n]] == [data[..n]];
    assert TakePush(data, n, []) == Ok((data[n..], [data[..n]]));
    assert Step(s, [], sighash) == Ok((data[n..], [data[..n]]));
    ItemsAreShort(data[n..], [data[..n]], sighash, |data|);
    assert data in [data];
  }

  /** `PushData` pushes exactly its argument if and only if its length fits in 32 bits. */
  lemma PushDataExact(data: Bytes, sighash: Hash)
    ensures Run(PushData(data), [], sighash) == Ok([data]) <==> |data| < 0x1_0000_0000
  {
    if |data| < 0x1_0000_0000 {
      PushDataRuns(data, [], sighash);
      assert [] + [data] == [data];
    } else {
      OversizedPushTruncates(data, sighash);
    }
  }

  lemma RunStep(s: Bytes, items: Items, rest: Bytes, items': Items, sighash: Hash)
    requires s != [] && Step(s, items, sighash) == Ok((rest, items'))
    ensures Run(s, items, sighash) == Run(rest, items', sighash)
  {
  }

  lemma PubkeyScriptRuns(items: Items, signature: Bytes, pubkey: Bytes, pubkeyHash: Hash20, sighash: Hash)
    requires items == [signature, pubkey]
    ensures Run(P2pkhScriptPubkey(pubkeyHash), items, sighash) ==
      if Crypto.Hash160(pubkey) != pubkeyHash then Err(EqualVerifyFailed)
      else if !Crypto.VerifyDerSignature(signature, pubkey, sighash) then Err(CheckSigFailed)
      else Ok([[1]])
  {
    var s := P2pkhScriptPubkey(pubkeyHash);
    var s1, s2 := s[1..], s[2..];
    assert s1[1..] == s2;
    assert s2[1..][..20] == pubkeyHash && s2[1..][20..] == [OP_EQUALVERIFY, OP_CHECKSIG];
    var digest := Crypto.Hash160(pubkey);
    var i1: Items := [signature, pubkey, pubkey];
    var i2: Items := [signature, pubkey, digest];
    var i3: Items := [signature, pubkey, digest, pubkeyHash];
    assert items + [items[1]] == i1;
    assert i1[..2] + [digest] == i2;
    assert i2 + [pubkeyHash] == i3;
    RunStep(s, items, s1, i1, sighash);
    RunStep(s1, i1, s2, i2, sighash);
    RunStep(s2, i2, [OP_EQUALVERIFY, OP_CHECKSIG], i3, sighash);
    VerifyTailRuns(i3, sighash);
  }

  lemma VerifyTailRuns(items: Items, sighash: Hash)
    requires |items| == 4
    ensures Run([OP_EQUALVERIFY, OP_CHECKSIG], items, sighash) ==
      if items[2] != items[3] then Err(EqualVerifyFailed)
      else if !Crypto.VerifyDerSignature(items[0], items[1], sighash) then Err(CheckSigFailed)
      else Ok([[1]])
  {
    var tail: Bytes := [OP_EQUALVERIFY, OP_CHECKSIG];
    var last: Bytes := [OP_CHECKSIG];
    assert tail[1..] == last && last[1..] == [];
    if items[2] == items[3] {
      RunStep(tail, items, last, items[..2], sighash);
      if Crypto.VerifyDerSignature(items[0], items[1], sighash) {
        assert items[..2][..0] + [[1]] == [[1]];
        RunStep(last, items[..2], [], [[1]], sighash);
      }
    }
  }

  /** A P2PKH pair verifies if and only if the public key hashes to the committed hash and the
      signature check accepts; otherwise the error says which of the two failed. */
  lemma P2pkhVerifies(signature: Bytes, pubkey: Bytes, pubkeyHash: Hash20, sighash: Hash)
    requires |signature| < 0x1_0000_0000 && |pubkey| < 0x1_0000_0000
    ensures Verify(P2pkhScriptSig(signature, pubkey), P2pkhScriptPubkey(pubkeyHash), sighash) ==
      if Crypto.Hash160(pubkey) != pubkeyHash then Err(EqualVerifyFailed)
      else if !Crypto.VerifyDerSignature(signature, pubkey, sighash) then Err(CheckSigFailed)
      else Ok(())
  {
    hide PushData, P2pkhScriptPubkey, Run;
    PushDataRuns(signature, [], sighash);
    assert [] + [signature] == [signature];
    PushDataRuns(pubkey, [signature], sighash);
    assert [signature] + [pubkey] == [signature, pubkey];
    RunConcat(PushData(signature), PushData(pubkey), [], sighash);
    PubkeyScriptRuns([signature, pubkey], signature, pubkey, pubkeyHash, sighash);
    assert [1][0] != 0;
  }

  // ---- what single scripts do ----

  lemma RunOne(opcode: byte, items: Items, items': Items, sighash: Hash)
    requires (opcode == 0 || opcode > 0x4e) && Operate(opcode, items, sighash) == Ok(items')
    ensures Run([opcode], items, sighash) == Ok(items')
  {
    assert [opcode][1..] == [];
    RunStep([opcode], items, [], items', sighash);
  }

  lemma RunOneFails(opcode: byte, items: Items, e: ScriptError, sighash: Hash)
    requires (opcode == 0 || opcode > 0x4e) && Operate(opcode, items, sighash) == Err(e)
    ensures Run([opcode], items, sighash) == Err(e)
  {
    assert [opcode][1..] == [];
    assert Step([opcode], items, sighash) == Err(e);
  }

  /** The opcodes in numbers, on a stack with a below b on top. */
  lemma OpcodesMean(below: Items, a: Bytes, b: Bytes, sighash: Hash)
    ensures Run([0x76], below + [a, b], sighash) == Ok(below + [a, b, b])
    ensures Run([0xa9], below + [a, b], sighash) == Ok(below + [a, Crypto.Hash160(b)])
    ensures Run([0x87], below + [a, b], sighash) == Ok(below + [if a == b then [1] else []])
    ensures Run([0x88], below + [a, b], sighash) == if a == b then Ok(below) else Err(EqualVerifyFailed)
    ensures Run([0xac], below + [a, b], sighash) ==
      if Crypto.VerifyDerSignature(a, b, sighash) then Ok(below + [[1]]) else Err(CheckSigFailed)
    ensures Run([0x00], below, sighash) == Ok(below + [[]]) && Run([0x51], below, sighash) == Ok(below + [[1]])
  {
    hide Run, Step;
    var items := below + [a, b];
    var n := |items|;
    assert items[n - 2] == a && items[n - 1] == b && items[..n - 2] == below;
    assert items[..n - 1] + [Crypto.Hash160(b)] == below + [a, Crypto.Hash160(b)];
    assert items + [b] == below + [a, b, b];
    RunOne(0x76, items, below + [a, b, b], sighash);
    RunOne(0xa9, items, below + [a, Crypto.Hash160(b)], sighash);
    RunOne(0x87, items, below + [if a == b then [1] else []], sighash);
    if a == b {
      RunOne(0x88, items, below, sighash);
    } else {
      RunOneFails(0x88, items, EqualVerifyFailed, sighash);
    }
    if Crypto.VerifyDerSignature(a, b, sighash) {
      RunOne(0xac, items, below + [[1]], sighash);
    } else {
      RunOneFails(0xac, items, CheckSigFailed, sighash);
    }
    RunOne(0x00, below, below + [[]], sighash);
    RunOne(0x51, below, below + [[1]], sighash);
  }

  /** A stack too short for an opcode, or a byte that is none, stops the script. */
  lemma OpcodesFail(opcode: byte, items: Items, sighash: Hash)
    requires opcode > 0x4e
    ensures opcode in {0x76, 0xa9} && items == [] ==> Run([opcode], items, sighash) == Err(StackUnderflow)
    ensures opcode in {0x87, 0x88, 0xac} && |items| < 2 ==> Run([opcode], items, sighash) == Err(StackUnderflow)
    ensures opcode !in {0x51, 0x76, 0x87, 0x88, 0xa9, 0xac} ==>
      Run([opcode], items, sighash) == Err(UnknownOpcode(opcode))
  {
    hide Run, Step;
    var r := Operate(opcode, items, sighash);
    if r.Err? {
      RunOneFails(opcode, items, r.error, sighash);
    }
  }

  /** Two pushes and an equality test succeed exactly if the pushed data is the same. */
  lemma EqualPushes(a: Bytes, b: Bytes, sighash: Hash)
    requires |a| < 0x1_0000_0000 && |b| < 0x1_0000_0000
    ensures Verify(PushData(a) + PushData(b), [0x87], sighash) == if a == b then Ok(()) else Err(EvalFalse)
    ensures Run(PushData(a) + PushData(b) + [0x87], [], sighash) == Ok([if a == b then [1] else []])
  {
    hide PushData, Run;
    PushDataRuns(a, [], sighash);
    assert [] + [a] == [a];
    PushDataRuns(b, [a], sighash);
    assert [a] + [b] == [a, b];
    RunConcat(PushData(a), PushData(b), [], sighash);
    RunConcat(PushData(a) + PushData(b), [0x87], [], sighash);
    assert [] + [a, b] == [a, b];
    OpcodesMean([], a, b, sighash);
    var answer: Bytes := if a == b then [1] else [];
    assert [] + [answer] == [answer];
    assert [1][0] != 0;
  }

  /** The four forms of a push: the length itself as opcode, or an opcode and one, two or four bytes of it. */
  lemma PushForms(data: Bytes)
    requires |data| < 0x1_0000_0000
    ensures var s, n := PushData(data), |data|;
      if n <= 75 then s == [n] + data
      else if n < 0x100 then s == [0x4c, n] + data
      else if n < 0x1_0000 then |s| == 3 + n && s[0] == 0x4d && FromLe(s[1..3]) == n && s[3..] == data
      else |s| == 5 + n && s[0] == 0x4e && FromLe(s[1..5]) == n && s[5..] == data
  {
    var s, n := PushData(data), |data|;
    Pow256Values();
    if n >= 0x1_0000 {
      FromLeInvertsLeBytes(n, 4);
      assert s[1..5] == LeBytes(n, 4);
    } else if n >= 0x100 {
      FromLeInvertsLeBytes(n, 2);
      assert s[1..3] == LeBytes(n, 2);
    }
  }

  lemma ZeroBytes(n: nat) returns (zeros: Bytes)
    ensures |zeros| == n && FromLe(zeros) == 0 && forall i | 0 <= i < n :: zeros[i] == 0
  {
    zeros := seq(n, _ => 0);
    Arith.FromLeZeros(zeros);
  }

  /** An item is true exactly if it is neither zero nor negative zero as a number. */
  lemma TruthIsNonzero(item: Bytes)
    ensures IsTrue(item) <==>
      item != [] && FromLe(item) != 0 && FromLe(item) != 0x80 * Pow256(|item| - 1)
  {
    hide FromLe, Pow256;
    if item != [] {
      var n := |item| - 1;
      var zeros := ZeroBytes(n);
      var sign: byte, none: byte := 0x80, 0;
      Arith.FromLeSnoc(zeros, sign);
      Arith.FromLeSnoc(zeros, none);
      if FromLe(item) == 0 {
        Arith.FromLeInjective(item, zeros + [none]);
      }
      if FromLe(item) == 0x80 * Pow256(n) {
        Arith.FromLeInjective(item, zeros + [sign]);
      }
      if !IsTrue(item) {
        assert item == zeros + [none] || item == zeros + [sign];
      }
    }
  }

  // ---- who can spend a P2PKH output ----

  /** Whatever the unlocking script is, it satisfies a P2PKH lock exactly if it runs and leaves on top a public
      key of the committed hash and below it a signature that the check accepts. */
  lemma P2pkhUnlocks(scriptSig: Bytes, pubkeyHash: Hash20, sighash: Hash)
    ensures Verify(scriptSig, [0x76, 0xa9, 20] + pubkeyHash + [0x88, 0xac], sighash).Ok? <==>
      && var r := Run(scriptSig, [], sighash);
      && r.Ok? && |r.value| >= 2
      && Crypto.Hash160(r.value[|r.value| - 1]) == pubkeyHash
      && Crypto.VerifyDerSignature(r.value[|r.value| - 2], r.value[|r.value| - 1], sighash)
  {
    hide Run;
    var r := Run(scriptSig, [], sighash);
    if r.Ok? {
      LockRuns(r.value, pubkeyHash, sighash);
      assert [1][0] != 0 && IsTrue([1]);
    }
  }

  /** What the lock does on any stack. */
  lemma LockRuns(items: Items, pubkeyHash: Hash20, sighash: Hash)
    ensures var n := |items|;
      var r := Run([0x76, 0xa9, 20] + pubkeyHash + [0x88, 0xac], items, sighash);
      if n >= 2 && Crypto.Hash160(items[n - 1]) == pubkeyHash
         && Crypto.VerifyDerSignature(items[n - 2], items[n - 1], sighash)
      then r == Ok(items[..n - 2] + [[1]])
      else r.Err?
  {
    hide Run, Step, Operate;
    var s: Bytes := [0x76, 0xa9, 20] + pubkeyHash + [0x88, 0xac];
    LockStarts(items, pubkeyHash, sighash);
    if items != [] {
      var n := |items| - 1;
      LockEnds(items, Crypto.Hash160(items[n]), pubkeyHash, sighash);
    }
  }

  /** Up to the comparison: the hash of the top and the committed hash are pushed. */
  lemma LockStarts(items: Items, pubkeyHash: Hash20, sighash: Hash)
    ensures var r := Run([0x76, 0xa9, 20] + pubkeyHash + [0x88, 0xac], items, sighash);
      if items == [] then r.Err?
      else r == Run([0x88, 0xac], items + [Crypto.Hash160(items[|items| - 1]), pubkeyHash], sighash)
  {
    hide Run;
    var s: Bytes := [0x76, 0xa9, 20] + pubkeyHash + [0x88, 0xac];
    if items == [] {
      assert Step(s, items, sighash).Err?;
      RunFails(s, items, sighash);
    } else {
      var top := items[|items| - 1];
      var s1, s2 := s[1..], s[2..];
      var i1, i2 := items + [top], items + [Crypto.Hash160(top)];
      assert s1[1..] == s2;
      assert s2[1..][..20] == pubkeyHash && s2[1..][20..] == [0x88, 0xac];
      assert i1[..|i1| - 1] + [Crypto.Hash160(top)] == i2;
      RunStep(s, items, s1, i1, sighash);
      RunStep(s1, i1, s2, i2, sighash);
      assert i2 + [pubkeyHash] == items + [Crypto.Hash160(top), pubkeyHash];
      RunStep(s2, i2, [0x88, 0xac], items + [Crypto.Hash160(top), pubkeyHash], sighash);
    }
  }

  lemma RunFails(s: Bytes, items: Items, sighash: Hash)
    requires s != [] && Step(s, items, sighash).Err?
    ensures Run(s, items, sighash).Err?
  {
  }

  /** The comparison and the signature check. */
  lemma LockEnds(items: Items, digest: Bytes, pubkeyHash: Bytes, sighash: Hash)
    ensures var n := |items|;
      var r := Run([0x88, 0xac], items + [digest, pubkeyHash], sighash);
      if n >= 2 && digest == pubkeyHash && Crypto.VerifyDerSignature(items[n - 2], items[n - 1], sighash)
      then r == Ok(items[..n - 2] + [[1]])
      else r.Err?
  {
    hide Run;
    var full := items + [digest, pubkeyHash];
    var tail: Bytes, last: Bytes := [0x88, 0xac], [0xac];
    assert full[..|full| - 2] == items && tail[1..] == last && last[1..] == [];
    if digest != pubkeyHash {
      RunFails(tail, full, sighash);
    } else {
      RunStep(tail, full, last, items, sighash);
      var n := |items|;
      if n < 2 || !Crypto.VerifyDerSignature(items[n - 2], items[n - 1], sighash) {
        RunFails(last, items, sighash);
      } else {
        RunOne(0xac, items, items[..n - 2] + [[1]], sighash);
      }
    }
  }

  // ---- the interpreter ----

  class Stack {
    var items: Items

    constructor ()
      ensures items == []
    {
      items := [];
    }

    method Push(data: Bytes)
      modifies this
      ensures items == old(items) + [data]
    {
      items := items + [data];
    }

    method Pop() returns (r: Result<Bytes, ScriptError>)
      modifies this
      ensures old(items) == [] ==> r == Err(StackUnderflow) && items == []
      ensures old(items) != [] ==> r.Ok? && old(items) == items + [r.value]
    {
      if items == [] {
        return Err(StackUnderflow);
      }
      r := Ok(items[|items| - 1]);
      items := items[..|items| - 1];
    }

    method Dup() returns (r: Result<(), ScriptError>)
      modifies this
      ensures old(items) == [] ==> r == Err(StackUnderflow) && items == []
      ensures old(items) != [] ==> r == Ok(()) && items == old(items) + [old(items)[|old(items)| - 1]]
    {
      if items == [] {
        return Err(StackUnderflow);
      }
      Push(items[|items| - 1]);
      r := Ok(());
    }

    method TopIsTrue() returns (r: Result<bool, ScriptError>)
      ensures r == if items == [] then Err(StackUnderflow) else Ok(IsTrue(items[|items| - 1]))
    {
      if items == [] {
        return Err(StackUnderflow);
      }
      var truth := ScriptBool(items[|items| - 1]);
      r := Ok(truth);
    }
  }

  method ScriptBool(bytes: Bytes) returns (truth: bool)
    ensures truth <==> IsTrue(bytes)
  {
    for i := 0 to |bytes|
      invariant forall j :: 0 <= j < i ==> bytes[j] == 0
    {
      if bytes[i] != 0 {
        if i == |bytes| - 1 && bytes[i] == 0x80 {
          return false;
        }
        return true;
      }
    }
    return false;
  }

  method ReadPush(script: Bytes, pc: nat, length: nat) returns (r: Result<Bytes, ScriptError>, next: nat)
    requires pc <= |script|
    ensures r == if |script[pc..]| < length then Err(UnexpectedEnd) else Ok(script[pc..][..length])
    ensures r.Ok? ==> next == pc + length <= |script|
  {
    if pc + length > |script| {
      return Err(UnexpectedEnd), pc;
    }
    assert script[pc..][..length] == script[pc..pc + length];
    return Ok(script[pc..pc + length]), pc + length;
  }

  /** Reads the little-endian push length of the given width. */
  method ReadLength(script: Bytes, pc: nat, width: nat) returns (r: Result<nat, ScriptError>, next: nat)
    requires pc <= |script|
    ensures r == if |script[pc..]| < width then Err(UnexpectedEnd) else Ok(FromLe(script[pc..][..width]))
    ensures r.Ok? ==> next == pc + width <= |script|
  {
    if pc + width > |script| {
      return Err(UnexpectedEnd), pc;
    }
    assert script[pc..][..width] == script[pc..pc + width];
    return Ok(FromLe(script[pc..pc + width])), pc + width;
  }

  method SizedPush(script: Bytes, pc: nat, width: nat, stack: Stack) returns (r: Result<(), ScriptError>, next: nat)
    requires pc <= |script|
    modifies stack
    ensures next <= |script|
    ensures match TakeSizedPush(script[pc..], width, old(stack.items))
      case Ok((rest, items)) => r == Ok(()) && rest == script[next..] && stack.items == items
      case Err(e) => r == Err(e)
  {
    var length, start := ReadLength(script, pc, width);
    if length.Err? {
      return Err(length.error), pc;
    }
    assert script[pc..][width..] == script[start..];
    var data, end := ReadPush(script, start, length.value);
    if data.Err? {
      return Err(data.error), pc;
    }
    assert script[start..][length.value..] == script[end..];
    stack.Push(data.value);
    return Ok(()), end;
  }

  method ExecuteOperation(opcode: byte, stack: Stack, sighash: Hash) returns (r: Result<(), ScriptError>)
    modifies stack
    ensures match Operate(opcode, old(stack.items), sighash)
      case Ok(items) => r == Ok(()) && stack.items == items
      case Err(e) => r == Err(e)
  {
    if opcode == OP_DUP {
      r := stack.Dup();
    } else if opcode == OP_HASH160 {
      var item :- stack.Pop();
      stack.Push(Crypto.Hash160(item));
      r := Ok(());
    } else if opcode == OP_EQUAL {
      var right :- stack.Pop();
      var left :- stack.Pop();
      stack.Push(if left == right then [1] else []);
      r := Ok(());
    } else if opcode == OP_EQUALVERIFY {
      var right :- stack.Pop();
      var left :- stack.Pop();
      r := if left != right then Err(EqualVerifyFailed) else Ok(());
    } else if opcode == OP_CHECKSIG {
      var pubkey :- stack.Pop();
      var signature :- stack.Pop();
      if !Crypto.VerifyDerSignature(signature, pubkey, sighash) {
        return Err(CheckSigFailed);
      }
      stack.Push([1]);
      r := Ok(());
    } else if opcode == 0 {
      stack.Push([]);
      r := Ok(());
    } else if opcode == OP_ONE {
      stack.Push([1]);
      r := Ok(());
    } else {
      r := Err(UnknownOpcode(opcode));
    }
  }

  method ExecuteScript(script: Bytes, stack: Stack, sighash: Hash) returns (r: Result<(), ScriptError>)
    modifies stack
    ensures match Run(script, old(stack.items), sighash)
      case Ok(items) => r == Ok(()) && stack.items == items
      case Err(e) => r == Err(e)
  {
    ghost var meaning := Run(script, stack.items, sighash);
    var pc := 0;
    assert script[0..] == script;
    while pc < |script|
      invariant pc <= |script|
      invariant meaning == Run(script[pc..], stack.items, sighash)
    {
      var opcode := script[pc];
      ghost var unread := script[pc..];
      ghost var before := stack.items;
      assert unread[1..] == script[pc + 1..];
      pc := pc + 1;
      var outcome;
      if 1 <= opcode <= 75 {
        var data, end := ReadPush(script, pc, opcode);
        if data.Err? {
          return Err(data.error);
        }
        assert script[pc..][opcode..] == script[end..];
        stack.Push(data.value);
        pc, outcome := end, Ok(());
      } else if opcode == OP_PUSHDATA1 {
        outcome, pc := SizedPush(script, pc, 1, stack);
      } else if opcode == OP_PUSHDATA2 {
        outcome, pc := SizedPush(script, pc, 2, stack);
      } else if opcode == OP_PUSHDATA4 {
        outcome, pc := SizedPush(script, pc, 4, stack);
      } else {
        outcome := ExecuteOperation(opcode, stack, sighash);
      }
      if outcome.Err? {
        return Err(outcome.error);
      }
      assert Step(unread, before, sighash) == Ok((script[pc..], stack.items));
    }
    r := Ok(());
  }

  method VerifyScript(scriptSig: Bytes, scriptPubkey: Bytes, sighash: Hash) returns (r: Result<(), ScriptError>)
    ensures r == Verify(scriptSig, scriptPubkey, sighash)
  {
    var stack := new Stack();
    var _ :- ExecuteScript(scriptSig, stack, sighash);
    var _ :- ExecuteScript(scriptPubkey, stack, sighash);
    var truth :- stack.TopIsTrue();
    r := if truth then Ok(()) else Err(EvalFalse);
  }
}
