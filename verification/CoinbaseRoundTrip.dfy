/** What the pool builds, the API server reads back. */
module CoinbaseRoundTrip {
  import opened Bytes
  import opened Wrappers
  import opened Coinbase
  import opened CoinbaseParse
  import Address
  import Base58

  /** The start of the input up to the script, of any coinbase. */
  lemma HeaderRead(data: seq<byte>, scriptSig: seq<byte>, declared: byte, rest: seq<byte>)
    requires declared < 0xfd && data == Header() + [declared] + scriptSig + rest
    ensures ReadVarint(data, 4) == Some((1, 5)) && ReadVarint(data, 41) == Some((declared as nat, 42))
    ensures data[42..] == scriptSig + rest && |data| == 42 + |scriptSig| + |rest|
  {
    assert Header()[4] == 1;
    assert data[4] == Header()[4] && data[41] == declared;
    assert data == (Header() + [declared]) + (scriptSig + rest);
  }

  /** A whole input gives exactly its script. */
  lemma ScriptRead(data: seq<byte>, scriptSig: seq<byte>, rest: seq<byte>)
    requires |scriptSig| < 0xfd && data == Header() + [|scriptSig|] + scriptSig + SEQUENCE + rest
    ensures CoinbaseScriptSig(data) == (scriptSig, 46 + |scriptSig|, true)
    ensures data[46 + |scriptSig|..] == rest
  {
    hide ReadVarint, Header;
    assert data == Header() + [|scriptSig|] + scriptSig + (SEQUENCE + rest);
    HeaderRead(data, scriptSig, |scriptSig|, SEQUENCE + rest);
    assert data[42..42 + |scriptSig|] == data[42..][..|scriptSig|] == scriptSig;
    assert data[46 + |scriptSig|..] == data[42..][|scriptSig| + 4..];
  }

  /** An input cut off inside its script gives what there is of it. */
  lemma CutScriptRead(data: seq<byte>, declared: byte, start: seq<byte>)
    requires |start| < declared < 0xfd && data == Header() + [declared] + start
    ensures CoinbaseScriptSig(data).0 == start
  {
    hide ReadVarint, Header;
    assert data == Header() + [declared] + start + [];
    HeaderRead(data, start, declared, []);
    assert data[42..] == start;
  }

  /** A script that starts with a positive number pushed by `ser_number` tells it as the height. */
  lemma HeightRead(data: seq<byte>, height: int, more: seq<byte>)
    requires Int32(height) && CoinbaseScriptSig(data).0 == SerNumberOf(height) + more
    ensures ExtractBlockHeight(data) == (if height > 0 then Some(height) else if height % 256 != 0 then Some(height % 256) else None)
  {
    hide CoinbaseScriptSig;
    SerValue(height);
    var script := CoinbaseScriptSig(data).0;
    var n: int := script[0];
    assert script[1..1 + n] == SerNumberOf(height)[1..];
    assert n == SerLen(height);
  }

  // ----- outputs -----

  function Raw(outs: seq<Output>): (r: seq<RawOutput>)
    ensures |r| == |outs|
  {
    seq(|outs|, i requires 0 <= i < |outs| => RawOutput(outs[i].value, outs[i].script))
  }

  predicate SmallValues(outs: seq<Output>) {
    forall i :: 0 <= i < |outs| ==> outs[i].value < 0x8000_0000_0000_0000
  }

  /** `s` stands at offset `p` of the data. */
  ghost predicate StandsAt(data: seq<byte>, p: nat, s: seq<byte>) {
    p + |s| <= |data| && data[p..p + |s|] == s
  }

  lemma StandsSplit(data: seq<byte>, p: nat, a: seq<byte>, b: seq<byte>)
    requires StandsAt(data, p, a + b)
    ensures StandsAt(data, p, a) && StandsAt(data, p + |a|, b)
  {
    assert data[p..p + |a|] == data[p..p + |a + b|][..|a|];
    assert data[p + |a|..p + |a| + |b|] == data[p..p + |a + b|][|a|..];
  }

  lemma OutputRead(data: seq<byte>, p: nat, o: Output, n: nat)
    requires |o.script| < 0xfd && o.value < 0x8000_0000_0000_0000 && n > 0
    requires |data| < 0x1_0000_0000 && StandsAt(data, p, SerOutput(o))
    ensures Walk(data, p, n) == [RawOutput(o.value, o.script)] + Walk(data, p + |SerOutput(o)|, n - 1)
  {
    hide ToLittleEndian, LittleEndian, ReadVarint;
    var v, s := ToLittleEndian(o.value, 8), o.script;
    StandsSplit(data, p, v + [|s|], s);
    StandsSplit(data, p, v, [|s|]);
    Widths(o.value);
    assert data[p + 8] == data[p + 8..p + 9][0];
    OneByteVarint(data, p + 8);
  }

  lemma OneByteVarint(data: seq<byte>, ofs: nat)
    requires ofs < |data| && data[ofs] < 0xfd
    ensures ReadVarint(data, ofs) == Some((data[ofs] as nat, ofs + 1))
  {}

  /** The walk reads back the outputs that were serialized. */
  lemma {:induction false} OutputsRead(data: seq<byte>, p: nat, outs: seq<Output>)
    requires ShortScripts(outs) && SmallValues(outs) && |data| < 0x1_0000_0000 && StandsAt(data, p, SerOutputs(outs))
    ensures Walk(data, p, |outs|) == Raw(outs)
    decreases |outs|
  {
    hide Walk, SerOutput, SerOutputs, Raw, StandsAt;
    if outs == [] {
      NoneRead(data, p);
    } else {
      SerStep(outs);
      StandsSplit(data, p, SerOutput(outs[0]), SerOutputs(outs[1..]));
      OutputRead(data, p, outs[0], |outs|);
      OutputsRead(data, p + |SerOutput(outs[0])|, outs[1..]);
      RawStep(outs);
    }
  }

  lemma NoneRead(data: seq<byte>, p: nat)
    ensures Walk(data, p, 0) == Raw([]) == []
  {}

  lemma SerStep(outs: seq<Output>)
    requires ShortScripts(outs) && outs != []
    ensures SerOutputs(outs) == SerOutput(outs[0]) + SerOutputs(outs[1..])
  {}

  lemma RawStep(outs: seq<Output>)
    requires outs != []
    ensures Raw(outs) == [RawOutput(outs[0].value, outs[0].script)] + Raw(outs[1..])
  {}

  lemma {:induction false} OutputsTakeRoom(outs: seq<Output>)
    requires ShortScripts(outs)
    ensures |SerOutputs(outs)| >= |outs|
    decreases |outs|
  {
    if outs != [] {
      OutputsTakeRoom(outs[1..]);
    }
  }

  lemma SerializedPieces(scriptSig: seq<byte>, outs: seq<Output>)
    requires |scriptSig| < 0xfd && |outs| < 0xfd && ShortScripts(outs)
    ensures Serialized(scriptSig, outs) == Header() + [|scriptSig|] + scriptSig + SEQUENCE + ([|outs|] + SerOutputs(outs) + LOCK)
  {
    hide Header, SerOutputs;
    Tail(Header() + [|scriptSig|] + scriptSig + SEQUENCE, [|outs|], SerOutputs(outs), LOCK);
  }

  lemma Tail(a: seq<byte>, b: seq<byte>, c: seq<byte>, d: seq<byte>)
    ensures a + b + c + d == a + (b + c + d)
  {}

  /** Reading a serialized coinbase gives its script and its outputs. */
  lemma SerializedRead(scriptSig: seq<byte>, outs: seq<Output>)
    requires |scriptSig| < 0xfd && 0 < |outs| < 0xfd && ShortScripts(outs) && SmallValues(outs)
    requires |SerOutputs(outs)| < 0x8000_0000
    ensures CoinbaseScriptSig(Serialized(scriptSig, outs)).0 == scriptSig
    ensures RawOutputs(Serialized(scriptSig, outs)) == Raw(outs)
  {
    hide SerOutputs, Walk, CoinbaseScriptSig, Header, Serialized;
    var data := Serialized(scriptSig, outs);
    SerializedPieces(scriptSig, outs);
    ScriptRead(data, scriptSig, [|outs|] + SerOutputs(outs) + LOCK);
    var ofs := 46 + |scriptSig|;
    assert data[ofs] == data[ofs..][0] == |outs|;
    assert ReadVarint(data, ofs) == Some((|outs|, ofs + 1));
    assert data[ofs + 1..ofs + 1 + |SerOutputs(outs)|] == data[ofs..][1..1 + |SerOutputs(outs)|] == SerOutputs(outs);
    OutputsRead(data, ofs + 1, outs);
    OutputsTakeRoom(outs);
  }

  // ----- the pool's coinbase -----

  /** The transaction a miner assembles from the template of `src`, its extranonces and its script. */
  function Assembled(src: Source, flagbytes: seq<byte>, nonces: seq<byte>, script: seq<byte>): seq<byte>
    requires Fits(src) && |flagbytes| == |src.flags| / 2 && |nonces| == src.nonce1length + src.nonce2length && |script| <= 48
  {
    Coinb1(src, flagbytes) + nonces + WithScript(src, script)
  }

  /** A payout script as the pool makes them from addresses. */
  ghost predicate PayoutScript(script: seq<byte>) {
    exists h: seq<byte> :: |h| == 20 && (script == Address.P2pkhScript(h) || script == Address.P2shScript(h))
  }

  /** The height the pool put in is the height read from the whole transaction, and from its first part
      alone, exactly when it is positive. */
  lemma HeightReadBack(src: Source, flagbytes: seq<byte>, nonces: seq<byte>, script: seq<byte>)
    requires Fits(src) && |flagbytes| == |src.flags| / 2 && |nonces| == src.nonce1length + src.nonce2length && |script| <= 48
    ensures ExtractBlockHeight(Assembled(src, flagbytes, nonces, script)) == Some(src.height) <==> src.height > 0
    ensures ExtractBlockHeight(Coinb1(src, flagbytes)) == Some(src.height) <==> src.height > 0
  {
    hide SerNumberOf, CoinbaseScriptSig, ExtractBlockHeight, Header, WithScript, SerOutputs;
    var sig, start := ScriptSig(src, flagbytes, nonces), ScriptStart(src, flagbytes);
    StartsWithHeight(src, flagbytes, nonces);
    AssembledIsSerialized(src, flagbytes, nonces, script);
    SerializedPieces(sig, Outputs(src, script));
    var data := Assembled(src, flagbytes, nonces, script);
    ScriptRead(data, sig, [|Outputs(src, script)|] + SerOutputs(Outputs(src, script)) + LOCK);
    HeightRead(data, src.height, sig[|SerNumberOf(src.height)|..]);
    CutScriptRead(Coinb1(src, flagbytes), |start| + src.nonce1length + src.nonce2length + |SigPush(src)|, start);
    HeightRead(Coinb1(src, flagbytes), src.height, start[|SerNumberOf(src.height)|..]);
  }

  lemma StartsWithHeight(src: Source, flagbytes: seq<byte>, nonces: seq<byte>)
    requires Fits(src) && |flagbytes| == |src.flags| / 2 && |nonces| == src.nonce1length + src.nonce2length
    ensures var h, sig, start := SerNumberOf(src.height), ScriptSig(src, flagbytes, nonces), ScriptStart(src, flagbytes);
      |h| <= |start| && |h| <= |sig| && sig == h + sig[|h|..] && start == h + start[|h|..]
  {
    hide SerNumberOf, SigPush;
    var h, start := SerNumberOf(src.height), ScriptStart(src, flagbytes);
    assert start[..|h|] == h;
    assert ScriptSig(src, flagbytes, nonces)[..|start|] == start;
  }

  /** The outputs read back are the template's, and their values add up to exactly the block's value. */
  lemma OutputsReadBack(src: Source, flagbytes: seq<byte>, nonces: seq<byte>, script: seq<byte>)
    requires Fits(src) && |flagbytes| == |src.flags| / 2 && |nonces| == src.nonce1length + src.nonce2length && |script| <= 48
    requires src.coinbasevalue < 0x8000_0000_0000_0000
    ensures var raw := RawOutputs(Assembled(src, flagbytes, nonces, script));
      raw == Raw(Outputs(src, script)) && Total(raw) == src.coinbasevalue
  {
    hide Coinb1, WithScript, RawOutputs, Fee, ScriptSig;
    var outs := Outputs(src, script);
    AssembledIsSerialized(src, flagbytes, nonces, script);
    FewBytes(outs);
    SerializedRead(ScriptSig(src, flagbytes, nonces), outs);
    TotalOf(src, script);
  }

  lemma {:induction false} FewBytes(outs: seq<Output>)
    requires ShortScripts(outs)
    ensures |SerOutputs(outs)| <= 261 * |outs|
    decreases |outs|
  {
    if outs != [] {
      FewBytes(outs[1..]);
    }
  }

  lemma TotalOf(src: Source, script: seq<byte>)
    requires Fits(src) && src.coinbasevalue < 0x8000_0000_0000_0000
    ensures Total(Raw(Outputs(src, script))) == src.coinbasevalue
  {
    hide Fee, Int64;
    var raw := Raw(Outputs(src, script));
    assert raw[..1][..0] == [];
    assert Total(raw[..1]) == raw[0].value;
    if |raw| == 1 {
      assert raw[..1] == raw;
    }
  }

  /** With the fee at most half, whatever describes the outputs of the built transaction as
      `parseCoinbaseOutputs` does labels as the miner's the first one, which pays the script the work
      was made for; a pool fee keeps its own label. */
  lemma MinerIsFirst(dsha: Hasher, src: Source, flagbytes: seq<byte>, nonces: seq<byte>, script: seq<byte>, outputs: seq<CoinbaseOutput>)
    requires Fits(src) && |flagbytes| == |src.flags| / 2 && |nonces| == src.nonce1length + src.nonce2length && |script| <= 48
    requires src.coinbasevalue < 0x8_0000_0000_0000 && PayoutScript(script)
    requires |outputs| == |RawOutputs(Assembled(src, flagbytes, nonces, script))| && MinerLabelled(outputs)
    requires forall i :: 0 <= i < |outputs| ==> Describes(dsha, outputs[i], RawOutputs(Assembled(src, flagbytes, nonces, script))[i])
    ensures |outputs| == |Outputs(src, script)|
    ensures outputs[0].kind == Miner && outputs[0].value == src.coinbasevalue - Fee(src)
    ensures |outputs| == 2 ==> outputs[1].kind != Miner && outputs[1].value == Fee(src)
    ensures forall h: seq<byte> :: |h| == 20 && script == Address.P2pkhScript(h) ==> Base58.IsLegacyOf(dsha, outputs[0].address, 0, h)
  {
    hide Fee, Base58.IsLegacyOf, RawOutputs, Assembled;
    OutputsReadBack(src, flagbytes, nonces, script);
    var raw := Raw(Outputs(src, script));
    assert Describes(dsha, outputs[0], raw[0]);
    assert !IsOpReturn(script);
    if |outputs| == 2 {
      assert Describes(dsha, outputs[1], raw[1]);
      OutputsSumExactly(src, script);
    }
    assert IsLargest(outputs, 0);
    forall h: seq<byte> | |h| == 20 && script == Address.P2pkhScript(h)
      ensures Base58.IsLegacyOf(dsha, outputs[0].address, 0, h)
    {
      assert script[3..23] == h;
    }
  }
}
