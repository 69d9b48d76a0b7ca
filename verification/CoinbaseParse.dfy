/** The API server's reading of a coinbase transaction: `readVarint`, `coinbaseScriptSig`,
    `extractBlockHeight` and `parseCoinbaseOutputs`. */
module CoinbaseParse {
  import opened Sequences
  import opened Bytes
  import opened Wrappers
  import Base58

  /** A conversion to Go's 64-bit `int`, which wraps. */
  function Int64(x: int): (v: int)
    ensures -0x8000_0000_0000_0000 <= v < 0x8000_0000_0000_0000
    ensures -0x8000_0000_0000_0000 <= x < 0x8000_0000_0000_0000 ==> v == x
  {
    (x + 0x8000_0000_0000_0000) % 0x1_0000_0000_0000_0000 - 0x8000_0000_0000_0000
  }

  /** A compact-size integer and the offset after it, or nothing when the data is too short. */
  function ReadVarint(data: seq<byte>, offset: nat): (r: Option<(nat, nat)>)
    ensures r.Some? ==> offset < r.value.1 <= |data|
  {
    if offset >= |data| then None
    else
      var prefix: int := data[offset];
      var n := if prefix < 0xfd then 0 else if prefix == 0xfd then 2 else if prefix == 0xfe then 4 else 8;
      var start := offset + 1;
      if n == 0 then Some((prefix, start))
      else if start + n > |data| then None
      else Some((LittleEndian(data[start..start + n]), start + n))
  }

  /** How the protocol writes a number as a compact-size integer. */
  function Varint(v: nat): (s: seq<byte>)
    requires v < 0x1_0000_0000_0000_0000
    ensures |s| > 0
  {
    if v < 0xfd then [v]
    else if v < 0x1_0000 then [0xfd] + ToLittleEndian(v, 2)
    else if v < 0x1_0000_0000 then [0xfe] + ToLittleEndian(v, 4)
    else [0xff] + ToLittleEndian(v, 8)
  }

  lemma Widths(v: nat)
    ensures v < 0x1_0000 ==> LittleEndian(ToLittleEndian(v, 2)) == v
    ensures v < 0x1_0000_0000 ==> LittleEndian(ToLittleEndian(v, 4)) == v
    ensures v < 0x1_0000_0000_0000_0000 ==> LittleEndian(ToLittleEndian(v, 8)) == v
  {
    hide ToLittleEndian, LittleEndian;
    PowersOf256();
    hide Pow;
    if v < 0x1_0000 {
      LittleEndianRoundTrip(v, 2);
    }
    if v < 0x1_0000_0000 {
      LittleEndianRoundTrip(v, 4);
    }
    if v < 0x1_0000_0000_0000_0000 {
      LittleEndianRoundTrip(v, 8);
    }
  }

  /** A number is read back from the data that has it, wherever it stands, and not from less of it. */
  lemma VarintReadBack(data: seq<byte>, offset: nat, v: nat, k: nat)
    requires v < 0x1_0000_0000_0000_0000 && k <= |Varint(v)|
    requires offset + k <= |data| && data[offset..offset + k] == Varint(v)[..k]
    ensures k == |Varint(v)| ==> ReadVarint(data, offset) == Some((v, offset + k))
    ensures k < |Varint(v)| && offset + k == |data| ==> ReadVarint(data, offset) == None
  {
    hide ToLittleEndian, LittleEndian;
    Widths(v);
    if k > 0 {
      assert data[offset] == data[offset..offset + k][0] == Varint(v)[0];
    }
    if k == |Varint(v)| {
      assert data[offset + 1..offset + k] == data[offset..offset + k][1..] == Varint(v)[1..];
    }
  }

  /** The input's script as far as there is data, the offset after the input, and whether the input is
      complete. */
  function CoinbaseScriptSig(data: seq<byte>): (r: (seq<byte>, nat, bool))
    ensures r.2 ==> r.1 <= |data|
  {
    if |data| < 4 then ([], 0, false)
    else
      var count := ReadVarint(data, 4);
      if count.None? || count.value.0 == 0 then ([], 0, false)
      else if count.value.1 + 36 > |data| then ([], 0, false)
      else
        var script := ReadVarint(data, count.value.1 + 36);
        if script.None? then ([], 0, false)
        else
          var offset := script.value.1;
          var end := Int64(offset + Int64(script.value.0));
          if script.value.0 > |data| || end < offset || end > |data| then (data[offset..], 0, false)
          else if end + 4 > |data| then (data[offset..end], 0, false)
          else (data[offset..end], end + 4, true)
  }

  /** `extractBlockHeight`. */
  function ExtractBlockHeight(data: seq<byte>): (height: Option<int>) {
    var script := CoinbaseScriptSig(data).0;
    if script == [] then None
    else
      var n: int := script[0];
      if n < 1 || n > 4 || |script| < 1 + n then None
      else
        var height := LittleEndian(script[1..1 + n]);
        if height <= 0 then None else Some(height)
  }

  lemma {:induction false} LittleEndianAppend(s: seq<byte>, b: byte)
    ensures LittleEndian(s + [b]) == LittleEndian(s) + b as int * Pow(256, |s|)
  {
    if s == [] {
      assert [b][1..] == [];
    } else {
      LittleEndianAppend(s[1..], b);
      assert (s + [b])[1..] == s[1..] + [b];
      MulAssociative(b, 256, Pow(256, |s| - 1));
      MulAssociative(256, b, Pow(256, |s| - 1));
    }
  }

  /** The loop of `extractBlockHeight`: the bytes are shifted into disjoint bits, so that or-ing them
      adds them. */
  method BlockHeight(data: seq<byte>) returns (result: Option<int>)
    ensures result == ExtractBlockHeight(data)
  {
    var (script, _, _) := CoinbaseScriptSig(data);
    if |script| == 0 {
      return None;
    }
    var n: int := script[0];
    if n < 1 || n > 4 || |script| < 1 + n {
      return None;
    }
    var height, shift := 0, 1;
    for i := 0 to n
      invariant height == LittleEndian(script[1..1 + i]) && shift == Pow(256, i)
    {
      LittleEndianAppend(script[1..1 + i], script[1 + i]);
      assert script[1..1 + i] + [script[1 + i]] == script[1..2 + i];
      var b: int := script[1 + i];
      height := height + b * shift;
      shift := 256 * shift;
    }
    if height <= 0 {
      return None;
    }
    result := Some(height);
  }

  // ----- outputs -----

  /** An output as it stands in the transaction. */
  datatype RawOutput = RawOutput(value: int, script: seq<byte>)

  /** The outputs from `offset` on, at most `n`; a script cut short is kept as far as it goes. */
  function Walk(data: seq<byte>, offset: nat, n: nat): (outs: seq<RawOutput>)
    ensures |outs| <= n
    decreases n
  {
    if n == 0 || offset + 8 > |data| then []
    else
      var value := Int64(LittleEndian(data[offset..offset + 8]));
      var length := ReadVarint(data, offset + 8);
      if length.None? then []
      else
        var start := length.value.1;
        var end := Int64(start + Int64(length.value.0));
        var stop := if end < start || end > |data| then |data| else end;
        [RawOutput(value, data[start..stop])] + Walk(data, stop, n - 1)
  }

  /** The outputs of a whole transaction. */
  function RawOutputs(data: seq<byte>): seq<RawOutput> {
    var (_, offset, ok) := CoinbaseScriptSig(data);
    if !ok then []
    else
      var count := ReadVarint(data, offset);
      if count.None? || count.value.0 == 0 || count.value.0 > |data| then []
      else Walk(data, count.value.1, count.value.0)
  }

  function Total(outs: seq<RawOutput>): (t: int) {
    if outs == [] then 0 else Int64(Total(outs[..|outs| - 1]) + outs[|outs| - 1].value)
  }

  datatype Kind = Miner | PoolFee | OpReturn

  datatype CoinbaseOutput = CoinbaseOutput(value: int, address: string, kind: Kind)

  predicate IsOpReturn(script: seq<byte>) {
    |script| > 0 && script[0] == 0x6a
  }

  predicate IsP2pkh(script: seq<byte>) {
    && |script| == 25 && script[0] == 0x76 && script[1] == 0xa9 && script[2] == 0x14
    && script[23] == 0x88 && script[24] == 0xac
  }

  /** An output is described by its value, the address of its key hash when it pays one, and as an
      OP_RETURN or not. */
  ghost predicate Describes(dsha: Hasher, o: CoinbaseOutput, raw: RawOutput) {
    && o.value == raw.value
    && (IsOpReturn(raw.script) <==> o.kind == OpReturn)
    && (if IsP2pkh(raw.script) then Base58.IsLegacyOf(dsha, o.address, 0, raw.script[3..23]) else o.address == "")
  }

  /** The miner's output is the first of the largest that are not OP_RETURN, and the only one so
      labelled. */
  ghost predicate MinerLabelled(outs: seq<CoinbaseOutput>) {
    forall i :: 0 <= i < |outs| ==> (outs[i].kind == Miner <==> IsLargest(outs, i))
  }

  ghost predicate IsLargest(outs: seq<CoinbaseOutput>, i: nat)
    requires i < |outs|
  {
    && outs[i].kind != OpReturn
    && (forall j :: 0 <= j < |outs| && outs[j].kind != OpReturn ==> outs[j].value <= outs[i].value)
    && (forall j :: 0 <= j < i && outs[j].kind != OpReturn ==> outs[j].value < outs[i].value)
  }

  /** `parseCoinbaseOutputs`. */
  method ParseCoinbaseOutputs(dsha: Hasher, data: seq<byte>) returns (outputs: seq<CoinbaseOutput>, total: int)
    ensures |outputs| == |RawOutputs(data)| && total == Total(RawOutputs(data))
    ensures forall i :: 0 <= i < |outputs| ==> Describes(dsha, outputs[i], RawOutputs(data)[i])
    ensures MinerLabelled(outputs)
  {
    hide ReadVarint, CoinbaseScriptSig, Int64, LittleEndian;
    outputs, total := [], 0;
    var (_, offset, ok) := CoinbaseScriptSig(data);
    if !ok {
      return;
    }
    var count := ReadVarint(data, offset);
    if count.None? || count.value.0 == 0 || count.value.0 > |data| {
      return;
    }
    outputs, total := WalkOutputs(dsha, data, count.value.1, count.value.0);
    outputs := LabelMiner(dsha, outputs, RawOutputs(data));
  }

  /** The loop over the outputs. */
  method WalkOutputs(dsha: Hasher, data: seq<byte>, from: nat, count: nat) returns (outputs: seq<CoinbaseOutput>, total: int)
    ensures |outputs| == |Walk(data, from, count)| && total == Total(Walk(data, from, count))
    ensures forall i :: 0 <= i < |outputs| ==> outputs[i].kind != Miner && Describes(dsha, outputs[i], Walk(data, from, count)[i])
  {
    hide ReadVarint, LittleEndian, Describes, Total, Walk, Int64;
    outputs, total := [], 0;
    NoTotal();
    var offset: nat, i: nat := from, 0;
    ghost var raw, all := [], Walk(data, from, count);
    while i < count
      invariant i <= count && |outputs| == |raw| && raw + Walk(data, offset, count - i) == all
      invariant forall k :: 0 <= k < |outputs| ==> outputs[k].kind != Miner && Describes(dsha, outputs[k], raw[k])
      invariant total == Total(raw)
    {
      ghost var here := offset;
      WalkStep(data, here, count - i);
      if offset + 8 > |data| {
        break;
      }
      var value := Int64(LittleEndian(data[offset..offset + 8]));
      var length := ReadVarint(data, offset + 8);
      if length.None? {
        break;
      }
      offset := length.value.1;
      var end := Int64(offset + Int64(length.value.0));
      if end < offset || end > |data| {
        end := |data|;
      }
      var script := data[offset..end];
      offset := end;
      var out := Describe(dsha, value, script);
      outputs := outputs + [out];
      OneMore(raw, RawOutput(value, script));
      ConcatAssociative(raw, [RawOutput(value, script)], Walk(data, offset, count - i - 1));
      raw := raw + [RawOutput(value, script)];
      total := Int64(total + value);
      i := i + 1;
    }
    WalkStep(data, offset, count - i);
    assert raw == all;
  }

  /** One step of the walk. */
  lemma WalkStep(data: seq<byte>, offset: nat, n: nat)
    ensures n == 0 || offset + 8 > |data| || ReadVarint(data, offset + 8).None? ==> Walk(data, offset, n) == []
    ensures n > 0 && offset + 8 <= |data| && ReadVarint(data, offset + 8).Some? ==>
      WalkOne(data, offset, n, ReadVarint(data, offset + 8).value)
  {}

  ghost predicate WalkOne(data: seq<byte>, offset: nat, n: nat, length: (nat, nat))
    requires n > 0 && offset + 8 <= |data| && length.1 <= |data|
  {
    var end := Int64(length.1 + Int64(length.0));
    var stop := if end < length.1 || end > |data| then |data| else end;
    Walk(data, offset, n) ==
      [RawOutput(Int64(LittleEndian(data[offset..offset + 8])), data[length.1..stop])] + Walk(data, stop, n - 1)
  }

  lemma NoTotal()
    ensures Total([]) == 0
  {}

  lemma OneMore(outs: seq<RawOutput>, o: RawOutput)
    ensures Total(outs + [o]) == Int64(Total(outs) + o.value)
  {
    assert (outs + [o])[..|outs|] == outs;
  }

  method Describe(dsha: Hasher, value: int, script: seq<byte>) returns (out: CoinbaseOutput)
    ensures Describes(dsha, out, RawOutput(value, script)) && out.kind != Miner
  {
    out := CoinbaseOutput(value, "", PoolFee);
    if |script| > 0 && script[0] == 0x6a {
      out := out.(kind := OpReturn);
    } else if |script| == 25 && script[0] == 0x76 && script[1] == 0xa9 && script[2] == 0x14 && script[23] == 0x88 && script[24] == 0xac {
      var address := Base58.EncodeLegacyAddress(dsha, script[3..23]);
      out := out.(address := address);
    }
  }

  /** The search for the largest payout. */
  method LabelMiner(dsha: Hasher, outs: seq<CoinbaseOutput>, ghost raw: seq<RawOutput>) returns (outputs: seq<CoinbaseOutput>)
    requires |outs| == |raw| && forall i :: 0 <= i < |outs| ==> outs[i].kind != Miner && Describes(dsha, outs[i], raw[i])
    ensures |outputs| == |raw| && forall i :: 0 <= i < |outputs| ==> Describes(dsha, outputs[i], raw[i])
    ensures MinerLabelled(outputs)
  {
    var best := -1;
    for i := 0 to |outs|
      invariant -1 <= best < i
      invariant best == -1 ==> forall j :: 0 <= j < i ==> outs[j].kind == OpReturn
      invariant best >= 0 ==> outs[best].kind != OpReturn
      invariant best >= 0 ==> forall j :: 0 <= j < i && outs[j].kind != OpReturn ==> outs[j].value <= outs[best].value
      invariant best >= 0 ==> forall j :: 0 <= j < best && outs[j].kind != OpReturn ==> outs[j].value < outs[best].value
    {
      if outs[i].kind != OpReturn && (best < 0 || outs[i].value > outs[best].value) {
        best := i;
      }
    }
    outputs := outs;
    if best >= 0 {
      outputs := outs[best := outs[best].(kind := Miner)];
    }
  }
}
