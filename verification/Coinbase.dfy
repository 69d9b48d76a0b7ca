/** The coinbase of stratifier.c: `ser_number`, `generate_coinbase` and the paths by which a
    template gets its payout script. */
module Coinbase {
  import opened Bytes
  import opened Wrappers
  import Hex

  const HEADER_SIZE := 41
  const DUST := 546

  /** `scriptsig_header`: version 1, one input, no previous output. */
  function Header(): (h: seq<byte>)
    ensures |h| == HEADER_SIZE
  {
    [1, 0, 0, 0, 1] + seq(32, _ => 0) + [255, 255, 255, 255]
  }

  const SEQUENCE: seq<byte> := [255, 255, 255, 255]
  const LOCK: seq<byte> := [0, 0, 0, 0]

  // ----- numbers in scripts -----

  predicate Int32(v: int) {
    -0x8000_0000 <= v < 0x8000_0000
  }

  /** How many bytes `ser_number` keeps. */
  function SerLen(val: int): (n: nat)
    ensures 1 <= n <= 4
  {
    if val < 0x80 then 1 else if val < 0x8000 then 2 else if val < 0x800000 then 3 else 4
  }

  /** The two's complement bits of an `int32_t`. */
  function Bits32(val: int): (u: nat)
    requires Int32(val)
    ensures u < 0x1_0000_0000
  {
    val % 0x1_0000_0000
  }

  /** A length byte and that many low-order bytes of the number. */
  function SerNumberOf(val: int): (s: seq<byte>)
    requires Int32(val)
    ensures 2 <= |s| <= 5
  {
    [SerLen(val)] + ToLittleEndian(Bits32(val), SerLen(val))
  }

  /** `ser_number`: all four bytes are stored before the length is known to be less. */
  method SerNumber(s: array<byte>, ofs: nat, val: int) returns (len: nat)
    requires Int32(val) && ofs + 5 <= s.Length
    modifies s
    ensures len == |SerNumberOf(val)| && s[ofs..ofs + len] == SerNumberOf(val)
    ensures s[..ofs] == old(s[..ofs]) && s[ofs + 5..] == old(s[ofs + 5..])
  {
    hide ToLittleEndian;
    var le := ToLittleEndian(Bits32(val), 4);
    forall i | 0 <= i < 4 {
      s[ofs + 1 + i] := le[i];
    }
    len := if val < 0x80 then 1 else if val < 0x8000 then 2 else if val < 0x800000 then 3 else 4;
    s[ofs] := len;
    LittlePrefix(Bits32(val), 4, len);
    assert s[ofs + 1..ofs + 5] == le;
    LengthAndBytes(s[ofs..ofs + 5], le, len);
    assert s[ofs..ofs + 5][..len + 1] == s[ofs..ofs + len + 1];
    len := len + 1;
  }

  lemma LengthAndBytes(s: seq<byte>, le: seq<byte>, n: nat)
    requires |s| == 5 && |le| == 4 && s[1..] == le && n <= 4 && s[0] == n
    ensures s[..n + 1] == [n] + le[..n]
  {}

  /** `get_sernumber`. */
  function GetSerNumber(s: seq<byte>): (v: int)
    requires |s| > 0 && |s| > s[0] as int
  {
    var n: int := s[0];
    if n < 1 || n > 4 then 0
    else
      var u := LittleEndian(s[1..1 + n]);
      if u >= 0x8000_0000 then u - 0x1_0000_0000 else u
  }

  lemma {:induction false} LittlePrefix(v: nat, m: nat, n: nat)
    requires n <= m
    ensures ToLittleEndian(v, m)[..n] == ToLittleEndian(v, n)
  {
    if n > 0 {
      LittlePrefix(v / 256, m - 1, n - 1);
    }
  }

  /** The bytes `ser_number` keeps say the number itself, except that of a negative one only the
      lowest byte is left. */
  lemma SerValue(val: int)
    requires Int32(val)
    ensures LittleEndian(SerNumberOf(val)[1..]) == if val >= 0 then val else val % 256
  {
    hide ToLittleEndian, LittleEndian, Bits32;
    var v, n := Bits32(val), SerLen(val);
    assert SerNumberOf(val)[1..] == ToLittleEndian(v, n);
    LowBits(val);
    if val >= 0 {
      PositiveValue(val, n);
    } else {
      LowestByte(v);
    }
  }

  lemma LowBits(val: int)
    requires Int32(val)
    ensures val >= 0 ==> Bits32(val) == val
    ensures Bits32(val) % 256 == val % 256
  {}

  lemma PositiveValue(val: nat, n: nat)
    requires n == SerLen(val) && Int32(val)
    ensures LittleEndian(ToLittleEndian(val, n)) == val
  {
    hide ToLittleEndian, LittleEndian;
    PowersOf256();
    hide Pow;
    LittleEndianRoundTrip(val, n);
  }

  lemma LowestByte(v: nat)
    ensures LittleEndian(ToLittleEndian(v, 1)) == v % 256
  {
    assert ToLittleEndian(v, 1) == [v % 256];
  }

  /** A number is read back exactly when it is not negative. */
  lemma SerRoundTrip(val: int)
    requires Int32(val)
    ensures GetSerNumber(SerNumberOf(val)) == val <==> val >= 0
  {
    SerValue(val);
    assert SerNumberOf(val)[1..1 + SerNumberOf(val)[0] as int] == SerNumberOf(val)[1..];
  }

  // ----- the transaction -----

  datatype Output = Output(value: nat, script: seq<byte>)

  function SerOutput(o: Output): (s: seq<byte>)
    requires |o.script| < 0xfd
  {
    ToLittleEndian(o.value, 8) + [|o.script|] + o.script
  }

  predicate ShortScripts(outs: seq<Output>) {
    forall i :: 0 <= i < |outs| ==> |outs[i].script| < 0xfd
  }

  function SerOutputs(outs: seq<Output>): seq<byte>
    requires ShortScripts(outs)
  {
    if outs == [] then [] else SerOutput(outs[0]) + SerOutputs(outs[1..])
  }

  /** The wire form of a coinbase transaction, as the protocol defines it for short scripts and few
      outputs. */
  function Serialized(scriptSig: seq<byte>, outs: seq<Output>): seq<byte>
    requires |scriptSig| < 0xfd && |outs| < 0xfd && ShortScripts(outs)
  {
    Header() + [|scriptSig|] + scriptSig + SEQUENCE + [|outs|] + SerOutputs(outs) + LOCK
  }

  // ----- what a template says -----

  /** What `generate_coinbase` works from. `dbl64` is the fee as the three `double` operations
      `(double)g64 / 100 * poolfee` yield it. */
  datatype Source = Source(height: int, flags: string, sec: int, nsec: int, nonce1length: nat, nonce2length: nat,
                           btcsig: seq<byte>, coinbasevalue: nat, poolvalid: bool, poolfee: real, dbl64: real, pooltxn: seq<byte>)

  /** `hex2bin` of the flags into zeroed memory, which goes as far as there are hex digits. */
  ghost predicate FlagBytes(flags: string, b: seq<byte>) {
    |b| == |flags| / 2 && (Hex.AllHex(flags) && |flags| % 2 == 0 ==> b == Hex.HexDecode(flags))
  }

  /** The sizes the fixed buffers are made for; the signature and the fee are clamped on start. */
  predicate Fits(src: Source) {
    && Int32(src.height) && Int32(src.sec) && Int32(src.nsec)
    && |src.flags| / 2 <= 69 && 1 <= src.nonce1length <= 8 && 1 <= src.nonce2length <= 8
    && |src.btcsig| <= 38 && src.coinbasevalue < 0x1_0000_0000_0000_0000
    && 0.0 <= src.poolfee <= 50.0 && Rounded(src) && |src.pooltxn| <= 48
  }

  /** Three roundings, each of at most a 2^-53th, leave less than a 2^-51th between the `double` product
      and the exact one. */
  predicate Rounded(src: Source) {
    var exact := Percent(src.coinbasevalue, src.poolfee);
    exact - exact / 2251799813685248.0 <= src.dbl64 <= exact + exact / 2251799813685248.0
  }

  function Percent(value: nat, poolfee: real): real {
    value as real / 100.0 * poolfee
  }

  /** The fee output in satoshis; 0 when there is none. The fee never exceeds the block value, nor half of
      it for any value below 2^51, which is more than all the coins there will be. */
  function Fee(src: Source): (d: nat)
    requires Fits(src)
    ensures d <= src.coinbasevalue && (src.coinbasevalue < 0x8_0000_0000_0000 ==> 2 * d <= src.coinbasevalue)
  {
    HalfAtMost(src);
    if src.poolvalid && src.poolfee > 0.0 then
      var d := src.dbl64.Floor;
      if d < DUST then 0 else d
    else 0
  }

  lemma HalfAtMost(src: Source)
    requires Fits(src)
    ensures var value := src.coinbasevalue as real; 0.0 <= src.dbl64 <= value / 2.0 + value / 4503599627370496.0
  {
    hide Percent;
    PercentAtMost(src.coinbasevalue, src.poolfee);
  }

  lemma PercentAtMost(value: nat, poolfee: real)
    requires 0.0 <= poolfee <= 50.0
    ensures 0.0 <= Percent(value, poolfee) <= value as real / 2.0
  {
    var share := value as real / 100.0;
    MulMonotone(share, 0.0, poolfee);
    MulMonotone(share, poolfee, 50.0);
  }

  lemma MulMonotone(a: real, b: real, c: real)
    requires 0.0 <= a && b <= c
    ensures a * b <= a * c
  {}

  /** The outputs: the payout script gets what the fee leaves. */
  function Outputs(src: Source, script: seq<byte>): (outs: seq<Output>)
    requires Fits(src)
    ensures 1 <= |outs| <= 2
  {
    [Output(src.coinbasevalue - Fee(src), script)] + if Fee(src) > 0 then [Output(Fee(src), src.pooltxn)] else []
  }

  /** The start of the scriptSig, up to the extranonces. */
  function ScriptStart(src: Source, flagbytes: seq<byte>): (s: seq<byte>)
    requires Fits(src) && |flagbytes| == |src.flags| / 2
    ensures 8 <= |s| <= 86
  {
    SerNumberOf(src.height) + [|flagbytes|] + flagbytes + SerNumberOf(src.sec) + SerNumberOf(src.nsec)
      + [src.nonce1length + src.nonce2length]
  }

  /** The signature push. */
  function SigPush(src: Source): (s: seq<byte>)
    requires Fits(src)
    ensures |s| <= 39
  {
    if src.btcsig == [] then [] else [|src.btcsig|] + src.btcsig
  }

  /** The scriptSig once the extranonces are filled in. */
  function ScriptSig(src: Source, flagbytes: seq<byte>, nonces: seq<byte>): (s: seq<byte>)
    requires Fits(src) && |flagbytes| == |src.flags| / 2 && |nonces| == src.nonce1length + src.nonce2length
    ensures |s| < 0xfd
  {
    ScriptStart(src, flagbytes) + nonces + SigPush(src)
  }

  /** The three parts of a template: with the extranonces after the first and a payout script after
      the second, they are the serialized transaction. */
  function Coinb1(src: Source, flagbytes: seq<byte>): (s: seq<byte>)
    requires Fits(src) && |flagbytes| == |src.flags| / 2
  {
    var start := ScriptStart(src, flagbytes);
    Header() + [|start| + src.nonce1length + src.nonce2length + |SigPush(src)|] + start
  }

  function Coinb2(src: Source): (s: seq<byte>)
    requires Fits(src)
    ensures |s| <= 52
  {
    SigPush(src) + SEQUENCE + [if Fee(src) > 0 then 2 else 1] + ToLittleEndian(src.coinbasevalue - Fee(src), 8)
  }

  function Coinb3(src: Source): (s: seq<byte>)
    requires Fits(src)
    ensures |s| <= 61
  {
    (if Fee(src) > 0 then ToLittleEndian(Fee(src), 8) + [|src.pooltxn|] + src.pooltxn else []) + LOCK
  }

  /** The second and third part with a payout script between them. */
  function WithScript(src: Source, script: seq<byte>): seq<byte>
    requires Fits(src) && |script| <= 48
  {
    Coinb2(src) + [|script|] + script + Coinb3(src)
  }

  /** What a miner assembles is the transaction with those outputs. */
  lemma AssembledIsSerialized(src: Source, flagbytes: seq<byte>, nonces: seq<byte>, script: seq<byte>)
    requires Fits(src) && |flagbytes| == |src.flags| / 2 && |nonces| == src.nonce1length + src.nonce2length && |script| <= 48
    ensures ShortScripts(Outputs(src, script))
    ensures Coinb1(src, flagbytes) + nonces + WithScript(src, script) ==
            Serialized(ScriptSig(src, flagbytes, nonces), Outputs(src, script))
  {
    hide ScriptStart, SigPush, Fee, Header, SerOutputs, Coinb3, ToLittleEndian;
    OutputsSerialized(src, script);
    var outs := Outputs(src, script);
    var start, sig := ScriptStart(src, flagbytes), SigPush(src);
    var len: seq<byte> := [|start| + src.nonce1length + src.nonce2length + |sig|];
    var v := ToLittleEndian(src.coinbasevalue - Fee(src), 8);
    Assemble(Header() + len, start, nonces, sig, SEQUENCE, [|outs|], v, [|script|], script, Coinb3(src), SerOutputs(outs), LOCK);
  }

  /** The pieces in the order they are sent, and as the wire form nests them. */
  lemma Assemble(h: seq<byte>, start: seq<byte>, nonces: seq<byte>, sig: seq<byte>, q: seq<byte>, n: seq<byte>, v: seq<byte>,
                 l: seq<byte>, script: seq<byte>, rest: seq<byte>, outs: seq<byte>, lock: seq<byte>)
    requires v + l + script + rest == outs + lock
    ensures h + start + nonces + (sig + q + n + v + l + script + rest) == h + (start + nonces + sig) + q + n + outs + lock
  {
    assert sig + q + n + v + l + script + rest == sig + q + n + (v + l + script + rest);
    assert h + start + nonces + (sig + q + n + (outs + lock)) == h + (start + nonces + sig) + q + n + outs + lock;
  }

  lemma OutputsSerialized(src: Source, script: seq<byte>)
    requires Fits(src) && |script| <= 48
    ensures ShortScripts(Outputs(src, script))
    ensures ToLittleEndian(src.coinbasevalue - Fee(src), 8) + [|script|] + script + Coinb3(src) ==
            SerOutputs(Outputs(src, script)) + LOCK
  {
    var outs := Outputs(src, script);
    if Fee(src) > 0 {
      assert outs[1..] == [Output(Fee(src), src.pooltxn)];
      assert outs[1..][1..] == [];
      assert SerOutputs(outs[1..]) == SerOutput(outs[1]);
    } else {
      assert outs[1..] == [];
    }
  }

  /** Nothing of the block's value is lost or made up. */
  lemma OutputsSumExactly(src: Source, script: seq<byte>)
    requires Fits(src)
    ensures var outs := Outputs(src, script);
      && (|outs| == 1 ==> outs[0].value == src.coinbasevalue)
      && (|outs| == 2 ==> outs[0].value + outs[1].value == src.coinbasevalue && DUST <= outs[1].value)
      && (|outs| == 2 && src.coinbasevalue < 0x8_0000_0000_0000 ==> outs[1].value <= outs[0].value)
  {}

  /** The fee is the configured part of the block value up to the rounding of three `double` operations and
      to whole satoshis. It has an output exactly when one is configured and it is not dust. */
  lemma FeeIsPercent(src: Source, script: seq<byte>)
    requires Fits(src)
    ensures
      var outs := Outputs(src, script);
      var exact := src.coinbasevalue as real * src.poolfee / 100.0;
      var least, most := exact - exact / 2251799813685248.0, exact + exact / 2251799813685248.0;
      && outs[0].script == script
      && (|outs| == 2 ==>
            src.poolvalid && src.poolfee > 0.0 && outs[1].script == src.pooltxn && least - 1.0 < outs[1].value as real <= most)
      && (src.poolvalid && src.poolfee > 0.0 && least >= 546.0 ==> |outs| == 2)
      && (!src.poolvalid || src.poolfee <= 0.0 || most < 546.0 ==> |outs| == 1)
  {
    PercentWritten(src.coinbasevalue, src.poolfee);
    hide Percent;
  }

  lemma PercentWritten(value: nat, poolfee: real)
    ensures Percent(value, poolfee) == value as real * poolfee / 100.0
  {}

  // ----- the script of the input -----

  /** The pushes a script consists of, when it has only short ones. */
  function Pushes(script: seq<byte>): (r: Option<seq<seq<byte>>>)
    decreases |script|
  {
    if script == [] then Some([])
    else if script[0] > 75 || |script| <= script[0] then None
    else
      match Pushes(script[1 + script[0]..])
      case None => None
      case Some(ps) => Some([script[1..1 + script[0]]] + ps)
  }

  lemma OnePush(p: seq<byte>, rest: seq<byte>)
    requires |p| <= 75 && Pushes(rest).Some?
    ensures Pushes([|p|] + p + rest) == Some([p] + Pushes(rest).value)
  {
    var s := [|p| as byte] + p + rest;
    assert s[1..1 + |p|] == p && s[1 + |p|..] == rest;
  }

  /** A number as a push: its bytes say it, if it is not negative, as a script number that is not negative
      either and no longer than it must be. */
  predicate PushedNumber(p: seq<byte>, val: int) {
    && 1 <= |p| <= 4
    && (val >= 0 ==> LittleEndian(p) == val && p[|p| - 1] < 128 && (|p| > 1 ==> val >= 128 * Pow(256, |p| - 2)))
  }

  lemma NumberIsPush(val: int)
    requires Int32(val)
    ensures var p := SerNumberOf(val)[1..]; SerNumberOf(val) == [|p| as byte] + p && PushedNumber(p, val)
  {
    var p := SerNumberOf(val)[1..];
    SerValue(val);
    if val >= 0 {
      TopByte(p, val);
      PowersOf256();
    }
  }

  lemma {:induction false} TopByte(p: seq<byte>, v: nat)
    requires |p| > 0 && LittleEndian(p) == v && v < 128 * Pow(256, |p| - 1)
    ensures p[|p| - 1] < 128
  {
    if |p| > 1 {
      TopByte(p[1..], LittleEndian(p[1..]));
    }
  }

  /** The input's script is the pushes of height, flags, time, nanoseconds, extranonces and signature, in
      this order. */
  lemma ScriptPushes(src: Source, flagbytes: seq<byte>, nonces: seq<byte>)
    requires Fits(src) && |flagbytes| == |src.flags| / 2 && |nonces| == src.nonce1length + src.nonce2length
    ensures
      var pushes := Pushes(ScriptSig(src, flagbytes, nonces));
      && pushes.Some? && |pushes.value| == (if src.btcsig == [] then 5 else 6)
      && PushedNumber(pushes.value[0], src.height) && pushes.value[1] == flagbytes
      && PushedNumber(pushes.value[2], src.sec) && PushedNumber(pushes.value[3], src.nsec)
      && pushes.value[4] == nonces && (src.btcsig != [] ==> pushes.value[5] == src.btcsig)
  {
    hide Pushes, PushedNumber, Rounded, SerNumberOf, SerLen;
    NumberIsPush(src.height);
    NumberIsPush(src.sec);
    NumberIsPush(src.nsec);
    var h, t, n := SerNumberOf(src.height), SerNumberOf(src.sec), SerNumberOf(src.nsec);
    var sig := SigPush(src);
    SigIsPush(src.btcsig, sig);
    OnePush(nonces, sig);
    var s4 := [|nonces| as byte] + nonces + sig;
    OnePush(n[1..], s4);
    OnePush(t[1..], n + s4);
    OnePush(flagbytes, t + (n + s4));
    OnePush(h[1..], [|flagbytes| as byte] + flagbytes + (t + (n + s4)));
    Nested(h, [|flagbytes| as byte], flagbytes, t, n, [|nonces| as byte], nonces, sig);
  }

  lemma SigIsPush(btcsig: seq<byte>, sig: seq<byte>)
    requires |btcsig| <= 38 && sig == if btcsig == [] then [] else [|btcsig| as byte] + btcsig
    ensures Pushes(sig) == Some(if btcsig == [] then [] else [btcsig])
  {
    assert Pushes([]) == Some([]);
    if btcsig != [] {
      OnePush(btcsig, []);
      assert sig + [] == sig && [btcsig] + [] == [btcsig];
    }
  }

  lemma Nested(h: seq<byte>, a: seq<byte>, f: seq<byte>, t: seq<byte>, n: seq<byte>, b: seq<byte>, x: seq<byte>, sig: seq<byte>)
    ensures h + a + f + t + n + b + x + sig == h + (a + f + (t + (n + (b + x + sig))))
  {}

  /** A coinbase as the protocol has it: version 1, one input that spends nothing, final, and no lock
      time. */
  lemma IsCoinbase(scriptSig: seq<byte>, outs: seq<Output>)
    requires |scriptSig| < 0xfd && |outs| < 0xfd && ShortScripts(outs)
    ensures
      var tx := Serialized(scriptSig, outs);
      var n := 42 + |scriptSig|;
      && |tx| >= n + 9
      && LittleEndian(tx[..4]) == 1 && tx[4] == 1
      && (forall i :: 5 <= i < 37 ==> tx[i] == 0) && LittleEndian(tx[37..41]) == 0xffff_ffff
      && tx[41] == |scriptSig| && tx[42..n] == scriptSig
      && LittleEndian(tx[n..n + 4]) == 0xffff_ffff && tx[n + 4] == |outs|
      && LittleEndian(tx[|tx| - 4..]) == 0
  {
    hide SerOutputs, LittleEndian;
    FourBytes(1, 0, 0, 0);
    FourBytes(255, 255, 255, 255);
    FourBytes(0, 0, 0, 0);
    var tx := Serialized(scriptSig, outs);
    var n := 42 + |scriptSig|;
    assert tx[..4] == [1, 0, 0, 0];
    assert tx[37..41] == [255, 255, 255, 255];
    assert tx[42..n] == scriptSig;
    assert tx[n..n + 4] == [255, 255, 255, 255];
    assert tx[|tx| - 4..] == [0, 0, 0, 0];
  }
}
