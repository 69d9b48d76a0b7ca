/** The byte buffers of a workbase: `generate_coinbase` fills them, and notifies, user workbases and
    submissions read them. */
module CoinbaseBuild {
  import opened Bytes
  import opened Wrappers
  import opened Coinbase
  import Hex

  /** `memcpy` to an offset of a buffer. */
  method Put(a: array<byte>, ofs: nat, s: seq<byte>) returns (end: nat)
    requires ofs + |s| <= a.Length
    modifies a
    ensures end == ofs + |s| && a[..end] == old(a[..ofs]) + s
  {
    forall i | 0 <= i < |s| {
      a[ofs + i] := s[i];
    }
    end := ofs + |s|;
  }

  /** `ser_number` at an offset of a buffer. */
  method PutNumber(a: array<byte>, ofs: nat, val: int) returns (end: nat)
    requires Int32(val) && ofs + 5 <= a.Length
    modifies a
    ensures end == ofs + |SerNumberOf(val)| && a[..end] == old(a[..ofs]) + SerNumberOf(val)
  {
    hide SerNumberOf;
    var len := SerNumber(a, ofs, val);
    end := ofs + len;
    assert a[..end] == a[..ofs] + a[ofs..end];
  }

  /** The start of the first part: header, room for the script length, height and flags. */
  method PutHead(a: array<byte>, height: int, flags: seq<byte>) returns (ofs: nat)
    requires a.Length == 128 && Int32(height) && |flags| <= 69
    modifies a
    ensures ofs <= 117 && a[..ofs] == Header() + [0] + SerNumberOf(height) + [|flags|] + flags
  {
    hide SerNumberOf, Header;
    ofs := Put(a, 0, Header());
    ofs := Put(a, ofs, [0]);
    ofs := PutNumber(a, ofs, height);
    ofs := Put(a, ofs, [|flags|]);
    ofs := Put(a, ofs, flags);
  }

  /** The rest of the first part: time, randomiser and the length of the extranonces. */
  method PutTimes(a: array<byte>, ofs: nat, sec: int, nsec: int, nonces: byte) returns (end: nat)
    requires a.Length == 128 && Int32(sec) && Int32(nsec) && ofs <= 117
    modifies a
    ensures end <= 128 && a[..end] == old(a[..ofs]) + SerNumberOf(sec) + SerNumberOf(nsec) + [nonces]
  {
    hide SerNumberOf;
    end := PutNumber(a, ofs, sec);
    end := PutNumber(a, end, nsec);
    end := Put(a, end, [nonces]);
  }

  /** Four pieces one after the other in a buffer of 1024 bytes. */
  method PutFour(p: seq<byte>, q: seq<byte>, r: seq<byte>, s: seq<byte>) returns (bytes: seq<byte>)
    requires |p| + |q| + |r| + |s| <= 1024
    ensures bytes == p + q + r + s
  {
    var a := new byte[1024](_ => 0);
    var ofs := Put(a, 0, p);
    ofs := Put(a, ofs, q);
    ofs := Put(a, ofs, r);
    ofs := Put(a, ofs, s);
    bytes := a[..ofs];
  }

  /** A user's own coinbase for one job, as bytes and as the text the user is sent. */
  datatype Userwb = Userwb(coinb2: string, coinb2bin: seq<byte>)

  ghost predicate IsHexText(text: string, bytes: seq<byte>) {
    Hex.IsHexOf(text, |bytes|) && Hex.HexDecode(text) == bytes
  }

  class Workbase {
    const coinb1bin: array<byte>
    const coinb2bin: array<byte>
    const coinb3bin: array<byte>
    var coinb1len: nat
    var coinb2len: nat
    var coinb3len: nat
    var coinb1: string
    var coinb2: string
    const id: int

    ghost predicate Buffers()
      reads this
    {
      && coinb1bin.Length == 128 && coinb2bin.Length == 512 && coinb3bin.Length == 256
      && coinb1bin != coinb2bin && coinb2bin != coinb3bin && coinb1bin != coinb3bin
    }

    constructor (id: int)
      ensures Buffers() && this.id == id && fresh(coinb1bin) && fresh(coinb2bin) && fresh(coinb3bin)
    {
      this.id := id;
      coinb1bin := new byte[128](_ => 0);
      coinb2bin := new byte[512](_ => 0);
      coinb3bin := new byte[256](_ => 0);
      coinb1len, coinb2len, coinb3len := 0, 0, 0;
      coinb1, coinb2 := "", "";
    }

    /** The template holds the coinbase of `src`: in solo mode without a payout script, otherwise with
        the pool's own. */
    ghost predicate Holds(src: Source, flagbytes: seq<byte>, btcsolo: bool, txnbin: seq<byte>)
      reads this, coinb1bin, coinb2bin, coinb3bin
    {
      && Buffers() && Fits(src) && FlagBytes(src.flags, flagbytes) && |txnbin| <= 48
      && coinb1len <= 128 && coinb2len <= 512 && coinb3len <= 256
      && coinb1bin[..coinb1len] == Coinb1(src, flagbytes) && IsHexText(coinb1, Coinb1(src, flagbytes))
      && coinb2bin[..coinb2len] == (if btcsolo then Coinb2(src) else WithScript(src, txnbin))
      && IsHexText(coinb2, coinb2bin[..coinb2len])
      && coinb3bin[..coinb3len] == (if btcsolo then Coinb3(src) else [])
    }

    /** `generate_coinbase`. The fee is switched off for good when none is configured. */
    method GenerateCoinbase(src: Source, btcsolo: bool, txnbin: seq<byte>) returns (ghost flagbytes: seq<byte>, feeOff: bool)
      requires Buffers() && Fits(src) && |txnbin| <= 48
      modifies this, coinb1bin, coinb2bin, coinb3bin
      ensures Holds(src, flagbytes, btcsolo, txnbin)
      ensures feeOff <==> !(src.poolvalid && src.poolfee > 0.0)
    {
      hide Coinb1, Coinb2, Coinb3, WithScript;
      flagbytes := BuildCoinb1(src);
      coinb1 := Hex.Bin2Hex(coinb1bin[..coinb1len]);
      var d64, dust := BuildCoinb2(src);
      feeOff := BuildCoinb3(src, d64, dust);
      if !btcsolo {
        AppendScript(src, txnbin);
      }
      coinb2 := Hex.Bin2Hex(coinb2bin[..coinb2len]);
    }

    /** The first part; the length of the script is filled in last. */
    method BuildCoinb1(src: Source) returns (ghost flagbytes: seq<byte>)
      requires Buffers() && Fits(src)
      modifies this`coinb1len, coinb1bin
      ensures FlagBytes(src.flags, flagbytes)
      ensures coinb1len <= 128 && coinb1bin[..coinb1len] == Coinb1(src, flagbytes)
    {
      hide SerNumberOf, Header, Fits, SigPush, FlagBytes, ScriptStart;
      Sizes(src);
      var flags := DecodeFlags(src.flags);
      flagbytes := flags;
      var ofs := PutHead(coinb1bin, src.height, flags);
      ofs := PutTimes(coinb1bin, ofs, src.sec, src.nsec, src.nonce1length + src.nonce2length);
      coinb1len := ofs;
      StartAssembled(src, flags, Header() + [0]);
      SetLength(coinb1bin, ofs, src.nonce1length + src.nonce2length + |SigPush(src)|, ScriptStart(src, flags));
    }

    /** The second part: everything up to the payout script. `d64` is the fee, `dust` whether it was
        too small. */
    method BuildCoinb2(src: Source) returns (d64: nat, dust: bool)
      requires Buffers() && Fits(src)
      modifies this`coinb2len, coinb2bin
      ensures coinb2len <= 52 && coinb2bin[..coinb2len] == Coinb2(src)
      ensures d64 == Fee(src) && (d64 > 0 <==> src.poolvalid && src.poolfee > 0.0 && !dust)
      ensures dust ==> src.poolvalid && src.poolfee > 0.0
    {
      hide Rounded, ToLittleEndian;
      HalfAtMost(src);
      var ofs := 0;
      var siglen := |src.btcsig|;
      if siglen != 0 {
        ofs := Put(coinb2bin, ofs, [siglen]);
        ofs := Put(coinb2bin, ofs, src.btcsig);
      }
      assert coinb2bin[..ofs] == SigPush(src);
      ofs := Put(coinb2bin, ofs, SEQUENCE);
      var g64 := src.coinbasevalue;
      d64, dust := 0, false;
      var outputs: byte := 1;
      if src.poolvalid && src.poolfee > 0.0 {
        d64 := src.dbl64.Floor;
        if d64 < DUST {
          d64 := 0;
          g64 := src.coinbasevalue;
          dust := true;
        } else {
          g64 := g64 - d64;
          outputs := 2;
        }
      }
      ofs := Put(coinb2bin, ofs, [outputs]);
      ofs := Put(coinb2bin, ofs, ToLittleEndian(g64, 8));
      coinb2len := ofs;
    }

    /** The third part: the fee output, if there is one, and the lock time. */
    method BuildCoinb3(src: Source, d64: nat, dust: bool) returns (feeOff: bool)
      requires Buffers() && Fits(src) && d64 == Fee(src) && (d64 > 0 <==> src.poolvalid && src.poolfee > 0.0 && !dust)
      requires dust ==> src.poolvalid && src.poolfee > 0.0
      modifies this`coinb3len, coinb3bin
      ensures coinb3len <= 61 && coinb3bin[..coinb3len] == Coinb3(src)
      ensures feeOff <==> !(src.poolvalid && src.poolfee > 0.0)
    {
      hide Fee, ToLittleEndian;
      var ofs := 0;
      feeOff := false;
      if src.poolvalid && src.poolfee > 0.0 && !dust {
        ofs := Put(coinb3bin, ofs, ToLittleEndian(d64, 8));
        ofs := Put(coinb3bin, ofs, [|src.pooltxn|]);
        ofs := Put(coinb3bin, ofs, src.pooltxn);
      } else if !dust {
        feeOff := true;
      }
      ofs := Put(coinb3bin, ofs, LOCK);
      coinb3len := ofs;
    }

    /** The generation address and third part in other than solo mode. */
    method AppendScript(src: Source, txnbin: seq<byte>)
      requires Buffers() && Fits(src) && |txnbin| <= 48 && coinb2len <= 52 && coinb3len <= 61
      requires coinb2bin[..coinb2len] == Coinb2(src) && coinb3bin[..coinb3len] == Coinb3(src)
      modifies this`coinb2len, this`coinb3len, coinb2bin
      ensures coinb2len <= 512 && coinb2bin[..coinb2len] == WithScript(src, txnbin) && coinb3len == 0
    {
      hide Coinb2, Coinb3;
      var ofs := Put(coinb2bin, coinb2len, [|txnbin|]);
      ofs := Put(coinb2bin, ofs, txnbin);
      ofs := Put(coinb2bin, ofs, coinb3bin[..coinb3len]);
      coinb2len, coinb3len := ofs, 0;
    }

    /** `__generate_userwb`: a solo user's coinbase with the user's own script, unless there is one. */
    method GenerateUserwb(src: Source, ghost flagbytes: seq<byte>, ghost pooltxn: seq<byte>, userwbs: map<int, Userwb>, txnbin: seq<byte>)
      returns (after: map<int, Userwb>)
      requires Holds(src, flagbytes, true, pooltxn) && |txnbin| <= 48
      ensures id in userwbs ==> after == userwbs
      ensures id !in userwbs ==> id in after && after - {id} == userwbs
      ensures id !in userwbs ==> after[id].coinb2bin == WithScript(src, txnbin) && IsHexText(after[id].coinb2, WithScript(src, txnbin))
    {
      hide Coinb1, Coinb2, Coinb3;
      if id in userwbs {
        return userwbs;
      }
      var bin := Splice(txnbin);
      var text := Hex.Bin2Hex(bin);
      after := userwbs[id := Userwb(text, bin)];
    }

    /** `__user_coinb2`: what follows the extranonces for a user of the pool. */
    method UserCoinb2(src: Source, ghost flagbytes: seq<byte>, btcsolo: bool, pooltxn: seq<byte>, userwbs: map<int, Userwb>)
      returns (cb2: seq<byte>)
      requires Holds(src, flagbytes, btcsolo, pooltxn)
      ensures !btcsolo || id !in userwbs ==> cb2 == WithScript(src, pooltxn)
      ensures btcsolo && id in userwbs ==> cb2 == userwbs[id].coinb2bin
    {
      hide Coinb1, Coinb2, Coinb3;
      if !btcsolo {
        return coinb2bin[..coinb2len];
      }
      if id in userwbs {
        return userwbs[id].coinb2bin;
      }
      cb2 := Splice(pooltxn);
    }

    /** A payout script between the second and third part, in new memory. */
    method Splice(txnbin: seq<byte>) returns (bytes: seq<byte>)
      requires coinb2len <= coinb2bin.Length && coinb3len <= coinb3bin.Length && |txnbin| <= 48
      ensures bytes == coinb2bin[..coinb2len] + [|txnbin|] + txnbin + coinb3bin[..coinb3len]
    {
      var a := new byte[coinb2len + 1 + |txnbin| + coinb3len](_ => 0);
      var ofs := Put(a, 0, coinb2bin[..coinb2len]);
      ofs := Put(a, ofs, [|txnbin|]);
      ofs := Put(a, ofs, txnbin);
      ofs := Put(a, ofs, coinb3bin[..coinb3len]);
      bytes := a[..ofs];
    }

    /** The coinbase texts of a notify: the hex of the first part and of what follows the extranonces for
        this user. In solo mode a user without a user workbase is sent nothing. */
    method Notify(src: Source, ghost flagbytes: seq<byte>, btcsolo: bool, pooltxn: seq<byte>, userwbs: map<int, Userwb>)
      returns (sent: Option<(string, string)>)
      requires Fits(src) && |flagbytes| == |src.flags| / 2 && |pooltxn| <= 48
      requires id in userwbs ==> IsHexText(userwbs[id].coinb2, userwbs[id].coinb2bin)
      requires Holds(src, flagbytes, btcsolo, pooltxn)
      ensures sent.None? <==> btcsolo && id !in userwbs
      ensures sent.Some? ==> IsHexText(sent.value.0, Coinb1(src, flagbytes))
      ensures sent.Some? ==> IsHexText(sent.value.1, SecondPart(src, btcsolo, pooltxn, userwbs))
    {
      hide Coinb1, Coinb2, Coinb3, WithScript, FlagBytes, Fits, IsHexText;
      if !btcsolo {
        return Some((coinb1, coinb2));
      }
      if id !in userwbs {
        return None;
      }
      sent := Some((coinb1, userwbs[id].coinb2));
    }

    /** What follows the extranonces for a user of the pool. */
    function SecondPart(src: Source, btcsolo: bool, pooltxn: seq<byte>, userwbs: map<int, Userwb>): seq<byte>
      requires Fits(src) && |pooltxn| <= 48
    {
      if btcsolo && id in userwbs then userwbs[id].coinb2bin else WithScript(src, pooltxn)
    }

    /** First part, extranonces, and what follows them for this user. */
    ghost function SubmittedBytes(src: Source, flagbytes: seq<byte>, btcsolo: bool, pooltxn: seq<byte>, userwbs: map<int, Userwb>,
                                  enonce1bin: seq<byte>, nonce2: string): seq<byte>
      requires Fits(src) && |flagbytes| == |src.flags| / 2 && |pooltxn| <= 48 && Hex.IsHexOf(nonce2, src.nonce2length)
    {
      Coinb1(src, flagbytes) + enonce1bin + Hex.HexDecode(nonce2) + SecondPart(src, btcsolo, pooltxn, userwbs)
    }

    /** A miner that puts the extranonces between the texts it was sent and decodes them hashes the very
        bytes the pool hashes for its submission. */
    lemma NotifyAgrees(src: Source, flagbytes: seq<byte>, btcsolo: bool, pooltxn: seq<byte>, userwbs: map<int, Userwb>,
                       sent: (string, string), enonce1: string, enonce1bin: seq<byte>, nonce2: string)
      requires Fits(src) && |flagbytes| == |src.flags| / 2 && |pooltxn| <= 48
      requires IsHexText(enonce1, enonce1bin) && Hex.IsHexOf(nonce2, src.nonce2length)
      requires IsHexText(sent.0, Coinb1(src, flagbytes)) && IsHexText(sent.1, SecondPart(src, btcsolo, pooltxn, userwbs))
      ensures var tx := sent.0 + enonce1 + nonce2 + sent.1;
        && |tx| % 2 == 0 && Hex.AllHex(tx)
        && Hex.HexDecode(tx) == SubmittedBytes(src, flagbytes, btcsolo, pooltxn, userwbs, enonce1bin, nonce2)
    {
      hide Coinb1, WithScript, Fits, Hex.HexDecode, Hex.AllHex;
      Hex.DecodeConcat(sent.0, enonce1);
      Hex.DecodeConcat(sent.0 + enonce1, nonce2);
      Hex.DecodeConcat(sent.0 + enonce1 + nonce2, sent.1);
    }

    /** The coinbase `submission_diff` hashes, from the extranonces the client has and submits. */
    method SubmittedCoinbase(src: Source, ghost flagbytes: seq<byte>, btcsolo: bool, pooltxn: seq<byte>, userwbs: map<int, Userwb>,
                             enonce1bin: seq<byte>, nonce2: string)
      returns (coinbase: seq<byte>)
      requires Fits(src) && |flagbytes| == |src.flags| / 2 && |pooltxn| <= 48 && Hex.IsHexOf(nonce2, src.nonce2length)
      requires |enonce1bin| == src.nonce1length
      requires btcsolo && id in userwbs ==> |userwbs[id].coinb2bin| <= 512
      requires Holds(src, flagbytes, btcsolo, pooltxn)
      ensures coinbase == SubmittedBytes(src, flagbytes, btcsolo, pooltxn, userwbs, enonce1bin, nonce2)
    {
      hide Coinb1, Coinb2, Coinb3, WithScript, IsHexText, FlagBytes, Fits, Hex.HexDecode, Hex.AllHex;
      ScriptSize(src, pooltxn);
      var ok, n2 := Hex.Hex2Bin(nonce2, src.nonce2length);
      var cb2 := UserCoinb2(src, flagbytes, btcsolo, pooltxn, userwbs);
      coinbase := PutFour(coinb1bin[..coinb1len], enonce1bin, n2, cb2);
    }
  }

  lemma ScriptSize(src: Source, script: seq<byte>)
    requires Fits(src) && |script| <= 48
    ensures |WithScript(src, script)| <= 512 && src.nonce1length <= 8 && src.nonce2length <= 8
  {}

  lemma Sizes(src: Source)
    requires Fits(src)
    ensures Int32(src.height) && Int32(src.sec) && Int32(src.nsec) && |src.flags| / 2 <= 69
    ensures 1 <= src.nonce1length <= 8 && 1 <= src.nonce2length <= 8
  {}

  /** `hex2bin` of the flags into zeroed memory. */
  method DecodeFlags(flags: string) returns (b: seq<byte>)
    ensures FlagBytes(flags, b)
  {
    var len := |flags| / 2;
    var _, out := Hex.Hex2Bin(flags, len);
    b := out + seq(len - |out|, _ => 0);
    if Hex.AllHex(flags) && |flags| % 2 == 0 {
      assert b == out;
    }
  }

  lemma StartAssembled(src: Source, flags: seq<byte>, pre: seq<byte>)
    requires Fits(src) && |flags| == |src.flags| / 2
    ensures pre + SerNumberOf(src.height) + [|flags|] + flags + SerNumberOf(src.sec) + SerNumberOf(src.nsec)
      + [src.nonce1length + src.nonce2length] == pre + ScriptStart(src, flags)
  {
    hide SerNumberOf;
  }

  /** The script length byte takes its place. */
  method SetLength(a: array<byte>, ofs: nat, more: nat, start: seq<byte>)
    requires ofs <= a.Length && a[..ofs] == Header() + [0] + start && |start| + more < 256
    modifies a
    ensures a[..ofs] == Header() + [|start| + more] + start
  {
    a[HEADER_SIZE] := ofs - HEADER_SIZE + more - 1;
  }
}
