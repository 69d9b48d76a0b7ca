/** Address classification and payout scripts: `bch_classify_address` and `bch_address_to_script`. */
module Address {
  import opened Bytes
  import opened Strings
  import opened Wrappers
  import Base58
  import CashAddr

  datatype AddrType = Invalid | CashaddrP2pkh | CashaddrP2sh | LegacyP2pkh | LegacyP2sh

  // ----- scripts -----

  /** `hash160_to_p2pkh_script`. */
  function P2pkhScript(hash160: seq<byte>): (script: seq<byte>) {
    [0x76, 0xa9, 0x14] + hash160 + [0x88, 0xac]
  }

  /** `hash160_to_p2sh_script`. */
  function P2shScript(hash160: seq<byte>): (script: seq<byte>) {
    [0xa9, 0x14] + hash160 + [0x87]
  }

  /** A payout script says which hash it pays and how. */
  lemma ScriptsTellHashes(h: seq<byte>, h': seq<byte>)
    requires |h| == |h'| == 20
    ensures P2pkhScript(h) == P2pkhScript(h') <==> h == h'
    ensures P2shScript(h) == P2shScript(h') <==> h == h'
    ensures P2pkhScript(h) != P2shScript(h')
  {
    assert P2pkhScript(h)[3..23] == h && P2pkhScript(h')[3..23] == h';
    assert P2shScript(h)[2..22] == h && P2shScript(h')[2..22] == h';
  }

  /** What is built for a hash are the standard scripts with that hash, byte by byte: OP_DUP OP_HASH160, a
      push of twenty bytes, OP_EQUALVERIFY OP_CHECKSIG; and OP_HASH160, a push of twenty bytes, OP_EQUAL. */
  lemma StandardScripts(script: seq<byte>, hash: seq<byte>)
    requires |hash| == 20
    ensures script == P2pkhScript(hash) <==>
      |script| == 25 && script[0] == 118 && script[1] == 169 && script[2] == 20 && script[3..23] == hash && script[23] == 136 && script[24] == 172
    ensures script == P2shScript(hash) <==>
      |script| == 23 && script[0] == 169 && script[1] == 20 && script[2..22] == hash && script[22] == 135
  {
    if |script| == 25 {
      assert script == script[..3] + script[3..23] + script[23..];
    } else if |script| == 23 {
      assert script == script[..2] + script[2..22] + script[22..];
    }
  }

  // ----- classification -----

  /** `bch_addr_is_cashaddr_shaped`: a known prefix before the first colon, or 42 characters and no colon. */
  ghost predicate CashaddrShaped(addr: string) {
    if ':' in addr then
      exists k :: 0 <= k < |addr| && addr[k] == ':' && ':' !in addr[..k] && Lower(addr[..k]) in CashAddr.NETWORKS
    else
      |addr| == 42
  }

  method IsCashaddrShaped(addr: string) returns (shaped: bool)
    ensures shaped <==> CashaddrShaped(addr)
  {
    var colon := Find(addr, ':');
    if colon < |addr| {
      assert forall k :: 0 <= k < |addr| && addr[k] == ':' && ':' !in addr[..k] ==> k == colon;
      assert |Lower(addr[..colon])| == colon;
      return (colon == 11 && Lower(addr[..colon]) == "bitcoincash")
          || (colon == 7 && Lower(addr[..colon]) == "bchtest")
          || (colon == 6 && Lower(addr[..colon]) == "bchreg");
    }
    assert addr[..colon] == addr;
    shaped := |addr| == 42;
  }

  /** The version bytes of legacy addresses on the network that `prefix` selects. */
  function P2pkhVersion(prefix: string): byte {
    if Lower(prefix) == "bitcoincash" then 0x00 else 0x6f
  }

  function P2shVersion(prefix: string): byte {
    if Lower(prefix) == "bitcoincash" then 0x05 else 0xc4
  }

  /** The version bytes of the main network are 0 and 5, those of the test and the regression test network
      111 and 196. */
  lemma LegacyVersions(prefix: string)
    requires Lower(prefix) in {"bitcoincash", "bchtest", "bchreg"}
    ensures var main := Lower(prefix) == "bitcoincash";
      P2pkhVersion(prefix) == (if main then 0 else 111) && P2shVersion(prefix) == (if main then 5 else 196)
  {}

  /** `addr` pays `hash` by public key hash, in either address format, on the network of `prefix`. */
  ghost predicate PaysKeyHash(dsha: Hasher, addr: string, prefix: string, hash: seq<byte>) {
    if CashaddrShaped(addr) then exists version :: version < 8 && CashAddr.IsAddressOf(addr, prefix, version, hash)
    else Base58.IsLegacyOf(dsha, addr, P2pkhVersion(prefix), hash)
  }

  /** `addr` pays `hash` by script hash. */
  ghost predicate PaysScriptHash(dsha: Hasher, addr: string, prefix: string, hash: seq<byte>) {
    if CashaddrShaped(addr) then exists version :: version >= 8 && CashAddr.IsAddressOf(addr, prefix, version, hash)
    else Base58.IsLegacyOf(dsha, addr, P2shVersion(prefix), hash)
  }

  /** `bch_classify_legacy`. */
  method ClassifyLegacy(dsha: Hasher, addr: string, prefix: string) returns (kind: AddrType, hash160: seq<byte>)
    ensures kind in {Invalid, LegacyP2pkh, LegacyP2sh}
    ensures kind == LegacyP2pkh ==> Base58.IsLegacyOf(dsha, addr, P2pkhVersion(prefix), hash160)
    ensures kind == LegacyP2sh ==> Base58.IsLegacyOf(dsha, addr, P2shVersion(prefix), hash160)
    ensures kind == Invalid ==> forall h :: !Base58.IsLegacyOf(dsha, addr, P2pkhVersion(prefix), h)
                                        && !Base58.IsLegacyOf(dsha, addr, P2shVersion(prefix), h)
  {
    hide Pow, BigEndian, Base58.Value, Base58.InAlphabet;
    hash160 := [];
    var decoded := new byte[25];
    var ok := Base58.B58DecodeStrict(addr, decoded);
    forall v: byte, h | Base58.IsLegacyOf(dsha, addr, v, h)
      ensures ok && decoded[..] == Base58.CheckBytes(dsha, v, h)
      ensures decoded[0] == v && decoded[1..21] == h && dsha(decoded[..21])[..4] == decoded[21..]
    {
      CheckedBytes(dsha, decoded[..], addr, v, h, ok);
    }
    if !ok {
      return Invalid, [];
    }
    var check := dsha(decoded[..21]);
    if check[..4] != decoded[21..] {
      return Invalid, [];
    }
    var version := decoded[0];
    hash160 := decoded[1..21];
    assert decoded[..] == Base58.CheckBytes(dsha, version, hash160) by {
      assert decoded[..21] == [version] + hash160;
    }
    assert Base58.IsLegacyOf(dsha, addr, version, hash160);
    var mainnet := Lower(prefix) == "bitcoincash";
    if (mainnet && version == 0x00) || (!mainnet && version == 0x6f) {
      return LegacyP2pkh, hash160;
    }
    if (mainnet && version == 0x05) || (!mainnet && version == 0xc4) {
      return LegacyP2sh, hash160;
    }
    return Invalid, [];
  }

  lemma CheckedBytes(dsha: Hasher, decoded: seq<byte>, addr: string, v: byte, h: seq<byte>, ok: bool)
    requires Base58.IsLegacyOf(dsha, addr, v, h) && |decoded| == 25
    requires ok <==> 1 <= |addr| <= 100 && Base58.InAlphabet(addr) && Base58.Value(addr) < Pow(256, 25)
    requires ok ==> BigEndian(decoded) == Base58.Value(addr)
    ensures ok && decoded == Base58.CheckBytes(dsha, v, h)
    ensures decoded[0] == v && decoded[1..21] == h && dsha(decoded[..21])[..4] == decoded[21..]
  {
    hide Pow, BigEndian, Base58.Value, Base58.InAlphabet;
    var full := Base58.CheckBytes(dsha, v, h);
    Base58.BigEndianBound(full);
    Base58.BigEndianInjective(decoded, full);
    assert full[..21] == [v] + h;
  }

  /** The text is not one that is looked up past the end of the CashAddr table. */
  ghost predicate Readable(addr: string, prefix: string) {
    CashaddrShaped(addr) ==> CashAddr.InTable(addr, prefix)
  }

  /** `bch_classify_address`: the format is decided by the shape alone, and the answer says exactly
      whom the address pays. */
  method ClassifyAddress(dsha: Hasher, addr: string, prefix: string) returns (kind: AddrType, hash160: seq<byte>)
    ensures Readable(addr, prefix) && kind in {CashaddrP2pkh, LegacyP2pkh} ==> PaysKeyHash(dsha, addr, prefix, hash160)
    ensures Readable(addr, prefix) && kind in {CashaddrP2sh, LegacyP2sh} ==> PaysScriptHash(dsha, addr, prefix, hash160)
    ensures forall h :: PaysKeyHash(dsha, addr, prefix, h) ==> kind in {CashaddrP2pkh, LegacyP2pkh} && h == hash160
    ensures forall h :: PaysScriptHash(dsha, addr, prefix, h) ==> kind in {CashaddrP2sh, LegacyP2sh} && h == hash160
    ensures kind == Invalid ==> forall h :: !PaysKeyHash(dsha, addr, prefix, h) && !PaysScriptHash(dsha, addr, prefix, h)
    ensures kind in {CashaddrP2pkh, CashaddrP2sh} ==> CashaddrShaped(addr)
    ensures kind in {LegacyP2pkh, LegacyP2sh} ==> !CashaddrShaped(addr)
  {
    hide CashAddr.IsAddressOf, Base58.IsLegacyOf, CashaddrShaped, CashAddr.InTable;
    var shaped := IsCashaddrShaped(addr);
    if shaped {
      var r := CashAddr.CashaddrDecodeChecked(addr, prefix);
      if r.Some? {
        return (if r.value.isP2sh then CashaddrP2sh else CashaddrP2pkh), r.value.hash160;
      }
      return Invalid, [];
    }
    kind, hash160 := ClassifyLegacy(dsha, addr, prefix);
    forall h | PaysKeyHash(dsha, addr, prefix, h) || PaysScriptHash(dsha, addr, prefix, h)
      ensures kind != Invalid && h == hash160
      ensures PaysKeyHash(dsha, addr, prefix, h) ==> kind == LegacyP2pkh
      ensures PaysScriptHash(dsha, addr, prefix, h) ==> kind == LegacyP2sh
    {
      if kind != Invalid {
        OnePayee(dsha, addr, prefix, h, hash160);
      }
    }
  }

  /** `bch_address_to_script`: the script that pays whom the address names, empty for no address. */
  method AddressToScript(dsha: Hasher, addr: string, prefix: string) returns (script: seq<byte>)
    ensures forall h :: PaysKeyHash(dsha, addr, prefix, h) ==> script == P2pkhScript(h)
    ensures forall h :: PaysScriptHash(dsha, addr, prefix, h) ==> script == P2shScript(h)
    ensures Readable(addr, prefix) && script != [] ==>
      exists h :: PaysKeyHash(dsha, addr, prefix, h) || PaysScriptHash(dsha, addr, prefix, h)
  {
    hide PaysKeyHash, PaysScriptHash;
    var kind, hash160 := ClassifyAddress(dsha, addr, prefix);
    match kind
    case CashaddrP2pkh => script := P2pkhScript(hash160);
    case LegacyP2pkh => script := P2pkhScript(hash160);
    case CashaddrP2sh => script := P2shScript(hash160);
    case LegacyP2sh => script := P2shScript(hash160);
    case Invalid => script := [];
  }

  /** An address pays one hash in one way. */
  lemma OnePayee(dsha: Hasher, addr: string, prefix: string, h: seq<byte>, h': seq<byte>)
    requires PaysKeyHash(dsha, addr, prefix, h) || PaysScriptHash(dsha, addr, prefix, h)
    requires PaysKeyHash(dsha, addr, prefix, h') || PaysScriptHash(dsha, addr, prefix, h')
    ensures h == h'
    ensures PaysKeyHash(dsha, addr, prefix, h) <==> PaysKeyHash(dsha, addr, prefix, h')
    ensures PaysScriptHash(dsha, addr, prefix, h) <==> PaysScriptHash(dsha, addr, prefix, h')
    ensures !(PaysKeyHash(dsha, addr, prefix, h) && PaysScriptHash(dsha, addr, prefix, h'))
  {
    hide CashAddr.IsAddressOf, Base58.IsLegacyOf;
    if CashaddrShaped(addr) {
      forall v, w, a, b | CashAddr.IsAddressOf(addr, prefix, v, a) && CashAddr.IsAddressOf(addr, prefix, w, b)
        ensures v == w && a == b
      {
        CashAddr.AddressUnambiguous(addr, prefix, v, a, w, b);
      }
    } else {
      forall v, w, a, b | Base58.IsLegacyOf(dsha, addr, v, a) && Base58.IsLegacyOf(dsha, addr, w, b)
        ensures v == w && a == b
      {
        Base58.LegacyUnambiguous(dsha, addr, v, a, w, b);
      }
    }
  }

  /** A text of the Go encoder's length is never taken for a CashAddr, and pays the hash it was made
      from on mainnet. */
  lemma EncodedLegacyPays(dsha: Hasher, addr: string, hash: seq<byte>)
    requires Base58.IsLegacyOf(dsha, addr, 0, hash) && |addr| <= 35
    ensures !CashaddrShaped(addr) && PaysKeyHash(dsha, addr, "bitcoincash", hash)
  {
    assert Base58.Digit(':') == 58;
    assert Lower("bitcoincash") == "bitcoincash";
  }

  ghost predicate Pays(dsha: Hasher, addr: string, prefix: string, hash: seq<byte>, isP2sh: bool) {
    if isP2sh then PaysScriptHash(dsha, addr, prefix, hash) else PaysKeyHash(dsha, addr, prefix, hash)
  }

  /** Whatever their forms, two addresses get the same script exactly when they pay the same hash in the
      same way. */
  method TwoFormsOneScript(dsha: Hasher, addr: string, other: string, prefix: string) returns (script: seq<byte>, otherScript: seq<byte>)
    ensures forall h, k, h', k' :: Pays(dsha, addr, prefix, h, k) && Pays(dsha, other, prefix, h', k') ==>
      (script == otherScript <==> h == h' && k == k')
  {
    hide PaysKeyHash, PaysScriptHash, P2pkhScript, P2shScript;
    script := AddressToScript(dsha, addr, prefix);
    otherScript := AddressToScript(dsha, other, prefix);
    forall h, k, h', k' | Pays(dsha, addr, prefix, h, k) && Pays(dsha, other, prefix, h', k')
      ensures script == otherScript <==> h == h' && k == k'
    {
      PayeeLength(dsha, addr, prefix, h, k);
      PayeeLength(dsha, other, prefix, h', k');
      ScriptsTellHashes(h, h');
      ScriptsTellHashes(h', h);
    }
  }

  lemma PayeeLength(dsha: Hasher, addr: string, prefix: string, hash: seq<byte>, isP2sh: bool)
    requires Pays(dsha, addr, prefix, hash, isP2sh)
    ensures |hash| == 20
  {}
}
