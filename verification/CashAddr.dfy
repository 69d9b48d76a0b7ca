/** `cashaddr_decode_checked` of cashaddr_simple.c, against the encoding of the CashAddr specification. */
module CashAddr {
  import opened Bytes
  import opened Polymod
  import opened Regroup
  import opened Strings
  import opened Wrappers

  // ----- the character set -----

  const CHARSET := "qpzry9x8gf2tvdw0s3jn54khce6mua7l"

  /** `CHARSET_REV`: the symbol of a character, -1 outside the set. */
  function CharsetRev(c: char): (v: int)
    ensures -1 <= v < 32
    ensures v >= 0 ==> CHARSET[v] == c
  {
    match c
    case 'q' => 0 case 'p' => 1 case 'z' => 2 case 'r' => 3 case 'y' => 4 case '9' => 5 case 'x' => 6 case '8' => 7
    case 'g' => 8 case 'f' => 9 case '2' => 10 case 't' => 11 case 'v' => 12 case 'd' => 13 case 'w' => 14 case '0' => 15
    case 's' => 16 case '3' => 17 case 'j' => 18 case 'n' => 19 case '5' => 20 case '4' => 21 case 'k' => 22 case 'h' => 23
    case 'c' => 24 case 'e' => 25 case '6' => 26 case 'm' => 27 case 'u' => 28 case 'a' => 29 case '7' => 30 case 'l' => 31
    case _ => -1
  }

  function Char(v: Symbol): char {
    CHARSET[v as int]
  }

  function Chars(data: seq<Symbol>): (s: string)
    ensures |s| == |data|
  {
    seq(|data|, i requires 0 <= i < |data| => Char(data[i]))
  }

  lemma CharsetLetters()
    ensures CHARSET == ['q', 'p', 'z', 'r', 'y', '9', 'x', '8', 'g', 'f', '2', 't', 'v', 'd', 'w', '0',
                        's', '3', 'j', 'n', '5', '4', 'k', 'h', 'c', 'e', '6', 'm', 'u', 'a', '7', 'l']
  {}

  lemma CharsetBack(v: nat)
    requires v < 32
    ensures CharsetRev(CHARSET[v]) == v
  {
    CharsetLetters();
  }

  /** Every charset character is a digit or a lower-case letter. */
  lemma CharsetPlain(v: nat)
    requires v < 32
    ensures '0' <= CHARSET[v] <= '9' || 'a' <= CHARSET[v] <= 'z'
  {
    CharsetLetters();
  }

  lemma CharInjective(v: Symbol, w: Symbol)
    requires Char(v) == Char(w)
    ensures v == w
  {
    CharsetBack(v as int);
    CharsetBack(w as int);
    SameSymbol(v, w);
  }

  lemma CharsInjective(v: seq<Symbol>, w: seq<Symbol>)
    requires Chars(v) == Chars(w)
    ensures v == w
  {
    assert |Chars(v)| == |Chars(w)|;
    forall i | 0 <= i < |v|
      ensures v[i] == w[i]
    {
      assert Chars(v)[i] == Chars(w)[i];
      CharInjective(v[i], w[i]);
    }
  }

  // ----- the encoding -----

  /** What the checksum sees of the prefix: its characters' low five bits and a zero. */
  function PrefixSymbols(prefix: string): (p: seq<Symbol>)
    ensures |p| == |prefix| + 1
  {
    seq(|prefix|, i requires 0 <= i < |prefix| => (prefix[i] as int % 32) as bv5) + [0]
  }

  function PrefixState(prefix: string): bv64 {
    Feed(1, PrefixSymbols(prefix))
  }

  ghost function EncodeSymbols(prefix: string, version: byte, hash: seq<byte>): seq<Symbol> {
    var data := Regroup8To5([version] + hash);
    data + Checksum(Feed(PrefixState(prefix), data))
  }

  /** The payload text of an address: version byte and hash regrouped, then the checksum. */
  ghost function Encode(prefix: string, version: byte, hash: seq<byte>): string {
    Chars(EncodeSymbols(prefix, version, hash))
  }

  predicate HasLower(s: string) { exists i :: 0 <= i < |s| && 'a' <= s[i] <= 'z' }
  predicate HasUpper(s: string) { exists i :: 0 <= i < |s| && 'A' <= s[i] <= 'Z' }

  /** The part of an address after its prefix, if it has none or the expected one. */
  ghost predicate IsPayloadOf(payload: string, addr: string, prefix: string) {
    || (':' !in addr && payload == addr)
    || (exists k :: 0 <= k < |addr| && addr[k] == ':' && ':' !in addr[..k]
                    && Lower(addr[..k]) == Lower(prefix) && payload == addr[k + 1..])
  }

  /** `addr` is an address of `hash` with this version byte on the network of `prefix`: version
      bytes below 8 are P2PKH, from 8 to 15 P2SH. The bound on the prefix is the room the decoder's
      checksum buffer has beside 42 payload symbols. */
  ghost predicate IsAddressOf(addr: string, prefix: string, version: byte, hash: seq<byte>) {
    && version < 16 && |hash| == 20 && |prefix| <= 90
    && !(HasLower(addr) && HasUpper(addr))
    && exists payload :: IsPayloadOf(payload, addr, prefix) && Lower(payload) == Encode(prefix, version, hash)
  }

  // ----- the decoder -----

  datatype Decoded = Decoded(hash160: seq<byte>, isP2sh: bool)

  predicate Ascii(s: string) {
    forall i :: 0 <= i < |s| ==> s[i] < 128 as char
  }

  /** The payload has only characters the reverse table has an entry for. */
  ghost predicate InTable(addr: string, prefix: string) {
    forall payload :: IsPayloadOf(payload, addr, prefix) ==> Ascii(payload)
  }

  /** Every address is such a text. */
  lemma AddressInTable(addr: string, prefix: string, version: byte, hash: seq<byte>)
    requires IsAddressOf(addr, prefix, version, hash)
    ensures InTable(addr, prefix)
  {
    hide EncodeSymbols;
    forall payload | IsPayloadOf(payload, addr, prefix)
      ensures Ascii(payload)
    {
      PayloadUnique(addr, prefix);
      EncodePlain(prefix, version, hash);
      var e := Encode(prefix, version, hash);
      forall i | 0 <= i < |payload|
        ensures payload[i] < 128 as char
      {
        assert Lower(payload)[i] == e[i] == ToLower(payload[i]);
      }
    }
  }

  /** `case_is_consistent`. */
  method CaseIsConsistent(s: string) returns (ok: bool)
    ensures ok <==> !(HasLower(s) && HasUpper(s))
  {
    var hasLower, hasUpper := false, false;
    for i := 0 to |s|
      invariant hasLower <==> HasLower(s[..i])
      invariant hasUpper <==> HasUpper(s[..i])
    {
      assert s[..i + 1] == s[..i] + [s[i]];
      if 'a' <= s[i] <= 'z' {
        assert 'a' <= s[..i + 1][i] <= 'z';
        hasLower := true;
      } else if 'A' <= s[i] <= 'Z' {
        assert 'A' <= s[..i + 1][i] <= 'Z';
        hasUpper := true;
      }
      HasAppend(s[..i], s[i]);
    }
    assert s[..|s|] == s;
    ok := !(hasLower && hasUpper);
  }

  lemma HasAppend(s: string, c: char)
    ensures HasLower(s + [c]) <==> HasLower(s) || 'a' <= c <= 'z'
    ensures HasUpper(s + [c]) <==> HasUpper(s) || 'A' <= c <= 'Z'
  {
    var t := s + [c];
    assert t[|s|] == c;
    assert forall i :: 0 <= i < |s| ==> t[i] == s[i];
  }

  /** Finds the payload, checking a prefix that is there. */
  method SplitPrefix(addr: string, expectedPrefix: string) returns (payload: Option<string>)
    ensures payload.None? ==> forall p :: !IsPayloadOf(p, addr, expectedPrefix)
    ensures payload.Some? ==> forall p :: IsPayloadOf(p, addr, expectedPrefix) <==> p == payload.value
  {
    var sep := Find(addr, ':');
    if sep < |addr| {
      assert forall k :: 0 <= k < |addr| && addr[k] == ':' && ':' !in addr[..k] ==> k == sep;
      if sep != |expectedPrefix| || Lower(addr[..sep]) != Lower(expectedPrefix) {
        return None;
      }
      payload := Some(addr[sep + 1..]);
    } else {
      assert addr[..sep] == addr;
      payload := Some(addr);
    }
  }

  /** The charset loop: the symbols of a payload, or nothing if a character is outside the set. */
  method SymbolsOf(payload: string) returns (data: Option<seq<Symbol>>)
    ensures data.Some? ==> Chars(data.value) == Lower(payload)
    ensures data.None? ==> forall w :: Chars(w) != Lower(payload)
  {
    var symbols: seq<Symbol> := [];
    for i := 0 to |payload|
      invariant |symbols| == i && Chars(symbols) == Lower(payload)[..i]
    {
      var value := CharsetRev(ToLower(payload[i]));
      if value < 0 {
        forall w: seq<Symbol>
          ensures Chars(w) != Lower(payload)
        {
          if Chars(w) == Lower(payload) {
            assert Chars(w)[i] == ToLower(payload[i]);
            CharsetBack(w[i] as int);
          }
        }
        return None;
      }
      SymbolValue(value);
      symbols := symbols + [value as bv5];
      assert Chars(symbols)[i] == Lower(payload)[i];
    }
    data := Some(symbols);
  }

  lemma PrefixInRange(prefix: string, data: seq<Symbol>)
    ensures InRange(PrefixState(prefix)) && InRange(Feed(PrefixState(prefix), data))
  {
    hide Feed;
    OneInRange();
    FeedInRange(1, PrefixSymbols(prefix));
    FeedInRange(PrefixState(prefix), data);
  }

  /** A word passes the checksum test exactly when its last eight symbols are the checksum of the rest. */
  lemma ChecksumTest(prefix: string, data: seq<Symbol>, n: nat)
    requires |data| == n + 8
    ensures Feed(1, PrefixSymbols(prefix) + data) == 1
       <==> data[n..] == Checksum(Feed(PrefixState(prefix), data[..n]))
  {
    hide Feed, Checksum, InRange;
    FeedConcat(1, PrefixSymbols(prefix), data);
    assert data == data[..n] + data[n..];
    FeedConcat(PrefixState(prefix), data[..n], data[n..]);
    PrefixInRange(prefix, data[..n]);
    ExactlyOneChecksum(Feed(PrefixState(prefix), data[..n]), data[n..]);
  }

  lemma EncodeSymbolsShape(prefix: string, version: byte, hash: seq<byte>)
    requires |hash| == 20
    ensures
      var data := EncodeSymbols(prefix, version, hash);
      && |data| == 42 && data[..34] == Regroup8To5([version] + hash)
      && data[34..] == Checksum(Feed(PrefixState(prefix), data[..34]))
  {
    hide Checksum, Feed;
    assert |Regroup8To5([version] + hash)| == 34;
  }

  /** `data` are the symbols of an address with a 20-byte hash and a version byte of type P2PKH or P2SH. */
  ghost predicate SymbolsEncode(data: seq<Symbol>, prefix: string, version: byte, hash: seq<byte>) {
    version < 16 && |hash| == 20 && |prefix| <= 90 && data == EncodeSymbols(prefix, version, hash)
  }

  /** The part of the decoder after the charset loop: checksum, regrouping, length and version byte. */
  method DecodeSymbols(prefix: string, data: seq<Symbol>) returns (r: Option<Decoded>)
    requires 14 <= |data| <= 112
    ensures r.Some? ==> exists version ::
      SymbolsEncode(data, prefix, version, r.value.hash160) && (version >= 8 <==> r.value.isP2sh)
    ensures forall version, hash :: SymbolsEncode(data, prefix, version, hash) ==> r == Some(Decoded(hash, version >= 8))
  {
    hide Feed, Checksum, InRange, PrefixSymbols, PrefixState, EncodeSymbols, Bits5, Bits8, Regroup8To5;
    var n := |data| - 8;
    forall version, hash | SymbolsEncode(data, prefix, version, hash)
      ensures n == 34 && data[..n] == Regroup8To5([version] + hash)
      ensures data[n..] == Checksum(Feed(PrefixState(prefix), data[..n]))
    {
      EncodeSymbolsShape(prefix, version, hash);
    }
    if |prefix| + 1 + |data| > 133 {
      return None;
    }
    ChecksumTest(prefix, data, n);
    var c := PolymodOf(PrefixSymbols(prefix) + data);
    if c != 1 {
      return None;
    }
    var decoded := new byte[65];
    var converted, decodedLen := ConvertBits5To8(decoded, data[..n]);
    ConversionExact(data[..n], decoded[..decodedLen], converted);
    if !converted {
      return None;
    }
    if decodedLen != 21 {
      return None;
    }
    var version := decoded[0];
    assert decoded[..21] == [version] + decoded[1..21];
    if version >= 0x80 {
      return None;
    }
    var kind := version / 8 % 16;
    if kind != 0 && kind != 1 {
      return None;
    }
    r := Some(Decoded(decoded[1..21], kind == 1));
    EncodeSymbolsFrom(prefix, data, version, decoded[1..21]);
    assert SymbolsEncode(data, prefix, version, decoded[1..21]);
  }

  lemma EncodeSymbolsFrom(prefix: string, data: seq<Symbol>, version: byte, hash: seq<byte>)
    requires |data| == 42 && data[..34] == Regroup8To5([version] + hash)
    requires data[34..] == Checksum(Feed(PrefixState(prefix), data[..34]))
    ensures data == EncodeSymbols(prefix, version, hash)
  {
    hide Checksum, Feed, Regroup8To5;
    assert data == data[..34] + data[34..];
  }

  /** What `convert_bits_5to8` reports, in terms of the regrouping: it succeeds exactly on the
      regroupings of byte strings, and then the output is the byte string. */
  lemma ConversionExact(in5: seq<Symbol>, bytes: seq<byte>, ok: bool)
    requires |bytes| == 5 * |in5| / 8 && Bits5(in5)[..8 * |bytes|] == Bits8(bytes)
    requires ok <==> 5 * |in5| % 8 < 5 && Bits5(in5)[8 * |bytes|..] == Zeros(5 * |in5| % 8)
    ensures ok <==> in5 == Regroup8To5(bytes)
    ensures forall b: seq<byte> :: in5 == Regroup8To5(b) ==> ok && b == bytes
  {
    hide Bits5, Bits8, Regroup8To5;
    assert Bits5(in5) == Bits5(in5)[..8 * |bytes|] + Bits5(in5)[8 * |bytes|..];
    RegroupExact(in5, bytes);
    forall b: seq<byte> | in5 == Regroup8To5(b)
      ensures b == bytes
    {
      RegroupExact(in5, b);
      SameLength(5 * |in5|, |b|);
      assert Bits5(in5)[..8 * |b|] == Bits8(b);
      Bits8Injective(b, bytes);
    }
  }

  lemma SameLength(n: nat, m: nat)
    requires 0 <= n - 8 * m < 5
    ensures m == n / 8
  {}

  /** `cashaddr_decode_checked`: it accepts exactly the addresses of the expected network, with or
      without their prefix and in either case, and returns their hash and type. A payload with other
      than ASCII characters, which no address has, is looked up past the end of the 128 entries of the
      reverse table, so that what comes out depends on what lies there. */
  method CashaddrDecodeChecked(addr: string, expectedPrefix: string) returns (r: Option<Decoded>)
    ensures InTable(addr, expectedPrefix) && r.Some? ==> exists version ::
      IsAddressOf(addr, expectedPrefix, version, r.value.hash160) && (version >= 8 <==> r.value.isP2sh)
    ensures forall version, hash ::
      IsAddressOf(addr, expectedPrefix, version, hash) ==> r == Some(Decoded(hash, version >= 8))
  {
    hide HasLower, HasUpper, EncodeSymbols, IsPayloadOf, Ascii;
    var consistent := CaseIsConsistent(addr);
    if !consistent {
      return None;
    }
    var payload := SplitPrefix(addr, expectedPrefix);
    if payload.None? {
      return None;
    }
    forall version, hash | IsAddressOf(addr, expectedPrefix, version, hash)
      ensures |payload.value| == 42 && Ascii(payload.value)
    {
      EncodeSymbolsShape(expectedPrefix, version, hash);
      AddressInTable(addr, expectedPrefix, version, hash);
    }
    if |payload.value| < 14 || |payload.value| > 112 {
      return None;
    }
    if !Ascii(payload.value) {
      r := *;
      return;
    }
    r := DecodePayload(addr, expectedPrefix, payload.value);
  }

  /** The decoder from the charset loop on. */
  method DecodePayload(ghost addr: string, expectedPrefix: string, payload: string) returns (r: Option<Decoded>)
    requires 14 <= |payload| <= 112 && !(HasLower(addr) && HasUpper(addr))
    requires forall p :: IsPayloadOf(p, addr, expectedPrefix) <==> p == payload
    ensures r.Some? ==> exists version ::
      IsAddressOf(addr, expectedPrefix, version, r.value.hash160) && (version >= 8 <==> r.value.isP2sh)
    ensures forall version, hash ::
      IsAddressOf(addr, expectedPrefix, version, hash) ==> r == Some(Decoded(hash, version >= 8))
  {
    hide HasLower, HasUpper, EncodeSymbols, IsPayloadOf;
    var data := SymbolsOf(payload);
    forall version, hash | IsAddressOf(addr, expectedPrefix, version, hash)
      ensures Lower(payload) == Chars(EncodeSymbols(expectedPrefix, version, hash))
    {}
    if data.None? {
      return None;
    }
    forall version, hash | IsAddressOf(addr, expectedPrefix, version, hash)
      ensures SymbolsEncode(data.value, expectedPrefix, version, hash)
    {
      CharsInjective(data.value, EncodeSymbols(expectedPrefix, version, hash));
    }
    r := DecodeSymbols(expectedPrefix, data.value);
    assert IsPayloadOf(payload, addr, expectedPrefix);
    forall version, hash | SymbolsEncode(data.value, expectedPrefix, version, hash)
      ensures IsAddressOf(addr, expectedPrefix, version, hash)
    {}
  }

  // ----- what acceptance means -----

  /** An address stands for one version byte and one hash. */
  lemma AddressUnambiguous(addr: string, prefix: string, v: byte, h: seq<byte>, v': byte, h': seq<byte>)
    requires IsAddressOf(addr, prefix, v, h) && IsAddressOf(addr, prefix, v', h')
    ensures v == v' && h == h'
  {
    hide Feed, Checksum, Regroup8To5;
    PayloadUnique(addr, prefix);
    CharsInjective(EncodeSymbols(prefix, v, h), EncodeSymbols(prefix, v', h'));
    EncodeSymbolsShape(prefix, v, h);
    EncodeSymbolsShape(prefix, v', h');
    RegroupInjective([v] + h, [v'] + h');
    assert ([v] + h)[0] == ([v'] + h')[0] && ([v] + h)[1..] == h && ([v'] + h')[1..] == h';
  }

  lemma PayloadUnique(addr: string, prefix: string)
    ensures forall p, q :: IsPayloadOf(p, addr, prefix) && IsPayloadOf(q, addr, prefix) ==> p == q
  {}

  function Upper(s: string): (u: string)
    ensures |u| == |s|
  {
    seq(|s|, i requires 0 <= i < |s| => if 'a' <= s[i] <= 'z' then (s[i] as int - 32) as char else s[i])
  }

  ghost predicate PlainLower(s: string) {
    forall i :: 0 <= i < |s| ==> '0' <= s[i] <= '9' || 'a' <= s[i] <= 'z'
  }

  /** Every hash encodes to an address in the bare, the prefixed and the upper-case form. */
  lemma EncodedIsAddress(prefix: string, version: byte, hash: seq<byte>)
    requires PlainLower(prefix) && |prefix| <= 90 && version < 16 && |hash| == 20
    ensures IsAddressOf(Encode(prefix, version, hash), prefix, version, hash)
    ensures IsAddressOf(prefix + ":" + Encode(prefix, version, hash), prefix, version, hash)
    ensures IsAddressOf(Upper(prefix + ":" + Encode(prefix, version, hash)), prefix, version, hash)
  {
    hide Encode, EncodeSymbols, IsPayloadOf, PlainLower, HasLower, HasUpper;
    var e := Encode(prefix, version, hash);
    EncodePlain(prefix, version, hash);
    PlainCases(e);
    var full := prefix + ":" + e;
    OneCase(e, prefix);
    SplitForms(prefix, e);
    assert IsPayloadOf(e, e, prefix);
    assert IsPayloadOf(e, full, prefix);
    assert IsPayloadOf(Upper(e), Upper(full), prefix);
  }

  lemma EncodePlain(prefix: string, version: byte, hash: seq<byte>)
    ensures PlainLower(Encode(prefix, version, hash))
  {
    hide EncodeSymbols;
    CharsPlain(EncodeSymbols(prefix, version, hash));
  }

  lemma OneCase(e: string, prefix: string)
    requires PlainLower(e) && PlainLower(prefix)
    ensures !HasUpper(e) && !HasUpper(prefix + ":" + e) && !HasLower(Upper(prefix + ":" + e))
  {}

  lemma SplitForms(prefix: string, e: string)
    requires PlainLower(e) && PlainLower(prefix)
    ensures IsPayloadOf(e, e, prefix)
    ensures IsPayloadOf(e, prefix + ":" + e, prefix)
    ensures IsPayloadOf(Upper(e), Upper(prefix + ":" + e), prefix)
  {
    PlainCases(e);
    PlainCases(prefix);
    var full := prefix + ":" + e;
    assert full[..|prefix|] == prefix && full[|prefix| + 1..] == e;
    var up := Upper(full);
    assert up[..|prefix|] == Upper(prefix) && up[|prefix| + 1..] == Upper(e);
  }

  lemma CharsPlain(data: seq<Symbol>)
    ensures PlainLower(Chars(data))
  {
    forall i | 0 <= i < |data|
      ensures '0' <= Chars(data)[i] <= '9' || 'a' <= Chars(data)[i] <= 'z'
    {
      CharsetPlain(data[i] as int);
    }
  }

  lemma PlainCases(s: string)
    requires PlainLower(s)
    ensures Lower(s) == s && Lower(Upper(s)) == s
    ensures ':' !in s && ':' !in Upper(s)
  {}

  lemma FeedNext(vs: seq<Symbol>, n: nat, x: bv64, y: bv64)
    requires n < |vs| && Feed(1, vs[..n]) == x && Step(x, vs[n]) == y
    ensures Feed(1, vs[..n + 1]) == y
  {
    assert vs[..n + 1][..n] == vs[..n];
  }

  lemma FeedStart(vs: seq<Symbol>)
    ensures Feed(1, vs[..0]) == 1
  {}

  lemma MainnetQuarter()
    ensures Feed(1, PrefixSymbols("bitcoincash")[..3]) == 0x8934
  {
    var p := PrefixSymbols("bitcoincash");
    MainnetSymbols();
    FeedStart(p);
    hide Feed, PrefixSymbols;
    FeedNext(p, 0, 0x1, 0x22);
    FeedNext(p, 1, 0x22, 0x449);
    FeedNext(p, 2, 0x449, 0x8934);
  }

  lemma MainnetHalf()
    ensures Feed(1, PrefixSymbols("bitcoincash")[..6]) == 0x449a0de9
  {
    var p := PrefixSymbols("bitcoincash");
    MainnetSymbols();
    MainnetQuarter();
    hide Feed, PrefixSymbols;
    FeedNext(p, 3, 0x8934, 0x112683);
    FeedNext(p, 4, 0x112683, 0x224d06f);
    FeedNext(p, 5, 0x224d06f, 0x449a0de9);
  }

  lemma MainnetState()
    ensures PrefixState("bitcoincash") == 0xf669cd6d15
  {
    var p := PrefixSymbols("bitcoincash");
    MainnetSymbols();
    MainnetHalf();
    hide Feed, PrefixSymbols;
    FeedNext(p, 6, 0x449a0de9, 0x89341bd2e);
    FeedNext(p, 7, 0x89341bd2e, 0x8a9a8b2ba2);
    FeedNext(p, 8, 0x8a9a8b2ba2, 0xd5ec9a1e50);
    FeedNext(p, 9, 0xd5ec9a1e50, 0x7445c65529);
    FeedNext(p, 10, 0x7445c65529, 0xac1f536da6);
    FeedNext(p, 11, 0xac1f536da6, 0xf669cd6d15);
    assert p[..12] == p;
  }

  lemma MainnetSymbols()
    ensures PrefixSymbols("bitcoincash") == [2, 9, 20, 3, 15, 9, 14, 3, 1, 19, 8, 0]
  {}

  lemma TestnetState()
    ensures PrefixState("bchtest") == 0x8823fe40e1
  {
    var p := PrefixSymbols("bchtest");
    TestnetSymbols();
    FeedStart(p);
    hide Feed, PrefixSymbols;
    FeedNext(p, 0, 0x1, 0x22);
    FeedNext(p, 1, 0x22, 0x443);
    FeedNext(p, 2, 0x443, 0x8868);
    FeedNext(p, 3, 0x8868, 0x110d14);
    FeedNext(p, 4, 0x110d14, 0x221a285);
    FeedNext(p, 5, 0x221a285, 0x443450b3);
    FeedNext(p, 6, 0x443450b3, 0x8868a1674);
    FeedNext(p, 7, 0x8868a1674, 0x8823fe40e1);
    assert p[..8] == p;
  }

  lemma TestnetSymbols()
    ensures PrefixSymbols("bchtest") == [2, 3, 8, 20, 5, 19, 20, 0]
  {}

  lemma RegtestState()
    ensures PrefixState("bchreg") == 0x8868914e0
  {
    var p := PrefixSymbols("bchreg");
    RegtestSymbols();
    FeedStart(p);
    hide Feed, PrefixSymbols;
    FeedNext(p, 0, 0x1, 0x22);
    FeedNext(p, 1, 0x22, 0x443);
    FeedNext(p, 2, 0x443, 0x8868);
    FeedNext(p, 3, 0x8868, 0x110d12);
    FeedNext(p, 4, 0x110d12, 0x221a245);
    FeedNext(p, 5, 0x221a245, 0x443448a7);
    FeedNext(p, 6, 0x443448a7, 0x8868914e0);
    assert p[..7] == p;
  }

  lemma RegtestSymbols()
    ensures PrefixSymbols("bchreg") == [2, 3, 8, 18, 5, 7, 0]
  {}

  const NETWORKS: set<string> := {"bitcoincash", "bchtest", "bchreg"}

  lemma NetworkStatesDiffer(p: string, q: string)
    requires p in NETWORKS && q in NETWORKS && p != q
    ensures PrefixState(p) != PrefixState(q)
  {
    hide PrefixState;
    MainnetState();
    TestnetState();
    RegtestState();
  }

  /** No payload checksums under two of the three networks, whatever its length and content. */
  lemma NoTwoNetworks(p: string, q: string, data: seq<Symbol>)
    requires p in NETWORKS && q in NETWORKS && p != q
    ensures !(Feed(1, PrefixSymbols(p) + data) == 1 && Feed(1, PrefixSymbols(q) + data) == 1)
  {
    hide Feed, InRange;
    FeedConcat(1, PrefixSymbols(p), data);
    FeedConcat(1, PrefixSymbols(q), data);
    NetworkStatesDiffer(p, q);
    PrefixInRange(p, []);
    PrefixInRange(q, []);
    if Feed(PrefixState(p), data) == Feed(PrefixState(q), data) {
      FeedInjective(PrefixState(p), PrefixState(q), data);
    }
  }

  lemma EncodedChecksums(prefix: string, version: byte, hash: seq<byte>)
    requires |hash| == 20
    ensures Feed(1, PrefixSymbols(prefix) + EncodeSymbols(prefix, version, hash)) == 1
  {
    EncodeSymbolsShape(prefix, version, hash);
    ChecksumTest(prefix, EncodeSymbols(prefix, version, hash), 34);
  }

  /** A text without a prefix is not an address of two networks. */
  lemma BareAddressOfOneNetwork(addr: string, p: string, q: string, v: byte, h: seq<byte>, v': byte, h': seq<byte>)
    requires p in NETWORKS && q in NETWORKS && p != q && ':' !in addr
    requires IsAddressOf(addr, p, v, h)
    ensures !IsAddressOf(addr, q, v', h')
  {
    hide Feed, EncodeSymbols, PrefixSymbols;
    if IsAddressOf(addr, q, v', h') {
      CharsInjective(EncodeSymbols(p, v, h), EncodeSymbols(q, v', h'));
      EncodedChecksums(p, v, h);
      EncodedChecksums(q, v', h');
      NoTwoNetworks(p, q, EncodeSymbols(p, v, h));
    }
  }

  /** Changing up to eight consecutive payload characters of an address, by more than their case,
      never gives another address of the same network, whatever hash or type it would stand for. */
  lemma BurstRejected(addr: string, addr': string, payload: string, payload': string, i: nat, k: nat,
                      prefix: string, v: byte, h: seq<byte>, v': byte, h': seq<byte>)
    requires IsAddressOf(addr, prefix, v, h) && IsPayloadOf(payload, addr, prefix)
    requires IsAddressOf(addr', prefix, v', h') && IsPayloadOf(payload', addr', prefix)
    requires i + k <= |payload| == |payload'| && k <= 8
    requires Lower(payload)[..i] == Lower(payload')[..i] && Lower(payload)[i + k..] == Lower(payload')[i + k..]
    ensures Lower(payload) == Lower(payload')
  {
    hide Feed, EncodeSymbols, PrefixSymbols, InRange;
    PayloadUnique(addr, prefix);
    PayloadUnique(addr', prefix);
    var d, d' := EncodeSymbols(prefix, v, h), EncodeSymbols(prefix, v', h');
    var pre := PrefixSymbols(prefix);
    assert Chars(d[..i]) == Lower(payload)[..i] && Chars(d'[..i]) == Lower(payload')[..i];
    assert Chars(d[i + k..]) == Lower(payload)[i + k..] && Chars(d'[i + k..]) == Lower(payload')[i + k..];
    CharsInjective(d[..i], d'[..i]);
    CharsInjective(d[i + k..], d'[i + k..]);
    EncodedChecksums(prefix, v, h);
    EncodedChecksums(prefix, v', h');
    assert pre + d == pre + d[..i] + d[i..i + k] + d[i + k..];
    assert pre + d' == pre + d'[..i] + d'[i..i + k] + d'[i + k..];
    OneInRange();
    BurstDetected(1, pre + d[..i], d[i..i + k], d'[i..i + k], d[i + k..]);
    assert d == d[..i] + d[i..i + k] + d[i + k..];
  }
}
