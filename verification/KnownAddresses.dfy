/** Addresses whose bytes are known from elsewhere: two CashAddr texts of POOL_FEE.md, which pass the
    checksum of the main network, and a legacy text of test/addrclassify.c, which stands for a version byte,
    a hash and a checksum. They are worked out six or seven characters at a time. */
module KnownAddresses {
  import opened Bytes
  import opened Polymod
  import opened CashAddr
  import Base58

  // ----- addresses from the documentation -----

  lemma FeedSix(c: bv64, v: seq<Symbol>)
    requires |v| == 6
    ensures Feed(c, v) == Step(Step(Step(Step(Step(Step(c, v[0]), v[1]), v[2]), v[3]), v[4]), v[5])
  {
    hide Step;
    var w := v[..5];
    assert w[..4] == v[..4] && v[..4][..3] == v[..3] && v[..3][..2] == v[..2] && v[..2][..1] == v[..1] && v[..1][..0] == [];
    assert Feed(c, v[..1]) == Step(c, v[0]);
    assert Feed(c, v[..2]) == Step(Feed(c, v[..1]), v[1]);
    assert Feed(c, v[..3]) == Step(Feed(c, v[..2]), v[2]);
    assert Feed(c, v[..4]) == Step(Feed(c, v[..3]), v[3]);
    assert Feed(c, w) == Step(Feed(c, v[..4]), v[4]);
  }

  /** Six more characters of a text take the checksum from one state to another. */
  lemma SixMore(c: bv64, v: seq<Symbol>, s: bv64, w: seq<Symbol>, x: bv64, y: bv64, z: bv64, r: bv64, p: bv64, t: bv64)
    requires Feed(c, v) == s && |w| == 6
    requires Step(s, w[0]) == x && Step(x, w[1]) == y && Step(y, w[2]) == z && Step(z, w[3]) == r && Step(r, w[4]) == p && Step(p, w[5]) == t
    ensures Feed(c, v + w) == t
  {
    hide Step, Feed;
    FeedConcat(c, v, w);
    FeedSix(s, w);
  }

  lemma MinerSix1(p: seq<Symbol>, d: seq<Symbol>)
    requires Feed(1, p + d) == 0xf669cd6d15 && Chars(d) == ""
    ensures Feed(1, p + (d + [0, 3, 5, 20, 16, 4])) == 0x5ab876ed6b && Chars(d + [0, 3, 5, 20, 16, 4]) == "qr95sy"
  {
    hide Feed;
    SixMore(1, p + d, 0xf669cd6d15, [0, 3, 5, 20, 16, 4], 0xf7d1778e5e, 0xc0c62be73d, 0xa8a494e17d, 0x61113cf661, 0x7f376a9d5c, 0x5ab876ed6b);
    CharsetLetters();
    assert Chars([0, 3, 5, 20, 16, 4]) == "qr95sy";
    CharsConcat(p, d, [0, 3, 5, 20, 16, 4]);
  }

  lemma MinerSix2(p: seq<Symbol>, d: seq<Symbol>)
    requires Feed(1, p + d) == 0x5ab876ed6b && Chars(d) == "qr95sy"
    ensures Feed(1, p + (d + [17, 18, 5, 6, 14, 13])) == 0xc5b948bd27 && Chars(d + [17, 18, 5, 6, 14, 13]) == "qr95sy3j9xwd"
  {
    hide Feed;
    SixMore(1, p + d, 0x5ab876ed6b, [17, 18, 5, 6, 14, 13], 0x1865a7585a, 0xedf13a1cd1, 0x658a48a158, 0xec59e07a6a, 0x5091047633, 0xc5b948bd27);
    CharsetLetters();
    assert Chars([17, 18, 5, 6, 14, 13]) == "3j9xwd";
    CharsConcat(p, d, [17, 18, 5, 6, 14, 13]);
  }

  lemma MinerSix3(p: seq<Symbol>, d: seq<Symbol>)
    requires Feed(1, p + d) == 0xc5b948bd27 && Chars(d) == "qr95sy3j9xwd"
    ensures Feed(1, p + (d + [10, 29, 1, 17, 10, 6])) == 0xa443da4509 && Chars(d + [10, 29, 1, 17, 10, 6]) == "qr95sy3j9xwd2ap32x"
  {
    hide Feed;
    SixMore(1, p + d, 0xc5b948bd27, [10, 29, 1, 17, 10, 6], 0x748ffa232, 0xe91ff4465d, 0xf85383f0dc, 0xa86a18b90e, 0x78c0b7f81f, 0xa443da4509);
    CharsetLetters();
    assert Chars([10, 29, 1, 17, 10, 6]) == "2ap32x";
    CharsConcat(p, d, [10, 29, 1, 17, 10, 6]);
  }

  lemma MinerSix4(p: seq<Symbol>, d: seq<Symbol>)
    requires Feed(1, p + d) == 0xa443da4509 && Chars(d) == "qr95sy3j9xwd2ap32x"
    ensures Feed(1, p + (d + [22, 4, 22, 11, 11, 3])) == 0xeba7b10672 && Chars(d + [22, 4, 22, 11, 11, 3]) == "qr95sy3j9xwd2ap32xkykttr"
  {
    hide Feed;
    SixMore(1, p + d, 0xa443da4509, [22, 4, 22, 11, 11, 3], 0x650a54f682, 0xfc5a6a8128, 0x2957368789, 0x412a33cc8e, 0x8b68d27363, 0xeba7b10672);
    CharsetLetters();
    assert Chars([22, 4, 22, 11, 11, 3]) == "kykttr";
    CharsConcat(p, d, [22, 4, 22, 11, 11, 3]);
  }

  lemma MinerSix5(p: seq<Symbol>, d: seq<Symbol>)
    requires Feed(1, p + d) == 0xeba7b10672 && Chars(d) == "qr95sy3j9xwd2ap32xkykttr"
    ensures Feed(1, p + (d + [21, 24, 12, 24, 28, 30])) == 0x6d0511e60a && Chars(d + [21, 24, 12, 24, 28, 30]) == "qr95sy3j9xwd2ap32xkykttr4cvcu7"
  {
    hide Feed;
    SixMore(1, p + d, 0xeba7b10672, [21, 24, 12, 24, 28, 30], 0xaf5b2bf528, 0x9ee6de7ccd, 0x23d15d6a5f, 0x8915f2f83c, 0xa403a06d8d, 0x6d0511e60a);
    CharsetLetters();
    assert Chars([21, 24, 12, 24, 28, 30]) == "4cvcu7";
    CharsConcat(p, d, [21, 24, 12, 24, 28, 30]);
  }

  lemma MinerSix6(p: seq<Symbol>, d: seq<Symbol>)
    requires Feed(1, p + d) == 0x6d0511e60a && Chars(d) == "qr95sy3j9xwd2ap32xkykttr4cvcu7"
    ensures Feed(1, p + (d + [29, 16, 21, 4, 15, 0])) == 0x71a1bb4b25 && Chars(d + [29, 16, 21, 4, 15, 0]) == "qr95sy3j9xwd2ap32xkykttr4cvcu7as4y0q"
  {
    hide Feed;
    SixMore(1, p + d, 0x6d0511e60a, [29, 16, 21, 4, 15, 0], 0x6540741e50, 0xf51e779b7c, 0x992629436b, 0xdbcfba9e97, 0x28d36ac3b4, 0x71a1bb4b25);
    CharsetLetters();
    assert Chars([29, 16, 21, 4, 15, 0]) == "as4y0q";
    CharsConcat(p, d, [29, 16, 21, 4, 15, 0]);
  }

  lemma MinerSix7(p: seq<Symbol>, d: seq<Symbol>)
    requires Feed(1, p + d) == 0x71a1bb4b25 && Chars(d) == "qr95sy3j9xwd2ap32xkykttr4cvcu7as4y0q"
    ensures Feed(1, p + (d + [12, 25, 3, 9, 28, 4])) == 0x1 && Chars(d + [12, 25, 3, 9, 28, 4]) == "qr95sy3j9xwd2ap32xkykttr4cvcu7as4y0qverfuy"
  {
    hide Feed;
    SixMore(1, p + d, 0x71a1bb4b25, [12, 25, 3, 9, 28, 4], 0x1090f0ac22, 0x6ba9781dbb, 0xb0cd4b686e, 0x8d6f1cc39f, 0x2b5e6719ed, 0x1);
    CharsetLetters();
    assert Chars([12, 25, 3, 9, 28, 4]) == "verfuy";
    CharsConcat(p, d, [12, 25, 3, 9, 28, 4]);
  }

  /** The miner's address of POOL_FEE.md passes the checksum. */
  lemma MinerAddress() returns (data: seq<Symbol>)
    ensures Chars(data) == "qr95sy3j9xwd2ap32xkykttr4cvcu7as4y0qverfuy"
    ensures Feed(1, PrefixSymbols("bitcoincash") + data) == 1
  {
    hide Feed, PrefixSymbols, Chars;
    var p := PrefixSymbols("bitcoincash");
    MainnetState();
    data := [];
    assert p + data == p;
    assert Chars(data) == "" by {
      NoChars();
    }
    MinerSix1(p, data);
    data := data + [0, 3, 5, 20, 16, 4];
    MinerSix2(p, data);
    data := data + [17, 18, 5, 6, 14, 13];
    MinerSix3(p, data);
    data := data + [10, 29, 1, 17, 10, 6];
    MinerSix4(p, data);
    data := data + [22, 4, 22, 11, 11, 3];
    MinerSix5(p, data);
    data := data + [21, 24, 12, 24, 28, 30];
    MinerSix6(p, data);
    data := data + [29, 16, 21, 4, 15, 0];
    MinerSix7(p, data);
    data := data + [12, 25, 3, 9, 28, 4];
  }

  lemma PoolSix1(p: seq<Symbol>, d: seq<Symbol>)
    requires Feed(1, p + d) == 0xf669cd6d15 && Chars(d) == ""
    ensures Feed(1, p + (d + [0, 3, 25, 8, 25, 13])) == 0x5ab8789c42 && Chars(d + [0, 3, 25, 8, 25, 13]) == "qreged"
  {
    hide Feed;
    SixMore(1, p + d, 0xf669cd6d15, [0, 3, 25, 8, 25, 13], 0xf7d1778e5e, 0xc0c62be73d, 0xa8a494e161, 0x61113cf5fd, 0x7f376aeed5, 0x5ab8789c42);
    CharsetLetters();
    assert Chars([0, 3, 25, 8, 25, 13]) == "qreged";
    CharsConcat(p, d, [0, 3, 25, 8, 25, 13]);
  }

  lemma PoolSix2(p: seq<Symbol>, d: seq<Symbol>)
    requires Feed(1, p + d) == 0x5ab8789c42 && Chars(d) == "qreged"
    ensures Feed(1, p + (d + [14, 27, 8, 7, 11, 3])) == 0x94034cdbd && Chars(d + [14, 27, 8, 7, 11, 3]) == "qregedwmg8tr"
  {
    hide Feed;
    SixMore(1, p + d, 0x5ab8789c42, [14, 27, 8, 7, 11, 3], 0x1864697d65, 0xedc8febb38, 0x62b2dc5c75, 0xb4b7fdfcb, 0xf19d47770a, 0x94034cdbd);
    CharsetLetters();
    assert Chars([14, 27, 8, 7, 11, 3]) == "wmg8tr";
    CharsConcat(p, d, [14, 27, 8, 7, 11, 3]);
  }

  lemma PoolSix3(p: seq<Symbol>, d: seq<Symbol>)
    requires Feed(1, p + d) == 0x94034cdbd && Chars(d) == "qregedwmg8tr"
    ensures Feed(1, p + (d + [10, 4, 27, 19, 1, 7])) == 0x144933f9b1 && Chars(d + [10, 4, 27, 19, 1, 7]) == "qregedwmg8tr2ymnp8"
  {
    hide Feed;
    SixMore(1, p + d, 0x94034cdbd, [10, 4, 27, 19, 1, 7], 0xb0f42539cb, 0x8a42d6f732, 0xcee7218c4a, 0xf4776501ea, 0xb4047a11bf, 0x144933f9b1);
    CharsetLetters();
    assert Chars([10, 4, 27, 19, 1, 7]) == "2ymnp8";
    CharsConcat(p, d, [10, 4, 27, 19, 1, 7]);
  }

  lemma PoolSix4(p: seq<Symbol>, d: seq<Symbol>)
    requires Feed(1, p + d) == 0x144933f9b1 && Chars(d) == "qregedwmg8tr2ymnp8"
    ensures Feed(1, p + (d + [18, 26, 9, 15, 11, 25])) == 0x3605651261 && Chars(d + [18, 26, 9, 15, 11, 25]) == "qregedwmg8tr2ymnp8j6f0te"
  {
    hide Feed;
    SixMore(1, p + d, 0x144933f9b1, [18, 26, 9, 15, 11, 25], 0xf09112afd0, 0x28ca8fd6e4, 0x729d19e12c, 0x7704a5ed01, 0xc4332468a5, 0x3605651261);
    CharsetLetters();
    assert Chars([18, 26, 9, 15, 11, 25]) == "j6f0te";
    CharsConcat(p, d, [18, 26, 9, 15, 11, 25]);
  }

  lemma PoolSix5(p: seq<Symbol>, d: seq<Symbol>)
    requires Feed(1, p + d) == 0x3605651261 && Chars(d) == "qregedwmg8tr2ymnp8j6f0te"
    ensures Feed(1, p + (d + [16, 28, 18, 21, 3, 5])) == 0xb06fdf233b && Chars(d + [16, 28, 18, 21, 3, 5]) == "qregedwmg8tr2ymnp8j6f0tesuj4r9"
  {
    hide Feed;
    SixMore(1, p + d, 0x3605651261, [16, 28, 18, 21, 3, 5], 0x4a25906616, 0x726e1bae15, 0x6964ec0a3c, 0xe97fc99898, 0xf45438287e, 0xb06fdf233b);
    CharsetLetters();
    assert Chars([16, 28, 18, 21, 3, 5]) == "suj4r9";
    CharsConcat(p, d, [16, 28, 18, 21, 3, 5]);
  }

  lemma PoolSix6(p: seq<Symbol>, d: seq<Symbol>)
    requires Feed(1, p + d) == 0xb06fdf233b && Chars(d) == "qregedwmg8tr2ymnp8j6f0tesuj4r9"
    ensures Feed(1, p + (d + [31, 0, 19, 0, 18, 9])) == 0x794c46a799 && Chars(d + [31, 0, 19, 0, 18, 9]) == "qregedwmg8tr2ymnp8j6f0tesuj4r9lqnqjf"
  {
    hide Feed;
    SixMore(1, p + d, 0xb06fdf233b, [31, 0, 19, 0, 18, 9], 0x993d95a929, 0xd8b827d6d3, 0x4620c3cb28, 0x6a36d287a8, 0x8338182a1f, 0x794c46a799);
    CharsetLetters();
    assert Chars([31, 0, 19, 0, 18, 9]) == "lqnqjf";
    CharsConcat(p, d, [31, 0, 19, 0, 18, 9]);
  }

  lemma PoolSix7(p: seq<Symbol>, d: seq<Symbol>)
    requires Feed(1, p + d) == 0x794c46a799 && Chars(d) == "qregedwmg8tr2ymnp8j6f0tesuj4r9lqnqjf"
    ensures Feed(1, p + (d + [27, 31, 12, 18, 26, 14])) == 0x1 && Chars(d + [27, 31, 12, 18, 26, 14]) == "qregedwmg8tr2ymnp8j6f0tesuj4r9lqnqjfmlvj6w"
  {
    hide Feed;
    SixMore(1, p + d, 0x794c46a799, [27, 31, 12, 18, 26, 14], 0x95ddf1b5d4, 0xdc4618c70d, 0xd9e721f0f7, 0x6dc0070fa9, 0x7de2a92a37, 0x1);
    CharsetLetters();
    assert Chars([27, 31, 12, 18, 26, 14]) == "mlvj6w";
    CharsConcat(p, d, [27, 31, 12, 18, 26, 14]);
  }

  /** The pool's address of POOL_FEE.md passes the checksum. */
  lemma PoolAddress() returns (data: seq<Symbol>)
    ensures Chars(data) == "qregedwmg8tr2ymnp8j6f0tesuj4r9lqnqjfmlvj6w"
    ensures Feed(1, PrefixSymbols("bitcoincash") + data) == 1
  {
    hide Feed, PrefixSymbols, Chars;
    var p := PrefixSymbols("bitcoincash");
    MainnetState();
    data := [];
    assert p + data == p;
    assert Chars(data) == "" by {
      NoChars();
    }
    PoolSix1(p, data);
    data := data + [0, 3, 25, 8, 25, 13];
    PoolSix2(p, data);
    data := data + [14, 27, 8, 7, 11, 3];
    PoolSix3(p, data);
    data := data + [10, 4, 27, 19, 1, 7];
    PoolSix4(p, data);
    data := data + [18, 26, 9, 15, 11, 25];
    PoolSix5(p, data);
    data := data + [16, 28, 18, 21, 3, 5];
    PoolSix6(p, data);
    data := data + [31, 0, 19, 0, 18, 9];
    PoolSix7(p, data);
    data := data + [27, 31, 12, 18, 26, 14];
  }

  lemma NoChars()
    ensures Chars([]) == ""
  {}

  lemma CharsConcat(p: seq<Symbol>, v: seq<Symbol>, w: seq<Symbol>)
    ensures Chars(v + w) == Chars(v) + Chars(w) && p + (v + w) == p + v + w
  {}

  // ----- an address of the tests -----

  /** Seven more characters of a text. */
  lemma SevenMore(s: string, c: string, x: nat)
    requires |c| == 7 && Base58.InAlphabet(s) && Base58.Value(s) == x && Base58.InAlphabet(c)
    ensures Base58.InAlphabet(s + c)
    ensures Base58.Value(s + c) ==
      58 * (58 * (58 * (58 * (58 * (58 * (58 * x + Base58.Digit(c[0])) + Base58.Digit(c[1])) + Base58.Digit(c[2])) + Base58.Digit(c[3])) + Base58.Digit(c[4])) + Base58.Digit(c[5])) + Base58.Digit(c[6])
  {
    hide Base58.Digit, Base58.Value, Base58.InAlphabet;
    OneMore(s, c, 0);
    OneMore(s, c, 1);
    OneMore(s, c, 2);
    OneMore(s, c, 3);
    OneMore(s, c, 4);
    OneMore(s, c, 5);
    OneMore(s, c, 6);
    assert s + c[..0] == s && c[..7] == c;
  }

  lemma OneMore(s: string, c: string, k: nat)
    requires k < |c| && Base58.InAlphabet(s) && Base58.InAlphabet(c)
    ensures Base58.InAlphabet(s + c[..k]) && Base58.InAlphabet(s + c[..k + 1])
    ensures Base58.Digit(c[k]) < 58 && Base58.Value(s + c[..k + 1]) == 58 * Base58.Value(s + c[..k]) + Base58.Digit(c[k])
  {
    hide Base58.Digit;
    assert (s + c[..k + 1])[..|s| + k] == s + c[..k];
  }

  lemma EmptyValue()
    ensures Base58.InAlphabet("") && Base58.Value("") == 0
  {}

  lemma KnownStart()
    ensures Base58.InAlphabet("1KXrWX") && Base58.Value("1KXrWX") == 209716836
  {
    hide Base58.Value;
    var c := "1KXrWX";
    OneMore("", c, 0);
    OneMore("", c, 1);
    OneMore("", c, 2);
    OneMore("", c, 3);
    OneMore("", c, 4);
    OneMore("", c, 5);
    assert "" + c[..0] == "" && "" + c[..6] == c;
    EmptyValue();
  }

  lemma KnownSeven1(s: string)
    requires Base58.InAlphabet(s) && Base58.Value(s) == 0xc800664
    ensures Base58.InAlphabet(s + "ciRDZUp") && Base58.Value(s + "ciRDZUp") == 0x191a213ce51d02098d
  {
    hide Base58.Value;
    SevenMore(s, "ciRDZUp", 0xc800664);
  }

  lemma KnownSeven2(s: string)
    requires Base58.InAlphabet(s) && Base58.Value(s) == 0x191a213ce51d02098d
    ensures Base58.InAlphabet(s + "QwQmuM1") && Base58.Value(s + "QwQmuM1") == 0x3268a1cab2c9bab31ecb32086328
  {
    hide Base58.Value;
    SevenMore(s, "QwQmuM1", 0x191a213ce51d02098d);
  }

  lemma KnownSeven3(s: string)
    requires Base58.InAlphabet(s) && Base58.Value(s) == 0x3268a1cab2c9bab31ecb32086328
    ensures Base58.InAlphabet(s + "DbwsKDL") && Base58.Value(s + "DbwsKDL") == 0x653a6f7be6c6533fd2ff0f955f9d02926b5ac3
  {
    hide Base58.Value;
    SevenMore(s, "DbwsKDL", 0x3268a1cab2c9bab31ecb32086328);
  }

  lemma KnownSeven4(s: string)
    requires Base58.InAlphabet(s) && Base58.Value(s) == 0x653a6f7be6c6533fd2ff0f955f9d02926b5ac3
    ensures Base58.InAlphabet(s + "YAYsVLR") && Base58.Value(s + "YAYsVLR") == 0xcb481232299cd5743151ac4b2d63ae198e7bb0a96a11a8f6
  {
    hide Base58.Value;
    SevenMore(s, "YAYsVLR", 0x653a6f7be6c6533fd2ff0f955f9d02926b5ac3);
  }

  /** An address of the project's tests says its version byte, its hash and its checksum. */
  lemma LegacyAddress()
    ensures var s := "1KXrWXciRDZUpQwQmuM1DbwsKDLYAYsVLR"; Base58.InAlphabet(s) && Base58.Value(s) == 0xcb481232299cd5743151ac4b2d63ae198e7bb0a96a11a8f6
  {
    hide Base58.Value, Base58.InAlphabet;
    KnownStart();
    KnownSeven1("1KXrWX");
    assert "1KXrWX" + "ciRDZUp" == "1KXrWXciRDZUp";
    KnownSeven2("1KXrWXciRDZUp");
    assert "1KXrWXciRDZUp" + "QwQmuM1" == "1KXrWXciRDZUpQwQmuM1";
    KnownSeven3("1KXrWXciRDZUpQwQmuM1");
    assert "1KXrWXciRDZUpQwQmuM1" + "DbwsKDL" == "1KXrWXciRDZUpQwQmuM1DbwsKDL";
    KnownSeven4("1KXrWXciRDZUpQwQmuM1DbwsKDL");
    assert "1KXrWXciRDZUpQwQmuM1DbwsKDL" + "YAYsVLR" == "1KXrWXciRDZUpQwQmuM1DbwsKDLYAYsVLR";
  }
}
