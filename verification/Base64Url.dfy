/** Unpadded base64url, section 5 of RFC 4648 with the padding of section 3.2 removed. */
module Base64Url {
  import opened Basics
  import opened Validation

  type sextet = x: int | 0 <= x < 64

  // ---- Bytes and six-bit groups ----

  function S0(a: byte): sextet { a / 4 }
  function S1(a: byte, b: byte): sextet { a % 4 * 16 + b / 16 }
  function S2(b: byte, c: byte): sextet { b % 16 * 4 + c / 64 }
  function S3(c: byte): sextet { c % 64 }

  function Sextets(b: seq<byte>): seq<sextet> {
    if |b| == 0 then []
    else if |b| == 1 then [S0(b[0]), S1(b[0], 0)]
    else if |b| == 2 then [S0(b[0]), S1(b[0], b[1]), S2(b[1], 0)]
    else [S0(b[0]), S1(b[0], b[1]), S2(b[1], b[2]), S3(b[2])] + Sextets(b[3..])
  }

  function B0(s: sextet, t: sextet): byte { s * 4 + t / 16 }
  function B1(t: sextet, u: sextet): byte { t % 16 * 16 + u / 4 }
  function B2(u: sextet, v: sextet): byte { u % 4 * 64 + v }

  /** The bytes of a run of sextets; unused trailing bits are dropped (section 3.5). */
  function Bytes(s: seq<sextet>): seq<byte> {
    if |s| < 2 then []
    else if |s| == 2 then [B0(s[0], s[1])]
    else if |s| == 3 then [B0(s[0], s[1]), B1(s[1], s[2])]
    else [B0(s[0], s[1]), B1(s[1], s[2]), B2(s[2], s[3])] + Bytes(s[4..])
  }

  /** How many sextets some bytes take: four for every three bytes, and one more than what is left over. */
  predicate Counts(sextets: int, bytes: int) {
    && 3 * sextets - 4 * bytes == (if bytes % 3 == 0 then 0 else if bytes % 3 == 1 then 2 else 1)
    && sextets % 4 == (if bytes % 3 == 0 then 0 else if bytes % 3 == 1 then 2 else 3)
  }

  lemma CountsStep(sextets: int, bytes: int)
    requires Counts(sextets, bytes)
    ensures Counts(sextets + 4, bytes + 3)
  {
    assert (sextets + 4) % 4 == sextets % 4 && (bytes + 3) % 3 == bytes % 3;
  }

  lemma {:induction false} SextetCount(b: seq<byte>)
    ensures Counts(|Sextets(b)|, |b|)
  {
    if |b| > 2 {
      SextetCount(b[3..]);
      CountsStep(|Sextets(b[3..])|, |b[3..]|);
    }
  }

  lemma {:induction false} ByteCount(s: seq<sextet>)
    requires |s| % 4 != 1
    ensures |Bytes(s)| == |s| * 3 / 4
  {
    if |s| > 3 {
      ByteCount(s[4..]);
    }
  }

  /** The bits of the last sextet that belong to no byte are zero. */
  predicate TrailingBitsZero(s: seq<sextet>)
    requires |s| % 4 != 1
  {
    && (|s| % 4 == 2 ==> s[|s| - 1] % 16 == 0)
    && (|s| % 4 == 3 ==> s[|s| - 1] % 4 == 0)
  }

  lemma OneByteGroup(a: byte)
    ensures B0(S0(a), S1(a, 0)) == a && S1(a, 0) % 16 == 0
  {
  }

  lemma TwoByteGroup(a: byte, b: byte)
    ensures B0(S0(a), S1(a, b)) == a && B1(S1(a, b), S2(b, 0)) == b && S2(b, 0) % 4 == 0
  {
  }

  lemma ThreeByteGroup(a: byte, b: byte, c: byte)
    ensures B0(S0(a), S1(a, b)) == a && B1(S1(a, b), S2(b, c)) == b && B2(S2(b, c), S3(c)) == c
  {
  }

  lemma TwoSextetGroup(s: sextet, t: sextet)
    ensures S0(B0(s, t)) == s
    ensures S1(B0(s, t), 0) == t <==> t % 16 == 0
  {
  }

  lemma ThreeSextetGroup(s: sextet, t: sextet, u: sextet)
    ensures S0(B0(s, t)) == s && S1(B0(s, t), B1(t, u)) == t
    ensures S2(B1(t, u), 0) == u <==> u % 4 == 0
  {
  }

  lemma FourSextetGroup(s: sextet, t: sextet, u: sextet, v: sextet)
    ensures S0(B0(s, t)) == s && S1(B0(s, t), B1(t, u)) == t
    ensures S2(B1(t, u), B2(u, v)) == u && S3(B2(u, v)) == v
  {
  }

  lemma TrailingBitsOfTail(s: seq<sextet>)
    requires |s| > 3 && |s| % 4 != 1
    ensures |s[4..]| % 4 != 1 && (TrailingBitsZero(s) <==> TrailingBitsZero(s[4..]))
  {
    assert |s[4..]| > 0 ==> s[|s| - 1] == s[4..][|s[4..]| - 1];
  }

  lemma BytesStep(s: sextet, t: sextet, u: sextet, v: sextet, rest: seq<sextet>)
    requires |rest| % 4 != 1
    ensures Bytes([s, t, u, v] + rest) == [B0(s, t), B1(t, u), B2(u, v)] + Bytes(rest)
  {
    assert ([s, t, u, v] + rest)[4..] == rest;
  }

  lemma {:induction false} BytesOfSextets(b: seq<byte>)
    ensures Bytes(Sextets(b)) == b
    ensures |Sextets(b)| % 4 != 1 && TrailingBitsZero(Sextets(b))
  {
    SextetCount(b);
    if |b| == 1 {
      OneByteGroup(b[0]);
    } else if |b| == 2 {
      TwoByteGroup(b[0], b[1]);
    } else if |b| > 2 {
      var rest := Sextets(b[3..]);
      BytesOfSextets(b[3..]);
      ThreeByteGroup(b[0], b[1], b[2]);
      BytesStep(S0(b[0]), S1(b[0], b[1]), S2(b[1], b[2]), S3(b[2]), rest);
      TrailingBitsOfTail(Sextets(b));
      assert Sextets(b)[4..] == rest;
      assert b == [b[0], b[1], b[2]] + b[3..];
    }
  }

  lemma SextetsOfOneByte(x: byte, s: sextet, t: sextet)
    ensures Sextets([x]) == [s, t] <==> S0(x) == s && S1(x, 0) == t
  {
    assert Sextets([x]) == [S0(x), S1(x, 0)];
  }

  lemma SextetsOfTwoBytes(x: byte, y: byte, s: sextet, t: sextet, u: sextet)
    ensures Sextets([x, y]) == [s, t, u] <==> S0(x) == s && S1(x, y) == t && S2(y, 0) == u
  {
    assert Sextets([x, y]) == [S0(x), S1(x, y), S2(y, 0)];
  }

  lemma TwoSextets(s: sextet, t: sextet)
    ensures Sextets(Bytes([s, t])) == [s, t] <==> TrailingBitsZero([s, t])
  {
    TwoSextetGroup(s, t);
    SextetsOfOneByte(B0(s, t), s, t);
    assert Bytes([s, t]) == [B0(s, t)];
  }

  lemma ThreeSextets(s: sextet, t: sextet, u: sextet)
    ensures Sextets(Bytes([s, t, u])) == [s, t, u] <==> TrailingBitsZero([s, t, u])
  {
    ThreeSextetGroup(s, t, u);
    SextetsOfTwoBytes(B0(s, t), B1(t, u), s, t, u);
    assert Bytes([s, t, u]) == [B0(s, t), B1(t, u)];
  }

  lemma PairOfSextets(s: seq<sextet>)
    requires |s| == 2
    ensures Sextets(Bytes(s)) == s <==> TrailingBitsZero(s)
  {
    assert s == [s[0], s[1]];
    TwoSextets(s[0], s[1]);
  }

  lemma TripleOfSextets(s: seq<sextet>)
    requires |s| == 3
    ensures Sextets(Bytes(s)) == s <==> TrailingBitsZero(s)
  {
    assert s == [s[0], s[1], s[2]];
    ThreeSextets(s[0], s[1], s[2]);
  }

  lemma NoSextets(s: seq<sextet>)
    requires s == []
    ensures Sextets(Bytes(s)) == s && TrailingBitsZero(s)
  {
  }

  lemma SextetsStep(s: seq<sextet>)
    requires |s| > 3
    ensures Sextets(Bytes(s)) == s[..4] + Sextets(Bytes(s[4..]))
  {
    FourSextetGroup(s[0], s[1], s[2], s[3]);
    assert Bytes(s)[3..] == Bytes(s[4..]);
    assert s[..4] == [s[0], s[1], s[2], s[3]];
  }

  /** Packing and unpacking gives the sextets back exactly when the unused trailing bits are zero. */
  lemma {:induction false} SextetsOfBytes(s: seq<sextet>)
    requires |s| % 4 != 1
    ensures Sextets(Bytes(s)) == s <==> TrailingBitsZero(s)
  {
    if |s| == 0 {
      NoSextets(s);
    } else if |s| == 2 {
      PairOfSextets(s);
    } else if |s| == 3 {
      TripleOfSextets(s);
    } else {
      TrailingBitsOfTail(s);
      SextetsOfBytes(s[4..]);
      assert Sextets(Bytes(s)) == s <==> Sextets(Bytes(s[4..])) == s[4..] by {
        SextetsStep(s);
        SplitAgain(s, Sextets(Bytes(s[4..])));
      }
    }
  }

  lemma SplitAgain(s: seq<sextet>, tail: seq<sextet>)
    requires |s| > 3
    ensures s[..4] + tail == s <==> tail == s[4..]
  {
    assert s == s[..4] + s[4..];
    assert (s[..4] + tail)[4..] == tail;
  }

  // ---- The alphabet ----

  function Char(i: sextet): (c: char)
    ensures IsBase64UrlChar(c)
  {
    if i < 26 then (i + 65) as char
    else if i < 52 then (i + 71) as char
    else if i < 62 then (i - 4) as char
    else if i == 62 then '-'
    else '_'
  }

  predicate IsBase64UrlChar(c: char) {
    IsAlphanumeric(c) || c == '-' || c == '_'
  }

  function Index(c: char): (i: sextet)
    requires IsBase64UrlChar(c)
  {
    var code := c as int;
    if 'A' <= c <= 'Z' then code - 65
    else if 'a' <= c <= 'z' then code - 71
    else if '0' <= c <= '9' then code + 4
    else if c == '-' then 62
    else 63
  }

  lemma AlphabetIsABijection(i: sextet, c: char)
    ensures Index(Char(i)) == i
    ensures IsBase64UrlChar(c) ==> Char(Index(c)) == c
  {
  }

  predicate IsBase64Url(s: string) {
    forall i :: 0 <= i < |s| ==> IsBase64UrlChar(s[i])
  }

  function Write(s: seq<sextet>): (r: string)
    ensures |r| == |s| && IsBase64Url(r)
  {
    seq(|s|, i requires 0 <= i < |s| => Char(s[i]))
  }

  function Read(s: string): (r: seq<sextet>)
    requires IsBase64Url(s)
    ensures |r| == |s|
  {
    seq(|s|, i requires 0 <= i < |s| => Index(s[i]))
  }

  lemma ReadWrite(s: seq<sextet>)
    ensures Read(Write(s)) == s
  {
    forall i | 0 <= i < |s| ensures Read(Write(s))[i] == s[i] {
      AlphabetIsABijection(s[i], 'A');
    }
  }

  lemma WriteRead(s: string)
    requires IsBase64Url(s)
    ensures Write(Read(s)) == s
  {
    forall i | 0 <= i < |s| ensures Write(Read(s))[i] == s[i] {
      AlphabetIsABijection(0, s[i]);
    }
  }

  // ---- The codec ----

  /** `_encode_signature`: an empty signature is an error. */
  function Encode(b: seq<byte>): Option<string> {
    if b == [] then None else Some(Write(Sextets(b)))
  }

  /** `_decode_signature`: restores the padding, then decodes strictly over the url-safe alphabet. */
  function Decode(s: string): Option<seq<byte>> {
    if s == "" || !IsBase64Url(s) || |s| % 4 == 1 then None
    else
      var raw := Bytes(Read(s));
      if raw == [] then None else Some(raw)
  }

  /** Every non-empty byte string survives the round trip, and its text has length ceil(4n/3). */
  lemma DecodeEncode(b: seq<byte>)
    requires b != []
    ensures Encode(b).Some?
    ensures var s := Encode(b).value;
            s != "" && IsBase64Url(s) && 3 * |s| - 4 * |b| in {0, 1, 2} && Decode(s) == Some(b)
  {
    var six := Sextets(b);
    SextetCount(b);
    BytesOfSextets(b);
    ReadWrite(six);
    var s := Write(six);
    assert Read(s) == six;
    assert |s| % 4 != 1;
    assert Bytes(Read(s)) == b;
  }

  /** Exactly the non-empty url-safe texts whose length is not 1 mod 4 decode. */
  lemma DecodesExactly(s: string)
    ensures Decode(s).Some? <==> s != "" && IsBase64Url(s) && |s| % 4 != 1
    ensures Decode(s).Some? ==> Decode(s).value != [] && |Decode(s).value| == |s| * 3 / 4
  {
    if IsBase64Url(s) && |s| % 4 != 1 {
      ByteCount(Read(s));
    }
  }

  /** Re-encoding gives the text back exactly when its unused trailing bits are zero. */
  lemma EncodeDecode(s: string)
    requires Decode(s).Some?
    ensures Encode(Decode(s).value) == Some(s) <==> TrailingBitsZero(Read(s))
  {
    var six := Read(s);
    SextetsOfBytes(six);
    WriteRead(s);
    ReadWrite(Sextets(Bytes(six)));
  }

  lemma PairDecodes(c: sextet, d: sextet)
    ensures Decode([Char(c), Char(d)]) == Some([B0(c, d)])
  {
    ReadWrite([c, d]);
    assert Write([c, d]) == [Char(c), Char(d)];
    assert Bytes([c, d]) == [B0(c, d)];
  }

  lemma ByteEncodes(a: byte)
    ensures Encode([a]) == Some([Char(S0(a)), Char(S1(a, 0))])
  {
    assert Sextets([a]) == [S0(a), S1(a, 0)];
    assert Write([S0(a), S1(a, 0)]) == [Char(S0(a)), Char(S1(a, 0))];
  }

  lemma PairRepacked(c: sextet, d: sextet)
    ensures S0(B0(c, d)) == c && S1(B0(c, d), 0) == d - d % 16
  {
  }

  /** Every two-character text with a trailing bit set decodes, to what the text without those bits decodes
      to, and re-encoding gives that other text. */
  lemma TrailingBitsAreTolerated(c: sextet, d: sextet)
    requires d % 16 != 0
    ensures Decode([Char(c), Char(d)]) == Some([B0(c, d)])
    ensures Encode([B0(c, d)]) == Some([Char(c), Char(d - d % 16)])
    ensures Char(d - d % 16) != Char(d)
  {
    PairDecodes(c, d);
    ByteEncodes(B0(c, d));
    PairRepacked(c, d);
    AlphabetIsABijection(d, 'A');
    AlphabetIsABijection(d - d % 16, 'A');
  }

  /** For one, "AB" decodes to a zero byte, which encodes to "AA". */
  lemma TrailingBitsWitness()
    ensures Decode("AB") == Some([0]) && Encode([0]) == Some("AA") && "AB" != "AA"
  {
    TrailingBitsAreTolerated(0, 1);
    assert [Char(0), Char(1)] == "AB" && [Char(0), Char(0)] == "AA";
  }

  // ---- The alphabet and the bit order ----

  /** The characters of Table 2 of RFC 4648, in order: capital letters, small letters, digits, `-`, and `_`. */
  lemma AlphabetIsTable2(i: sextet)
    ensures i < 26 ==> Char(i) as int == 'A' as int + i
    ensures 26 <= i < 52 ==> Char(i) as int == 'a' as int + i - 26
    ensures 52 <= i < 62 ==> Char(i) as int == '0' as int + i - 52
    ensures i == 62 ==> Char(i) == '-'
    ensures i == 63 ==> Char(i) == '_'
  {
  }

  /** The number that bytes, or sextets, read after `high` give, most significant first. */
  function ReadBytes(high: int, b: seq<byte>): int
    decreases |b|
  {
    if b == [] then high else ReadBytes(high * 256 + b[0], b[1..])
  }

  function ReadSextets(high: int, s: seq<sextet>): int
    decreases |s|
  {
    if s == [] then high else ReadSextets(high * 64 + s[0], s[1..])
  }

  /** What the unused bits multiply by: four of them after one left-over byte, and two after two. */
  function Unused(bytes: nat): int {
    if bytes % 3 == 0 then 1 else if bytes % 3 == 1 then 16 else 4
  }

  lemma UnusedAfterGroup(bytes: nat)
    ensures Unused(bytes + 3) == Unused(bytes)
  {
  }

  lemma GroupSplit(b: seq<byte>)
    requires |b| > 2
    ensures Sextets(b) == [S0(b[0]), S1(b[0], b[1]), S2(b[1], b[2]), S3(b[2])] + Sextets(b[3..])
  {
  }

  lemma ShortSpelled(high: int, b: seq<byte>)
    requires |b| <= 2
    ensures ReadSextets(high, Sextets(b)) == ReadBytes(high, b) * Unused(|b|)
  {
    if |b| == 1 {
      OneByteSpelled(high, b[0]);
      assert b == [b[0]];
    } else if |b| == 2 {
      TwoBytesSpelled(high, b[0], b[1]);
      assert b == [b[0], b[1]];
    }
  }

  /** The sextets spell, in base 64, the number the bytes spell in base 256, followed by the unused bits, which
      are zero. */
  lemma {:induction false} SextetsSpellTheBytes(high: int, b: seq<byte>)
    ensures ReadSextets(high, Sextets(b)) == ReadBytes(high, b) * Unused(|b|)
    decreases |b|
  {
    if |b| <= 2 {
      ShortSpelled(high, b);
    } else {
      GroupSplit(b);
      FourSextetsRead(high, S0(b[0]), S1(b[0], b[1]), S2(b[1], b[2]), S3(b[2]), Sextets(b[3..]));
      GroupSpelled(high, b[0], b[1], b[2]);
      ThreeBytesRead(high, b);
      SextetsSpellTheBytes(AfterGroup(high, b[0], b[1], b[2]), b[3..]);
      UnusedAfterGroup(|b[3..]|);
    }
  }

  function AfterGroup(high: int, a: byte, b: byte, c: byte): int {
    ((high * 256 + a) * 256 + b) * 256 + c
  }

  function AfterSextets(high: int, s: sextet, t: sextet, u: sextet, v: sextet): int {
    (((high * 64 + s) * 64 + t) * 64 + u) * 64 + v
  }

  lemma SextetRead(high: int, s: seq<sextet>, rest: seq<sextet>)
    requires s != [] && s[1..] == rest
    ensures ReadSextets(high, s) == ReadSextets(high * 64 + s[0], rest)
  {
  }

  lemma ByteRead(high: int, b: seq<byte>, rest: seq<byte>)
    requires b != [] && b[1..] == rest
    ensures ReadBytes(high, b) == ReadBytes(high * 256 + b[0], rest)
  {
  }

  lemma OneByteSpelled(high: int, a: byte)
    ensures ReadSextets(high, Sextets([a])) == ReadBytes(high, [a]) * 16
  {
    var s, t := S0(a), S1(a, 0);
    assert Sextets([a]) == [s, t];
    SextetRead(high, [s, t], [t]);
    SextetRead(high * 64 + s, [t], []);
    ByteRead(high, [a], []);
  }

  lemma TwoBytesSpelled(high: int, a: byte, b: byte)
    ensures ReadSextets(high, Sextets([a, b])) == ReadBytes(high, [a, b]) * 4
  {
    var s, t, u := S0(a), S1(a, b), S2(b, 0);
    assert Sextets([a, b]) == [s, t, u];
    SextetRead(high, [s, t, u], [t, u]);
    SextetRead(high * 64 + s, [t, u], [u]);
    SextetRead((high * 64 + s) * 64 + t, [u], []);
    ByteRead(high, [a, b], [b]);
    ByteRead(high * 256 + a, [b], []);
  }

  lemma ThreeBytesRead(high: int, b: seq<byte>)
    requires |b| > 2
    ensures ReadBytes(high, b) == ReadBytes(AfterGroup(high, b[0], b[1], b[2]), b[3..])
  {
    ByteRead(high, b, b[1..]);
    ByteRead(high * 256 + b[0], b[1..], b[2..]);
    ByteRead((high * 256 + b[0]) * 256 + b[1], b[2..], b[3..]);
  }

  lemma FourSextetsRead(high: int, s: sextet, t: sextet, u: sextet, v: sextet, rest: seq<sextet>)
    ensures ReadSextets(high, [s, t, u, v] + rest) == ReadSextets(AfterSextets(high, s, t, u, v), rest)
  {
    SextetRead(high, [s, t, u, v] + rest, [t, u, v] + rest);
    SextetRead(high * 64 + s, [t, u, v] + rest, [u, v] + rest);
    SextetRead((high * 64 + s) * 64 + t, [u, v] + rest, [v] + rest);
    SextetRead(((high * 64 + s) * 64 + t) * 64 + u, [v] + rest, rest);
  }

  lemma GroupSpelled(high: int, a: byte, b: byte, c: byte)
    ensures AfterSextets(high, S0(a), S1(a, b), S2(b, c), S3(c)) == AfterGroup(high, a, b, c)
  {
  }

  // ---- Minted tokens and nonces ----

  const TOKEN_BYTES := 32
  const NONCE_BYTES := 24

  /** `p_` followed by 32 random bytes in unpadded base64url. */
  function MintToken(random: seq<byte>): string {
    "p_" + Write(Sextets(random))
  }

  function HexDigit(n: int): char
    requires 0 <= n < 16
  {
    if n < 10 then (n + 48) as char else (n + 87) as char
  }

  function Hex(b: seq<byte>): string {
    if b == [] then "" else [HexDigit(b[0] / 16), HexDigit(b[0] % 16)] + Hex(b[1..])
  }

  /** `n_` followed by 24 random bytes in hexadecimal. */
  function MintNonce(random: seq<byte>): string {
    "n_" + Hex(random)
  }

  lemma CharAlphanumericUnlessLastTwo(i: sextet)
    ensures IsAlphanumeric(Char(i)) <==> i < 62
  {
  }

  /** 32 bytes leave a last sextet divisible by 4, so a minted token never ends in `-` or `_`. */
  lemma MintedTokenIsAToken(random: seq<byte>)
    requires |random| == TOKEN_BYTES
    ensures IsToken(MintToken(random)) && |MintToken(random)| == 45
  {
    var s := Sextets(random);
    SextetCount(random);
    BytesOfSextets(random);
    var t := MintToken(random);
    assert t[0] == 'p' && t[1] == '_' && t[2..] == Write(s);
    CharAlphanumericUnlessLastTwo(s[42]);
    assert t[44] == Char(s[42]);
    forall i | 0 <= i < |t| ensures IsTokenChar(t[i]) {
      assert i >= 2 ==> t[i] == Write(s)[i - 2];
    }
    TokenGrammar(t);
  }

  /** A minted token is `p_` and the draw, encoded: different draws mint different tokens. */
  lemma TokenDeterminesDraw(random: seq<byte>)
    requires random != []
    ensures |MintToken(random)| > 2 && MintToken(random)[0] == 'p' && MintToken(random)[1] == '_'
    ensures Decode(MintToken(random)[2..]) == Some(random)
  {
    DecodeEncode(random);
    var text := Encode(random).value;
    assert MintToken(random) == "p_" + text;
    assert MintToken(random)[2..] == text;
  }

  lemma {:induction false} LastOfWholeGroups(b: seq<byte>)
    requires |b| > 0 && |b| % 3 == 0
    ensures |Sextets(b)| > 0 && Sextets(b)[|Sextets(b)| - 1] == S3(b[|b| - 1])
  {
    if |b| == 3 {
      assert Sextets(b[3..]) == [];
    } else {
      LastOfWholeGroups(b[3..]);
      assert b[3..][|b[3..]| - 1] == b[|b| - 1];
      var rest := Sextets(b[3..]);
      var s := Sextets(b);
      assert s[4..] == rest;
      assert s[|s| - 1] == rest[|rest| - 1];
    }
  }

  predicate EndsAlphanumeric(s: string) {
    s != "" && IsAlphanumeric(s[|s| - 1])
  }

  lemma TokenEnds(random: seq<byte>)
    requires random != []
    ensures Sextets(random) != []
    ensures var s := Sextets(random); EndsAlphanumeric(MintToken(random)) <==> s[|s| - 1] < 62
  {
    SextetCount(random);
    var s := Sextets(random);
    CharAlphanumericUnlessLastTwo(s[|s| - 1]);
  }

  lemma PartialGroupEnds(random: seq<byte>)
    requires |random| % 3 != 0
    ensures EndsAlphanumeric(MintToken(random))
  {
    TokenEnds(random);
    SextetCount(random);
    BytesOfSextets(random);
    assert |Sextets(random)| % 4 == 2 || |Sextets(random)| % 4 == 3;
  }

  lemma WholeGroupMayNotEnd(n: nat) returns (random: seq<byte>)
    requires n > 0 && n % 3 == 0
    ensures |random| == n && !EndsAlphanumeric(MintToken(random))
  {
    random := seq(n, _ => 255);
    TokenEnds(random);
    LastOfWholeGroups(random);
  }

  /** The remainder is what matters: every draw of `n` bytes mints a token with a well-formed last
      character exactly when `n` is not a multiple of three. */
  lemma DrawLengthDecidesTheLastCharacter(n: nat)
    requires n > 0
    ensures (forall random: seq<byte> | |random| == n :: EndsAlphanumeric(MintToken(random))) <==> n % 3 != 0
  {
    if n % 3 != 0 {
      forall random: seq<byte> | |random| == n ensures EndsAlphanumeric(MintToken(random)) {
        PartialGroupEnds(random);
      }
    } else {
      var random := WholeGroupMayNotEnd(n);
    }
  }

  lemma {:induction false} HexIsLower(b: seq<byte>)
    ensures |Hex(b)| == 2 * |b| && IsLowerHex(Hex(b))
  {
    if b != [] {
      HexIsLower(b[1..]);
      var h := Hex(b);
      forall i | 0 <= i < |h| ensures '0' <= h[i] <= '9' || 'a' <= h[i] <= 'f' {
        assert i >= 2 ==> h[i] == Hex(b[1..])[i - 2];
      }
    }
  }

  lemma HexDigitsDiffer(m: int, n: int)
    requires 0 <= m < 16 && 0 <= n < 16 && HexDigit(m) == HexDigit(n)
    ensures m == n
  {
  }

  /** Different draws give different hexadecimal text. */
  lemma {:induction false} HexDetermines(a: seq<byte>, b: seq<byte>)
    requires |a| == |b| && Hex(a) == Hex(b)
    ensures a == b
  {
    if a != [] {
      assert Hex(a)[0] == HexDigit(a[0] / 16) && Hex(a)[1] == HexDigit(a[0] % 16) && Hex(a)[2..] == Hex(a[1..]);
      assert Hex(b)[0] == HexDigit(b[0] / 16) && Hex(b)[1] == HexDigit(b[0] % 16) && Hex(b)[2..] == Hex(b[1..]);
      HexDigitsDiffer(a[0] / 16, b[0] / 16);
      HexDigitsDiffer(a[0] % 16, b[0] % 16);
      HexDetermines(a[1..], b[1..]);
      assert a == [a[0]] + a[1..] && b == [b[0]] + b[1..];
    }
  }

  lemma NonceDeterminesDraw(a: seq<byte>, b: seq<byte>)
    requires |a| == |b| && MintNonce(a) == MintNonce(b)
    ensures a == b
  {
    assert MintNonce(a)[2..] == Hex(a) && MintNonce(b)[2..] == Hex(b);
    HexDetermines(a, b);
  }

  lemma MintedNonceIsAToken(random: seq<byte>)
    requires |random| == NONCE_BYTES
    ensures IsToken(MintNonce(random)) && |MintNonce(random)| == 50
  {
    HexIsLower(random);
    var t := MintNonce(random);
    assert t[0] == 'n' && t[1] == '_';
    forall i | 2 <= i < |t| ensures IsAlphanumeric(t[i]) {
      assert t[i] == Hex(random)[i - 2];
    }
    TokenGrammar(t);
  }
}
