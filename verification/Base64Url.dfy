/**
 The base64url codec of `src/browser/share-state.ts`, with its shift register kept
 as the 32-bit signed integer that JavaScript's bit operators work on. `Sextets`
 and `Octets` are the encoding of section 4 of RFC 4648 without padding.
 */
module Base64Url {
  import opened Wrappers
  import opened Int32

  type Sextet = x: int | 0 <= x < 64

  // ----- The alphabet -----

  /** The alphabet, in its order: capitals, small letters, digits, `-` and `_`. */
  function Letter(s: Sextet): char {
    if s < 26 then ('A' as int + s) as char
    else if s < 52 then ('a' as int + s - 26) as char
    else if s < 62 then ('0' as int + s - 52) as char
    else if s == 62 then '-' else '_'
  }

  function Value(c: char): Option<Sextet> {
    if 'A' <= c <= 'Z' then Some(c as int - 'A' as int)
    else if 'a' <= c <= 'z' then Some(c as int - 'a' as int + 26)
    else if '0' <= c <= '9' then Some(c as int - '0' as int + 52)
    else if c == '-' then Some(62) else if c == '_' then Some(63) else None
  }

  function Letters(s: seq<Sextet>): (r: string)
    ensures |r| == |s|
  {
    if s == [] then "" else [Letter(s[0])] + Letters(s[1..])
  }

  function Values(text: string): (r: Option<seq<Sextet>>)
    ensures r.Some? ==> |r.value| == |text|
  {
    if text == "" then Some([])
    else
      var head, rest := Value(text[0]), Values(text[1..]);
      if head.Some? && rest.Some? then Some([head.value] + rest.value) else None
  }

  lemma {:induction false} ValuesOfLetters(s: seq<Sextet>)
    ensures Values(Letters(s)) == Some(s)
  {
    if s != [] {
      ValuesOfLetters(s[1..]);
      assert s == [s[0]] + s[1..];
    }
  }

  lemma {:induction false} LettersOfValues(text: string)
    requires Values(text).Some?
    ensures Letters(Values(text).value) == text
  {
    if text != "" {
      LettersOfValues(text[1..]);
      assert Values(text).value[1..] == Values(text[1..]).value;
    }
  }

  lemma {:induction false} LettersConcat(a: seq<Sextet>, b: seq<Sextet>)
    ensures Letters(a + b) == Letters(a) + Letters(b)
  {
    if a == [] {
      assert a + b == b;
    } else {
      LettersConcat(a[1..], b);
      assert (a + b)[1..] == a[1..] + b;
    }
  }

  // ----- The encoding -----

  lemma Div4(q: int, r: int)
    requires 0 <= r < 4
    ensures (4 * q + r) / 4 == q && (4 * q + r) % 4 == r
  {
  }

  lemma Div16(q: int, r: int)
    requires 0 <= r < 16
    ensures (16 * q + r) / 16 == q && (16 * q + r) % 16 == r
  {
  }

  lemma Div64(q: int, r: int)
    requires 0 <= r < 64
    ensures (64 * q + r) / 64 == q && (64 * q + r) % 64 == r
  {
  }

  lemma Div256(q: int, r: int)
    requires 0 <= r < 256
    ensures (256 * q + r) / 256 == q && (256 * q + r) % 256 == r
  {
  }

  /** The four sextets of three bytes, each of the bytes it takes bits from. */
  function S0(b0: Byte): Sextet { b0 / 4 }
  function S1(b0: Byte, b1: Byte): Sextet { b0 % 4 * 16 + b1 / 16 }
  function S2(b1: Byte, b2: Byte): Sextet { b1 % 16 * 4 + b2 / 64 }
  function S3(b2: Byte): Sextet { b2 % 64 }

  /** The three bytes of four sextets. */
  function O0(s0: Sextet, s1: Sextet): Byte { s0 * 4 + s1 / 16 }
  function O1(s1: Sextet, s2: Sextet): Byte { s1 % 16 * 16 + s2 / 4 }
  function O2(s2: Sextet, s3: Sextet): Byte { s2 % 4 * 64 + s3 }

  lemma BytesBack(b0: Byte, b1: Byte, b2: Byte)
    ensures O0(S0(b0), S1(b0, b1)) == b0
    ensures O1(S1(b0, b1), S2(b1, b2)) == b1
    ensures O2(S2(b1, b2), S3(b2)) == b2
  {
    Div16(b0 % 4, b1 / 16);
    Div4(b1 % 16, b2 / 64);
  }

  lemma SextetsBack(s0: Sextet, s1: Sextet, s2: Sextet, s3: Sextet)
    ensures S0(O0(s0, s1)) == s0
    ensures S1(O0(s0, s1), O1(s1, s2)) == s1
    ensures S2(O1(s1, s2), O2(s2, s3)) == s2
    ensures S3(O2(s2, s3)) == s3
  {
    Div4(s0, s1 / 16);
    Div16(s1 % 16, s2 / 4);
    Div64(s2 % 4, s3);
  }

  lemma PaddingZero(b: Byte, s0: Sextet, s1: Sextet)
    ensures S1(b, 0) % 16 == 0 && S2(b, 0) % 4 == 0
    ensures S1(O0(s0, s1), 0) == s1 <==> s1 % 16 == 0
    ensures S2(O1(s0, s1), 0) == s1 <==> s1 % 4 == 0
  {
    Div16(b % 4, 0);
    Div4(b % 16, 0);
    Div4(s0, s1 / 16);
    Div16(s0 % 16, s1 / 4);
  }

  /** The sextets of `b`; the last one is filled up with zero bits. */
  function Sextets(b: seq<Byte>): seq<Sextet> {
    if b == [] then []
    else if |b| == 1 then [S0(b[0]), S1(b[0], 0)]
    else if |b| == 2 then [S0(b[0]), S1(b[0], b[1]), S2(b[1], 0)]
    else [S0(b[0]), S1(b[0], b[1]), S2(b[1], b[2]), S3(b[2])] + Sextets(b[3..])
  }

  /** The bytes that whole groups of eight bits of `s` make; what is left over is ignored. */
  function Octets(s: seq<Sextet>): seq<Byte> {
    if |s| < 2 then []
    else if |s| == 2 then [O0(s[0], s[1])]
    else if |s| == 3 then [O0(s[0], s[1]), O1(s[1], s[2])]
    else [O0(s[0], s[1]), O1(s[1], s[2]), O2(s[2], s[3])] + Octets(s[4..])
  }

  /** The bits left over after the last whole byte are zero. */
  predicate NothingLeft(s: seq<Sextet>) {
    && (|s| % 4 == 2 ==> s[|s| - 1] % 16 == 0)
    && (|s| % 4 == 3 ==> s[|s| - 1] % 4 == 0)
  }

  lemma OctetsGroup(s0: Sextet, s1: Sextet, s2: Sextet, s3: Sextet, rest: seq<Sextet>)
    ensures Octets([s0, s1, s2, s3] + rest) == [O0(s0, s1), O1(s1, s2), O2(s2, s3)] + Octets(rest)
  {
    hide O0, O1, O2;
    var s := [s0, s1, s2, s3] + rest;
    assert s[4..] == rest;
    assert s[0] == s0 && s[1] == s1 && s[2] == s2 && s[3] == s3;
  }

  lemma LeftOfGroup(head: seq<Sextet>, rest: seq<Sextet>)
    requires |head| == 4
    ensures NothingLeft(head + rest) == NothingLeft(rest)
  {
    assert rest != [] ==> (head + rest)[|rest| + 3] == rest[|rest| - 1];
  }

  lemma SextetsGroup(b0: Byte, b1: Byte, b2: Byte, rest: seq<Byte>)
    ensures Sextets([b0, b1, b2] + rest) == [S0(b0), S1(b0, b1), S2(b1, b2), S3(b2)] + Sextets(rest)
  {
    hide S0, S1, S2, S3;
    var b := [b0, b1, b2] + rest;
    assert b[3..] == rest;
    assert b[0] == b0 && b[1] == b1 && b[2] == b2;
  }

  lemma {:induction false} OctetsOfShort(b: seq<Byte>)
    requires |b| < 3
    ensures Octets(Sextets(b)) == b && NothingLeft(Sextets(b)) && |Sextets(b)| == (8 * |b| + 5) / 6
  {
    hide S0, S1, S2, S3, O0, O1, O2;
    if |b| == 1 {
      BytesBack(b[0], 0, 0);
      PaddingZero(b[0], 0, 0);
    } else if |b| == 2 {
      BytesBack(b[0], b[1], 0);
      PaddingZero(b[1], 0, 0);
    }
  }

  /** Decoding the encoding of any bytes gives them back; `n` bytes take `8n/6` letters, rounded up. */
  lemma {:induction false} OctetsOfSextets(b: seq<Byte>)
    ensures Octets(Sextets(b)) == b && |Sextets(b)| % 4 != 1 && NothingLeft(Sextets(b))
    ensures |Sextets(b)| == (8 * |b| + 5) / 6
    decreases |b|
  {
    hide S0, S1, S2, S3, O0, O1, O2, Octets, NothingLeft, Sextets;
    if |b| < 3 {
      OctetsOfShort(b);
    } else {
      OctetsOfSextets(b[3..]);
      BytesBack(b[0], b[1], b[2]);
      var rest := b[3..];
      assert b == [b[0], b[1], b[2]] + rest;
      SextetsGroup(b[0], b[1], b[2], rest);
      OctetsGroup(S0(b[0]), S1(b[0], b[1]), S2(b[1], b[2]), S3(b[2]), Sextets(b[3..]));
      LeftOfGroup([S0(b[0]), S1(b[0], b[1]), S2(b[1], b[2]), S3(b[2])], Sextets(b[3..]));
    }
  }

  lemma {:induction false} SextetsOfShort(s: seq<Sextet>)
    requires |s| < 4 && |s| != 1
    ensures |Octets(s)| == |s| * 6 / 8
    ensures Sextets(Octets(s)) == s <==> NothingLeft(s)
  {
    hide S0, S1, S2, S3, O0, O1, O2;
    if |s| == 2 {
      SextetsOfOne(s[0], s[1]);
      assert s == [s[0], s[1]];
    } else if |s| == 3 {
      SextetsBack(s[0], s[1], s[2], 0);
      PaddingZero(0, s[1], s[2]);
      assert s == [s[0], s[1], s[2]];
    }
  }

  /** Encoding what was decoded gives the letters back exactly when no bits were dropped. */
  lemma {:induction false} SextetsOfOctets(s: seq<Sextet>)
    requires |s| % 4 != 1
    ensures |Octets(s)| == |s| * 6 / 8
    ensures Sextets(Octets(s)) == s <==> NothingLeft(s)
    decreases |s|
  {
    hide S0, S1, S2, S3, O0, O1, O2, Octets, NothingLeft, Sextets;
    if |s| < 4 {
      SextetsOfShort(s);
    } else {
      var head, rest := [s[0], s[1], s[2], s[3]], s[4..];
      SextetsOfOctets(rest);
      SextetsBack(s[0], s[1], s[2], s[3]);
      assert s == head + rest;
      OctetsGroup(s[0], s[1], s[2], s[3], rest);
      LeftOfGroup(head, rest);
      SextetsGroup(O0(s[0], s[1]), O1(s[1], s[2]), O2(s[2], s[3]), Octets(rest));
      assert (head + Sextets(Octets(rest)))[4..] == Sextets(Octets(rest));
    }
  }

  lemma SextetsOfOne(s0: Sextet, s1: Sextet)
    ensures Sextets([O0(s0, s1)]) == [s0, s1] <==> s1 % 16 == 0
  {
    hide O0;
    SextetsBack(s0, s1, 0, 0);
    PaddingZero(0, s0, s1);
    assert Sextets([O0(s0, s1)]) == [s0, S1(O0(s0, s1), 0)];
  }

  lemma {:induction false} SextetsConcat(a: seq<Byte>, b: seq<Byte>)
    requires |a| % 3 == 0
    ensures Sextets(a + b) == Sextets(a) + Sextets(b)
    decreases |a|
  {
    hide S0, S1, S2, S3, Sextets;
    if a == [] {
      assert a + b == b && Sextets(a) == [] by { SextetsOfNone(); }
    } else {
      SextetsConcat(a[3..], b);
      assert a == [a[0], a[1], a[2]] + a[3..];
      assert a + b == [a[0], a[1], a[2]] + (a[3..] + b);
      SextetsGroup(a[0], a[1], a[2], a[3..]);
      SextetsGroup(a[0], a[1], a[2], a[3..] + b);
    }
  }

  lemma SextetsOfNone()
    ensures Sextets([]) == []
  {
  }

  lemma {:induction false} OctetsConcat(s: seq<Sextet>, t: seq<Sextet>)
    requires |s| % 4 == 0
    ensures Octets(s + t) == Octets(s) + Octets(t)
    decreases |s|
  {
    hide O0, O1, O2, Octets, NothingLeft;
    if s == [] {
      assert s + t == t && Octets(s) == [] by { OctetsOfNone(); }
    } else {
      OctetsConcat(s[4..], t);
      assert s == [s[0], s[1], s[2], s[3]] + s[4..];
      assert s + t == [s[0], s[1], s[2], s[3]] + (s[4..] + t);
      OctetsGroup(s[0], s[1], s[2], s[3], s[4..]);
      OctetsGroup(s[0], s[1], s[2], s[3], s[4..] + t);
    }
  }

  lemma OctetsOfNone()
    ensures Octets([]) == []
  {
  }

  // ----- The shift register -----

  lemma Powers()
    ensures Pow2(0) == 1 && Pow2(2) == 4 && Pow2(4) == 16 && Pow2(6) == 64 && Pow2(8) == 256
  {
    assert Pow2(1) == 2 && Pow2(3) == 8 && Pow2(5) == 32 && Pow2(7) == 128;
  }

  /** Although the register overflows, its low bits are the old ones moved up, and zeros for `|` to fill. */
  lemma ShiftIn(buffer: int, n: nat) returns (k: int)
    requires n == 8 || n == 6
    ensures ShiftLeft(buffer, n) == (if n == 8 then 256 else 64) * k && k % 64 == buffer % 64
  {
    hide Wrap32, Pow2;
    Powers();
    var q := WrapBy(buffer * Pow2(n));
    var step := if n == 8 then 0x4_0000 * q else 0x10_0000 * q;
    k := buffer - 64 * step;
    assert buffer == 64 * (buffer / 64) + buffer % 64;
    Div64(buffer / 64 - step, buffer % 64);
    assert k == 64 * (buffer / 64 - step) + buffer % 64;
  }

  /** So `|` adds what is read to the shifted register. */
  lemma OrFills(buffer: int, n: nat, x: nat)
    requires (n == 8 && x < 256) || (n == 6 && x < 64)
    ensures Or(ShiftLeft(buffer, n), x) == ShiftLeft(buffer, n) + x
  {
    hide Wrap32, Pow2, Or;
    Powers();
    var k := ShiftIn(buffer, n);
    OrAdds(ShiftLeft(buffer, n), x, n, k);
  }

  /** The six bits of the register above the lowest `bits`. */
  function Field(buffer: int, bits: nat): Sextet {
    Powers();
    LowBits(ShiftRight(buffer, bits), 6)
  }

  /** The sextets `toBase64Url` takes out of a register of `bits` pending bits. */
  function Drained(buffer: int, bits: nat): seq<Sextet> {
    if bits < 6 then [] else [Field(buffer, bits - 6)] + Drained(buffer, bits - 6)
  }

  /** What has been emitted for a group of which only some bytes were read. */
  function Begun(b: seq<Byte>): seq<Sextet> {
    if |b| == 0 then [] else if |b| == 1 then [S0(b[0])] else [S0(b[0]), S1(b[0], b[1])]
  }

  /** The pending bits of the register are the low bits of the last byte read. */
  predicate Pending(b: seq<Byte>, buffer: int, bits: nat) {
    && bits == 2 * |b| && |b| < 3
    && (|b| == 1 ==> buffer % 4 == b[0] % 4)
    && (|b| == 2 ==> buffer % 16 == b[1] % 16)
  }

  lemma FieldIs(buffer: int)
    ensures Field(buffer, 0) == buffer % 64 && Field(buffer, 2) == buffer / 4 % 64
    ensures Field(buffer, 4) == buffer / 16 % 64 && Field(buffer, 6) == buffer / 64 % 64
  {
    Powers();
  }

  lemma Field0(k: int, x: Byte)
    ensures (256 * k + x) % 64 == x % 64
  {
    Div64(4 * k + x / 64, x % 64);
    assert 64 * (4 * k + x / 64) + x % 64 == 256 * k + x;
  }

  lemma Field2(k: int, x: Byte)
    ensures (256 * k + x) / 4 % 64 == x / 4
  {
    Div4(64 * k + x / 4, x % 4);
    assert 4 * (64 * k + x / 4) + x % 4 == 256 * k + x;
    Div64(k, x / 4);
  }

  lemma Field4(k: int, x: Byte)
    ensures (256 * k + x) / 16 % 64 == k % 4 * 16 + x / 16
  {
    Div16(16 * k + x / 16, x % 16);
    assert 16 * (16 * k + x / 16) + x % 16 == 256 * k + x;
    Div64(k / 4, k % 4 * 16 + x / 16);
    assert 64 * (k / 4) + (k % 4 * 16 + x / 16) == 16 * k + x / 16;
  }

  lemma Field6(k: int, x: Byte)
    ensures (256 * k + x) / 64 % 64 == k % 16 * 4 + x / 64
  {
    Div64(4 * k + x / 64, x % 64);
    assert 64 * (4 * k + x / 64) + x % 64 == 256 * k + x;
    Div64(k / 16, k % 16 * 4 + x / 64);
    assert 64 * (k / 16) + (k % 16 * 4 + x / 64) == 4 * k + x / 64;
  }

  lemma Fields(k: int, b: Byte, x: Byte)
    ensures Field(256 * k + x, 2) == S0(x) && Field(256 * k + x, 0) == S3(x)
    ensures k % 4 == b % 4 ==> Field(256 * k + x, 4) == S1(b, x)
    ensures k % 16 == b % 16 ==> Field(256 * k + x, 6) == S2(b, x)
  {
    hide Field;
    FieldIs(256 * k + x);
    Field0(k, x);
    Field2(k, x);
    Field4(k, x);
    Field6(k, x);
  }

  lemma DrainTwo(buffer: int)
    ensures Drained(buffer, 8) == [Field(buffer, 2)] && Drained(buffer, 10) == [Field(buffer, 4)]
    ensures Drained(buffer, 12) == [Field(buffer, 6), Field(buffer, 0)]
  {
    hide Field;
    assert Drained(buffer, 6) == [Field(buffer, 0)];
  }

  lemma LowOfByte(k: int, x: Byte)
    ensures (256 * k + x) % 4 == x % 4 && (256 * k + x) % 16 == x % 16
  {
    Div4(64 * k + x / 4, x % 4);
    assert 4 * (64 * k + x / 4) + x % 4 == 256 * k + x;
    Div16(16 * k + x / 16, x % 16);
    assert 16 * (16 * k + x / 16) + x % 16 == 256 * k + x;
  }

  lemma PendingAfter(b: seq<Byte>, k: int, x: Byte)
    requires |b| < 2
    ensures Pending(b + [x], 256 * k + x, 2 * |b| + 2)
  {
    LowOfByte(k, x);
    assert (b + [x])[|b|] == x;
  }

  lemma DrainByte(b: seq<Byte>, buffer: int, bits: nat, x: Byte)
    requires Pending(b, buffer, bits)
    ensures var next := ShiftLeft(buffer, 8) + x;
      if |b| < 2 then Begun(b) + Drained(next, bits + 8) == Begun(b + [x]) && Pending(b + [x], next, bits + 2)
      else Begun(b) + Drained(next, bits + 8) == Sextets(b + [x]) && Pending([], next, 0)
  {
    hide ShiftLeft, Sextets, Begun, Drained;
    var k := ShiftIn(buffer, 8);
    SameLowBits(k, buffer);
    DrainGroup(b, k, x);
    if |b| < 2 {
      PendingAfter(b, k, x);
    }
  }

  lemma SameLowBits(k: int, buffer: int)
    requires k % 64 == buffer % 64
    ensures k % 4 == buffer % 4 && k % 16 == buffer % 16
  {
    LowFour(k);
    LowFour(buffer);
    LowSixteen(k);
    LowSixteen(buffer);
  }

  lemma LowFour(k: int)
    ensures k % 4 == k % 64 % 4
  {
    var r := k % 64;
    Div4(16 * (k / 64) + r / 4, r % 4);
    assert 4 * (16 * (k / 64) + r / 4) + r % 4 == k;
  }

  lemma LowSixteen(k: int)
    ensures k % 16 == k % 64 % 16
  {
    var r := k % 64;
    Div16(4 * (k / 64) + r / 16, r % 16);
    assert 16 * (4 * (k / 64) + r / 16) + r % 16 == k;
  }

  lemma DrainGroup(b: seq<Byte>, k: int, x: Byte)
    requires |b| < 3
    requires |b| == 1 ==> k % 4 == b[0] % 4
    requires |b| == 2 ==> k % 16 == b[1] % 16
    ensures Begun(b) + Drained(256 * k + x, 2 * |b| + 8) == if |b| < 2 then Begun(b + [x]) else Sextets(b + [x])
  {
    hide Sextets, Field, Drained, S0, S1, S2, S3;
    DrainTwo(256 * k + x);
    if |b| == 0 {
      Fields(k, 0, x);
    } else {
      Fields(k, b[|b| - 1], x);
      if |b| == 2 {
        SextetsGroup(b[0], b[1], x, []);
        SextetsOfNone();
        assert b + [x] == [b[0], b[1], x] + [];
      }
    }
  }

  lemma LowBitsOfShift(buffer: int, n: nat)
    requires n == 2 || n == 4
    ensures LowBits(ShiftLeft(buffer, n), 6) == if n == 2 then buffer % 16 * 4 else buffer % 4 * 16
  {
    hide Wrap32, Pow2;
    Powers();
    var q := WrapBy(buffer * Pow2(n));
    if n == 2 {
      Div64(buffer / 16 - 0x400_0000 * q, buffer % 16 * 4);
      assert 64 * (buffer / 16 - 0x400_0000 * q) + buffer % 16 * 4 == ShiftLeft(buffer, n);
    } else {
      Div64(buffer / 4 - 0x400_0000 * q, buffer % 4 * 16);
      assert 64 * (buffer / 4 - 0x400_0000 * q) + buffer % 4 * 16 == ShiftLeft(buffer, n);
    }
  }

  lemma LastSextet(b: seq<Byte>, buffer: int, bits: nat)
    requires Pending(b, buffer, bits) && bits > 0
    ensures bits <= 6 && Sextets(b) == Begun(b) + [LowBits(ShiftLeft(buffer, 6 - bits), 6)]
  {
    hide LowBits, ShiftLeft;
    LowBitsOfShift(buffer, 6 - bits);
  }

  lemma DrainOne(buffer: int, bits: nat)
    ensures bits < 6 ==> Letters(Drained(buffer, bits)) == ""
    ensures bits >= 6 ==>
      Letters(Drained(buffer, bits)) == [Letter(Field(buffer, bits - 6))] + Letters(Drained(buffer, bits - 6))
  {
    hide Field, Letter;
  }

  /** What has been written once the first bytes of `bytes` were read. */
  function Written(done: seq<Byte>, group: seq<Byte>): seq<Sextet> {
    Sextets(done) + Begun(group)
  }

  lemma ReadByte(done: seq<Byte>, group: seq<Byte>, buffer: int, bits: nat, x: Byte)
    requires |done| % 3 == 0 && Pending(group, buffer, bits)
    ensures var next := ShiftLeft(buffer, 8) + x;
      var emitted := Letters(Written(done, group)) + Letters(Drained(next, bits + 8));
      if |group| < 2 then emitted == Letters(Written(done, group + [x])) && Pending(group + [x], next, (bits + 8) % 6)
      else emitted == Letters(Written(done + (group + [x]), [])) && Pending([], next, (bits + 8) % 6)
  {
    hide Sextets, ShiftLeft, Drained, Letters;
    var next := ShiftLeft(buffer, 8) + x;
    DrainByte(group, buffer, bits, x);
    LettersConcat(Written(done, group), Drained(next, bits + 8));
    assert Written(done, group) + Drained(next, bits + 8) == Sextets(done) + (Begun(group) + Drained(next, bits + 8));
    if |group| == 2 {
      SextetsConcat(done, group + [x]);
      assert Written(done + (group + [x]), []) == Sextets(done + (group + [x]));
    }
  }

  lemma {:induction false} WriteLast(done: seq<Byte>, group: seq<Byte>, buffer: int, bits: nat)
    requires |done| % 3 == 0 && Pending(group, buffer, bits)
    ensures bits == 0 ==> Letters(Written(done, group)) == Letters(Sextets(done + group))
    ensures bits > 0 ==> bits <= 6 && 0 <= LowBits(ShiftLeft(buffer, 6 - bits), 6) < 64
    ensures bits > 0 ==>
      Letters(Written(done, group)) + [Letter(LowBits(ShiftLeft(buffer, 6 - bits), 6))] == Letters(Sextets(done + group))
  {
    hide Sextets, ShiftLeft, LowBits;
    Powers();
    if bits > 0 {
      LastSextet(group, buffer, bits);
      SextetsConcat(done, group);
      LettersConcat(Written(done, group), [LowBits(ShiftLeft(buffer, 6 - bits), 6)]);
      assert Sextets(done + group) == Written(done, group) + [LowBits(ShiftLeft(buffer, 6 - bits), 6)];
    } else {
      assert group == [] && done + group == done && Written(done, group) == Sextets(done);
    }
  }

  method ToBase64Url(bytes: seq<Byte>) returns (out: string)
    ensures out == Letters(Sextets(bytes))
  {
    hide Or, ShiftLeft, ShiftRight, LowBits, Sextets, Begun, Drained, Written, Letters;
    out := "";
    var buffer, bits := 0, 0;
    ghost var done: seq<Byte>, group: seq<Byte> := [], [];
    WrittenNothing();
    for i := 0 to |bytes|
      invariant done + group == bytes[..i] && |done| % 3 == 0 && Pending(group, buffer, bits)
      invariant out == Letters(Written(done, group))
    {
      ReadByte(done, group, buffer, bits, bytes[i]);
      ghost var before := out;
      OrFills(buffer, 8, bytes[i]);
      buffer := Or(ShiftLeft(buffer, 8), bytes[i]);
      bits := bits + 8;
      ghost var all := bits;
      while bits >= 6
        invariant out + Letters(Drained(buffer, bits)) == before + Letters(Drained(buffer, all))
        invariant bits % 6 == all % 6
      {
        DrainOne(buffer, bits);
        bits := bits - 6;
        out := out + [Letter(Field(buffer, bits))];
      }
      DrainOne(buffer, bits);
      assert bytes[..i + 1] == (done + group) + [bytes[i]] == done + (group + [bytes[i]]);
      group := group + [bytes[i]];
      if |group| == 3 {
        done, group := done + group, [];
      }
    }
    assert bytes[..|bytes|] == bytes;
    WriteLast(done, group, buffer, bits);
    if bits > 0 {
      out := out + [Letter(LowBits(ShiftLeft(buffer, 6 - bits), 6))];
    }
  }

  lemma WrittenNothing()
    ensures Letters(Written([], [])) == ""
  {
  }

  // ----- Decoding -----

  /** The pending bits of the register are the low bits of the last sextet read. */
  predicate Held(g: seq<Sextet>, buffer: int, bits: nat) {
    && |g| < 4 && bits == [0, 6, 4, 2][|g|]
    && (|g| == 1 ==> buffer % 64 == g[0])
    && (|g| == 2 ==> buffer % 16 == g[1] % 16)
    && (|g| == 3 ==> buffer % 4 == g[2] % 4)
  }

  /** The eight bits of the register above the lowest `bits`. */
  function Octet(buffer: int, bits: nat): Byte {
    Powers();
    LowBits(ShiftRight(buffer, bits), 8)
  }

  lemma OctetIs(buffer: int)
    ensures Octet(buffer, 0) == buffer % 256 && Octet(buffer, 2) == buffer / 4 % 256
    ensures Octet(buffer, 4) == buffer / 16 % 256
  {
    Powers();
  }

  lemma Octet4(k: int, x: Sextet)
    ensures (64 * k + x) / 16 % 256 == k % 64 * 4 + x / 16
  {
    Div16(4 * k + x / 16, x % 16);
    assert 16 * (4 * k + x / 16) + x % 16 == 64 * k + x;
    Div256(k / 64, k % 64 * 4 + x / 16);
    assert 256 * (k / 64) + (k % 64 * 4 + x / 16) == 4 * k + x / 16;
  }

  lemma Octet2(k: int, x: Sextet)
    ensures (64 * k + x) / 4 % 256 == k % 16 * 16 + x / 4
  {
    Div4(16 * k + x / 4, x % 4);
    assert 4 * (16 * k + x / 4) + x % 4 == 64 * k + x;
    Div256(k / 16, k % 16 * 16 + x / 4);
    assert 256 * (k / 16) + (k % 16 * 16 + x / 4) == 16 * k + x / 4;
  }

  lemma Octet0(k: int, x: Sextet)
    ensures (64 * k + x) % 256 == k % 4 * 64 + x
  {
    Div256(k / 4, k % 4 * 64 + x);
    assert 256 * (k / 4) + (k % 4 * 64 + x) == 64 * k + x;
  }

  lemma LowOfSextet(k: int, x: Sextet)
    ensures (64 * k + x) % 64 == x && (64 * k + x) % 4 == x % 4 && (64 * k + x) % 16 == x % 16
  {
    Div64(k, x);
    SameLowBits(64 * k + x, x);
  }

  lemma HeldAfter(g: seq<Sextet>, k: int, x: Sextet)
    requires |g| < 3
    ensures Held(g + [x], 64 * k + x, [6, 4, 2][|g|])
  {
    LowOfSextet(k, x);
    var g1 := g + [x];
    assert |g1| == |g| + 1 && g1[|g|] == x;
  }

  lemma OctetFields(k: int, p: Sextet, x: Sextet)
    ensures k % 64 == p ==> Octet(64 * k + x, 4) == O0(p, x)
    ensures k % 16 == p % 16 ==> Octet(64 * k + x, 2) == O1(p, x)
    ensures k % 4 == p % 4 ==> Octet(64 * k + x, 0) == O2(p, x)
  {
    hide Octet;
    OctetIs(64 * k + x);
    Octet4(k, x);
    Octet2(k, x);
    Octet0(k, x);
  }

  lemma FewOctets(s0: Sextet, s1: Sextet, s2: Sextet)
    ensures Octets([]) == [] && Octets([s0]) == [] && Octets([s0, s1]) == [O0(s0, s1)]
    ensures Octets([s0, s1, s2]) == [O0(s0, s1), O1(s1, s2)]
  {
    hide O0, O1, O2;
  }

  lemma FullGroup(s0: Sextet, s1: Sextet, s2: Sextet, s3: Sextet)
    ensures Octets([s0, s1, s2]) == [O0(s0, s1), O1(s1, s2)]
    ensures Octets([s0, s1, s2, s3]) == [O0(s0, s1), O1(s1, s2)] + [O2(s2, s3)]
  {
    hide O0, O1, O2, Octets;
    FewOctets(s0, s1, s2);
    OctetsGroup(s0, s1, s2, s3, []);
    OctetsOfNone();
    assert [s0, s1, s2, s3] + [] == [s0, s1, s2, s3];
    assert [O0(s0, s1), O1(s1, s2), O2(s2, s3)] + [] == [O0(s0, s1), O1(s1, s2)] + [O2(s2, s3)];
  }

  /** What one more sextet adds to the bytes of a group. */
  lemma GroupOctet(g: seq<Sextet>, k: int, x: Sextet)
    requires |g| < 4
    requires |g| == 1 ==> k % 64 == g[0]
    requires |g| == 2 ==> k % 16 == g[1] % 16
    requires |g| == 3 ==> k % 4 == g[2] % 4
    ensures |g| == 0 ==> Octets(g + [x]) == Octets(g)
    ensures |g| > 0 ==>
      Octets(g + [x]) == Octets(g) + [Octet(64 * k + x, if |g| == 1 then 4 else if |g| == 2 then 2 else 0)]
  {
    hide Octet, Octets, O0, O1, O2, NothingLeft;
    if |g| == 0 {
      FewOctets(x, x, x);
      assert g + [x] == [x] && g == [];
    } else if |g| == 1 {
      FewOctets(g[0], x, x);
      OctetFields(k, g[0], x);
      assert g + [x] == [g[0], x] && g == [g[0]];
    } else if |g| == 2 {
      FewOctets(g[0], g[1], x);
      OctetFields(k, g[1], x);
      assert g + [x] == [g[0], g[1], x] && g == [g[0], g[1]];
    } else {
      FullGroup(g[0], g[1], g[2], x);
      OctetFields(k, g[2], x);
      assert g + [x] == [g[0], g[1], g[2], x] && g == [g[0], g[1], g[2]];
    }
  }

  lemma ReadSextet(done: seq<Sextet>, g: seq<Sextet>, buffer: int, bits: nat, x: Sextet)
    requires |done| % 4 == 0 && Held(g, buffer, bits)
    ensures var next := ShiftLeft(buffer, 6) + x;
      && Octets(done + (g + [x])) == Octets(done + g) + (if bits + 6 >= 8 then [Octet(next, bits - 2)] else [])
      && (|g| < 3 ==> Held(g + [x], next, (bits + 6) % 8))
      && (|g| == 3 ==> Held([], next, (bits + 6) % 8))
  {
    hide ShiftLeft, Octets, Octet;
    var k := ShiftIn(buffer, 6);
    SameLowBits(k, buffer);
    GroupOctet(g, k, x) by {
      assert |g| == 1 ==> k % 64 == g[0];
    }
    OctetsConcat(done, g + [x]);
    OctetsConcat(done, g);
    if |g| < 3 {
      HeldAfter(g, k, x);
    }
  }

  lemma {:induction false} OctetCount(s: seq<Sextet>)
    ensures |Octets(s)| == |s| * 6 / 8
    decreases |s|
  {
    hide O0, O1, O2;
    if |s| >= 4 {
      OctetCount(s[4..]);
    }
  }

  lemma {:induction false} ValuesSplit(a: string, b: string)
    ensures Values(a + b) ==
      if Values(a).Some? && Values(b).Some? then Some(Values(a).value + Values(b).value) else None
  {
    if a == "" {
      assert a + b == b;
      assert Values(b).Some? ==> [] + Values(b).value == Values(b).value;
    } else {
      ValuesSplit(a[1..], b);
      assert (a + b)[1..] == a[1..] + b;
      if Value(a[0]).Some? && Values(a[1..]).Some? && Values(b).Some? {
        var head := [Value(a[0]).value];
        assert head + (Values(a[1..]).value + Values(b).value) == (head + Values(a[1..]).value) + Values(b).value;
      }
    }
  }

  function Decoded(text: string): Option<seq<Byte>> {
    if |text| % 4 == 1 || Values(text).None? then None else Some(Octets(Values(text).value))
  }

  /** One turn of the decoding loop, on what was read before it and what is read after it. */
  lemma ReadLetter(value: string, i: nat, done: seq<Sextet>, group: seq<Sextet>, buffer: int, bits: nat)
    returns (done1: seq<Sextet>, group1: seq<Sextet>)
    requires i < |value| && Values(value[..i]) == Some(done + group)
    requires |done| % 4 == 0 && Held(group, buffer, bits)
    ensures Value(value[i]).None? ==> Values(value).None?
    ensures Value(value[i]).Some? ==>
      var next := ShiftLeft(buffer, 6) + Value(value[i]).value;
      && Values(value[..i + 1]) == Some(done1 + group1) && |done1| % 4 == 0
      && Held(group1, next, (bits + 6) % 8)
      && Octets(done1 + group1) == Octets(done + group) + (if bits + 6 >= 8 then [Octet(next, bits - 2)] else [])
      && |Octets(done1 + group1)| <= |value| * 6 / 8
  {
    hide ShiftLeft, Octets, Octet, Held, Values, Value;
    done1, group1 := done, group;
    assert value[..i] + [value[i]] == value[..i + 1] && value[..i + 1] + value[i + 1..] == value;
    ValuesSplit(value[..i], [value[i]]);
    ValuesSplit(value[..i + 1], value[i + 1..]);
    ValuesOfOne(value[i]);
    if Value(value[i]).Some? {
      var x := Value(value[i]).value;
      ReadSextet(done, group, buffer, bits, x);
      HeldShort(group, buffer, bits);
      assert (done + group) + [x] == done + (group + [x]);
      OctetCount(done + (group + [x]));
      done1, group1 := done, group + [x];
      if |group1| == 4 {
        done1, group1 := done + group1, [];
        assert done1 + group1 == done + (group + [x]);
      }
    }
  }

  method FromBase64Url(value: string) returns (bytes: Option<seq<Byte>>)
    ensures bytes == Decoded(value)
  {
    hide Or, ShiftLeft, ShiftRight, LowBits, Octets, Octet, Held, Values, Value;
    if |value| % 4 == 1 {
      return None;
    }
    var out := new Byte[|value| * 6 / 8];
    var buffer, bits, written := 0, 0, 0;
    ghost var done: seq<Sextet>, group: seq<Sextet> := [], [];
    ReadNothing();
    assert value[..0] == "" && done + group == [] && out[..0] == [];
    for i := 0 to |value|
      invariant Values(value[..i]) == Some(done + group) && |done| % 4 == 0 && Held(group, buffer, bits)
      invariant written <= out.Length && out[..written] == Octets(done + group)
    {
      var sextet := Value(value[i]);
      HeldShort(group, buffer, bits);
      ghost var done1, group1 := ReadLetter(value, i, done, group, buffer, bits);
      if sextet.None? {
        return None;
      }
      OrFills(buffer, 6, sextet.value);
      buffer := Or(ShiftLeft(buffer, 6), sextet.value);
      bits := bits + 6;
      if bits >= 8 {
        bits := bits - 8;
        out[written] := Octet(buffer, bits);
        written := written + 1;
      }
      done, group := done1, group1;
    }
    assert value[..|value|] == value;
    OctetCount(done + group);
    assert |done + group| == |value| && out[..] == out[..written];
    bytes := Some(out[..]);
  }

  lemma HeldShort(g: seq<Sextet>, buffer: int, bits: nat)
    requires Held(g, buffer, bits)
    ensures bits <= 6 && |g| < 4
  {
  }

  lemma ValuesOfOne(c: char)
    ensures Values([c]) == if Value(c).Some? then Some([Value(c).value]) else None
  {
    hide Value;
    assert [c][1..] == "" && Values("") == Some([]);
    assert Value(c).Some? ==> [Value(c).value] + [] == [Value(c).value];
  }

  lemma ReadNothing()
    ensures Values("") == Some([]) && Held([], 0, 0) && Octets([]) == []
  {
  }

  // ----- Main results -----

  /** Decoding what was encoded gives back every byte sequence, and the encoding is as short as it can be. */
  lemma {:induction false} DecodeOfEncode(bytes: seq<Byte>)
    ensures Decoded(Letters(Sextets(bytes))) == Some(bytes)
    ensures |Letters(Sextets(bytes))| == (8 * |bytes| + 5) / 6
  {
    hide Octets, Sextets, Values, Letters;
    OctetsOfSextets(bytes);
    ValuesOfLetters(Sextets(bytes));
  }

  /** Encoding what was decoded gives back a text exactly when it is decodable and drops no set bits. */
  lemma {:induction false} EncodeOfDecode(text: string)
    ensures Decoded(text).Some? && Letters(Sextets(Decoded(text).value)) == text <==>
      |text| % 4 != 1 && Values(text).Some? && NothingLeft(Values(text).value)
  {
    hide Octets, Sextets, Values, Letters, NothingLeft;
    if Decoded(text).Some? {
      var s := Values(text).value;
      LettersOfValues(text);
      SextetsOfOctets(s);
      ValuesOfLetters(Sextets(Octets(s)));
    }
  }

  // ----- The bits -----

  /** The lowest `n` bits of `x`, the highest of them first. */
  function BitsOf(x: nat, n: nat): (r: seq<nat>)
    ensures |r| == n && forall k | 0 <= k < n :: r[k] <= 1
  {
    if n == 0 then [] else BitsOf(x / 2, n - 1) + [x % 2]
  }

  function BitsOfBytes(b: seq<Byte>): (r: seq<nat>)
    ensures |r| == 8 * |b|
  {
    if b == [] then [] else BitsOf(b[0], 8) + BitsOfBytes(b[1..])
  }

  function BitsOfSextets(s: seq<Sextet>): (r: seq<nat>)
    ensures |r| == 6 * |s|
  {
    if s == [] then [] else BitsOf(s[0], 6) + BitsOfSextets(s[1..])
  }

  lemma {:induction false} BitsJoin(hi: nat, lo: nat, n: nat, k: nat)
    requires lo < Pow2(k)
    ensures BitsOf(hi * Pow2(k) + lo, n + k) == BitsOf(hi, n) + BitsOf(lo, k)
    decreases k
  {
    if k == 0 {
      assert BitsOf(hi, n) + [] == BitsOf(hi, n);
    } else {
      var x := hi * Pow2(k) + lo;
      assert x == 2 * (hi * Pow2(k - 1) + lo / 2) + lo % 2;
      BitsJoin(hi, lo / 2, n, k - 1);
      assert BitsOf(hi, n) + (BitsOf(lo / 2, k - 1) + [lo % 2]) == BitsOf(hi, n) + BitsOf(lo / 2, k - 1) + [lo % 2];
    }
  }

  lemma BitsOfZero(n: nat)
    ensures forall k | 0 <= k < n :: BitsOf(0, n)[k] == 0
  {
  }

  lemma ByteBits(b: Byte)
    ensures BitsOf(b, 8) == BitsOf(b / 4, 6) + BitsOf(b % 4, 2)
    ensures BitsOf(b, 8) == BitsOf(b / 16, 4) + BitsOf(b % 16, 4)
    ensures BitsOf(b, 8) == BitsOf(b / 64, 2) + BitsOf(b % 64, 6)
  {
    Powers();
    hide BitsOf, Pow2;
    BitsJoin(b / 4, b % 4, 6, 2);
    BitsJoin(b / 16, b % 16, 4, 4);
    BitsJoin(b / 64, b % 64, 2, 6);
  }

  lemma SextetBits(b0: Byte, b1: Byte)
    ensures BitsOf(S1(b0, b1), 6) == BitsOf(b0 % 4, 2) + BitsOf(b1 / 16, 4)
    ensures BitsOf(S2(b0, b1), 6) == BitsOf(b0 % 16, 4) + BitsOf(b1 / 64, 2)
  {
    Powers();
    hide BitsOf, Pow2;
    BitsJoin(b0 % 4, b1 / 16, 2, 4);
    BitsJoin(b0 % 16, b1 / 64, 4, 2);
  }

  lemma Regrouped(a: seq<nat>, b: seq<nat>, c: seq<nat>, d: seq<nat>, e: seq<nat>, f: seq<nat>)
    ensures a + (b + c) + (d + e) + f == (a + b) + (c + d) + (e + f)
    ensures a + (b + c) == (a + b) + c
    ensures a + (b + c) + (d + e) == (a + b) + (c + d) + e
  {
  }

  /** The bits of three bytes are those of their four sextets. */
  lemma GroupBits(b0: Byte, b1: Byte, b2: Byte)
    ensures BitsOf(S0(b0), 6) + BitsOf(S1(b0, b1), 6) + BitsOf(S2(b1, b2), 6) + BitsOf(S3(b2), 6)
         == BitsOf(b0, 8) + BitsOf(b1, 8) + BitsOf(b2, 8)
  {
    hide BitsOf, S1, S2;
    ByteBits(b0);
    ByteBits(b1);
    ByteBits(b2);
    SextetBits(b0, b1);
    SextetBits(b1, b2);
    Regrouped(BitsOf(b0 / 4, 6), BitsOf(b0 % 4, 2), BitsOf(b1 / 16, 4), BitsOf(b1 % 16, 4), BitsOf(b2 / 64, 2),
              BitsOf(b2 % 64, 6));
  }

  /** The same for two bytes or one, with zeros behind. */
  lemma FrontBits(b0: Byte, b1: Byte)
    ensures BitsOf(S0(b0), 6) + BitsOf(S1(b0, b1), 6) + BitsOf(S2(b1, 0), 6)
         == BitsOf(b0, 8) + BitsOf(b1, 8) + BitsOf(0, 2)
    ensures BitsOf(S0(b0), 6) + BitsOf(S1(b0, 0), 6) == BitsOf(b0, 8) + BitsOf(0, 4)
  {
    hide BitsOf, S1, S2;
    ByteBits(b0);
    ByteBits(b1);
    SextetBits(b0, b1);
    SextetBits(b0, 0);
    SextetBits(b1, 0);
    Regrouped(BitsOf(b0 / 4, 6), BitsOf(b0 % 4, 2), BitsOf(b1 / 16, 4), BitsOf(b1 % 16, 4), BitsOf(0, 2), []);
    Regrouped(BitsOf(b0 / 4, 6), BitsOf(b0 % 4, 2), BitsOf(0, 4), [], [], []);
  }

  lemma SextetFirst(x: Sextet, rest: seq<Sextet>)
    ensures BitsOfSextets([x] + rest) == BitsOf(x, 6) + BitsOfSextets(rest)
  {
    assert ([x] + rest)[1..] == rest;
  }

  lemma ByteFirst(x: Byte, rest: seq<Byte>)
    ensures BitsOfBytes([x] + rest) == BitsOf(x, 8) + BitsOfBytes(rest)
  {
    assert ([x] + rest)[1..] == rest;
  }

  lemma NoBits()
    ensures BitsOfSextets([]) == [] && BitsOfBytes([]) == []
  {
  }

  lemma LastBits(s: Sextet, b: Byte)
    ensures BitsOfSextets([s]) == BitsOf(s, 6) && BitsOfBytes([b]) == BitsOf(b, 8)
  {
    hide BitsOf;
    assert [s][1..] == [] && [b][1..] == [];
    assert BitsOf(s, 6) + [] == BitsOf(s, 6) && BitsOf(b, 8) + [] == BitsOf(b, 8);
  }

  lemma BitsOfGroup(s0: Sextet, s1: Sextet, s2: Sextet, s3: Sextet, rest: seq<Sextet>)
    ensures BitsOfSextets([s0, s1, s2, s3] + rest)
         == BitsOf(s0, 6) + BitsOf(s1, 6) + BitsOf(s2, 6) + BitsOf(s3, 6) + BitsOfSextets(rest)
  {
    hide BitsOf, BitsOfSextets;
    SextetFirst(s0, [s1, s2, s3] + rest);
    SextetFirst(s1, [s2, s3] + rest);
    SextetFirst(s2, [s3] + rest);
    SextetFirst(s3, rest);
    assert [s0, s1, s2, s3] + rest == [s0] + ([s1, s2, s3] + rest);
    assert [s1, s2, s3] + rest == [s1] + ([s2, s3] + rest);
    assert [s2, s3] + rest == [s2] + ([s3] + rest);
  }

  lemma BitsOfThree(b0: Byte, b1: Byte, b2: Byte, rest: seq<Byte>)
    ensures BitsOfBytes([b0, b1, b2] + rest) == BitsOf(b0, 8) + BitsOf(b1, 8) + BitsOf(b2, 8) + BitsOfBytes(rest)
  {
    hide BitsOf, BitsOfBytes;
    ByteFirst(b0, [b1, b2] + rest);
    ByteFirst(b1, [b2] + rest);
    ByteFirst(b2, rest);
    assert [b0, b1, b2] + rest == [b0] + ([b1, b2] + rest);
    assert [b1, b2] + rest == [b1] + ([b2] + rest);
  }

  lemma OneByteBits(x: Byte)
    ensures BitsOfSextets(Sextets([x])) == BitsOfBytes([x]) + BitsOf(0, 4)
  {
    hide BitsOf, S0, S1, BitsOfSextets, BitsOfBytes;
    FrontBits(x, 0);
    LastBits(S1(x, 0), x);
    SextetFirst(S0(x), [S1(x, 0)]);
    assert Sextets([x]) == [S0(x)] + [S1(x, 0)];
  }

  lemma TwoBytesBits(x: Byte, y: Byte)
    ensures BitsOfSextets(Sextets([x, y])) == BitsOfBytes([x, y]) + BitsOf(0, 2)
  {
    hide BitsOf, S0, S1, S2, BitsOfSextets, BitsOfBytes;
    FrontBits(x, y);
    LastBits(S2(y, 0), y);
    SextetFirst(S0(x), [S1(x, y)] + [S2(y, 0)]);
    SextetFirst(S1(x, y), [S2(y, 0)]);
    ByteFirst(x, [y]);
    assert [x, y] == [x] + [y];
    assert Sextets([x, y]) == [S0(x)] + ([S1(x, y)] + [S2(y, 0)]);
    Regrouped(BitsOf(S0(x), 6), BitsOf(S1(x, y), 6), BitsOf(S2(y, 0), 6), [], [], []);
  }

  /** The letters stand for the bits of the bytes, in order and filled up with zeros to a whole letter. */
  lemma {:induction false} BitsKept(b: seq<Byte>)
    ensures var pad := if |b| % 3 == 0 then 0 else if |b| % 3 == 1 then 4 else 2;
      BitsOfSextets(Sextets(b)) == BitsOfBytes(b) + BitsOf(0, pad)
    decreases |b|
  {
    hide *;
    var pad := if |b| % 3 == 0 then 0 else if |b| % 3 == 1 then 4 else 2;
    if b == [] {
      SextetsOfNone();
      NoBits();
      BitsOfZero(0);
    } else if |b| == 1 {
      OneByteBits(b[0]);
      assert b == [b[0]];
    } else if |b| == 2 {
      TwoBytesBits(b[0], b[1]);
      assert b == [b[0], b[1]];
    } else {
      var rest := b[3..];
      BitsKept(rest);
      assert b == [b[0], b[1], b[2]] + rest;
      SextetsGroup(b[0], b[1], b[2], rest);
      GroupBits(b[0], b[1], b[2]);
      BitsOfGroup(S0(b[0]), S1(b[0], b[1]), S2(b[1], b[2]), S3(b[2]), Sextets(rest));
      BitsOfThree(b[0], b[1], b[2], rest);
      var front := BitsOf(b[0], 8) + BitsOf(b[1], 8) + BitsOf(b[2], 8);
      assert front + BitsOfBytes(rest) + BitsOf(0, pad) == front + (BitsOfBytes(rest) + BitsOf(0, pad));
    }
  }

  /** Section 5 of RFC 4648. */
  const ALPHABET := "ABCDEFGHIJKLMNOPQRSTUVWXYZ" + "abcdefghijklmnopqrstuvwxyz" + "0123456789-_"

  lemma Capital(s: Sextet)
    requires s < 26
    ensures Letter(s) == "ABCDEFGHIJKLMNOPQRSTUVWXYZ"[s]
  {
  }

  lemma Small(s: Sextet)
    requires 26 <= s < 52
    ensures Letter(s) == "abcdefghijklmnopqrstuvwxyz"[s - 26]
  {
  }

  lemma DigitOrSign(s: Sextet)
    requires 52 <= s
    ensures Letter(s) == "0123456789-_"[s - 52]
  {
  }

  /** Every sextet is written as its letter of the alphabet. */
  lemma {:induction false} LettersMean(s: seq<Sextet>)
    ensures forall k | 0 <= k < |s| :: Letters(s)[k] == ALPHABET[s[k]]
  {
    if s != [] {
      LettersMean(s[1..]);
      hide Letter;
      if s[0] < 26 { Capital(s[0]); } else if s[0] < 52 { Small(s[0]); } else { DigitOrSign(s[0]); }
    }
  }
}
