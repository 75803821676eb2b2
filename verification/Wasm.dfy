/**
 The binary reader of `src/soroban.ts`: unsigned LEB128 integers and the custom
 sections of a module (sections 5.2.2, 5.5.2 and 5.5.3 of the WebAssembly Core
 Specification).
 */
module Wasm {
  import opened Wrappers
  import opened Int32

  type Bytes = seq<Byte>

  datatype Leb = Leb(value: nat, next: nat)

  // ----- LEB128 -----

  /** How many bytes the integer that starts `s` takes, if it ends within `limit`. */
  function LebLength(s: Bytes, limit: nat): (n: Option<nat>)
    ensures n.Some? ==> 0 < n.value <= |s| && n.value <= limit
  {
    if s == [] || limit == 0 then None
    else if s[0] < 128 then Some(1)
    else
      match LebLength(s[1..], limit - 1)
      case None => None
      case Some(n) => Some(n + 1)
  }

  /** The number whose base-128 digits are the low seven bits of the bytes, least significant first. */
  function Base128(s: Bytes): nat {
    if s == [] then 0 else s[0] % 128 + 128 * Base128(s[1..])
  }

  function ReadLeb128Spec(wasm: Bytes, offset: nat): (r: Option<Leb>)
    ensures r.Some? ==> offset < r.value.next <= |wasm| && r.value.value < TWO_32
  {
    if offset >= |wasm| then None
    else
      match LebLength(wasm[offset..], 5)
      case None => None
      case Some(n) => Some(Leb(Base128(wasm[offset..offset + n]) % TWO_32, offset + n))
  }

  lemma Pow7(n: nat)
    ensures Pow2(7 * (n + 1)) == 128 * Pow2(7 * n)
  {
    var p := Pow2(7 * n);
    assert Pow2(7 * n + 1) == 2 * p && Pow2(7 * n + 2) == 4 * p && Pow2(7 * n + 3) == 8 * p;
    assert Pow2(7 * n + 4) == 16 * p && Pow2(7 * n + 5) == 32 * p && Pow2(7 * n + 6) == 64 * p;
    assert Pow2(7 * n + 7) == 128 * p;
  }

  lemma {:induction false} Base128Append(s: Bytes, b: Byte)
    ensures Base128(s + [b]) == Base128(s) + Pow2(7 * |s|) * (b % 128)
    ensures Base128(s) < Pow2(7 * |s|)
    decreases |s|
  {
    if s == [] {
      assert s + [b] == [b] && [b][1..] == [];
    } else {
      Base128Append(s[1..], b);
      assert (s + [b])[1..] == s[1..] + [b];
      Pow7(|s| - 1);
      var p, x := Pow2(7 * (|s| - 1)), b % 128;
      assert 128 * (p * x) == (128 * p) * x;
    }
  }

  lemma {:induction false} LebStops(s: Bytes, n: nat, limit: nat)
    requires n <= |s| && n <= limit && forall i | 0 <= i < n :: s[i] >= 128
    ensures n == |s| || n == limit ==> LebLength(s, limit).None?
    ensures n < |s| && n < limit && s[n] < 128 ==> LebLength(s, limit) == Some(n + 1)
    decreases n
  {
    if n > 0 {
      LebStops(s[1..], n - 1, limit - 1);
    }
  }

  lemma Powers7(j: nat)
    requires j <= 4
    ensures Pow2(7 * j) == if j == 0 then 1 else if j == 1 then 128 else if j == 2 then 0x4000 else if j == 3 then 0x20_0000 else 0x1000_0000
  {
    if j > 0 {
      Powers7(j - 1);
      Pow7(j - 1);
    }
  }

  /** One turn of the loop. Only the fifth byte can push bits past the 32nd, where the shift drops them. */
  lemma {:induction false} OrIn(s: Bytes, b: Byte)
    requires |s| <= 4
    ensures |s| < 4 ==> Base128(s) + ShiftLeft(b % 128, 7 * |s|) == Base128(s + [b])
    ensures (Base128(s) + ShiftLeft(b % 128, 7 * |s|)) % TWO_32 == Base128(s + [b]) % TWO_32
  {
    hide Base128, Wrap32, Pow2;
    Base128Append(s, b);
    Powers7(|s|);
    var x := b % 128 * Pow2(7 * |s|);
    assert x == Pow2(7 * |s|) * (b % 128);
    if |s| < 4 {
      SmallShift(|s|, b % 128, x);
    }
    var q := WrapBy(x);
    SameResidue(Base128(s) + x, q);
  }

  lemma SmallShift(j: nat, d: int, x: int)
    requires j < 4 && 0 <= d < 128 && x == d * Pow2(7 * j)
    ensures Wrap32(x) == x
  {
    hide Pow2;
    Powers7(j);
    assert 0 <= x < 0x1000_0000;
  }

  lemma SameResidue(x: int, q: int)
    ensures (x - TWO_32 * q) % TWO_32 == x % TWO_32
  {
    var d := x / TWO_32;
    assert x - TWO_32 * q == TWO_32 * (d - q) + x % TWO_32;
  }

  /** The bits a turn puts in are bits that are still free, so `|` adds them. */
  lemma OrAddsDigit(s: Bytes, b: Byte)
    requires |s| <= 4
    ensures Or(Base128(s), ShiftLeft(b % 128, 7 * |s|)) == Base128(s) + ShiftLeft(b % 128, 7 * |s|)
  {
    hide Base128, Wrap32, Pow2, Or;
    Base128Append(s, b);
    var n, d := 7 * |s|, b % 128;
    var q := WrapBy(d * Pow2(n));
    WordPowers();
    PowersAdd(32 - n, n);
    assert (d - q * Pow2(32 - n)) * Pow2(n) == d * Pow2(n) - q * (Pow2(32 - n) * Pow2(n));
    OrAdds(ShiftLeft(d, n), Base128(s), n, d - q * Pow2(32 - n));
  }

  method ReadLeb128(wasm: Bytes, offset: nat) returns (r: Option<Leb>)
    ensures r == ReadLeb128Spec(wasm, offset)
  {
    hide Or, ShiftLeft, Base128, LebLength, Pow2;
    var value, shift := 0, 0;
    var pos := offset;
    while pos < |wasm|
      invariant offset <= pos && pos - offset <= 4 && (pos > offset ==> pos <= |wasm|)
      invariant shift == 7 * (pos - offset)
      invariant pos > offset ==> forall i | 0 <= i < pos - offset :: wasm[offset..][i] >= 128
      invariant pos > offset ==> value == Base128(wasm[offset..pos])
      invariant pos == offset ==> value == 0
    {
      var byte := wasm[pos];
      ghost var read := wasm[offset..pos];
      assert wasm[offset..pos + 1] == read + [byte];
      EmptyIsZero();
      LebStops(wasm[offset..], pos - offset, 5);
      OrIn(read, byte);
      OrAddsDigit(read, byte);
      value := Or(value, ShiftLeft(byte % 128, shift));
      pos := pos + 1;
      if byte < 128 {
        return Some(Leb(value % TWO_32, pos));
      }
      shift := shift + 7;
      if shift > 28 {
        LebStops(wasm[offset..], 5, 5);
        return None;
      }
    }
    if pos > offset {
      LebStops(wasm[offset..], pos - offset, 5);
    }
    return None;
  }

  lemma EmptyIsZero()
    ensures Base128([]) == 0
  {
  }

  /** The shortest encoding of `n`. */
  function EncodeLeb128(n: nat): (s: Bytes)
    ensures s != []
  {
    if n < 128 then [n] else [128 + n % 128] + EncodeLeb128(n / 128)
  }

  lemma QuotientBelow(n: nat, p: nat)
    requires n < 128 * p
    ensures n / 128 < p
  {
    assert n == 128 * (n / 128) + n % 128;
  }

  lemma {:induction false} EncodingReads(n: nat, limit: nat, rest: Bytes)
    requires limit >= 1 && n < Pow2(7 * limit)
    ensures var s := EncodeLeb128(n);
      Base128(s) == n && LebLength(s + rest, limit) == Some(|s|)
    decreases limit
  {
    hide Pow2;
    var s := EncodeLeb128(n);
    if n < 128 {
      assert (s + rest)[0] == n;
    } else {
      Powers7(0);
      Pow7(limit - 1);
      QuotientBelow(n, Pow2(7 * (limit - 1)));
      EncodingReads(n / 128, limit - 1, rest);
      assert s[1..] == EncodeLeb128(n / 128) && s[0] % 128 == n % 128;
      assert (s + rest)[1..] == EncodeLeb128(n / 128) + rest;
    }
  }

  /** Reading the encoding of any 32-bit number gives the number and the offset after it. */
  lemma ReadOfEncode(pre: Bytes, n: nat, rest: Bytes)
    requires n < TWO_32
    ensures ReadLeb128Spec(pre + EncodeLeb128(n) + rest, |pre|) == Some(Leb(n, |pre| + |EncodeLeb128(n)|))
  {
    hide Base128, LebLength, EncodeLeb128, Pow2;
    var s := EncodeLeb128(n);
    Powers7(4);
    Pow7(4);
    EncodingReads(n, 5, rest);
    var wasm := pre + s + rest;
    assert wasm[|pre|..] == s + rest;
    assert wasm[|pre|..|pre| + |s|] == s;
  }

  // ----- Well-formed integers -----

  lemma {:induction false} LebBytes(s: Bytes, limit: nat)
    requires LebLength(s, limit).Some?
    ensures var n := LebLength(s, limit).value; s[n - 1] < 128 && forall i | 0 <= i < n - 1 :: s[i] >= 128
    decreases limit
  {
    if s[0] >= 128 {
      LebBytes(s[1..], limit - 1);
      var n := LebLength(s, limit).value;
      forall i | 0 <= i < n - 1 ensures s[i] >= 128 {
        assert i > 0 ==> s[i] == s[1..][i - 1];
      }
    }
  }

  /**
   The value read is the integer written, by section 5.2.2, if and only if it takes fewer
   than five bytes or its fifth byte has no bits beyond the 32nd.
   */
  lemma ReadIsExact(wasm: Bytes, offset: nat)
    requires ReadLeb128Spec(wasm, offset).Some?
    ensures var r := ReadLeb128Spec(wasm, offset).value;
      r.value == Base128(wasm[offset..r.next]) <==> r.next - offset < 5 || wasm[offset + 4] % 128 < 16
  {
    hide Base128, LebLength, Pow2;
    var n := LebLength(wasm[offset..], 5).value;
    var s := wasm[offset..offset + n];
    var front := s[..n - 1];
    assert s == front + [s[n - 1]];
    Base128Append(front, s[n - 1]);
    Powers7(n - 1);
    if n == 5 {
      var digit: int := wasm[offset + 4] % 128;
      assert Base128(s) == Base128(front) + 0x1000_0000 * digit;
    }
    assert Base128(s) % TWO_32 == Base128(s) <==> Base128(s) < TWO_32;
  }

  /** Five bytes that hold 35 bits are accepted and cut to 32. */
  lemma WideIntegerIsCut()
    ensures var wasm: Bytes := [0xFF, 0xFF, 0xFF, 0xFF, 0x7F];
      ReadLeb128Spec(wasm, 0) == Some(Leb(0xFFFF_FFFF, 5)) && Base128(wasm) == 0x7_FFFF_FFFF
  {
    var wasm: Bytes := [0xFF, 0xFF, 0xFF, 0xFF, 0x7F];
    LebStops(wasm, 4, 5);
    assert wasm[0..] == wasm && wasm[0..5] == wasm;
    assert wasm[1..] == [0xFF, 0xFF, 0xFF, 0x7F] && wasm[1..][1..] == [0xFF, 0xFF, 0x7F];
    assert wasm[1..][1..][1..] == [0xFF, 0x7F] && wasm[1..][1..][1..][1..] == [0x7F];
    assert Base128([0x7F]) == 0x7F && Base128([0xFF, 0x7F]) == 0x3FFF && Base128([0xFF, 0xFF, 0x7F]) == 0x1F_FFFF;
    assert Base128([0xFF, 0xFF, 0xFF, 0x7F]) == 0xFFF_FFFF;
  }

  // ----- Custom sections -----

  const MAGIC: Bytes := [0x00, 0x61, 0x73, 0x6D]

  /** `wasm.length >= 8` and the first word is `\0asm`; the version is not looked at. */
  predicate IsModule(wasm: Bytes) {
    |wasm| >= 8 && wasm[..4] == MAGIC
  }

  /** The payload a section `[start, end)` holds, if it carries the wanted name. */
  function PayloadIn(wasm: Bytes, start: nat, end: nat, named: Bytes -> bool): (r: Option<(nat, nat)>)
    requires start <= end <= |wasm|
    ensures r.Some? ==> start < r.value.0 <= r.value.1 == end
  {
    match ReadLeb128Spec(wasm, start)
    case None => None
    case Some(size) =>
      var nameEnd := size.next + size.value;
      if nameEnd <= end && named(wasm[size.next..nameEnd]) then Some((nameEnd, end)) else None
  }

  /** The bounds of the payload of the first section from `pos` on that carries the name. */
  function FindSection(wasm: Bytes, pos: nat, named: Bytes -> bool): (r: Option<(nat, nat)>)
    ensures r.Some? ==> pos < r.value.0 <= r.value.1 <= |wasm|
    decreases |wasm| - pos
  {
    if pos >= |wasm| then None
    else
      match ReadLeb128Spec(wasm, pos + 1)
      case None => None
      case Some(size) =>
        var end := size.next + size.value;
        if end > |wasm| then None
        else
          var found := if wasm[pos] == 0 then PayloadIn(wasm, size.next, end, named) else None;
          if found.Some? then found else FindSection(wasm, end, named)
  }

  /** `toString('utf8', …) === name`, for a decoder the engine supplies. */
  function Named(utf8: Bytes -> string, name: string): Bytes -> bool {
    (b: Bytes) => utf8(b) == name
  }

  function CustomSectionSpec(wasm: Bytes, name: string, utf8: Bytes -> string): Option<Bytes> {
    if !IsModule(wasm) then None
    else
      match FindSection(wasm, 8, Named(utf8, name))
      case None => None
      case Some(r) => Some(wasm[r.0..r.1])
  }

  method WasmCustomSection(wasm: Bytes, name: string, utf8: Bytes -> string) returns (payload: Option<Bytes>)
    ensures payload == CustomSectionSpec(wasm, name, utf8)
  {
    hide ReadLeb128Spec;
    if |wasm| < 8 || wasm[..4] != MAGIC {
      return None;
    }
    var pos := 8;
    ghost var named := Named(utf8, name);
    while pos < |wasm|
      invariant FindSection(wasm, pos, named) == FindSection(wasm, 8, named)
      decreases |wasm| - pos
    {
      var id := wasm[pos];
      var size := ReadLeb128(wasm, pos + 1);
      if size.None? {
        return None;
      }
      var start := size.value.next;
      var end := start + size.value.value;
      if end > |wasm| {
        return None;
      }
      if id == 0 {
        var nameLength := ReadLeb128(wasm, start);
        if nameLength.Some? {
          var nameStart := nameLength.value.next;
          var nameEnd := nameStart + nameLength.value.value;
          if nameEnd <= end && utf8(wasm[nameStart..nameEnd]) == name {
            return Some(wasm[nameEnd..end]);
          }
        }
      }
      pos := end;
    }
    return None;
  }

  /** On any bytes, what is returned is a slice of them from behind the header. */
  lemma SliceOfModule(wasm: Bytes, name: string, utf8: Bytes -> string)
    ensures var r := CustomSectionSpec(wasm, name, utf8);
      r.Some? ==> IsModule(wasm) && exists a, b :: 8 < a <= b <= |wasm| && r.value == wasm[a..b]
  {
    hide FindSection, Named;
    if IsModule(wasm) {
      var r := FindSection(wasm, 8, Named(utf8, name));
      if r.Some? {
        assert CustomSectionSpec(wasm, name, utf8).value == wasm[r.value.0..r.value.1];
      }
    }
  }

  // ----- A printer -----

  datatype Section = Custom(name: Bytes, payload: Bytes) | Other(id: Byte, body: Bytes)

  function Body(s: Section): Bytes {
    match s
    case Custom(name, payload) => EncodeLeb128(|name|) + name + payload
    case Other(_, body) => body
  }

  predicate Printable(s: Section) {
    |Body(s)| < TWO_32 && (s.Other? ==> s.id != 0)
  }

  function PrintSection(s: Section): Bytes {
    [if s.Custom? then 0 else s.id] + EncodeLeb128(|Body(s)|) + Body(s)
  }

  function PrintSections(sections: seq<Section>): Bytes {
    if sections == [] then [] else PrintSection(sections[0]) + PrintSections(sections[1..])
  }

  function PrintModule(version: Bytes, sections: seq<Section>): Bytes
    requires |version| == 4
  {
    [0x00, 0x61, 0x73, 0x6D] + version + PrintSections(sections)
  }

  /** The payload of the first custom section with a name. */
  function FirstNamed(sections: seq<Section>, name: Bytes): Option<Bytes> {
    if sections == [] then None
    else if sections[0].Custom? && sections[0].name == name then Some(sections[0].payload)
    else FirstNamed(sections[1..], name)
  }

  /** One printed section, wherever it stands: its size leads to the next, and a custom one shows its name. */
  lemma SectionReads(pre: Bytes, s: Section, rest: Bytes, named: Bytes -> bool)
    requires Printable(s)
    ensures var wasm, start := pre + PrintSection(s) + rest, |pre| + 1 + |EncodeLeb128(|Body(s)|)|;
      var end := |pre + PrintSection(s)|;
      && ReadLeb128Spec(wasm, |pre| + 1) == Some(Leb(|Body(s)|, start)) && start + |Body(s)| == end
      && wasm[|pre|] == (if s.Custom? then 0 else s.id)
      && var payload := if s.Custom? && named(s.name) then Some((end - |s.payload|, end)) else None;
         (s.Custom? ==> PayloadIn(wasm, start, end, named) == payload)
  {
    hide ReadLeb128Spec, EncodeLeb128;
    var body, size := Body(s), EncodeLeb128(|Body(s)|);
    var id: Byte := if s.Custom? then 0 else s.id;
    var wasm := pre + PrintSection(s) + rest;
    assert wasm == (pre + [id]) + size + (body + rest);
    ReadOfEncode(pre + [id], |body|, body + rest);
    if s.Custom? {
      var head := pre + [id] + size;
      assert wasm == head + EncodeLeb128(|s.name|) + (s.name + s.payload + rest);
      ReadOfEncode(head, |s.name|, s.name + s.payload + rest);
      var nameStart := |head| + |EncodeLeb128(|s.name|)|;
      assert wasm[nameStart..nameStart + |s.name|] == s.name;
    }
  }

  lemma {:induction false} SectionsRead(pre: Bytes, sections: seq<Section>, name: Bytes, named: Bytes -> bool)
    requires forall s | s in sections :: Printable(s)
    requires forall b :: named(b) <==> b == name
    ensures var wasm := pre + PrintSections(sections);
      var r := FindSection(wasm, |pre|, named);
      && r.Some? == FirstNamed(sections, name).Some?
      && (r.Some? ==> wasm[r.value.0..r.value.1] == FirstNamed(sections, name).value)
    decreases |sections|
  {
    hide ReadLeb128Spec, EncodeLeb128, PayloadIn, PrintSection, Body;
    var wasm := pre + PrintSections(sections);
    if sections == [] {
      assert wasm == pre;
    } else {
      var s, rest := sections[0], PrintSections(sections[1..]);
      assert wasm == pre + PrintSection(s) + rest;
      SectionReads(pre, s, rest, named);
      SectionsRead(pre + PrintSection(s), sections[1..], name, named);
      if s.Custom? && s.name == name {
        PayloadEnds(pre, s, rest);
      }
    }
  }

  lemma PayloadEnds(pre: Bytes, s: Section, rest: Bytes)
    requires s.Custom?
    ensures var end := |pre + PrintSection(s)|;
      |s.payload| <= end && (pre + PrintSection(s) + rest)[end - |s.payload|..end] == s.payload
  {
    hide EncodeLeb128;
    var front := pre + [0] + EncodeLeb128(|Body(s)|) + EncodeLeb128(|s.name|) + s.name;
    assert pre + PrintSection(s) == front + s.payload;
  }

  // ----- Main result -----

  /** The bytes of an ASCII name. */
  function Ascii(name: string): Bytes
    requires forall c | c in name :: c < '\U{0080}'
  {
    if name == "" then []
    else
      assert name[0] in name && forall c | c in name[1..] :: c in name;
      var first: Byte := name[0] as int;
      [first] + Ascii(name[1..])
  }

  /** On any printed module the reader returns the payload of the first custom section with the name, or nothing. */
  lemma ReadsPrintedModule(version: Bytes, sections: seq<Section>, name: string, utf8: Bytes -> string)
    requires |version| == 4 && forall s | s in sections :: Printable(s)
    requires forall c | c in name :: c < '\U{0080}'
    requires forall b :: utf8(b) == name <==> b == Ascii(name)
    ensures CustomSectionSpec(PrintModule(version, sections), name, utf8) == FirstNamed(sections, Ascii(name))
  {
    hide FindSection, PrintSections, FirstNamed, Ascii;
    var wasm := PrintModule(version, sections);
    assert wasm[..4] == MAGIC;
    SectionsRead(MAGIC + version, sections, Ascii(name), Named(utf8, name));
  }
}
