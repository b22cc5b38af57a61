/**
 The WASM binary walkers of crates/xdr-parser/src/contract.rs: LEB128 integers,
 the custom-section finder and the import-section walker, proved against encoders
 for an abstract module (the WebAssembly Core Specification 1.0, sections 5.2.2,
 5.3.4, 5.5.2, 5.5.3 and 5.5.5).
 */
module Wasm {
  import opened Bits
  import opened Bytes
  import opened Options

  const U32: nat := 0x1_0000_0000

  // ---------- LEB128 ----------

  /** An integer read at some position, and how many bytes it took. */
  datatype Read = Read(value: nat, length: nat)

  /** How many bytes from `pos` on carry the continuation bit. */
  function Continued(s: seq<Byte>, pos: nat): (n: nat)
    ensures forall i :: pos <= i < pos + n ==> i < |s| && s[i] >= 128
    ensures pos + n < |s| ==> s[pos + n] < 128
    decreases |s| - pos
  {
    if pos >= |s| || s[pos] < 128 then 0
    else
      var rest := Continued(s, pos + 1);
      assert pos + (1 + rest) == pos + 1 + rest;
      1 + rest
  }

  /** The value of the `n` bytes at `pos`, seven bits each, least significant first. */
  function LebSum(s: seq<Byte>, pos: nat, n: nat): nat
    requires pos + n <= |s|
    decreases n
  {
    if n == 0 then 0 else s[pos] % 128 + 128 * LebSum(s, pos + 1, n - 1)
  }

  /** What reading an integer at `pos` gives: its value modulo 2^32, if it ends within five bytes. */
  function LebAt(s: seq<Byte>, pos: nat): (r: Option<Read>)
    ensures r.Some? ==> 1 <= r.value.length <= 5 && pos + r.value.length <= |s| && r.value.value < U32
  {
    var n := Continued(s, pos);
    if n < 5 && pos + n < |s| then Some(Read(LebSum(s, pos, n + 1) % U32, n + 1)) else None
  }

  /** `u32 << shift`: bits shifted out are lost. */
  function Shl32(x: nat, shift: nat): nat
  {
    Shl(x, shift) % U32
  }

  lemma {:induction false} LebSumSnoc(s: seq<Byte>, pos: nat, n: nat)
    requires pos + n < |s|
    ensures LebSum(s, pos, n + 1) == LebSum(s, pos, n) + Shl(s[pos + n] % 128, 7 * n)
    ensures LebSum(s, pos, n) < Pow2(7 * n)
    decreases n
  {
    var x := s[pos + n] % 128;
    if n == 0 {
      assert Shl(x, 0) == x;
    } else {
      LebSumSnoc(s, pos + 1, n - 1);
      Pow2Add7(7 * (n - 1));
      Times128(x, Pow2(7 * (n - 1)));
    }
  }

  lemma Pow2Add7(k: nat)
    ensures Pow2(k + 7) == 128 * Pow2(k)
  {
    assert Pow2(k + 7) == 2 * Pow2(k + 6) && Pow2(k + 6) == 2 * Pow2(k + 5) && Pow2(k + 5) == 2 * Pow2(k + 4);
    assert Pow2(k + 4) == 2 * Pow2(k + 3) && Pow2(k + 3) == 2 * Pow2(k + 2) && Pow2(k + 2) == 2 * Pow2(k + 1);
  }

  lemma Times128(a: nat, p: nat)
    ensures a * (128 * p) == 128 * (a * p)
  {
  }

  /** One step of the reader: oring in seven more bits gives the longer value modulo 2^32. */
  lemma OrShifted(low: nat, x: nat, n: nat)
    requires n <= 4 && low < Pow2(7 * n) && x < 128
    ensures Or(low % U32, Shl32(x, 7 * n)) == (low + Shl(x, 7 * n)) % U32
  {
    if n == 4 {
      OrHigh(low, x);
    } else {
      LowShift(x, n);
      OrFits(low, x, 7 * n);
    }
  }

  lemma LowShift(x: nat, n: nat)
    requires n <= 3 && x < 128
    ensures Pow2(7 * n) <= 2097152 && Shl(x, 7 * n) <= 127 * 2097152
  {
    Pow2Values();
    var p := Pow2(7 * n);
    assert p <= 2097152;
    assert x * p <= 127 * 2097152;
  }

  /** Nothing is shifted out. */
  lemma OrFits(low: nat, x: nat, k: nat)
    requires low < Pow2(k) && Pow2(k) <= 2097152 && Shl(x, k) <= 127 * 2097152
    ensures Or(low % U32, Shl32(x, k)) == (low + Shl(x, k)) % U32
  {
    OrDisjoint(x, k, low);
    Small(low);
    Small(Shl(x, k));
    Small(low + Shl(x, k));
  }

  lemma Small(n: nat)
    requires n < U32
    ensures n % U32 == n
  {
  }

  /** The fifth byte: three of its seven bits are shifted out. */
  lemma OrHigh(low: nat, x: nat)
    requires low < Pow2(28)
    ensures Or(low % U32, Shl32(x, 28)) == (low + Shl(x, 28)) % U32
  {
    assert Pow2(28) == 268435456 by { Pow2Values(); }
    TopBits(low, x);
    Small(low);
    OrDisjoint(x % 16, 28, low);
  }

  lemma TopBits(low: nat, x: nat)
    requires low < 268435456
    ensures (x * 268435456) % U32 == (x % 16) * 268435456
    ensures (low + x * 268435456) % U32 == low + (x % 16) * 268435456
  {
    var high := (x % 16) * 268435456;
    assert x == 16 * (x / 16) + x % 16;
    assert x * 268435456 == U32 * (x / 16) + high;
    ModAdd(x / 16, high);
    ModAdd(x / 16, low + high);
  }

  lemma ModAdd(q: nat, r: nat)
    requires r < U32
    ensures (U32 * q + r) % U32 == r
  {
  }

  method ReadLeb128(bytes: seq<Byte>) returns (r: Option<Read>)
    ensures r == LebAt(bytes, 0)
  {
    var result, shift := 0, 0;
    for i := 0 to |bytes|
      invariant shift == 7 * i && i <= 5
      invariant result == LebSum(bytes, 0, i) % U32
      invariant Continued(bytes, 0) == i + Continued(bytes, i)
    {
      if shift >= 35 {
        return None;
      }
      var byte := bytes[i];
      LebSumSnoc(bytes, 0, i);
      OrShifted(LebSum(bytes, 0, i), byte % 128, i);
      result := Or(result, Shl32(byte % 128, shift));
      shift := shift + 7;
      if byte < 128 {
        return Some(Read(result, i + 1));
      }
    }
    return None;
  }

  /** `get(pos..)` and the integer at its front. */
  method ReadLebAt(s: seq<Byte>, pos: nat) returns (r: Option<Read>)
    ensures r == LebAt(s, pos)
  {
    if pos > |s| { return None; }
    LebShift(s, pos, 0);
    r := ReadLeb128(s[pos..]);
    if r.Some? { LebSumShift(s, pos, 0, r.value.length); }
  }

  lemma {:induction false} LebShift(s: seq<Byte>, off: nat, pos: nat)
    requires off <= |s|
    ensures Continued(s[off..], pos) == Continued(s, off + pos)
    decreases |s| - off - pos
  {
    if off + pos < |s| { LebShift(s, off, pos + 1); }
  }

  lemma {:induction false} LebSumShift(s: seq<Byte>, off: nat, pos: nat, n: nat)
    requires off + pos + n <= |s|
    ensures LebSum(s[off..], pos, n) == LebSum(s, off + pos, n)
    decreases n
  {
    if n > 0 { LebSumShift(s, off, pos + 1, n - 1); }
  }

  /** The bytes of one unsigned integer of section 5.2.2: a high bit on every byte but the last. */
  predicate IsLeb(enc: seq<Byte>)
  {
    && 1 <= |enc| <= 5
    && enc[|enc| - 1] < 128
    && forall i :: 0 <= i < |enc| - 1 ==> enc[i] >= 128
  }

  function LebValue(enc: seq<Byte>): nat
  {
    LebSum(enc, 0, |enc|)
  }

  /** `t` stands in `s` at `pos`. */
  predicate Holds(s: seq<Byte>, pos: nat, t: seq<Byte>)
  {
    pos + |t| <= |s| && forall i :: 0 <= i < |t| ==> t[i] == s[pos + i]
  }

  lemma HoldsSplit(s: seq<Byte>, pos: nat, a: seq<Byte>, b: seq<Byte>)
    requires Holds(s, pos, a + b)
    ensures Holds(s, pos, a) && Holds(s, pos + |a|, b)
  {
    forall i | 0 <= i < |a| ensures a[i] == s[pos + i] { assert (a + b)[i] == a[i]; }
    forall i | 0 <= i < |b| ensures b[i] == s[pos + |a| + i] { assert (a + b)[|a| + i] == b[i]; }
  }

  lemma HeldSlice(s: seq<Byte>, pos: nat, t: seq<Byte>)
    requires Holds(s, pos, t)
    ensures s[pos..pos + |t|] == t
  {
  }

  lemma {:induction false} SumHeld(s: seq<Byte>, pos: nat, enc: seq<Byte>, i: nat)
    requires Holds(s, pos, enc) && i <= |enc|
    ensures LebSum(s, pos + i, |enc| - i) == LebSum(enc, i, |enc| - i)
    decreases |enc| - i
  {
    if i < |enc| {
      SumHeld(s, pos, enc, i + 1);
    }
  }

  lemma {:induction false} ContinuedHeld(s: seq<Byte>, pos: nat, enc: seq<Byte>, i: nat)
    requires Holds(s, pos, enc) && IsLeb(enc) && i < |enc|
    ensures Continued(s, pos + i) == |enc| - 1 - i
    decreases |enc| - i
  {
    assert s[pos + i] == enc[i];
    if i < |enc| - 1 { ContinuedHeld(s, pos, enc, i + 1); }
  }

  /** Every encoding of one to five bytes is read, non-minimal ones included, wherever it stands
      and whatever follows; the value of a five-byte one is taken modulo 2^32. */
  lemma ReadEncoded(s: seq<Byte>, pos: nat, enc: seq<Byte>)
    requires Holds(s, pos, enc) && IsLeb(enc)
    ensures LebAt(s, pos) == Some(Read(LebValue(enc) % U32, |enc|))
  {
    ContinuedHeld(s, pos, enc, 0);
    SumHeld(s, pos, enc, 0);
  }

  /** Nothing else is read. */
  lemma ReadIffEncoding(s: seq<Byte>, pos: nat)
    ensures LebAt(s, pos).Some? <==> exists enc :: IsLeb(enc) && Holds(s, pos, enc)
  {
    if LebAt(s, pos).Some? {
      var n := LebAt(s, pos).value.length;
      assert IsLeb(s[pos..pos + n]) && Holds(s, pos, s[pos..pos + n]);
    }
    if enc :| IsLeb(enc) && Holds(s, pos, enc) { ReadEncoded(s, pos, enc); }
  }

  /** `enc` is one of the encodings of the u32 `v`. */
  predicate IsU32(enc: seq<Byte>, v: nat)
  {
    IsLeb(enc) && LebValue(enc) == v && v < U32
  }

  lemma ReadU32(s: seq<Byte>, pos: nat, enc: seq<Byte>, v: nat)
    requires Holds(s, pos, enc) && IsU32(enc, v)
    ensures LebAt(s, pos) == Some(Read(v, |enc|))
  {
    ReadEncoded(s, pos, enc);
    Small(v);
  }

  /** The shortest encoding, so that every u32 has one. */
  function Leb(v: nat): seq<Byte>
  {
    if v < 128 then [v] else [128 + v % 128] + Leb(v / 128)
  }

  lemma {:induction false} LebEncodes(v: nat, k: nat)
    requires k <= 4 && v < Pow2(7 * k + 7)
    ensures var enc := Leb(v);
            && LebValue(enc) == v && 1 <= |enc| <= k + 1 && enc[|enc| - 1] < 128
            && forall i :: 0 <= i < |enc| - 1 ==> enc[i] >= 128
    decreases k
  {
    if v < 128 {
      assert LebSum([v], 0, 1) == v;
    } else {
      assert Pow2(7) == 128 by { Pow2Values(); }
      Pow2Add7(7 * k);
      LebEncodes(v / 128, k - 1);
      var enc, tail := Leb(v), Leb(v / 128);
      assert enc[1..] == tail;
      LebSumShift(enc, 1, 0, |tail|);
      assert forall i :: 1 <= i < |enc| ==> enc[i] == tail[i - 1];
    }
  }

  lemma LebIsU32(v: nat)
    requires v < U32
    ensures IsU32(Leb(v), v)
  {
    Pow2Values();
    Pow2Add7(28);
    LebEncodes(v, 4);
  }

  // ---------- Sections ----------

  const MAGIC: seq<Byte> := [0x00, 0x61, 0x73, 0x6D]

  predicate IsWasm(wasm: seq<Byte>)
  {
    |wasm| >= 8 && wasm[..4] == [0x00, 0x61, 0x73, 0x6D]
  }

  /** A section's id, where its content starts and the size it claims. */
  datatype Header = Header(id: Byte, content: nat, size: nat)

  function HeaderAt(s: seq<Byte>, pos: nat): (h: Option<Header>)
    ensures h.Some? ==> pos < h.value.content <= |s|
  {
    if pos >= |s| then None
    else
      match LebAt(s, pos + 1)
      case None => None
      case Some(size) => Some(Header(s[pos], pos + 1 + size.length, size.value))
  }

  method ReadHeader(wasm: seq<Byte>, pos: nat) returns (h: Option<Header>)
    ensures h == HeaderAt(wasm, pos)
  {
    if pos >= |wasm| { return None; }
    var size := ReadLebAt(wasm, pos + 1);
    if size == None { return None; }
    return Some(Header(wasm[pos], pos + 1 + size.value.length, size.value.value));
  }

  /** The bytes of a length-prefixed vector are `s[start..end]`. */
  datatype Span = Span(start: nat, end: nat)

  function VecAt(s: seq<Byte>, pos: nat): (v: Option<Span>)
    ensures v.Some? ==> pos < v.value.start <= v.value.end <= |s|
  {
    match LebAt(s, pos)
    case None => None
    case Some(n) =>
      if pos + n.length + n.value > |s| then None else Some(Span(pos + n.length, pos + n.length + n.value))
  }

  method ReadVec(s: seq<Byte>, pos: nat) returns (v: Option<Span>)
    ensures v == VecAt(s, pos)
  {
    var n := ReadLebAt(s, pos);
    if n == None { return None; }
    var end := pos + n.value.length + n.value.value;
    if end > |s| { return None; }
    return Some(Span(pos + n.value.length, end));
  }

  /** The custom-section search from `pos` on. */
  function ScanCustom(s: seq<Byte>, pos: nat, name: seq<Byte>): Option<seq<Byte>>
    decreases |s| - pos
  {
    match HeaderAt(s, pos)
    case None => None
    case Some(h) =>
      var next := h.content + h.size;
      if h.id != 0 then ScanCustom(s, next, name)
      else
        match VecAt(s, h.content)
        case None => None
        case Some(v) =>
          if !ValidUtf8(s[v.start..v.end]) || next < v.end then None
          else if s[v.start..v.end] != name then ScanCustom(s, next, name)
          else if next > |s| then None
          else Some(s[v.end..next])
  }

  method ExtractCustomSection(wasm: seq<Byte>, name: seq<Byte>) returns (r: Option<seq<Byte>>)
    ensures r == if IsWasm(wasm) then ScanCustom(wasm, 8, name) else None
  {
    hide HeaderAt, VecAt, ValidUtf8;
    if |wasm| < 8 { return None; }
    if wasm[..4] != MAGIC { return None; }
    var pos := 8;
    while pos < |wasm|
      invariant ScanCustom(wasm, pos, name) == ScanCustom(wasm, 8, name)
      decreases |wasm| - pos
    {
      var header := ReadHeader(wasm, pos);
      if header == None { return None; }
      var sectionSize, sectionStart := header.value.size, header.value.content;
      if header.value.id == 0 {
        var span := ReadVec(wasm, sectionStart);
        if span == None { return None; }
        var found := wasm[span.value.start..span.value.end];
        if !ValidUtf8(found) { return None; }
        pos := span.value.end;
        var headerBytes := pos - sectionStart;
        if found == name {
          if sectionSize < headerBytes { return None; }
          var end := pos + (sectionSize - headerBytes);
          if end > |wasm| { return None; }
          return Some(wasm[pos..end]);
        }
        if sectionSize < headerBytes { return None; }
        pos := pos + (sectionSize - headerBytes);
      } else {
        pos := sectionStart + sectionSize;
      }
    }
    return None;
  }

  /** A module's sections, each integer with the encoding the file uses for it. */
  datatype Section =
    | Custom(size: seq<Byte>, nameLen: seq<Byte>, name: seq<Byte>, content: seq<Byte>)
    | Imports(size: seq<Byte>, count: seq<Byte>, imports: seq<Import>)
    | Plain(id: Byte, size: seq<Byte>, body: seq<Byte>)

  datatype Import = Import(moduleLen: seq<Byte>, mod: seq<Byte>, fieldLen: seq<Byte>, field: seq<Byte>, desc: Desc)

  datatype Desc =
    | Func(typeIndex: seq<Byte>)
    | Table(refType: Byte, limits: Limits)
    | Mem(limits: Limits)
    | Global(valType: Byte, mutability: Byte)

  datatype Limits = Min(min: seq<Byte>) | MinMax(min: seq<Byte>, max: seq<Byte>)

  predicate WfLimits(l: Limits)
  {
    IsLeb(l.min) && (l.MinMax? ==> IsLeb(l.max))
  }

  predicate WfImport(i: Import)
  {
    && IsU32(i.moduleLen, |i.mod|)
    && IsU32(i.fieldLen, |i.field|)
    && match i.desc
       case Func(t) => IsLeb(t)
       case Table(_, l) => WfLimits(l)
       case Mem(l) => WfLimits(l)
       case Global(_, _) => true
  }

  predicate WfSection(s: Section)
  {
    && IsU32(s.size, |SectionBody(s)|)
    && match s
       case Custom(_, nameLen, name, _) => IsU32(nameLen, |name|) && ValidUtf8(name)
       case Imports(_, count, imports) => IsU32(count, |imports|) && forall i :: 0 <= i < |imports| ==> WfImport(imports[i])
       case Plain(id, _, _) => id != 0 && id != 2
  }

  predicate WfSections(sections: seq<Section>)
  {
    forall i :: 0 <= i < |sections| ==> WfSection(sections[i])
  }

  function EncodeLimits(l: Limits): seq<Byte>
  {
    match l
    case Min(min) => [0x00] + min
    case MinMax(min, max) => [0x01] + (min + max)
  }

  function EncodeDesc(d: Desc): seq<Byte>
  {
    match d
    case Func(t) => [0x00] + t
    case Table(r, l) => [0x01, r] + EncodeLimits(l)
    case Mem(l) => [0x02] + EncodeLimits(l)
    case Global(v, m) => [0x03, v, m]
  }

  function EncodeImport(i: Import): seq<Byte>
  {
    i.moduleLen + (i.mod + (i.fieldLen + (i.field + EncodeDesc(i.desc))))
  }

  function EncodeImports(imports: seq<Import>): seq<Byte>
  {
    if imports == [] then [] else EncodeImport(imports[0]) + EncodeImports(imports[1..])
  }

  function SectionBody(s: Section): seq<Byte>
  {
    match s
    case Custom(_, nameLen, name, content) => nameLen + (name + content)
    case Imports(_, count, imports) => count + EncodeImports(imports)
    case Plain(_, _, body) => body
  }

  function SectionId(s: Section): Byte
  {
    match s case Custom(_, _, _, _) => 0 case Imports(_, _, _) => 2 case Plain(id, _, _) => id
  }

  function EncodeSection(s: Section): seq<Byte>
  {
    [SectionId(s)] + (s.size + SectionBody(s))
  }

  function EncodeSections(sections: seq<Section>): seq<Byte>
  {
    if sections == [] then [] else EncodeSection(sections[0]) + EncodeSections(sections[1..])
  }

  /** What a custom-section lookup is for: the content of the first custom section of that name. */
  function FirstCustom(sections: seq<Section>, name: seq<Byte>): Option<seq<Byte>>
  {
    if sections == [] then None
    else if sections[0].Custom? && sections[0].name == name then Some(sections[0].content)
    else FirstCustom(sections[1..], name)
  }

  lemma HeaderHeld(s: seq<Byte>, pos: nat, id: Byte, size: seq<Byte>, body: seq<Byte>)
    requires Holds(s, pos, [id] + (size + body)) && IsU32(size, |body|)
    ensures HeaderAt(s, pos) == Some(Header(id, pos + 1 + |size|, |body|))
    ensures Holds(s, pos + 1 + |size|, body)
  {
    HoldsSplit(s, pos, [id], size + body);
    assert s[pos] == [id][0];
    HoldsSplit(s, pos + 1, size, body);
    ReadU32(s, pos + 1, size, |body|);
  }

  lemma VecHeld(s: seq<Byte>, pos: nat, len: seq<Byte>, bytes: seq<Byte>, more: seq<Byte>)
    requires Holds(s, pos, len + (bytes + more)) && IsU32(len, |bytes|)
    ensures VecAt(s, pos) == Some(Span(pos + |len|, pos + |len| + |bytes|))
    ensures s[pos + |len|..pos + |len| + |bytes|] == bytes
    ensures Holds(s, pos + |len| + |bytes|, more)
  {
    HoldsSplit(s, pos, len, bytes + more);
    HoldsSplit(s, pos + |len|, bytes, more);
    HeldSlice(s, pos + |len|, bytes);
    ReadU32(s, pos, len, |bytes|);
  }

  lemma SectionHeld(s: seq<Byte>, pos: nat, x: Section)
    requires Holds(s, pos, EncodeSection(x)) && WfSection(x)
    ensures HeaderAt(s, pos) == Some(Header(SectionId(x), pos + 1 + |x.size|, |SectionBody(x)|))
    ensures Holds(s, pos + 1 + |x.size|, SectionBody(x))
    ensures pos + 1 + |x.size| + |SectionBody(x)| == pos + |EncodeSection(x)|
  {
    hide HeaderAt, Holds;
    HeaderHeld(s, pos, SectionId(x), x.size, SectionBody(x));
  }

  lemma SectionsSplit(s: seq<Byte>, pos: nat, sections: seq<Section>)
    requires sections != [] && Holds(s, pos, EncodeSections(sections))
    ensures Holds(s, pos, EncodeSection(sections[0]))
    ensures Holds(s, pos + |EncodeSection(sections[0])|, EncodeSections(sections[1..]))
    ensures |EncodeSections(sections)| == |EncodeSection(sections[0])| + |EncodeSections(sections[1..])|
  {
    hide Holds, EncodeSection;
    HoldsSplit(s, pos, EncodeSection(sections[0]), EncodeSections(sections[1..]));
  }

  lemma CustomHeld(s: seq<Byte>, pos: nat, x: Section)
    requires x.Custom? && WfSection(x) && Holds(s, pos, SectionBody(x))
    ensures var start, end, next := pos + |x.nameLen|, pos + |x.nameLen| + |x.name|, pos + |SectionBody(x)|;
            && VecAt(s, pos) == Some(Span(start, end)) && s[start..end] == x.name
            && end <= next <= |s| && s[end..next] == x.content
  {
    hide LebAt;
    VecHeld(s, pos, x.nameLen, x.name, x.content);
    HeldSlice(s, pos + |x.nameLen| + |x.name|, x.content);
  }

  lemma ScansEnd(s: seq<Byte>, name: seq<Byte>)
    ensures ScanCustom(s, |s|, name) == None && ScanForImports(s, |s|) == Some(false)
  {
  }

  lemma NoImports(s: seq<Byte>, pos: nat)
    ensures !ScanImports(s, pos, 0)
  {
  }

  /** One section as the custom-section search takes it. */
  lemma CustomStep(s: seq<Byte>, pos: nat, x: Section, name: seq<Byte>)
    requires Holds(s, pos, EncodeSection(x)) && WfSection(x)
    ensures ScanCustom(s, pos, name)
         == if x.Custom? && x.name == name then Some(x.content) else ScanCustom(s, pos + |EncodeSection(x)|, name)
  {
    hide LebAt, HeaderAt, VecAt, Holds, EncodeSection, SectionBody;
    SectionHeld(s, pos, x);
    if x.Custom? { CustomHeld(s, pos + 1 + |x.size|, x); }
  }

  /** On every list of well-formed sections the search finds the first custom section of the name, or none. */
  lemma {:induction false} CustomSectionFound(s: seq<Byte>, pos: nat, sections: seq<Section>, name: seq<Byte>)
    requires WfSections(sections)
    requires Holds(s, pos, EncodeSections(sections)) && pos + |EncodeSections(sections)| == |s|
    ensures ScanCustom(s, pos, name) == FirstCustom(sections, name)
    decreases |sections|
  {
    hide ScanCustom, Holds, EncodeSection, WfSection;
    if sections != [] {
      SectionsSplit(s, pos, sections);
      CustomStep(s, pos, sections[0], name);
      CustomSectionFound(s, pos + |EncodeSection(sections[0])|, sections[1..], name);
    } else {
      ScansEnd(s, name);
    }
  }

  /** A module file: magic, version, sections. */
  function EncodeModule(version: seq<Byte>, sections: seq<Section>): seq<Byte>
    requires |version| == 4
  {
    [0x00, 0x61, 0x73, 0x6D] + version + EncodeSections(sections)
  }

  lemma ModuleHeld(version: seq<Byte>, sections: seq<Section>)
    requires |version| == 4
    ensures var wasm := EncodeModule(version, sections);
            IsWasm(wasm) && Holds(wasm, 8, EncodeSections(sections)) && 8 + |EncodeSections(sections)| == |wasm|
  {
  }

  /** `extract_custom_section` inverts the encoder. */
  lemma ExtractInvertsEncode(version: seq<Byte>, sections: seq<Section>, name: seq<Byte>)
    requires |version| == 4 && WfSections(sections)
    ensures IsWasm(EncodeModule(version, sections))
    ensures ScanCustom(EncodeModule(version, sections), 8, name) == FirstCustom(sections, name)
  {
    ModuleHeld(version, sections);
    CustomSectionFound(EncodeModule(version, sections), 8, sections, name);
  }

  // ---------- The import section ----------

  const HOST_MODULE: seq<Byte> := [0x6C]     // "l"
  const UPGRADE_FIELD: seq<Byte> := [0x36]   // "6"

  predicate IsUpgrade(i: Import)
  {
    i.desc.Func? && i.mod == [0x6C] && i.field == [0x36]
  }

  /** Where the bytes after a `limits` start. */
  function AfterLimits(s: seq<Byte>, pos: nat): Option<nat>
  {
    if pos >= |s| then None
    else
      match LebAt(s, pos + 1)
      case None => None
      case Some(min) =>
        if s[pos] != 0x01 then Some(pos + 1 + min.length)
        else
          match LebAt(s, pos + 1 + min.length)
          case None => None
          case Some(max) => Some(pos + 1 + min.length + max.length)
  }

  method SkipLimits(body: seq<Byte>, pos: nat) returns (r: Option<nat>)
    ensures r == AfterLimits(body, pos)
  {
    if pos >= |body| { return None; }
    var flag, p := body[pos], pos + 1;
    var min := ReadLebAt(body, p);
    if min == None { return None; }
    p := p + min.value.length;
    if flag == 0x01 {
      var max := ReadLebAt(body, p);
      if max == None { return None; }
      p := p + max.value.length;
    }
    return Some(p);
  }

  /** Where the bytes after an import descriptor start; `None` where the walker gives up. */
  function AfterDesc(s: seq<Byte>, pos: nat): Option<nat>
  {
    if pos >= |s| then None
    else if s[pos] == 0x00 then
      match LebAt(s, pos + 1) case None => None case Some(t) => Some(pos + 1 + t.length)
    else if s[pos] == 0x01 then AfterLimits(s, pos + 2)
    else if s[pos] == 0x02 then AfterLimits(s, pos + 1)
    else if s[pos] == 0x03 then Some(pos + 3)
    else None
  }

  /** Does one of the next `count` imports import the upgrade function? */
  function ScanImports(s: seq<Byte>, pos: nat, count: nat): bool
    decreases count
  {
    if count == 0 then false
    else
      match VecAt(s, pos)
      case None => false
      case Some(m) =>
        match VecAt(s, m.end)
        case None => false
        case Some(f) =>
          if f.end < |s| && s[f.end] == 0x00 && s[m.start..m.end] == HOST_MODULE && s[f.start..f.end] == UPGRADE_FIELD then true
          else
            match AfterDesc(s, f.end)
            case None => false
            case Some(next) => ScanImports(s, next, count - 1)
  }

  function ScanImportSection(body: seq<Byte>): bool
  {
    match LebAt(body, 0) case None => false case Some(n) => ScanImports(body, n.length, n.value)
  }

  method ImportSectionHasUpgrade(body: seq<Byte>) returns (found: bool)
    ensures found == ScanImportSection(body)
  {
    hide LebAt, AfterLimits;
    var count := ReadLeb128(body);
    if count == None { return false; }
    var pos: nat := count.value.length;
    var n: nat := count.value.value;
    for i := 0 to n
      invariant ScanImports(body, pos, n - i) == ScanImportSection(body)
    {
      var m := ReadVec(body, pos);
      if m == None { return false; }
      var mod := body[m.value.start..m.value.end];
      var f := ReadVec(body, m.value.end);
      if f == None { return false; }
      var field := body[f.value.start..f.value.end];
      pos := f.value.end;
      if pos >= |body| { return false; }
      if body[pos] == 0x00 && mod == HOST_MODULE && field == UPGRADE_FIELD { return true; }
      var next := SkipDesc(body, pos);
      if next == None { return false; }
      pos := next.value;
    }
    return false;
  }

  /** Step over an import descriptor of any of the four kinds. */
  method SkipDesc(body: seq<Byte>, pos: nat) returns (r: Option<nat>)
    requires pos < |body|
    ensures r == AfterDesc(body, pos)
  {
    var kind := body[pos];
    if kind == 0x00 {
      var typeIndex := ReadLebAt(body, pos + 1);
      if typeIndex == None { return None; }
      return Some(pos + 1 + typeIndex.value.length);
    } else if kind == 0x01 {
      r := SkipLimits(body, pos + 2);
    } else if kind == 0x02 {
      r := SkipLimits(body, pos + 1);
    } else if kind == 0x03 {
      return Some(pos + 3);
    } else {
      return None;
    }
  }

  /** The section search up to the import section; `None` where a header cannot be read. */
  function ScanForImports(s: seq<Byte>, pos: nat): Option<bool>
    decreases |s| - pos
  {
    if pos >= |s| then Some(false)
    else
      match HeaderAt(s, pos)
      case None => None
      case Some(h) =>
        var end := h.content + h.size;
        if h.id == 2 then Some(ScanImportSection(s[h.content..if end < |s| then end else |s|]))
        else ScanForImports(s, end)
  }

  method WasmImportsUpgradeFn(wasm: seq<Byte>) returns (upgradeable: bool)
    ensures upgradeable == (IsWasm(wasm) && ScanForImports(wasm, 8) == Some(true))
  {
    if |wasm| < 8 || wasm[..4] != MAGIC { return false; }
    var pos := 8;
    while pos < |wasm|
      invariant ScanForImports(wasm, pos) == ScanForImports(wasm, 8)
      decreases |wasm| - pos
    {
      var header := ReadHeader(wasm, pos);
      if header == None { return false; }
      var start, sectionEnd := header.value.content, header.value.content + header.value.size;
      if header.value.id == 2 {
        upgradeable := ImportSectionHasUpgrade(wasm[start..if sectionEnd < |wasm| then sectionEnd else |wasm|]);
        return;
      }
      pos := sectionEnd;
    }
    return false;
  }

  lemma LimitsHeld(s: seq<Byte>, pos: nat, l: Limits)
    requires Holds(s, pos, EncodeLimits(l)) && WfLimits(l)
    ensures AfterLimits(s, pos) == Some(pos + |EncodeLimits(l)|)
  {
    hide LebAt;
    match l
    case Min(min) =>
      HoldsSplit(s, pos, [0x00], min);
      assert s[pos] == [0x00][0];
      ReadEncoded(s, pos + 1, min);
    case MinMax(min, max) =>
      HoldsSplit(s, pos, [0x01], min + max);
      assert s[pos] == [0x01][0];
      HoldsSplit(s, pos + 1, min, max);
      ReadEncoded(s, pos + 1, min);
      ReadEncoded(s, pos + 1 + |min|, max);
  }

  lemma DescHeld(s: seq<Byte>, pos: nat, i: Import)
    requires Holds(s, pos, EncodeDesc(i.desc)) && WfImport(i)
    ensures AfterDesc(s, pos) == Some(pos + |EncodeDesc(i.desc)|)
    ensures pos < |s| && (s[pos] == 0x00 <==> i.desc.Func?)
  {
    hide LebAt, AfterLimits, EncodeLimits;
    assert s[pos] == EncodeDesc(i.desc)[0];
    match i.desc
    case Func(t) =>
      HoldsSplit(s, pos, [0x00], t);
      ReadEncoded(s, pos + 1, t);
    case Table(r, l) =>
      HoldsSplit(s, pos, [0x01, r], EncodeLimits(l));
      LimitsHeld(s, pos + 2, l);
    case Mem(l) =>
      HoldsSplit(s, pos, [0x02], EncodeLimits(l));
      LimitsHeld(s, pos + 1, l);
    case Global(_, _) =>
  }

  lemma ImportSplit(s: seq<Byte>, pos: nat, i: Import)
    requires Holds(s, pos, EncodeImport(i)) && WfImport(i)
    ensures var field := pos + |i.moduleLen| + |i.mod|;
            && VecAt(s, pos) == Some(Span(pos + |i.moduleLen|, field)) && s[pos + |i.moduleLen|..field] == i.mod
            && Holds(s, field, i.fieldLen + (i.field + EncodeDesc(i.desc)))
    ensures |EncodeImport(i)| == |i.moduleLen| + |i.mod| + |i.fieldLen| + |i.field| + |EncodeDesc(i.desc)|
  {
    hide LebAt, VecAt, Holds, EncodeDesc;
    VecHeld(s, pos, i.moduleLen, i.mod, i.fieldLen + (i.field + EncodeDesc(i.desc)));
  }

  lemma FieldHeld(s: seq<Byte>, pos: nat, i: Import)
    requires Holds(s, pos, i.fieldLen + (i.field + EncodeDesc(i.desc))) && WfImport(i)
    ensures var desc := pos + |i.fieldLen| + |i.field|;
            && VecAt(s, pos) == Some(Span(pos + |i.fieldLen|, desc)) && s[pos + |i.fieldLen|..desc] == i.field
            && AfterDesc(s, desc) == Some(desc + |EncodeDesc(i.desc)|)
            && desc < |s| && (s[desc] == 0x00 <==> i.desc.Func?)
  {
    hide LebAt, VecAt, Holds, AfterDesc, EncodeDesc;
    VecHeld(s, pos, i.fieldLen, i.field, EncodeDesc(i.desc));
    DescHeld(s, pos + |i.fieldLen| + |i.field|, i);
  }

  /** One import as the walker takes it. */
  lemma ImportStep(s: seq<Byte>, pos: nat, i: Import, count: nat)
    requires Holds(s, pos, EncodeImport(i)) && WfImport(i)
    ensures ScanImports(s, pos, count + 1) == (IsUpgrade(i) || ScanImports(s, pos + |EncodeImport(i)|, count))
  {
    hide LebAt, VecAt, Holds, AfterDesc, EncodeImport, EncodeDesc, WfImport;
    ImportSplit(s, pos, i);
    FieldHeld(s, pos + |i.moduleLen| + |i.mod|, i);
  }

  lemma ImportsSplit(s: seq<Byte>, pos: nat, imports: seq<Import>)
    requires imports != [] && Holds(s, pos, EncodeImports(imports))
    ensures Holds(s, pos, EncodeImport(imports[0]))
    ensures Holds(s, pos + |EncodeImport(imports[0])|, EncodeImports(imports[1..]))
  {
    hide Holds, EncodeImport;
    HoldsSplit(s, pos, EncodeImport(imports[0]), EncodeImports(imports[1..]));
  }

  /** The walker sees every import of an encoded vector, whatever its kind. */
  lemma {:induction false} ImportsScanned(s: seq<Byte>, pos: nat, imports: seq<Import>)
    requires Holds(s, pos, EncodeImports(imports)) && forall i :: 0 <= i < |imports| ==> WfImport(imports[i])
    ensures ScanImports(s, pos, |imports|) <==> exists i :: 0 <= i < |imports| && IsUpgrade(imports[i])
    decreases |imports|
  {
    hide ScanImports, Holds, EncodeImport, WfImport, IsUpgrade;
    if imports != [] {
      ImportsSplit(s, pos, imports);
      ImportStep(s, pos, imports[0], |imports| - 1);
      ImportsScanned(s, pos + |EncodeImport(imports[0])|, imports[1..]);
      ExistsSplit(imports);
    } else {
      NoImports(s, pos);
    }
  }

  lemma ExistsSplit(imports: seq<Import>)
    requires imports != []
    ensures (exists i :: 0 <= i < |imports| && IsUpgrade(imports[i]))
       <==> IsUpgrade(imports[0]) || exists i :: 0 <= i < |imports[1..]| && IsUpgrade(imports[1..][i])
  {
    if i :| 0 < i < |imports| && IsUpgrade(imports[i]) { assert imports[1..][i - 1] == imports[i]; }
    if i :| 0 <= i < |imports[1..]| && IsUpgrade(imports[1..][i]) { assert imports[1..][i] == imports[i + 1]; }
  }

  /** Section 5.5.2: a module has at most one import section. */
  predicate OneImportSection(sections: seq<Section>)
  {
    forall i, j :: 0 <= i < j < |sections| ==> !(sections[i].Imports? && sections[j].Imports?)
  }

  predicate ImportsUpgrade(s: Section)
  {
    s.Imports? && exists i :: 0 <= i < |s.imports| && IsUpgrade(s.imports[i])
  }

  lemma ImportSectionStep(s: seq<Byte>, pos: nat, x: Section)
    requires Holds(s, pos, EncodeSection(x)) && WfSection(x)
    ensures ScanForImports(s, pos)
         == if x.Imports? then Some(ScanImportSection(SectionBody(x))) else ScanForImports(s, pos + |EncodeSection(x)|)
  {
    hide HeaderAt, ScanImportSection, EncodeSection, SectionBody;
    SectionHeld(s, pos, x);
    HeldSlice(s, pos + 1 + |x.size|, SectionBody(x));
  }

  lemma {:induction false} ImportSectionFound(s: seq<Byte>, pos: nat, sections: seq<Section>)
    requires WfSections(sections) && OneImportSection(sections)
    requires Holds(s, pos, EncodeSections(sections)) && pos + |EncodeSections(sections)| == |s|
    ensures ScanForImports(s, pos) == Some(exists k :: 0 <= k < |sections| && ImportsUpgrade(sections[k]))
    decreases |sections|
  {
    hide ScanForImports, ScanImportSection, Holds, EncodeSection, SectionBody, WfSection, ImportsUpgrade;
    if sections != [] {
      SectionsSplit(s, pos, sections);
      ImportSectionStep(s, pos, sections[0]);
      if sections[0].Imports? {
        ImportSectionScanned(sections[0]);
        OnlyFirstImports(sections);
      } else {
        ImportSectionFound(s, pos + |EncodeSection(sections[0])|, sections[1..]);
        FirstImportsNothing(sections);
      }
    } else {
      ScansEnd(s, []);
    }
  }

  lemma ImportSectionScanned(x: Section)
    requires x.Imports? && WfSection(x)
    ensures ScanImportSection(SectionBody(x)) == ImportsUpgrade(x)
  {
    var body := SectionBody(x);
    assert Holds(body, 0, x.count + EncodeImports(x.imports));
    HoldsSplit(body, 0, x.count, EncodeImports(x.imports));
    ReadU32(body, 0, x.count, |x.imports|);
    ImportsScanned(body, |x.count|, x.imports);
  }

  lemma OnlyFirstImports(sections: seq<Section>)
    requires sections != [] && sections[0].Imports? && OneImportSection(sections)
    ensures (exists k :: 0 <= k < |sections| && ImportsUpgrade(sections[k])) <==> ImportsUpgrade(sections[0])
  {
  }

  lemma FirstImportsNothing(sections: seq<Section>)
    requires sections != [] && !sections[0].Imports?
    ensures (exists k :: 0 <= k < |sections| && ImportsUpgrade(sections[k]))
       <==> exists k :: 0 <= k < |sections[1..]| && ImportsUpgrade(sections[1..][k])
  {
    if k :| 0 <= k < |sections| && ImportsUpgrade(sections[k]) { assert sections[1..][k - 1] == sections[k]; }
    if k :| 0 <= k < |sections[1..]| && ImportsUpgrade(sections[1..][k]) { assert sections[1..][k] == sections[k + 1]; }
  }

  /** The verdict is "upgradeable" exactly when a function import named ("l", "6") exists in the module. */
  lemma UpgradeFoundIff(version: seq<Byte>, sections: seq<Section>)
    requires |version| == 4 && WfSections(sections) && OneImportSection(sections)
    ensures IsWasm(EncodeModule(version, sections))
    ensures ScanForImports(EncodeModule(version, sections), 8) == Some(true)
       <==> exists k :: 0 <= k < |sections| && ImportsUpgrade(sections[k])
  {
    ModuleHeld(version, sections);
    ImportSectionFound(EncodeModule(version, sections), 8, sections);
  }
}
