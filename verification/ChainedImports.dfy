/** The import table of chained fixups, in its three packed formats. */
module ChainedImports {
  import opened Layout
  import opened Wrappers
  import opened LittleEndian
  import opened CStrings

  /** Where the table and the symbol strings are, and how each is stored. */
  datatype Imports = Imports(offset: U32, format: U32, symbols: U32, symbolsFormat: U32)

  /** A name is the bytes up to its NUL, absent when the symbols are compressed. */
  datatype Import = Import(index: nat, ordinalRaw: nat, ordinal: int, weak: bool, nameOffset: U32, name: Option<Bytes>,
                           addend: Option<int>)

  const RANGE32 := 0x1_0000_0000

  // ---- signed ordinals -----------------------------------------------------------------------------------

  function Power2(bits: nat): nat {
    if bits == 0 then 1 else 2 * Power2(bits - 1)
  }

  /** Only the top fifteen raw values are negative. */
  function DecodeOrdinal(raw: nat, bits: nat): int {
    var full := Power2(bits);
    if raw >= full - 15 then raw - full else raw
  }

  function RawOrdinal(ordinal: int, bits: nat): int {
    if ordinal < 0 then ordinal + Power2(bits) else ordinal
  }

  /** Raw words of `bits` bits and the ordinals in [-15, 2^bits - 16] correspond one to one. */
  lemma OrdinalsCorrespond(raw: nat, ordinal: int, bits: nat)
    requires bits >= 4
    ensures raw < Power2(bits) ==>
              -15 <= DecodeOrdinal(raw, bits) <= Power2(bits) - 16 && RawOrdinal(DecodeOrdinal(raw, bits), bits) == raw
    ensures -15 <= ordinal <= Power2(bits) - 16 ==>
              0 <= RawOrdinal(ordinal, bits) < Power2(bits) && DecodeOrdinal(RawOrdinal(ordinal, bits), bits) == ordinal
  {
    SixteenAtLeast(bits);
  }

  lemma {:induction false} SixteenAtLeast(bits: nat)
    requires bits >= 4
    ensures Power2(bits) >= 16
  {
    if bits == 4 {
      assert Power2(2) == 4;
    } else {
      SixteenAtLeast(bits - 1);
    }
  }

  lemma OrdinalRanges()
    ensures Power2(8) == 0x100 && Power2(16) == 0x1_0000
  {
    assert Power2(4) == 16 && Power2(6) == 64 && Power2(8) == 0x100 && Power2(10) == 0x400;
    assert Power2(12) == 0x1000 && Power2(14) == 0x4000;
  }

  // ---- the parser ----------------------------------------------------------------------------------------

  function CStringAt(bytes: Bytes, offset: nat): Result<Bytes, Malformed> {
    if offset > |bytes| then Failure(Truncated)
    else
      match FirstZero(bytes, offset)
      case Some(end) => Success(bytes[offset..end])
      case None => Failure(Unterminated)
  }

  function NameAt(bytes: Bytes, t: Imports, nameOffset: U32): Result<Option<Bytes>, Malformed> {
    if t.symbolsFormat != 0 then Success(None)
    else
      var name :- CStringAt(bytes, t.symbols + nameOffset);
      Success(Some(name))
  }

  /** An entry packed in 32 bits: eight of ordinal, one weak bit, and the name offset. */
  function Entry32(bytes: Bytes, t: Imports, i: nat, raw: U32, addend: Option<int>): Result<Import, Malformed> {
    var ordinal := raw % 0x100;
    var name :- NameAt(bytes, t, raw / 0x200);
    Success(Import(i, ordinal, DecodeOrdinal(ordinal, 8), raw / 0x100 % 2 == 1, raw / 0x200, name, addend))
  }

  /** An entry packed in 64 bits: sixteen of ordinal, one weak bit, fifteen unused, and the name offset. */
  function Entry64(bytes: Bytes, t: Imports, i: nat, raw: U64, addend: Option<int>): Result<Import, Malformed> {
    var ordinal := raw % 0x1_0000;
    var name :- NameAt(bytes, t, raw / RANGE32);
    Success(Import(i, ordinal, DecodeOrdinal(ordinal, 16), raw / 0x1_0000 % 2 == 1, raw / RANGE32, name, addend))
  }

  function ImportAt(bytes: Bytes, t: Imports, i: nat): Result<Import, Malformed> {
    match t.format
    case 1 =>
      var raw :- ReadU32(bytes, t.offset + 4 * i);
      Entry32(bytes, t, i, raw, None)
    case 2 =>
      var raw :- ReadU32(bytes, t.offset + 8 * i);
      var addend :- ReadU32(bytes, t.offset + 8 * i + 4);
      Entry32(bytes, t, i, raw, Some(Signed(addend, RANGE32)))
    case 3 =>
      var raw :- ReadU64(bytes, t.offset + 16 * i);
      var addend :- ReadU64(bytes, t.offset + 16 * i + 8);
      Entry64(bytes, t, i, raw, Some(Signed(addend, TWO_64)))
    case _ => Failure(UnsupportedFormat)
  }

  function ImportsFrom(bytes: Bytes, t: Imports, count: nat, i: nat): Result<seq<Import>, Malformed>
    decreases count - i
  {
    if i >= count then Success([])
    else
      var first :- ImportAt(bytes, t, i);
      Then([first], ImportsFrom(bytes, t, count, i + 1))
  }

  method ParseImports(bytes: Bytes, t: Imports, count: U32) returns (r: Result<seq<Import>, Malformed>)
    ensures r == ImportsFrom(bytes, t, count, 0)
  {
    hide ReadU32, ReadU64, Entry32, Entry64, Signed;
    var imports := [];
    var i := 0;
    ThenMore([], [], ImportsFrom(bytes, t, count, 0));
    while i < count
      invariant i == |imports| <= count
      invariant ImportsFrom(bytes, t, count, 0) == Then(imports, ImportsFrom(bytes, t, count, i))
    {
      var next;
      match t.format {
        case 1 =>
          var raw :- ReadU32(bytes, t.offset + i * 4);
          next :- Entry32(bytes, t, i, raw, None);
        case 2 =>
          var base := t.offset + i * 8;
          var raw :- ReadU32(bytes, base);
          var addend :- ReadU32(bytes, base + 4);
          next :- Entry32(bytes, t, i, raw, Some(Signed(addend, RANGE32)));
        case 3 =>
          var base := t.offset + i * 16;
          var raw :- ReadU64(bytes, base);
          var addend :- ReadU64(bytes, base + 8);
          next :- Entry64(bytes, t, i, raw, Some(Signed(addend, TWO_64)));
        case _ =>
          return Failure(UnsupportedFormat);
      }
      ThenMore(imports, [next], ImportsFrom(bytes, t, count, i + 1));
      imports := imports + [next];
      i := i + 1;
    }
    assert imports + [] == imports;
    r := Success(imports);
  }

  // ---- an encoder ----------------------------------------------------------------------------------------

  function Bit(b: bool): nat {
    if b then 1 else 0
  }

  /** The word that packs an import; `unused` fills the bits of the 64-bit form that mean nothing. */
  function Packed(format: U32, imp: Import, unused: nat): int {
    if format == 3 then
      RawOrdinal(imp.ordinal, 16) + 0x1_0000 * Bit(imp.weak) + 0x2_0000 * unused + RANGE32 * imp.nameOffset
    else RawOrdinal(imp.ordinal, 8) + 0x100 * Bit(imp.weak) + 0x200 * imp.nameOffset
  }

  /** `imp` is the i-th import, its fields fit the format, and `ordinalRaw` and `ordinal` agree. */
  predicate Fits(format: U32, i: nat, imp: Import) {
    var bits := if format == 3 then 16 else 8;
    && imp.index == i
    && -15 <= imp.ordinal <= Power2(bits) - 16 && imp.ordinalRaw == RawOrdinal(imp.ordinal, bits)
    && (format != 3 ==> imp.nameOffset < 0x80_0000)
    && match format {
         case 1 => imp.addend == None
         case 2 => imp.addend.Some? && -0x8000_0000 <= imp.addend.value < 0x8000_0000
         case 3 => imp.addend.Some? && -TWO_64 <= 2 * imp.addend.value < TWO_64
         case _ => false
       }
  }

  function ImportBytes(format: U32, i: nat, imp: Import, unused: nat): Bytes
    requires Fits(format, i, imp) && unused < 0x8000
  {
    PackedFits(format, i, imp, unused);
    match format
    case 1 => Word(Packed(format, imp, unused), 4)
    case 2 => Word(Packed(format, imp, unused), 4) + Word(Unsigned(imp.addend.value, RANGE32), 4)
    case 3 => Word(Packed(format, imp, unused), 8) + Word(Unsigned(imp.addend.value, TWO_64), 8)
  }

  lemma PackedFits(format: U32, i: nat, imp: Import, unused: nat)
    requires Fits(format, i, imp) && unused < 0x8000
    ensures 0 <= Packed(format, imp, unused) < if format == 3 then TWO_64 else RANGE32
  {
    OrdinalRanges();
  }

  /** The name's NUL-terminated bytes are where the name offset points; a compressed symbol table yields no name. */
  predicate Named(bytes: Bytes, t: Imports, imp: Import) {
    if t.symbolsFormat == 0 then
      imp.name.Some? && 0 !in imp.name.value && Sits(bytes, t.symbols + imp.nameOffset, imp.name.value + [0])
    else imp.name == None
  }

  function Stride(format: U32): nat {
    match format case 1 => 4 case 2 => 8 case _ => 16
  }

  predicate AllFit(format: U32, i: nat, imports: seq<Import>)
    decreases |imports|
  {
    imports == [] || (Fits(format, i, imports[0]) && AllFit(format, i + 1, imports[1..]))
  }

  function TableBytes(format: U32, i: nat, imports: seq<Import>, unused: nat): Bytes
    requires unused < 0x8000
    requires AllFit(format, i, imports)
    decreases |imports|
  {
    if imports == [] then []
    else
      ImportBytes(format, i, imports[0], unused) + TableBytes(format, i + 1, imports[1..], unused)
  }

  lemma NameReadsBack(bytes: Bytes, t: Imports, imp: Import)
    requires Named(bytes, t, imp)
    ensures NameAt(bytes, t, imp.nameOffset) == Success(imp.name)
  {
    if t.symbolsFormat == 0 {
      var (at, name) := (t.symbols + imp.nameOffset, imp.name.value);
      var found := bytes[at..at + |name| + 1];
      assert found == name + [0];
      assert bytes[at + |name|] == found[|name|] == 0;
      assert forall k | at <= k < at + |name| :: bytes[k] == found[k - at] == name[k - at];
      assert bytes[at..at + |name|] == found[..|name|] == name;
    }
  }

  lemma UnpacksEntry32(bytes: Bytes, t: Imports, i: nat, imp: Import, unused: nat)
    requires t.format != 3 && Fits(t.format, i, imp) && Named(bytes, t, imp)
    ensures 0 <= Packed(t.format, imp, unused) < RANGE32
    ensures Entry32(bytes, t, i, Packed(t.format, imp, unused), imp.addend) == Success(imp)
  {
    OrdinalRanges();
    NameReadsBack(bytes, t, imp);
    hide NameAt, Named, Power2;
    var raw := Packed(t.format, imp, unused);
    assert raw / 0x200 == imp.nameOffset;
  }

  lemma UnpacksEntry64(bytes: Bytes, t: Imports, i: nat, imp: Import, unused: nat)
    requires t.format == 3 && Fits(t.format, i, imp) && Named(bytes, t, imp) && unused < 0x8000
    ensures 0 <= Packed(t.format, imp, unused) < TWO_64
    ensures Entry64(bytes, t, i, Packed(t.format, imp, unused), imp.addend) == Success(imp)
  {
    OrdinalRanges();
    NameReadsBack(bytes, t, imp);
    hide NameAt, Named, Power2;
    var raw := Packed(t.format, imp, unused);
    Unpack64(RawOrdinal(imp.ordinal, 16), Bit(imp.weak), unused, imp.nameOffset);
  }

  lemma Unpack64(ordinal: nat, bit: nat, unused: nat, name: nat)
    requires ordinal < 0x1_0000 && bit < 2 && unused < 0x8000
    ensures var raw := ordinal + 0x1_0000 * bit + 0x2_0000 * unused + RANGE32 * name;
            raw % 0x1_0000 == ordinal && raw / 0x1_0000 % 2 == bit && raw / RANGE32 == name
  {
    LowHalf(ordinal, bit + 2 * (unused + 0x8000 * name));
    LowBit(bit, unused + 0x8000 * name);
    HighWord(ordinal + 0x1_0000 * bit + 0x2_0000 * unused, name);
  }

  lemma LowHalf(low: nat, high: nat)
    requires low < 0x1_0000
    ensures (low + 0x1_0000 * high) % 0x1_0000 == low && (low + 0x1_0000 * high) / 0x1_0000 == high
  {
  }

  lemma LowBit(bit: nat, high: nat)
    requires bit < 2
    ensures (bit + 2 * high) % 2 == bit
  {
  }

  lemma HighWord(low: nat, high: nat)
    requires low < RANGE32
    ensures (low + RANGE32 * high) / RANGE32 == high
  {
  }

  lemma FirstImportReadsBack(bytes: Bytes, t: Imports, i: nat, imp: Import, unused: nat)
    requires Fits(t.format, i, imp) && Named(bytes, t, imp) && unused < 0x8000
    requires Sits(bytes, t.offset + Stride(t.format) * i, ImportBytes(t.format, i, imp, unused))
    ensures ImportAt(bytes, t, i) == Success(imp)
  {
    hide ReadU32, ReadU64, Entry32, Entry64, Named, Word, Sits, Packed;
    PackedFits(t.format, i, imp, unused);
    var (at, packed) := (t.offset + Stride(t.format) * i, Packed(t.format, imp, unused));
    match t.format {
      case 1 =>
        ReadsU32(bytes, at, packed);
        UnpacksEntry32(bytes, t, i, imp, unused);
      case 2 =>
        var addend := Unsigned(imp.addend.value, RANGE32);
        SitsApart(bytes, at, Word(packed, 4), Word(addend, 4));
        ReadsU32(bytes, at, packed);
        ReadsU32(bytes, at + 4, addend);
        UnpacksEntry32(bytes, t, i, imp, unused);
      case _ =>
        var addend := Unsigned(imp.addend.value, TWO_64);
        SitsApart(bytes, at, Word(packed, 8), Word(addend, 8));
        ReadsU64(bytes, at, packed);
        ReadsU64(bytes, at + 8, addend);
        UnpacksEntry64(bytes, t, i, imp, unused);
    }
  }

  /** In every format, an encoded import table comes back exactly, whatever the unused bits are. */
  lemma {:induction false} ImportsInvertEncode(bytes: Bytes, t: Imports, count: nat, i: nat, imports: seq<Import>,
                                               unused: nat)
    requires AllFit(t.format, i, imports) && i + |imports| == count && unused < 0x8000
    requires forall imp <- imports :: Named(bytes, t, imp)
    requires Sits(bytes, t.offset + Stride(t.format) * i, TableBytes(t.format, i, imports, unused))
    ensures ImportsFrom(bytes, t, count, i) == Success(imports)
    decreases |imports|
  {
    hide Named, Sits, ImportAt, Fits, ImportBytes, Stride;
    if imports != [] {
      var (first, rest) := (imports[0], imports[1..]);
      assert first in imports && forall imp <- rest :: imp in imports;
      SitsApart(bytes, t.offset + Stride(t.format) * i, ImportBytes(t.format, i, first, unused),
                TableBytes(t.format, i + 1, rest, unused));
      StrideIsLength(t.format, i, first, unused);
      FirstImportReadsBack(bytes, t, i, first, unused);
      ImportsInvertEncode(bytes, t, count, i + 1, rest, unused);
      assert imports == [first] + rest;
    }
  }

  lemma StrideIsLength(format: U32, i: nat, imp: Import, unused: nat)
    requires Fits(format, i, imp) && unused < 0x8000
    ensures Stride(format) * i + |ImportBytes(format, i, imp, unused)| == Stride(format) * (i + 1)
  {
  }
}
