/** The bounds-checked little-endian readers of the chained-fixups payload, and the words they read back. */
module LittleEndian {
  import opened Layout
  import opened Wrappers

  type U16 = x: int | 0 <= x < 0x1_0000
  type U32 = x: int | 0 <= x < 0x1_0000_0000

  function Range(n: nat): nat {
    if n == 0 then 1 else 256 * Range(n - 1)
  }

  function Value(s: Bytes): nat {
    if s == [] then 0 else s[0] + 256 * Value(s[1..])
  }

  function Word(v: nat, n: nat): (s: Bytes)
    ensures |s| == n
  {
    if n == 0 then [] else [v % 256] + Word(v / 256, n - 1)
  }

  lemma {:induction false} ValueRange(s: Bytes)
    ensures Value(s) < Range(|s|)
  {
    if s != [] { ValueRange(s[1..]); }
  }

  lemma {:induction false} ValueOfWord(v: nat, n: nat)
    requires v < Range(n)
    ensures Value(Word(v, n)) == v
  {
    if n > 0 {
      assert Word(v, n)[1..] == Word(v / 256, n - 1);
      ValueOfWord(v / 256, n - 1);
    }
  }

  lemma Ranges()
    ensures Range(2) == 0x1_0000 && Range(4) == 0x1_0000_0000 && Range(8) == TWO_64
  {
    assert Range(1) == 256 && Range(3) == 0x100_0000 && Range(5) == 0x100_0000_0000;
    assert Range(6) == 0x1_0000_0000_0000 && Range(7) == 0x100_0000_0000_0000;
  }

  function ReadLe(bytes: Bytes, offset: nat, n: nat): Result<nat, Malformed> {
    if offset + n <= |bytes| then Success(Value(bytes[offset..offset + n])) else Failure(Truncated)
  }

  function ReadU16(bytes: Bytes, offset: nat): (r: Result<U16, Malformed>)
    ensures r.Success? ==> offset + 2 <= |bytes|
  {
    var v :- ReadLe(bytes, offset, 2);
    ValueRange(bytes[offset..offset + 2]);
    Ranges();
    Success(v)
  }

  function ReadU32(bytes: Bytes, offset: nat): Result<U32, Malformed> {
    var v :- ReadLe(bytes, offset, 4);
    ValueRange(bytes[offset..offset + 4]);
    Ranges();
    Success(v)
  }

  function ReadU64(bytes: Bytes, offset: nat): Result<U64, Malformed> {
    var v :- ReadLe(bytes, offset, 8);
    ValueRange(bytes[offset..offset + 8]);
    Ranges();
    Success(v)
  }

  /** Two's complement reading of a word whose unsigned values lie below `range`. */
  function Signed(v: nat, range: nat): int {
    if 2 * v >= range then v - range else v
  }

  function Unsigned(v: int, range: nat): nat
    requires 0 <= v + range
  {
    if v < 0 then v + range else v
  }

  // ---- words that sit in the payload ---------------------------------------------------------------------

  lemma ReadsU16(bytes: Bytes, offset: nat, v: U16)
    requires Sits(bytes, offset, Word(v, 2))
    ensures ReadU16(bytes, offset) == Success(v)
  {
    Ranges();
    ValueOfWord(v, 2);
  }

  lemma ReadsU32(bytes: Bytes, offset: nat, v: U32)
    requires Sits(bytes, offset, Word(v, 4))
    ensures ReadU32(bytes, offset) == Success(v)
  {
    Ranges();
    ValueOfWord(v, 4);
  }

  lemma ReadsU64(bytes: Bytes, offset: nat, v: U64)
    requires Sits(bytes, offset, Word(v, 8))
    ensures ReadU64(bytes, offset) == Success(v)
  {
    Ranges();
    ValueOfWord(v, 8);
  }
}
