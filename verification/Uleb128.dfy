/**
 Unsigned LEB128 numbers of at most 64 bits, as the LINKEDIT decoders read them and as the tests write them
 (DWARF Version 5, section 7.6).
 */
module Uleb128 {
  import opened Layout
  import opened Wrappers

  const MAX_GROUPS := 10

  /**
   The number written at `c`, untruncated, and the position after it; `k` groups of the number have been read.
   The reader gives up when an eleventh group would be needed.
   */
  function Number(bytes: seq<Byte>, c: nat, k: nat): (r: Result<(nat, nat), Malformed>)
    requires k < MAX_GROUPS
    ensures r.Success? ==> c < r.value.1 <= |bytes| && r.value.1 <= c + MAX_GROUPS - k
    decreases MAX_GROUPS - k
  {
    if c >= |bytes| then Failure(Truncated)
    else if bytes[c] < 128 then Success((bytes[c], c + 1))
    else if k + 1 == MAX_GROUPS then Failure(Oversized)
    else
      match Number(bytes, c + 1, k + 1)
      case Success((rest, next)) => Success((bytes[c] - 128 + 128 * rest, next))
      case Failure(e) => Failure(e)
  }

  /** What the reader returns: bits beyond the 64th are shifted out. */
  function Read(bytes: seq<Byte>, c: nat): (r: Result<(U64, nat), Malformed>)
    ensures r.Success? ==> c < r.value.1 <= |bytes| && r.value.1 <= c + MAX_GROUPS
  {
    match Number(bytes, c, 0)
    case Success((number, next)) => Success((number % TWO_64, next))
    case Failure(e) => Failure(e)
  }

  /** The `n` bytes from `c` on are groups marked as going on. */
  predicate GoesOn(bytes: seq<Byte>, c: nat, n: nat) {
    c + n <= |bytes| && forall i | c <= i < c + n :: bytes[i] >= 128
  }

  /** The number that `n` going-on groups and a last one spell, least significant group first. */
  function Spelled(bytes: seq<Byte>, c: nat, n: nat): nat
    requires c + n < |bytes|
    decreases n
  {
    bytes[c] % 128 + if n == 0 then 0 else 128 * Spelled(bytes, c + 1, n - 1)
  }

  /**
   A number is read exactly where at most nine groups go on and the next does not; the end of the bytes or a tenth
   group that goes on is what stops it.
   */
  lemma {:induction false} NumberIsExact(bytes: seq<Byte>, c: nat, n: nat, k: nat)
    requires GoesOn(bytes, c, n) && k + n <= MAX_GROUPS && k < MAX_GROUPS
    requires c + n == |bytes| || bytes[c + n] < 128 || k + n == MAX_GROUPS
    ensures Number(bytes, c, k) ==
              if k + n == MAX_GROUPS then Failure(Oversized)
              else if c + n == |bytes| then Failure(Truncated)
              else Success((Spelled(bytes, c, n), c + n + 1))
    decreases n
  {
    if n > 0 {
      if k + 1 < MAX_GROUPS { NumberIsExact(bytes, c + 1, n - 1, k + 1); }
    }
  }

  function Weight(k: nat): nat {
    if k == 0 then 1 else 128 * Weight(k - 1)
  }

  lemma Weights(k: nat)
    requires k < MAX_GROUPS
    ensures Weight(9) == 0x8000_0000_0000_0000
    ensures k < 9 ==> 1 <= Weight(k) && 128 * Weight(k) <= Weight(9)
  {
    assert Weight(3) == 0x20_0000;
    assert Weight(6) == 0x400_0000_0000;
    if k == 0 {} else if k == 1 {} else if k == 2 {} else if k == 3 {} else if k == 4 {} else if k == 5 {}
    else if k == 6 {} else if k == 7 {} else {}
  }

  /** `sum`, and a further part that starts at group `k`. */
  function Total(sum: nat, k: nat, part: nat): nat {
    sum + Weight(k) * part
  }

  /** After `k` groups that add up to `sum`, the number is `sum` plus the rest in its place. */
  predicate ReadSoFar(bytes: seq<Byte>, start: nat, k: nat, sum: nat)
    requires k < MAX_GROUPS
  {
    match Number(bytes, start + k, k)
    case Success((rest, next)) => Number(bytes, start, 0) == Success((Total(sum, k, rest), next))
    case Failure(e) => Number(bytes, start, 0) == Failure(e)
  }

  lemma TotalOfOneMore(sum: nat, k: nat, group: nat, rest: nat)
    ensures Total(sum, k, group + 128 * rest) == Total(Total(sum, k, group), k + 1, rest)
  {
    var weight := Weight(k);
    calc {
      weight * (group + 128 * rest);
      weight * group + weight * (128 * rest);
      weight * group + (128 * weight) * rest;
    }
  }

  lemma ReadOneMore(bytes: seq<Byte>, start: nat, k: nat, sum: nat)
    requires k + 1 < MAX_GROUPS && start + k < |bytes| && 128 <= bytes[start + k] && ReadSoFar(bytes, start, k, sum)
    ensures ReadSoFar(bytes, start, k + 1, Total(sum, k, bytes[start + k] - 128))
  {
    hide Total;
    var tail := Number(bytes, start + k + 1, k + 1);
    if tail.Success? {
      TotalOfOneMore(sum, k, bytes[start + k] - 128, tail.value.0);
    }
  }

  lemma GroupFits(k: nat, sum: nat, group: nat)
    requires k < 9 && group < 128 && sum < Weight(k)
    ensures Total(sum, k, group) == sum + (group * Weight(k)) % TWO_64
    ensures Total(sum, k, group) < Weight(k + 1) <= 0x8000_0000_0000_0000
  {
    Weights(k);
    var weight := Weight(k);
    assert weight * group == group * weight <= 127 * weight;
    Small(group * weight);
  }

  lemma LastGroup(sum: nat, group: nat)
    requires sum < Weight(9) && group < 128
    ensures sum + (group * Weight(9)) % TWO_64 < TWO_64
    ensures Total(sum, 9, group) % TWO_64 == sum + (group * Weight(9)) % TWO_64
  {
    Weights(9);
    var half := group / 2;
    assert group * 0x8000_0000_0000_0000 == (group % 2) * 0x8000_0000_0000_0000 + half * TWO_64;
  }

  lemma Small(a: nat)
    requires a < TWO_64
    ensures a % TWO_64 == a
  {
  }

  lemma LastByte(bytes: seq<Byte>, start: nat, k: nat, sum: nat)
    requires k < MAX_GROUPS && start + k < |bytes| && bytes[start + k] < 128 && ReadSoFar(bytes, start, k, sum)
    requires sum < Weight(k)
    ensures sum + (bytes[start + k] * Weight(k)) % TWO_64 < TWO_64
    ensures Read(bytes, start) == Success((sum + (bytes[start + k] * Weight(k)) % TWO_64, start + k + 1))
  {
    hide Total, Weight;
    var byte := bytes[start + k];
    if k < 9 {
      GroupFits(k, sum, byte);
      Small(Total(sum, k, byte));
    } else {
      LastGroup(sum, byte);
    }
  }

  // ---- or-ing a group in ---------------------------------------------------------------------------------

  /** Bitwise or of two numbers. */
  function Or(a: nat, b: nat): nat {
    if a == 0 && b == 0 then 0 else 2 * Or(a / 2, b / 2) + if a % 2 == 1 || b % 2 == 1 then 1 else 0
  }

  function Power2(n: nat): nat {
    if n == 0 then 1 else 2 * Power2(n - 1)
  }

  lemma {:induction false} OrNothing(b: nat)
    ensures Or(0, b) == b
  {
    if b != 0 { OrNothing(b / 2); }
  }

  /** Bits that lie entirely above the bits of `a` are or-ed in by adding them. */
  lemma {:induction false} OrAbove(a: nat, high: nat, n: nat)
    requires a < Power2(n)
    ensures Or(a, high * Power2(n)) == a + high * Power2(n)
  {
    if n == 0 {
      OrNothing(high);
    } else {
      var b := high * Power2(n - 1);
      assert high * Power2(n) == 2 * b;
      OrAbove(a / 2, high, n - 1);
    }
  }

  lemma {:induction false} WeightIsPower(k: nat)
    ensures Weight(k) == Power2(7 * k)
  {
    if k > 0 {
      WeightIsPower(k - 1);
      assert Power2(7 * k) == 2 * Power2(7 * k - 1) == 4 * Power2(7 * k - 2) == 8 * Power2(7 * k - 3);
      assert Power2(7 * k - 3) == 2 * Power2(7 * k - 4) == 4 * Power2(7 * k - 5) == 8 * Power2(7 * k - 6);
    }
  }

  /** A group shifted to its place keeps clear of the groups before it, even where the shift drops its upper bits. */
  lemma OrIsAdding(sum: nat, k: nat, group: nat)
    requires k < MAX_GROUPS && sum < Weight(k) && group < 128
    ensures Or(sum, (group * Weight(k)) % TWO_64) == sum + (group * Weight(k)) % TWO_64
  {
    WeightIsPower(k);
    if k < 9 {
      GroupFits(k, sum, group);
      SmallGroup(k, group);
      OrAbove(sum, group, 7 * k);
    } else {
      Weights(9);
      var half := group / 2;
      assert group * 0x8000_0000_0000_0000 == (group % 2) * 0x8000_0000_0000_0000 + half * TWO_64;
      assert (group * Weight(9)) % TWO_64 == (group % 2) * Weight(9);
      OrAbove(sum, group % 2, 63);
    }
  }

  lemma SmallGroup(k: nat, group: nat)
    requires k < 9 && group < 128
    ensures (group * Weight(k)) % TWO_64 == group * Weight(k)
  {
    Weights(k);
    assert group * Weight(k) <= 127 * Weight(k);
    Small(group * Weight(k));
  }

  /** Each group is or-ed in at its own place in a 64-bit word, which drops the bits that do not fit. */
  method ReadUleb128(bytes: seq<Byte>, start: nat) returns (r: Result<U64, Malformed>, cursor: nat)
    ensures match Read(bytes, start)
            case Success((value, next)) => r == Success(value) && cursor == next
            case Failure(e) => r == Failure(e)
  {
    hide Number, Total, ReadSoFar, Read, Or;
    var value: U64 := 0;
    var shift := 0;
    var weight: nat := 1;
    ghost var k: nat := 0;
    cursor := start;
    ReadNothingYet(bytes, start);
    while cursor < |bytes|
      invariant cursor == start + k && k < MAX_GROUPS && shift == 7 * k && weight == Weight(k)
      invariant value < Weight(k) && ReadSoFar(bytes, start, k, value)
    {
      var byte := bytes[cursor];
      cursor := cursor + 1;
      if byte < 128 {
        LastByte(bytes, start, k, value);
        OrIsAdding(value, k, byte);
        value := Or(value, (byte * weight) % TWO_64);
        return Success(value), cursor;
      }
      if k == 9 {
        LastGroup(value, byte - 128);
        TenGroups(bytes, start, value);
      } else {
        GroupFits(k, value, byte - 128);
        ReadOneMore(bytes, start, k, value);
      }
      OrIsAdding(value, k, byte - 128);
      value := Or(value, ((byte - 128) * weight) % TWO_64);
      shift := shift + 7;
      if shift >= 64 {
        return Failure(Oversized), cursor;
      }
      k := k + 1;
      weight := 128 * weight;
    }
    EndOfBytes(bytes, start, k, value);
    r := Failure(Truncated);
  }

  lemma ReadNothingYet(bytes: seq<Byte>, start: nat)
    ensures ReadSoFar(bytes, start, 0, 0)
  {
  }

  lemma TenGroups(bytes: seq<Byte>, start: nat, sum: nat)
    requires start + 9 < |bytes| && 128 <= bytes[start + 9] && ReadSoFar(bytes, start, 9, sum)
    ensures Read(bytes, start) == Failure(Oversized)
  {
  }

  lemma EndOfBytes(bytes: seq<Byte>, start: nat, k: nat, sum: nat)
    requires k < MAX_GROUPS && |bytes| <= start + k && ReadSoFar(bytes, start, k, sum)
    ensures Read(bytes, start) == Failure(Truncated)
  {
  }

  function Encode(value: nat): (bytes: seq<Byte>)
    ensures bytes != []
  {
    if value < 128 then [value] else [value % 128 + 128] + Encode(value / 128)
  }

  method EncodeUleb128(number: U64) returns (bytes: seq<Byte>)
    ensures bytes == Encode(number)
  {
    bytes := [];
    var value: nat := number;
    while true
      invariant bytes + Encode(value) == Encode(number)
      decreases value
    {
      var byte := value % 128;
      ghost var before := value;
      value := value / 128;
      if value == 0 {
        bytes := bytes + [byte];
        return;
      }
      assert bytes + Encode(before) == (bytes + [byte + 128]) + Encode(value);
      bytes := bytes + [byte + 128];
    }
  }

  lemma {:induction false} EncodedLength(value: nat, groups: nat)
    requires 1 <= groups && value < Weight(groups)
    ensures |Encode(value)| <= groups
  {
    if value >= 128 {
      EncodedLength(value / 128, groups - 1);
    }
  }

  lemma {:induction false} NumberInvertsEncode(before: seq<Byte>, value: nat, after: seq<Byte>, k: nat)
    requires k + |Encode(value)| <= MAX_GROUPS
    ensures Number(before + Encode(value) + after, |before|, k) == Success((value, |before| + |Encode(value)|))
    decreases value
  {
    var bytes := before + Encode(value) + after;
    if value >= 128 {
      var head := before + [value % 128 + 128];
      NumberInvertsEncode(head, value / 128, after, k + 1);
      assert bytes == head + Encode(value / 128) + after;
    }
  }

  /** Whatever surrounds it, an encoded 64-bit number is read back exactly, and in at most ten bytes. */
  lemma ReadInvertsEncode(before: seq<Byte>, value: U64, after: seq<Byte>)
    ensures |Encode(value)| <= MAX_GROUPS
    ensures Read(before + Encode(value) + after, |before|) == Success((value, |before| + |Encode(value)|))
  {
    Weights(9);
    assert Weight(10) == 128 * Weight(9);
    EncodedLength(value, 10);
    NumberInvertsEncode(before, value, after, 0);
  }
}
