/** Which bytes lie where in a blob, and how reading it can fail. */
module Layout {
  import opened Wrappers

  type Bytes = seq<Byte>

  datatype Malformed =
    | Truncated | Oversized | Overflow | OutOfRange | Unterminated
    | SegmentOverflow | ChainOverflow | UnsupportedFormat

  predicate Sits(bytes: Bytes, offset: nat, x: Bytes) {
    offset + |x| <= |bytes| && bytes[offset..offset + |x|] == x
  }

  lemma SitsApart(bytes: Bytes, offset: nat, x: Bytes, y: Bytes)
    requires Sits(bytes, offset, x + y)
    ensures Sits(bytes, offset, x) && Sits(bytes, offset + |x|, y)
  {
    var all := bytes[offset..offset + |x + y|];
    assert bytes[offset..offset + |x|] == all[..|x|] == x;
    assert bytes[offset + |x|..offset + |x| + |y|] == all[|x|..] == y;
  }
}
