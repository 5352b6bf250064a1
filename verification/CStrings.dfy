/** NUL-terminated strings inside a byte blob. */
module CStrings {
  import opened Wrappers

  function FirstZero(bytes: seq<Byte>, c: nat): (r: Option<nat>)
    ensures r.Some? ==> c <= r.value < |bytes| && bytes[r.value] == 0 && forall i | c <= i < r.value :: bytes[i] != 0
    ensures r.None? ==> forall i | c <= i < |bytes| :: bytes[i] != 0
    decreases |bytes| - c
  {
    if c >= |bytes| then None else if bytes[c] == 0 then Some(c) else FirstZero(bytes, c + 1)
  }
}
