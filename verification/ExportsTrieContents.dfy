/** Which bytes make a node of an exports trie: the decoder accepts exactly these, and reads nothing else into them. */
module ExportsTrieContents {
  import opened Layout
  import opened Wrappers
  import opened CStrings
  import opened ExportsTrie
  import opened Uleb128

  /** `value` is written at `c` and ends before `next`. */
  predicate NumberSits(b: Blob, c: nat, value: nat, next: nat) {
    && Read(b.bytes, c).Success?
    && Read(b.bytes, c).value.0 == value && Read(b.bytes, c).value.1 == next
  }

  /** The text of the bytes from `c` up to the first NUL, which ends before `next`. */
  predicate TextSits(b: Blob, c: nat, text: Name, next: nat) {
    && c < next <= |b.bytes| && b.bytes[next - 1] == 0
    && (forall i | c <= i < next - 1 :: b.bytes[i] != 0)
    && text == b.lossy(b.bytes[c..next - 1])
  }

  lemma TextIsExact(b: Blob, c: nat, text: Name, next: nat)
    ensures CString(b, c) == Success((text, next)) <==> TextSits(b, c, text, next)
  {
    if TextSits(b, c, text, next) {
      assert FirstZero(b.bytes, c) == Some(next - 1);
    }
  }

  /** The payload of `t` is written at `c` and ends before `stop`. */
  ghost predicate TerminalSits(b: Blob, c: nat, t: Terminal, stop: nat) {
    exists c1, number: U64, c2 :: NumberSits(b, c, t.flags, c1) && NumberSits(b, c1, number, c2) && TargetSits(b, c2, t, number, stop)
  }

  predicate TargetSits(b: Blob, c: nat, t: Terminal, number: U64, stop: nat) {
    match t.target
    case Reexport(ordinal, importName) =>
      t.flags / 8 % 2 == 1 && ordinal == number && TextSits(b, c, importName, stop)
    case Address(offset, address, resolver) =>
      && t.flags / 8 % 2 == 0 && offset == number
      && address == (if t.flags % 4 == 2 then offset else b.base + offset)
      && match resolver
         case None => t.flags / 16 % 2 == 0 && stop == c
         case Some(other) => t.flags / 16 % 2 == 1 && NumberSits(b, c, other, stop)
  }

  lemma TerminalIsExact(b: Blob, c: nat, t: Terminal, stop: nat)
    ensures TerminalAt(b, c) == Success((t, stop)) <==> TerminalSits(b, c, t, stop)
  {
    hide Read, CString, TextSits;
    if TerminalAt(b, c) == Success((t, stop)) {
      var c1 := Read(b.bytes, c).value.1;
      var (number, c2) := Read(b.bytes, c1).value;
      if t.target.Reexport? { TextIsExact(b, c2, t.target.importName, stop); }
      assert NumberSits(b, c, t.flags, c1) && NumberSits(b, c1, number, c2) && TargetSits(b, c2, t, number, stop);
    }
    if TerminalSits(b, c, t, stop) {
      var c1, number: U64, c2 :|
        NumberSits(b, c, t.flags, c1) && NumberSits(b, c1, number, c2) && TargetSits(b, c2, t, number, stop);
      if t.target.Reexport? { TextIsExact(b, c2, t.target.importName, stop); }
    }
  }

  /** One edge is written at `c` and ends before `next`; its child lies inside the blob. */
  ghost predicate EdgeSits(b: Blob, c: nat, edge: Edge, next: nat) {
    edge.child < |b.bytes| && exists mid :: TextSits(b, c, edge.suffix, mid) && NumberSits(b, mid, edge.child, next)
  }

  /** The edges are written one after the other, each from where the last one ended. */
  ghost predicate EdgesSit(b: Blob, edges: seq<Edge>, cursors: seq<nat>) {
    |cursors| == |edges| + 1 && forall i | 0 <= i < |edges| :: EdgeSits(b, cursors[i], edges[i], cursors[i + 1])
  }

  lemma {:induction false} EdgesAreExact(b: Blob, c: nat, edges: seq<Edge>)
    ensures EdgesAt(b, c, |edges|) == Success(edges) <==> exists cursors :: EdgesSit(b, edges, cursors) && cursors[0] == c
    decreases |edges|
  {
    hide Read, CString, TextSits;
    if edges == [] {
      assert EdgesSit(b, edges, [c]);
    } else {
      var (first, rest) := (edges[0], edges[1..]);
      assert edges == [first] + rest;
      if EdgesAt(b, c, |edges|) == Success(edges) {
        var mid := CString(b, c).value.1;
        var next := Read(b.bytes, mid).value.1;
        TextIsExact(b, c, first.suffix, mid);
        EdgesAreExact(b, next, rest);
        assert EdgesAt(b, next, |rest|) == Success(rest);
        var cursors :| EdgesSit(b, rest, cursors) && cursors[0] == next;
        assert NumberSits(b, mid, first.child, next);
        OneMoreEdge(b, c, edges, cursors);
      }
      if exists cursors :: EdgesSit(b, edges, cursors) && cursors[0] == c {
        var cursors :| EdgesSit(b, edges, cursors) && cursors[0] == c;
        assert EdgeSits(b, cursors[0], first, cursors[1]);
        var mid :| TextSits(b, c, first.suffix, mid) && NumberSits(b, mid, first.child, cursors[1]);
        TextIsExact(b, c, first.suffix, mid);
        EdgesAreExact(b, cursors[1], rest);
        assert EdgesSit(b, rest, cursors[1..]);
      }
    }
  }

  lemma OneMoreEdge(b: Blob, c: nat, edges: seq<Edge>, cursors: seq<nat>)
    requires edges != [] && EdgesSit(b, edges[1..], cursors) && EdgeSits(b, c, edges[0], cursors[0])
    ensures EdgesSit(b, edges, [c] + cursors)
  {
    hide EdgeSits;
    forall i | 0 <= i < |edges|
      ensures EdgeSits(b, ([c] + cursors)[i], edges[i], ([c] + cursors)[i + 1])
    {
      if i > 0 { assert EdgeSits(b, cursors[i - 1], edges[1..][i - 1], cursors[i]); }
    }
  }

  /**
   A node: the announced size, a payload that may end before that many bytes but not after, then the edge count and
   the edges.  Only a size of zero means that there is no payload.
   */
  ghost predicate NodeSits(b: Blob, offset: nat, node: Node) {
    exists size: U64, c :: NumberSits(b, offset, size, c) && BodySits(b, c, size, node)
  }

  ghost predicate BodySits(b: Blob, c: nat, size: U64, node: Node) {
    && c + size < |b.bytes| && b.bytes[c + size] == |node.edges|
    && (node.terminal.None? <==> size == 0)
    && (node.terminal.Some? ==> exists stop: nat :: stop <= c + size && TerminalSits(b, c, node.terminal.value, stop))
    && exists cursors :: EdgesSit(b, node.edges, cursors) && cursors[0] == c + size + 1
  }

  lemma NodeIsExact(b: Blob, offset: nat, node: Node)
    ensures NodeAt(b, offset) == Success(node) <==> NodeSits(b, offset, node)
  {
    hide Read, TerminalAt, EdgesAt, TerminalSits, EdgesSit;
    if Read(b.bytes, offset).Success? {
      var (size, c) := Read(b.bytes, offset).value;
      BodyIsExact(b, offset, c, size, node);
      assert NumberSits(b, offset, size, c);
    }
  }

  lemma BodyIsExact(b: Blob, offset: nat, c: nat, size: U64, node: Node)
    requires NumberSits(b, offset, size, c)
    ensures NodeAt(b, offset) == Success(node) <==> BodySits(b, c, size, node)
  {
    hide Read, TerminalAt, EdgesAt, TerminalSits, EdgesSit;
    var end := c + size;
    EdgesAreExact(b, end + 1, node.edges);
    forall stop: nat
      ensures node.terminal.Some? ==>
                (TerminalAt(b, c) == Success((node.terminal.value, stop)) <==> TerminalSits(b, c, node.terminal.value, stop))
    {
      if node.terminal.Some? { TerminalIsExact(b, c, node.terminal.value, stop); }
    }
    if NodeAt(b, offset) == Success(node) {
      EdgesAreCounted(b, end + 1, b.bytes[end]);
    }
  }

  lemma {:induction false} EdgesAreCounted(b: Blob, c: nat, count: nat)
    requires EdgesAt(b, c, count).Success?
    ensures |EdgesAt(b, c, count).value| == count
    decreases count
  {
    hide Read, CString;
    if count > 0 {
      EdgesAreCounted(b, Read(b.bytes, CString(b, c).value.1).value.1, count - 1);
    }
  }
}
