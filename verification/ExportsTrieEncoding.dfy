/** How a linker lays out the nodes of an exports trie, and that the decoder reads such nodes back. */
module ExportsTrieEncoding {
  import opened Layout
  import opened Wrappers
  import opened CStrings
  import opened ExportsTrie
  import opened Uleb128

  // ---- an encoder ----------------------------------------------------------------------------------------

  /** Names survive: no NUL inside, and the text conversion keeps them. */
  predicate Storable(b: Blob, name: Name) {
    0 !in name && b.lossy(name) == name
  }

  predicate EncodableTerminal(b: Blob, t: Terminal) {
    match t.target
    case Reexport(_, importName) => HasFlag(t.flags, REEXPORT) && Storable(b, importName)
    case Address(offset, address, resolver) =>
      && !HasFlag(t.flags, REEXPORT)
      && address == (if t.flags % 4 == KIND_ABSOLUTE then offset else b.base + offset)
      && (resolver.Some? <==> HasFlag(t.flags, STUB_AND_RESOLVER))
  }

  predicate EncodableEdge(b: Blob, edge: Edge) {
    Storable(b, edge.suffix) && edge.child < |b.bytes| < TWO_64
  }

  predicate EncodableNode(b: Blob, node: Node) {
    && (node.terminal.Some? ==> EncodableTerminal(b, node.terminal.value) && |PayloadBytes(node.terminal)| < TWO_64)
    && |node.edges| < 256 && forall edge <- node.edges :: EncodableEdge(b, edge)
  }

  function TargetBytes(target: Target): Bytes {
    match target
    case Reexport(ordinal, importName) => Encode(ordinal) + (importName + [0])
    case Address(offset, _, Some(resolver)) => Encode(offset) + Encode(resolver)
    case Address(offset, _, None) => Encode(offset) + []
  }

  function PayloadBytes(terminal: Option<Terminal>): Bytes {
    if terminal.None? then [] else Encode(terminal.value.flags) + TargetBytes(terminal.value.target)
  }

  function EdgeBytes(edges: seq<Edge>): Bytes {
    if edges == [] then [] else (edges[0].suffix + [0]) + (Encode(edges[0].child) + EdgeBytes(edges[1..]))
  }

  function NodeBytes(node: Node): Bytes
    requires |node.edges| < 256
  {
    Encode(|PayloadBytes(node.terminal)|) + (PayloadBytes(node.terminal) + ([|node.edges|] + EdgeBytes(node.edges)))
  }

  // ---- reading it back -----------------------------------------------------------------------------------

  lemma NumberReadsBack(bytes: Bytes, c: nat, value: U64)
    requires Sits(bytes, c, Encode(value))
    ensures Read(bytes, c) == Success((value, c + |Encode(value)|))
  {
    var (before, after) := (bytes[..c], bytes[c + |Encode(value)|..]);
    ReadInvertsEncode(before, value, after);
    assert bytes == before + Encode(value) + after;
  }

  lemma CStringReadsBack(b: Blob, c: nat, name: Name)
    requires Storable(b, name) && Sits(b.bytes, c, name + [0])
    ensures CString(b, c) == Success((name, c + |name + [0]|))
  {
    var found := b.bytes[c..c + |name| + 1];
    assert found == name + [0];
    assert b.bytes[c + |name|] == found[|name|] == 0;
    assert forall k | c <= k < c + |name| :: b.bytes[k] == found[k - c] == name[k - c];
    assert b.bytes[c..c + |name|] == found[..|name|] == name;
  }

  lemma TerminalReadsBack(b: Blob, c: nat, t: Terminal)
    requires EncodableTerminal(b, t) && Sits(b.bytes, c, PayloadBytes(Some(t)))
    ensures TerminalAt(b, c) == Success((t, c + |PayloadBytes(Some(t))|))
  {
    hide Read, Encode, Sits, TargetBytes, EncodableTerminal, TerminalAt;
    SitsApart(b.bytes, c, Encode(t.flags), TargetBytes(t.target));
    NumberReadsBack(b.bytes, c, t.flags);
    if t.target.Reexport? {
      ReexportReadsBack(b, c, c + |Encode(t.flags)|, t);
    } else {
      AddressReadsBack(b, c, c + |Encode(t.flags)|, t);
    }
  }

  lemma ReexportReadsBack(b: Blob, c: nat, c1: nat, t: Terminal)
    requires t.target.Reexport? && EncodableTerminal(b, t)
    requires Read(b.bytes, c) == Success((t.flags, c1)) && Sits(b.bytes, c1, TargetBytes(t.target))
    ensures TerminalAt(b, c) == Success((t, c1 + |TargetBytes(t.target)|))
  {
    hide Read, Encode, Sits, CString, HasFlag, Storable;
    SitsApart(b.bytes, c1, Encode(t.target.ordinal), t.target.importName + [0]);
    NumberReadsBack(b.bytes, c1, t.target.ordinal);
    CStringReadsBack(b, c1 + |Encode(t.target.ordinal)|, t.target.importName);
  }

  lemma AddressReadsBack(b: Blob, c: nat, c1: nat, t: Terminal)
    requires t.target.Address? && EncodableTerminal(b, t)
    requires Read(b.bytes, c) == Success((t.flags, c1)) && Sits(b.bytes, c1, TargetBytes(t.target))
    ensures TerminalAt(b, c) == Success((t, c1 + |TargetBytes(t.target)|))
  {
    hide Read, Encode, Sits, CString, HasFlag;
    var last := if t.target.resolver.Some? then Encode(t.target.resolver.value) else [];
    SitsApart(b.bytes, c1, Encode(t.target.offset), last);
    NumberReadsBack(b.bytes, c1, t.target.offset);
    if t.target.resolver.Some? {
      NumberReadsBack(b.bytes, c1 + |Encode(t.target.offset)|, t.target.resolver.value);
    }
  }

  lemma {:induction false} EdgesReadBack(b: Blob, c: nat, edges: seq<Edge>)
    requires (forall edge <- edges :: EncodableEdge(b, edge)) && Sits(b.bytes, c, EdgeBytes(edges))
    ensures EdgesAt(b, c, |edges|) == Success(edges)
    decreases |edges|
  {
    hide Read, Encode, Sits, CString, EncodableEdge, EdgesAt;
    if edges == [] {
      NoEdgesAt(b, c);
    } else {
      var (edge, rest) := (edges[0], edges[1..]);
      assert edge in edges && forall other <- rest :: other in edges;
      var c1 := c + |edge.suffix + [0]|;
      SitsApart(b.bytes, c, edge.suffix + [0], Encode(edge.child) + EdgeBytes(rest));
      SitsApart(b.bytes, c1, Encode(edge.child), EdgeBytes(rest));
      EdgesReadBack(b, c1 + |Encode(edge.child)|, rest);
      FirstEdgeReadsBack(b, c, edge, rest);
      assert [edge] + rest == edges;
    }
  }

  lemma NoEdgesAt(b: Blob, c: nat)
    ensures EdgesAt(b, c, 0) == Success([])
  {
  }

  lemma FirstEdgeReadsBack(b: Blob, c: nat, edge: Edge, rest: seq<Edge>)
    requires EncodableEdge(b, edge) && Sits(b.bytes, c, edge.suffix + [0])
    requires Sits(b.bytes, c + |edge.suffix + [0]|, Encode(edge.child))
    requires EdgesAt(b, c + |edge.suffix + [0]| + |Encode(edge.child)|, |rest|) == Success(rest)
    ensures EdgesAt(b, c, 1 + |rest|) == Success([edge] + rest)
  {
    hide Read, Encode, Sits, CString, Storable;
    CStringReadsBack(b, c, edge.suffix);
    NumberReadsBack(b.bytes, c + |edge.suffix + [0]|, edge.child);
  }

  /** Where the four parts of an encoded node lie. */
  lemma NodeParts(b: Blob, offset: nat, node: Node)
    requires EncodableNode(b, node) && Sits(b.bytes, offset, NodeBytes(node))
    ensures var payload := PayloadBytes(node.terminal);
            var c := offset + |Encode(|payload|)|;
            && Sits(b.bytes, offset, Encode(|payload|))
            && Sits(b.bytes, c, payload)
            && c + |payload| < |b.bytes| && b.bytes[c + |payload|] == |node.edges|
            && Sits(b.bytes, c + |payload| + 1, EdgeBytes(node.edges))
  {
    hide Encode, EncodableTerminal, EncodableEdge, PayloadBytes, EdgeBytes, Sits;
    var payload := PayloadBytes(node.terminal);
    var (edges, tail) := (EdgeBytes(node.edges), [|node.edges|] + EdgeBytes(node.edges));
    var c := offset + |Encode(|payload|)|;
    SitsApart(b.bytes, offset, Encode(|payload|), payload + tail);
    SitsApart(b.bytes, c, payload, tail);
    SitsApart(b.bytes, c + |payload|, [|node.edges|], edges);
    OneByteSits(b.bytes, c + |payload|, |node.edges|);
  }

  lemma OneByteSits(bytes: Bytes, c: nat, byte: Byte)
    requires Sits(bytes, c, [byte])
    ensures c < |bytes| && bytes[c] == byte
  {
    assert bytes[c] == bytes[c..c + 1][0];
  }

  lemma NodeAtIs(b: Blob, offset: nat, size: U64, c: nat, terminal: Option<Terminal>, edges: seq<Edge>)
    requires Read(b.bytes, offset) == Success((size, c)) && c + size < |b.bytes|
    requires size == 0 <==> terminal.None?
    requires terminal.Some? ==> TerminalAt(b, c) == Success((terminal.value, c + size))
    requires EdgesAt(b, c + size + 1, b.bytes[c + size]) == Success(edges)
    ensures NodeAt(b, offset) == Success(Node(terminal, edges))
  {
    hide Read, TerminalAt, EdgesAt;
  }

  /** Wherever an encoded node sits in the blob, the decoder reads back its terminal and its edges, in order. */
  lemma NodeReadsBack(b: Blob, offset: nat, node: Node)
    requires EncodableNode(b, node) && Sits(b.bytes, offset, NodeBytes(node))
    ensures NodeAt(b, offset) == Success(node)
  {
    hide Read, Encode, TerminalAt, EdgesAt, EncodableTerminal, EncodableEdge, EdgeBytes, NodeBytes, NodeAt, Sits;
    var payload := PayloadBytes(node.terminal);
    var c := offset + |Encode(|payload|)|;
    PayloadLength(node.terminal);
    hide PayloadBytes;
    NodeParts(b, offset, node);
    NumberReadsBack(b.bytes, offset, |payload|);
    if node.terminal.Some? {
      TerminalReadsBack(b, c, node.terminal.value);
    }
    EdgesReadBack(b, c + |payload| + 1, node.edges);
    NodeAtIs(b, offset, |payload|, c, node.terminal, node.edges);
  }

  lemma PayloadLength(terminal: Option<Terminal>)
    ensures |PayloadBytes(terminal)| == 0 <==> terminal.None?
  {
  }
}
