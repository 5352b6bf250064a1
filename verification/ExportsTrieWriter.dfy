/**
 A writer of tries.  The root comes first, then filler, then every other node, parents before children, from a place
 on where all child offsets take the same number of bytes, so that no node's size depends on where its children go.
 */
module ExportsTrieWriter {
  import opened Layout
  import opened Wrappers
  import opened ExportsTrie
  import opened ExportsTrieEncoding
  import opened ExportsTrieLayout
  import opened Uleb128

  // ---- sizes and places ----------------------------------------------------------------------------------

  function EdgeSizes(branches: Branches, width: nat): nat {
    match branches
    case NoMore => 0
    case Branch(step, _, more) => |step| + 1 + width + EdgeSizes(more, width)
  }

  function NodeSize(p: Placed, width: nat): (n: nat)
    ensures n > 0
  {
    |Encode(|PayloadBytes(p.terminal)|)| + |PayloadBytes(p.terminal)| + 1 + EdgeSizes(p.branches, width)
  }

  function TreeSize(p: Placed, width: nat): nat {
    NodeSize(p, width) + BranchesSize(p.branches, width)
  }

  function BranchesSize(branches: Branches, width: nat): nat {
    match branches
    case NoMore => 0
    case Branch(_, child, more) => TreeSize(child, width) + BranchesSize(more, width)
  }

  /** The same trie with its nodes placed one after the other from `at` on. */
  function Place(p: Placed, at: nat, width: nat): Placed {
    Placed(at, p.terminal, PlaceBranches(p.branches, at + NodeSize(p, width), width))
  }

  function PlaceBranches(branches: Branches, at: nat, width: nat): Branches {
    match branches
    case NoMore => NoMore
    case Branch(step, child, more) =>
      Branch(step, Place(child, at, width), PlaceBranches(more, at + TreeSize(child, width), width))
  }

  /** Where the nodes other than the root begin. */
  function Base(width: nat): nat
    requires width > 0
  {
    Weight(width - 1)
  }

  function PlaceRoot(p: Placed, width: nat): Placed
    requires width > 0
  {
    Placed(0, p.terminal, PlaceBranches(p.branches, Base(width), width))
  }

  // ---- bytes ---------------------------------------------------------------------------------------------

  predicate Narrow(p: Placed) {
    |EdgesOf(p.branches)| < 256 && NarrowBranches(p.branches)
  }

  predicate NarrowBranches(branches: Branches) {
    match branches
    case NoMore => true
    case Branch(_, child, more) => Narrow(child) && NarrowBranches(more)
  }

  function TreeBytes(p: Placed): Bytes
    requires Narrow(p)
  {
    NodeBytes(NodeOf(p)) + BranchesBytes(p.branches)
  }

  function BranchesBytes(branches: Branches): Bytes
    requires NarrowBranches(branches)
  {
    match branches
    case NoMore => []
    case Branch(_, child, more) => TreeBytes(child) + BranchesBytes(more)
  }

  function Filler(n: nat): (s: Bytes)
    ensures |s| == n
  {
    if n == 0 then [] else [0] + Filler(n - 1)
  }

  /** The trie can be written with child offsets of `width` bytes. */
  predicate Writable(p: Placed, width: nat) {
    && 0 < width <= 9 && Narrow(p)
    && NodeSize(p, width) <= Base(width) && Base(width) + BranchesSize(p.branches, width) <= Weight(width)
  }

  lemma {:induction false} PlacingKeepsShape(branches: Branches, at: nat, width: nat)
    ensures |EdgesOf(PlaceBranches(branches, at, width))| == |EdgesOf(branches)|
    ensures NarrowBranches(branches) ==> NarrowBranches(PlaceBranches(branches, at, width))
    decreases branches
  {
    match branches
    case NoMore =>
    case Branch(_, child, more) =>
      assert Place(child, at, width).branches == PlaceBranches(child.branches, at + NodeSize(child, width), width);
      PlacingKeepsShape(child.branches, at + NodeSize(child, width), width);
      PlacingKeepsShape(more, at + TreeSize(child, width), width);
      if NarrowBranches(branches) {
        assert Narrow(child) && NarrowBranches(child.branches);
        assert Narrow(Place(child, at, width));
      }
  }

  function TrieBytes(p: Placed, width: nat): Bytes
    requires Writable(p, width)
  {
    PlacingKeepsShape(p.branches, Base(width), width);
    var root := PlaceRoot(p, width);
    NodeBytes(NodeOf(root)) + (Filler(Base(width) - NodeSize(p, width)) + BranchesBytes(root.branches))
  }

  // ---- sizes are right -----------------------------------------------------------------------------------

  lemma {:induction false} OffsetWidth(value: nat, width: nat)
    requires width > 0 && Weight(width - 1) <= value < Weight(width)
    ensures |Encode(value)| == width
  {
    if width == 1 {
      assert Weight(1) == 128;
    } else {
      AtLeastOne(width - 2);
      assert Weight(width) == 128 * Weight(width - 1) && Weight(width - 1) == 128 * Weight(width - 2);
      OffsetWidth(value / 128, width - 1);
    }
  }

  lemma {:induction false} AtLeastOne(k: nat)
    ensures Weight(k) >= 1
  {
    if k > 0 { AtLeastOne(k - 1); }
  }

  predicate InRange(at: nat, size: nat, width: nat) {
    width > 0 && Weight(width - 1) <= at && at + size <= Weight(width)
  }

  lemma {:induction false} EdgesAreAsLong(branches: Branches, at: nat, width: nat)
    requires InRange(at, BranchesSize(branches, width), width)
    ensures |EdgeBytes(EdgesOf(PlaceBranches(branches, at, width)))| == EdgeSizes(branches, width)
    decreases branches
  {
    hide Encode, Weight, Place, TreeSize, EdgeBytes;
    match branches
    case NoMore =>
      NoEdges();
    case Branch(step, child, more) =>
      PlacedAt(child, at, width);
      OffsetWidth(at, width);
      EdgesAreAsLong(more, at + TreeSize(child, width), width);
      FirstEdge(step, Place(child, at, width), PlaceBranches(more, at + TreeSize(child, width), width));
  }

  lemma NoEdges()
    ensures EdgeBytes([]) == []
  {
  }

  lemma PlacedAt(p: Placed, at: nat, width: nat)
    ensures Place(p, at, width).offset == at && TreeSize(p, width) >= 1
  {
    hide NodeBytes, PlaceBranches, BranchesSize;
  }

  lemma FirstEdge(step: Name, child: Placed, more: Branches)
    ensures |EdgeBytes(EdgesOf(Branch(step, child, more)))| == |step| + 1 + |Encode(child.offset)| + |EdgeBytes(EdgesOf(more))|
  {
    hide Encode;
    var edges := EdgesOf(Branch(step, child, more));
    assert edges[0] == Edge(step, child.offset) && edges[1..] == EdgesOf(more);
  }

  lemma NodeIsAsLong(p: Placed, at: nat, branchesAt: nat, width: nat)
    requires InRange(branchesAt, BranchesSize(p.branches, width), width) && |EdgesOf(p.branches)| < 256
    ensures var placed := Placed(at, p.terminal, PlaceBranches(p.branches, branchesAt, width));
            |EdgesOf(placed.branches)| < 256 && |NodeBytes(NodeOf(placed))| == NodeSize(p, width)
  {
    hide Encode, Weight, EdgeBytes, PayloadBytes;
    PlacingKeepsShape(p.branches, branchesAt, width);
    EdgesAreAsLong(p.branches, branchesAt, width);
  }

  lemma {:induction false} TreeIsAsLong(p: Placed, at: nat, width: nat)
    requires InRange(at, TreeSize(p, width), width) && Narrow(p)
    ensures Narrow(Place(p, at, width)) && |TreeBytes(Place(p, at, width))| == TreeSize(p, width)
    decreases p
  {
    hide Weight, NodeBytes, NodeSize;
    PlacingKeepsShape(p.branches, at + NodeSize(p, width), width);
    NodeIsAsLong(p, at, at + NodeSize(p, width), width);
    BranchesAreAsLong(p.branches, at + NodeSize(p, width), width);
  }

  lemma {:induction false} BranchesAreAsLong(branches: Branches, at: nat, width: nat)
    requires InRange(at, BranchesSize(branches, width), width) && NarrowBranches(branches)
    ensures NarrowBranches(PlaceBranches(branches, at, width))
    ensures |BranchesBytes(PlaceBranches(branches, at, width))| == BranchesSize(branches, width)
    decreases branches
  {
    hide Weight, TreeBytes, TreeSize, Place, Narrow;
    match branches
    case NoMore =>
    case Branch(_, child, more) =>
      TreeIsAsLong(child, at, width);
      BranchesAreAsLong(more, at + TreeSize(child, width), width);
  }

  // ---- the written trie is laid out ----------------------------------------------------------------------

  /** Every terminal fits the image and every label survives. */
  predicate Encodables(b: Blob, p: Placed) {
    && (p.terminal.Some? ==> EncodableTerminal(b, p.terminal.value) && |PayloadBytes(p.terminal)| < TWO_64)
    && BranchesEncodable(b, p.branches)
  }

  predicate BranchesEncodable(b: Blob, branches: Branches) {
    match branches
    case NoMore => true
    case Branch(step, child, more) => Storable(b, step) && Encodables(b, child) && BranchesEncodable(b, more)
  }

  lemma {:induction false} EdgesAreEncodable(b: Blob, branches: Branches, at: nat, width: nat)
    requires BranchesEncodable(b, branches) && at + BranchesSize(branches, width) <= |b.bytes| < TWO_64
    ensures forall edge <- EdgesOf(PlaceBranches(branches, at, width)) :: EncodableEdge(b, edge)
    decreases branches
  {
    hide Encodables, Storable, Place, TreeSize;
    match branches
    case NoMore =>
    case Branch(step, child, more) =>
      PlacedThere(child, at, width);
      EdgesAreEncodable(b, more, at + TreeSize(child, width), width);
      assert EncodableEdge(b, Edge(step, at));
  }

  lemma PlacedThere(p: Placed, at: nat, width: nat)
    ensures Place(p, at, width).offset == at && TreeSize(p, width) > 0
  {
    hide NodeSize;
  }

  lemma {:induction false} TreeIsLaid(b: Blob, p: Placed, at: nat, width: nat)
    requires InRange(at, TreeSize(p, width), width) && Narrow(p) && Encodables(b, p) && |b.bytes| < TWO_64
    requires Narrow(Place(p, at, width)) && Sits(b.bytes, at, TreeBytes(Place(p, at, width)))
    ensures Laid(b, Place(p, at, width))
    decreases p, 0
  {
    hide Weight, NodeBytes, NodeSize, EncodableTerminal, PayloadBytes, EncodableEdge;
    var (placed, next) := (Place(p, at, width), at + NodeSize(p, width));
    TreeIsAsLong(p, at, width);
    NodeIsAsLong(p, at, next, width);
    EdgesAreEncodable(b, p.branches, next, width);
    SitsApart(b.bytes, at, NodeBytes(NodeOf(placed)), BranchesBytes(placed.branches));
    BranchesAreLaid(b, p.branches, next, width);
  }

  lemma {:induction false} BranchesAreLaid(b: Blob, branches: Branches, at: nat, width: nat)
    requires InRange(at, BranchesSize(branches, width), width) && NarrowBranches(branches)
    requires BranchesEncodable(b, branches) && |b.bytes| < TWO_64
    requires NarrowBranches(PlaceBranches(branches, at, width))
    requires Sits(b.bytes, at, BranchesBytes(PlaceBranches(branches, at, width)))
    ensures LaidBranches(b, PlaceBranches(branches, at, width))
    decreases branches, 0
  {
    hide Weight, TreeBytes, TreeSize, Place, Narrow, Laid, Encodables, Storable;
    match branches
    case NoMore =>
    case Branch(_, child, more) =>
      TreeIsAsLong(child, at, width);
      SitsApart(b.bytes, at, TreeBytes(Place(child, at, width)),
                BranchesBytes(PlaceBranches(more, at + TreeSize(child, width), width)));
      TreeIsLaid(b, child, at, width);
      BranchesAreLaid(b, more, at + TreeSize(child, width), width);
  }

  predicate Apart(nodes: seq<(Name, Placed)>, low: nat, high: nat) {
    && (forall n <- nodes :: low <= n.1.offset < high)
    && forall i, j | 0 <= i < j < |nodes| :: nodes[i].1.offset != nodes[j].1.offset
  }

  lemma ApartBoth(x: seq<(Name, Placed)>, y: seq<(Name, Placed)>, low: nat, middle: nat, high: nat)
    requires Apart(x, low, middle) && Apart(y, middle, high) && low <= middle <= high
    ensures Apart(x + y, low, high)
  {
    forall i, j | 0 <= i < j < |x + y|
      ensures (x + y)[i].1.offset != (x + y)[j].1.offset
    {
      assert i < |x| ==> x[i] in x;
      assert j >= |x| ==> y[j - |x|] in y;
    }
  }

  lemma {:induction false} NodesAreApart(p: Placed, at: nat, width: nat, name: Name)
    ensures Apart(Nodes(Place(p, at, width), name), at, at + TreeSize(p, width))
    decreases p, 0
  {
    hide NodeSize, Apart;
    var next := at + NodeSize(p, width);
    BranchNodesAreApart(p.branches, next, width, name);
    OneIsApart((name, Place(p, at, width)), next);
    ApartBoth([(name, Place(p, at, width))], BranchNodes(PlaceBranches(p.branches, next, width), name),
              at, next, at + TreeSize(p, width));
  }

  lemma OneIsApart(n: (Name, Placed), high: nat)
    requires n.1.offset < high
    ensures Apart([n], n.1.offset, high)
  {
  }

  lemma NothingIsApart(at: nat)
    ensures Apart([], at, at)
  {
  }

  lemma {:induction false} BranchNodesAreApart(branches: Branches, at: nat, width: nat, name: Name)
    ensures Apart(BranchNodes(PlaceBranches(branches, at, width), name), at, at + BranchesSize(branches, width))
    decreases branches, 0
  {
    hide Apart, Place, TreeSize, Nodes;
    match branches
    case NoMore =>
      NothingIsApart(at);
    case Branch(step, child, more) =>
      var next := at + TreeSize(child, width);
      NodesAreApart(child, at, width, name + step);
      BranchNodesAreApart(more, next, width, name);
      ApartBoth(Nodes(Place(child, at, width), name + step), BranchNodes(PlaceBranches(more, next, width), name),
                at, next, at + BranchesSize(branches, width));
  }

  lemma {:induction false} PlacingKeepsEntries(p: Placed, at: nat, width: nat, name: Name)
    ensures Enumerate(Place(p, at, width), name) == Enumerate(p, name)
    decreases p, 0
  {
    hide NodeSize;
    BranchPlacingKeepsEntries(p.branches, at + NodeSize(p, width), width, name);
  }

  lemma {:induction false} BranchPlacingKeepsEntries(branches: Branches, at: nat, width: nat, name: Name)
    ensures EnumerateBranches(PlaceBranches(branches, at, width), name) == EnumerateBranches(branches, name)
    decreases branches, 0
  {
    hide TreeSize, Place;
    match branches
    case NoMore =>
    case Branch(step, child, more) =>
      PlacingKeepsEntries(child, at, width, name + step);
      BranchPlacingKeepsEntries(more, at + TreeSize(child, width), width, name);
  }

  /** What is written is a layout of the trie, and has the same terminal paths. */
  lemma WrittenIsLaidOut(b: Blob, p: Placed, width: nat)
    requires Writable(p, width) && Encodables(b, p) && b.bytes == TrieBytes(p, width)
    ensures IsLayout(b, PlaceRoot(p, width))
    ensures Enumerate(PlaceRoot(p, width), []) == Enumerate(p, [])
  {
    hide Encodables, TrieBytes, PlaceRoot, Enumerate, IsLayout;
    WrittenIsLaid(b, p, width);
    WrittenIsApart(p, width);
    LayoutIs(b, PlaceRoot(p, width));
    RootKeepsEntries(p, width);
  }

  lemma LayoutIs(b: Blob, root: Placed)
    requires root.offset == 0 && Laid(b, root)
    requires var nodes := Nodes(root, []); forall i, j | 0 <= i < j < |nodes| :: nodes[i].1.offset != nodes[j].1.offset
    ensures IsLayout(b, root)
  {
  }

  lemma WrittenIsApart(p: Placed, width: nat)
    requires Writable(p, width)
    ensures PlaceRoot(p, width).offset == 0
    ensures var nodes := Nodes(PlaceRoot(p, width), []);
            forall i, j | 0 <= i < j < |nodes| :: nodes[i].1.offset != nodes[j].1.offset
  {
    hide NodeSize, Apart, BranchesSize, Nodes, BranchNodes, PlaceBranches, Weight, Narrow;
    var (root, base) := (PlaceRoot(p, width), Base(width));
    BaseIsPositive(width);
    BranchNodesAreApart(p.branches, base, width, []);
    OneIsApart(([], root), base);
    ApartBoth([([], root)], BranchNodes(root.branches, []), 0, base, base + BranchesSize(p.branches, width));
    NodesOfRoot(root, base + BranchesSize(p.branches, width));
  }

  lemma BaseIsPositive(width: nat)
    requires width > 0
    ensures Base(width) > 0
  {
    AtLeastOne(width - 1);
  }

  lemma RootKeepsEntries(p: Placed, width: nat)
    requires width > 0
    ensures Enumerate(PlaceRoot(p, width), []) == Enumerate(p, [])
  {
    hide EnumerateBranches, PlaceBranches, EntryFor;
    BranchPlacingKeepsEntries(p.branches, Base(width), width, []);
  }

  lemma WrittenIsLaid(b: Blob, p: Placed, width: nat)
    requires Writable(p, width) && Encodables(b, p) && b.bytes == TrieBytes(p, width)
    ensures Laid(b, PlaceRoot(p, width))
  {
    hide NodeBytes, NodeSize, EncodableTerminal, PayloadBytes, EncodableEdge, Sits, BranchesBytes, Weight;
    var (root, base) := (PlaceRoot(p, width), Base(width));
    PlacingKeepsShape(p.branches, base, width);
    NodeIsAsLong(p, 0, base, width);
    BranchesAreAsLong(p.branches, base, width);
    var (node, filler, rest) := (NodeBytes(NodeOf(root)), Filler(base - NodeSize(p, width)), BranchesBytes(root.branches));
    BlobFits(width);
    assert b.bytes == node + (filler + rest);
    WholeSits(b.bytes);
    SitsApart(b.bytes, 0, node, filler + rest);
    SitsApart(b.bytes, |node|, filler, rest);
    EdgesAreEncodable(b, p.branches, base, width);
    BranchesAreLaid(b, p.branches, base, width);
  }

  lemma NodesOfRoot(root: Placed, high: nat)
    requires Apart([([], root)] + BranchNodes(root.branches, []), 0, high)
    ensures var nodes := Nodes(root, []); forall i, j | 0 <= i < j < |nodes| :: nodes[i].1.offset != nodes[j].1.offset
  {
  }

  lemma WholeSits(bytes: Bytes)
    ensures Sits(bytes, 0, bytes)
  {
    assert bytes[0..|bytes|] == bytes;
  }

  lemma BlobFits(width: nat)
    requires 0 < width <= 9
    ensures 1 <= Weight(width - 1) <= Weight(width) < TWO_64
  {
    Weights(width - 1);
    if width < 9 { Weights(width); }
  }

  /** Writing a finite trie and decoding the blob gives the trie's terminal paths, sorted by name and then by flags. */
  method WriteThenDecode(p: Placed, width: nat, base: U64, lossy: Name -> Name)
    returns (b: Blob, r: Result<seq<Entry>, Malformed>)
    requires Writable(p, width) && Encodables(Blob(TrieBytes(p, width), base, lossy), p)
    ensures b == Blob(TrieBytes(p, width), base, lossy)
    ensures r.Success? && multiset(r.value) == multiset(Enumerate(p, [])) && InOrder(r.value)
    ensures forall e :: e in r.value <==> exists n :: n in Nodes(p, []) && Lists(n, e)
  {
    b := Blob(TrieBytes(p, width), base, lossy);
    hide TrieBytes, Encodables, Enumerate, IsLayout, Lists, Nodes;
    WrittenIsLaidOut(b, p, width);
    r := DecodeLayout(b, PlaceRoot(p, width));
    EnumeratedExactly(p, r.value);
  }
}
