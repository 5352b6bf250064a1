/** A whole trie laid out in a blob, and that decoding the blob enumerates the trie. */
module ExportsTrieLayout {
  import opened Layout
  import opened Wrappers
  import opened ExportsTrie
  import opened ExportsTrieEncoding

  /** A trie whose every node has been given its place in the blob. */
  datatype Placed = Placed(offset: nat, terminal: Option<Terminal>, branches: Branches)

  datatype Branches = NoMore | Branch(step: Name, child: Placed, more: Branches)

  function EdgesOf(branches: Branches): seq<Edge> {
    match branches
    case NoMore => []
    case Branch(step, child, more) => [Edge(step, child.offset)] + EdgesOf(more)
  }

  function NodeOf(p: Placed): Node {
    Node(p.terminal, EdgesOf(p.branches))
  }

  /** Every node of the trie is encoded at its place. */
  predicate Laid(b: Blob, p: Placed) {
    && EncodableNode(b, NodeOf(p)) && Sits(b.bytes, p.offset, NodeBytes(NodeOf(p)))
    && LaidBranches(b, p.branches)
  }

  predicate LaidBranches(b: Blob, branches: Branches) {
    match branches
    case NoMore => true
    case Branch(_, child, more) => Laid(b, child) && LaidBranches(b, more)
  }

  /** The nodes of the trie, each with the name that leads to it, parents first. */
  function Nodes(p: Placed, name: Name): seq<(Name, Placed)> {
    [(name, p)] + BranchNodes(p.branches, name)
  }

  function BranchNodes(branches: Branches, name: Name): seq<(Name, Placed)> {
    match branches
    case NoMore => []
    case Branch(step, child, more) => Nodes(child, name + step) + BranchNodes(more, name)
  }

  /** The recursive enumeration of the terminal paths. */
  function Enumerate(p: Placed, name: Name): seq<Entry> {
    (if p.terminal.Some? then [EntryFor(name, p.terminal.value)] else []) + EnumerateBranches(p.branches, name)
  }

  function EnumerateBranches(branches: Branches, name: Name): seq<Entry> {
    match branches
    case NoMore => []
    case Branch(step, child, more) => Enumerate(child, name + step) + EnumerateBranches(more, name)
  }

  /** No two nodes share a place, and the root is where decoding starts. */
  ghost predicate IsLayout(b: Blob, root: Placed) {
    var nodes := Nodes(root, []);
    && root.offset == 0 && Laid(b, root)
    && forall i, j | 0 <= i < j < |nodes| :: nodes[i].1.offset != nodes[j].1.offset
  }

  // ---- walks and nodes -----------------------------------------------------------------------------------

  lemma {:induction false} NodesAreLaid(b: Blob, p: Placed, name: Name)
    requires Laid(b, p)
    ensures forall n <- Nodes(p, name) :: Laid(b, n.1)
  {
    BranchNodesAreLaid(b, p.branches, name);
  }

  lemma {:induction false} BranchNodesAreLaid(b: Blob, branches: Branches, name: Name)
    requires LaidBranches(b, branches)
    ensures forall n <- BranchNodes(branches, name) :: Laid(b, n.1)
  {
    match branches
    case NoMore =>
    case Branch(step, child, more) =>
      NodesAreLaid(b, child, name + step);
      BranchNodesAreLaid(b, more, name);
  }

  /** Edge `i` of a node leads to the place of its i-th child. */
  function Child(branches: Branches, i: nat): (Name, Placed)
    requires i < |EdgesOf(branches)|
    decreases branches
  {
    if i == 0 then (branches.step, branches.child) else Child(branches.more, i - 1)
  }

  lemma {:induction false} EdgeIsChild(branches: Branches, name: Name, i: nat)
    requires i < |EdgesOf(branches)|
    ensures var (step, child) := Child(branches, i);
            && EdgesOf(branches)[i] == Edge(step, child.offset)
            && (name + step, child) in BranchNodes(branches, name)
    decreases branches
  {
    if i == 0 {
      assert Nodes(branches.child, name + branches.step)[0] == (name + branches.step, branches.child);
      assert BranchNodes(branches, name)[0] == (name + branches.step, branches.child);
    } else {
      EdgeIsChild(branches.more, name, i - 1);
    }
  }

  lemma {:induction false} NodesAreClosed(p: Placed, name: Name, n: (Name, Placed), i: nat)
    requires n in Nodes(p, name) && i < |EdgesOf(n.1.branches)|
    ensures var (step, child) := Child(n.1.branches, i); (n.0 + step, child) in Nodes(p, name)
    decreases p
  {
    if n == (name, p) {
      EdgeIsChild(p.branches, name, i);
    } else {
      BranchNodesAreClosed(p.branches, name, n, i);
    }
  }

  lemma {:induction false} BranchNodesAreClosed(branches: Branches, name: Name, n: (Name, Placed), i: nat)
    requires n in BranchNodes(branches, name) && i < |EdgesOf(n.1.branches)|
    ensures var (step, child) := Child(n.1.branches, i); (n.0 + step, child) in BranchNodes(branches, name)
    decreases branches
  {
    if n in Nodes(branches.child, name + branches.step) {
      NodesAreClosed(branches.child, name + branches.step, n, i);
    } else {
      BranchNodesAreClosed(branches.more, name, n, i);
    }
  }

  /** Every walk through the blob follows the trie. */
  lemma {:induction false} WalkFollowsTrie(b: Blob, root: Placed, path: seq<nat>) returns (n: (Name, Placed))
    requires IsLayout(b, root) && Walk(b, path).Some?
    ensures n in Nodes(root, []) && Walk(b, path) == Some((n.0, n.1.offset))
    ensures NodeAt(b, n.1.offset) == Success(NodeOf(n.1))
  {
    hide NodeAt, NodeBytes, EncodableNode, Sits, Nodes;
    NodesAreLaid(b, root, []);
    if path == [] {
      RootIsFirst(root);
      n := ([], root);
    } else {
      var before := WalkFollowsTrie(b, root, path[..|path| - 1]);
      var i := path[|path| - 1];
      EdgeIsChild(before.1.branches, before.0, i);
      NodesAreClosed(root, [], before, i);
      n := (before.0 + Child(before.1.branches, i).0, Child(before.1.branches, i).1);
    }
    assert Laid(b, n.1);
    NodeReadsBack(b, n.1.offset, NodeOf(n.1));
  }

  lemma RootIsFirst(root: Placed)
    ensures ([], root) in Nodes(root, [])
  {
    assert Nodes(root, [])[0] == ([], root);
  }

  lemma {:induction false} NodesAreSpelled(b: Blob, p: Placed, name: Name)
    requires Laid(b, p) && Spells(b, name, p.offset)
    ensures forall n <- Nodes(p, name) :: Spells(b, n.0, n.1.offset)
    decreases p
  {
    hide NodeAt, NodeBytes, EncodableNode, Sits, Spells, Walk;
    NodeReadsBack(b, p.offset, NodeOf(p));
    forall i: nat | i < |EdgesOf(p.branches)|
      ensures Spells(b, name + EdgesOf(p.branches)[i].suffix, EdgesOf(p.branches)[i].child)
    {
      ChildSpelled(b, name, p.offset, i);
    }
    BranchNodesAreSpelled(b, p.branches, name);
  }

  lemma {:induction false} BranchNodesAreSpelled(b: Blob, branches: Branches, name: Name)
    requires LaidBranches(b, branches)
    requires forall i: nat | i < |EdgesOf(branches)| ::
               Spells(b, name + EdgesOf(branches)[i].suffix, EdgesOf(branches)[i].child)
    ensures forall n <- BranchNodes(branches, name) :: Spells(b, n.0, n.1.offset)
    decreases branches
  {
    hide Spells;
    match branches
    case NoMore =>
    case Branch(step, child, more) =>
      assert EdgesOf(branches)[0] == Edge(step, child.offset);
      NodesAreSpelled(b, child, name + step);
      forall i: nat | i < |EdgesOf(more)|
        ensures Spells(b, name + EdgesOf(more)[i].suffix, EdgesOf(more)[i].child)
      {
        assert EdgesOf(branches)[i + 1] == EdgesOf(more)[i];
      }
      BranchNodesAreSpelled(b, more, name);
  }

  // ---- the enumeration -----------------------------------------------------------------------------------

  function EntryOf(n: (Name, Placed)): seq<Entry> {
    if n.1.terminal.Some? then [EntryFor(n.0, n.1.terminal.value)] else []
  }

  function EntriesOf(nodes: seq<(Name, Placed)>): seq<Entry> {
    if nodes == [] then [] else EntryOf(nodes[0]) + EntriesOf(nodes[1..])
  }

  lemma {:induction false} EntriesOfBoth(x: seq<(Name, Placed)>, y: seq<(Name, Placed)>)
    ensures EntriesOf(x + y) == EntriesOf(x) + EntriesOf(y)
  {
    hide EntryOf;
    if x == [] {
      assert x + y == y;
    } else {
      EntriesOfBoth(x[1..], y);
      assert (x + y)[1..] == x[1..] + y;
      assert EntryOf(x[0]) + EntriesOf(x[1..]) + EntriesOf(y) == EntryOf(x[0]) + (EntriesOf(x[1..]) + EntriesOf(y));
    }
  }

  lemma {:induction false} EnumerationIsOfNodes(p: Placed, name: Name)
    ensures Enumerate(p, name) == EntriesOf(Nodes(p, name))
  {
    BranchEnumerationIsOfNodes(p.branches, name);
    EntriesOfBoth([(name, p)], BranchNodes(p.branches, name));
    assert [(name, p)][1..] == [] && EntriesOf([]) == [];
  }

  lemma {:induction false} BranchEnumerationIsOfNodes(branches: Branches, name: Name)
    ensures EnumerateBranches(branches, name) == EntriesOf(BranchNodes(branches, name))
  {
    match branches
    case NoMore =>
    case Branch(step, child, more) =>
      EnumerationIsOfNodes(child, name + step);
      BranchEnumerationIsOfNodes(more, name);
      EntriesOfBoth(Nodes(child, name + step), BranchNodes(more, name));
  }

  /** Entry `e` is the node's terminal under the node's name, field by field. */
  predicate Lists(n: (Name, Placed), e: Entry) {
    && n.1.terminal.Some?
    && e.name == n.0 && e.flags == n.1.terminal.value.flags
    && match n.1.terminal.value.target
       case Reexport(ordinal, importName) =>
         e.target == Reexport(ordinal, if importName == [] then n.0 else importName)
       case Address(offset, address, resolver) => e.target == Address(offset, address, resolver)
  }

  lemma {:induction false} EntriesAreListed(nodes: seq<(Name, Placed)>, e: Entry)
    ensures e in EntriesOf(nodes) <==> exists n :: n in nodes && Lists(n, e)
  {
    if nodes != [] {
      EntriesAreListed(nodes[1..], e);
      assert e in EntryOf(nodes[0]) <==> Lists(nodes[0], e);
      assert nodes == [nodes[0]] + nodes[1..];
    }
  }

  /** The enumeration has an entry for each terminal path, and no other. */
  lemma EnumeratedExactly(p: Placed, entries: seq<Entry>)
    requires multiset(entries) == multiset(Enumerate(p, []))
    ensures forall e :: e in entries <==> exists n :: n in Nodes(p, []) && Lists(n, e)
  {
    hide Enumerate, Nodes, EntriesOf, Lists;
    EnumerationIsOfNodes(p, []);
    forall e
      ensures e in entries <==> exists n :: n in Nodes(p, []) && Lists(n, e)
    {
      EntriesAreListed(Nodes(p, []), e);
      assert e in entries <==> e in multiset(entries);
      assert e in Enumerate(p, []) <==> e in multiset(Enumerate(p, []));
    }
  }

  /** The listed entries are, in some order, those of the nodes, when each exporting node is listed exactly once. */
  ghost predicate Matches(b: Blob, nodes: seq<(Name, Placed)>, entries: seq<Entry>, offsets: seq<nat>) {
    && |entries| == |offsets|
    && (forall i, j | 0 <= i < j < |nodes| :: nodes[i].1.offset != nodes[j].1.offset)
    && (forall i, j | 0 <= i < j < |offsets| :: offsets[i] != offsets[j])
    && (forall o :: o in offsets <==> exists n :: n in nodes && n.1.offset == o && n.1.terminal.Some?)
    && (forall i, n | 0 <= i < |offsets| && n in nodes && n.1.offset == offsets[i] && n.1.terminal.Some? ::
          entries[i] == EntryFor(n.0, n.1.terminal.value))
  }

  lemma {:induction false} MatchingEntries(b: Blob, nodes: seq<(Name, Placed)>, entries: seq<Entry>, offsets: seq<nat>)
    requires Matches(b, nodes, entries, offsets)
    ensures multiset(entries) == multiset(EntriesOf(nodes))
    decreases |nodes|
  {
    hide Matches, EntryFor, EntriesOf;
    FirstEntries(nodes);
    if nodes == [] {
      NothingMatches(b, entries, offsets);
    } else {
      var rest := nodes[1..];
      if nodes[0].1.terminal.Some? {
        var k := FirstIsListed(b, nodes, entries, offsets);
        WithoutFirst(b, nodes, entries, offsets, k);
        MatchingEntries(b, rest, entries[..k] + entries[k + 1..], offsets[..k] + offsets[k + 1..]);
        TakenOut(entries, k);
      } else {
        WithoutSilent(b, nodes, entries, offsets);
        MatchingEntries(b, rest, entries, offsets);
      }
    }
  }

  lemma FirstEntries(nodes: seq<(Name, Placed)>)
    ensures nodes == [] ==> EntriesOf(nodes) == []
    ensures nodes != [] ==>
              multiset(EntriesOf(nodes)) ==
                if nodes[0].1.terminal.Some? then
                  multiset([EntryFor(nodes[0].0, nodes[0].1.terminal.value)]) + multiset(EntriesOf(nodes[1..]))
                else multiset(EntriesOf(nodes[1..]))
  {
    hide EntryFor;
    if nodes != [] { assert [] + EntriesOf(nodes[1..]) == EntriesOf(nodes[1..]); }
  }

  lemma TakenOut(entries: seq<Entry>, k: nat)
    requires k < |entries|
    ensures multiset(entries) == multiset([entries[k]]) + multiset(entries[..k] + entries[k + 1..])
  {
    assert entries == entries[..k] + [entries[k]] + entries[k + 1..];
  }

  lemma NothingMatches(b: Blob, entries: seq<Entry>, offsets: seq<nat>)
    requires Matches(b, [], entries, offsets)
    ensures entries == []
  {
    forall o: nat
      ensures o !in offsets
    {
    }
    SomeElement(offsets);
  }

  lemma SomeElement(offsets: seq<nat>)
    ensures offsets != [] ==> exists o :: o in offsets
  {
    if offsets != [] { assert offsets[0] in offsets; }
  }

  lemma FirstIsListed(b: Blob, nodes: seq<(Name, Placed)>, entries: seq<Entry>, offsets: seq<nat>) returns (k: nat)
    requires Matches(b, nodes, entries, offsets) && nodes != [] && nodes[0].1.terminal.Some?
    ensures |entries| == |offsets| && k < |offsets| && offsets[k] == nodes[0].1.offset
    ensures entries[k] == EntryFor(nodes[0].0, nodes[0].1.terminal.value)
  {
    var n := nodes[0];
    assert n in nodes;
    assert n.1.offset in offsets;
    k :| 0 <= k < |offsets| && offsets[k] == n.1.offset;
  }

  lemma WithoutSilent(b: Blob, nodes: seq<(Name, Placed)>, entries: seq<Entry>, offsets: seq<nat>)
    requires Matches(b, nodes, entries, offsets) && nodes != [] && nodes[0].1.terminal.None?
    ensures Matches(b, nodes[1..], entries, offsets)
  {
    var rest := nodes[1..];
    assert forall n :: n in nodes <==> n == nodes[0] || n in rest;
  }

  lemma WithoutFirst(b: Blob, nodes: seq<(Name, Placed)>, entries: seq<Entry>, offsets: seq<nat>, k: nat)
    requires Matches(b, nodes, entries, offsets) && nodes != [] && nodes[0].1.terminal.Some?
    requires k < |offsets| && offsets[k] == nodes[0].1.offset
    ensures Matches(b, nodes[1..], entries[..k] + entries[k + 1..], offsets[..k] + offsets[k + 1..])
  {
    var (rest, places) := (nodes[1..], offsets[..k] + offsets[k + 1..]);
    assert forall n :: n in nodes <==> n == nodes[0] || n in rest;
    forall n | n in rest
      ensures n.1.offset != nodes[0].1.offset
    {
      var j :| 0 <= j < |rest| && rest[j] == n;
      assert nodes[j + 1] == n;
    }
    forall o
      ensures o in places <==> o in offsets && o != offsets[k]
    {
      if o in offsets && o != offsets[k] {
        var j :| 0 <= j < |offsets| && offsets[j] == o;
        assert places[if j < k then j else j - 1] == o;
      }
    }
  }

  lemma ListingMatches(b: Blob, root: Placed, listing: seq<Entry>, offsets: seq<nat>)
    requires IsLayout(b, root) && IsListing(b, listing, offsets)
    ensures Matches(b, Nodes(root, []), listing, offsets)
  {
    hide NodeAt, NodeBytes, EncodableNode, Sits, Nodes, Laid, Walk;
    var nodes := Nodes(root, []);
    assert Walk(b, []) == Some(([], 0)) by { EmptyWalk(b); }
    NodesAreLaid(b, root, []);
    NodesAreSpelled(b, root, []);
    forall n | n in nodes
      ensures Reachable(b, n.1.offset) && NodeAt(b, n.1.offset) == Success(NodeOf(n.1))
    {
      SpelledIsReachable(b, n.0, n.1.offset);
      LaidReadsBack(b, n.1);
    }
    forall o | o in offsets
      ensures exists n :: n in nodes && n.1.offset == o && n.1.terminal.Some?
    {
      var path :| Walk(b, path).Some? && Walk(b, path).value.1 == o;
      var n := WalkFollowsTrie(b, root, path);
    }
    forall i, n | 0 <= i < |offsets| && n in nodes && n.1.offset == offsets[i] && n.1.terminal.Some?
      ensures listing[i] == EntryFor(n.0, n.1.terminal.value)
    {
      assert IsExportOf(b, listing[i], offsets[i]);
      var path :| Walk(b, path) == Some((listing[i].name, offsets[i]));
      var m := WalkFollowsTrie(b, root, path);
      SameNode(nodes, m, n);
    }
  }

  lemma EmptyWalk(b: Blob)
    ensures Walk(b, []) == Some(([], 0)) && Spells(b, [], 0)
  {
    assert Walk(b, []) == Some(([], 0));
  }

  lemma LaidReadsBack(b: Blob, p: Placed)
    requires Laid(b, p)
    ensures NodeAt(b, p.offset) == Success(NodeOf(p))
  {
    NodeReadsBack(b, p.offset, NodeOf(p));
  }

  lemma SameNode(nodes: seq<(Name, Placed)>, m: (Name, Placed), n: (Name, Placed))
    requires forall i, j | 0 <= i < j < |nodes| :: nodes[i].1.offset != nodes[j].1.offset
    requires m in nodes && n in nodes && m.1.offset == n.1.offset
    ensures m == n
  {
    var i :| 0 <= i < |nodes| && nodes[i] == m;
    var j :| 0 <= j < |nodes| && nodes[j] == n;
  }

  /** A laid-out trie decodes, and to exactly its recursive enumeration, sorted by name and then by flags. */
  method DecodeLayout(b: Blob, root: Placed) returns (r: Result<seq<Entry>, Malformed>)
    requires IsLayout(b, root)
    ensures r.Success? && multiset(r.value) == multiset(Enumerate(root, [])) && InOrder(r.value)
    ensures forall e :: e in r.value <==> exists n :: n in Nodes(root, []) && Lists(n, e)
  {
    hide NodeAt, NodeBytes, EncodableNode, Sits, Nodes, Laid, Walk, Matches, IsListing, Enumerate, Lists, EntrySays, Spells;
    ghost var listing, offsets, decoded;
    LayoutDecodes(b, root);
    r, listing, offsets, decoded := DecodeExportsTrie(b);
    ListingMatches(b, root, listing, offsets);
    MatchingEntries(b, Nodes(root, []), listing, offsets);
    EnumerationIsOfNodes(root, []);
    EnumeratedExactly(root, r.value);
  }

  lemma LayoutDecodes(b: Blob, root: Placed)
    requires IsLayout(b, root)
    ensures b.bytes != [] && EveryReachableNodeDecodes(b)
  {
    hide NodeAt, NodeBytes, EncodableNode, Nodes, Walk;
    NodeIsNotEmpty(b, root);
    forall o | Reachable(b, o)
      ensures NodeAt(b, o).Success?
    {
      var path :| Walk(b, path).Some? && Walk(b, path).value.1 == o;
      var n := WalkFollowsTrie(b, root, path);
    }
  }

  lemma NodeIsNotEmpty(b: Blob, p: Placed)
    requires EncodableNode(b, NodeOf(p))
    ensures NodeBytes(NodeOf(p)) != []
  {
  }
}
