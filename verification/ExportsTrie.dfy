/** LC_DYLD_EXPORTS_TRIE: a graph search over an untrusted blob that may share nodes or loop. */
module ExportsTrie {
  import opened Layout
  import opened Wrappers
  import opened Uleb128
  import opened CStrings

  type Name = seq<Byte>  // the UTF-8 bytes of a string

  /** The blob, the image's base address, and the lossy UTF-8 conversion applied to each string in the blob. */
  datatype Blob = Blob(bytes: seq<Byte>, base: U64, lossy: Name -> Name)

  datatype Target =
    | Reexport(ordinal: U64, importName: Name)
    | Address(offset: U64, address: U64, resolver: Option<U64>)

  datatype Terminal = Terminal(flags: U64, target: Target)

  datatype Edge = Edge(suffix: Name, child: nat)

  datatype Node = Node(terminal: Option<Terminal>, edges: seq<Edge>)

  datatype Entry = Entry(name: Name, flags: U64, target: Target)

  const KIND_ABSOLUTE := 0x02
  const REEXPORT := 0x08
  const STUB_AND_RESOLVER := 0x10

  predicate HasFlag(flags: U64, bit: nat)
    requires bit > 0
  {
    flags / bit % 2 == 1
  }

  // ---- one node ------------------------------------------------------------------------------------------

  /** A NUL-terminated string at `c`, and the position after its NUL. */
  function CString(b: Blob, c: nat): (r: Result<(Name, nat), Malformed>)
    ensures r.Success? ==> c < r.value.1 <= |b.bytes|
  {
    match FirstZero(b.bytes, c)
    case Some(end) => Success((b.lossy(b.bytes[c..end]), end + 1))
    case None => Failure(Unterminated)
  }

  /** The terminal payload that starts at `c`, and where reading it stopped. */
  function TerminalAt(b: Blob, c: nat): Result<(Terminal, nat), Malformed> {
    match Read(b.bytes, c)
    case Failure(e) => Failure(e)
    case Success((flags, c1)) =>
      match Read(b.bytes, c1)
      case Failure(e) => Failure(e)
      case Success((value, c2)) =>
        if HasFlag(flags, REEXPORT) then
          match CString(b, c2)
          case Failure(e) => Failure(e)
          case Success((name, c3)) => Success((Terminal(flags, Reexport(value, name)), c3))
        else if flags % 4 != KIND_ABSOLUTE && b.base + value >= TWO_64 then Failure(Overflow)
        else
          var address: U64 := if flags % 4 == KIND_ABSOLUTE then value else b.base + value;
          if HasFlag(flags, STUB_AND_RESOLVER) then
            match Read(b.bytes, c2)
            case Failure(e) => Failure(e)
            case Success((resolver, c3)) => Success((Terminal(flags, Address(value, address, Some(resolver))), c3))
          else Success((Terminal(flags, Address(value, address, None)), c2))
  }

  /** The next `count` edges, from `c` on. */
  function EdgesAt(b: Blob, c: nat, count: nat): Result<seq<Edge>, Malformed>
    decreases count
  {
    if count == 0 then Success([])
    else
      match CString(b, c)
      case Failure(e) => Failure(e)
      case Success((suffix, c1)) =>
        match Read(b.bytes, c1)
        case Failure(e) => Failure(e)
        case Success((child, c2)) =>
          if child >= |b.bytes| then Failure(OutOfRange)
          else Then([Edge(suffix, child)], EdgesAt(b, c2, count - 1))
  }

  /** What the blob says about the node at `offset`. */
  function NodeAt(b: Blob, offset: nat): Result<Node, Malformed> {
    match Read(b.bytes, offset)
    case Failure(e) => Failure(e)
    case Success((size, c)) =>
      var end := c + size;
      if end > |b.bytes| then Failure(OutOfRange)
      else
        var terminal :=
          if size == 0 then Success(None)
          else
            match TerminalAt(b, c)
            case Failure(e) => Failure(e)
            case Success((terminal, stop)) => if stop > end then Failure(OutOfRange) else Success(Some(terminal));
        match terminal
        case Failure(e) => Failure(e)
        case Success(t) =>
          if end == |b.bytes| then Failure(Truncated)
          else
            match EdgesAt(b, end + 1, b.bytes[end])
            case Failure(e) => Failure(e)
            case Success(edges) => Success(Node(t, edges))
  }

  function EntryFor(name: Name, terminal: Terminal): Entry {
    match terminal.target
    case Reexport(ordinal, importName) =>
      Entry(name, terminal.flags, Reexport(ordinal, if importName == [] then name else importName))
    case Address(_, _, _) => Entry(name, terminal.flags, terminal.target)
  }

  // ---- the graph -----------------------------------------------------------------------------------------

  /** Following edge number `p[i]` at the i-th node from the root: the name spelled and the node reached. */
  function Walk(b: Blob, p: seq<nat>): Option<(Name, nat)> {
    if p == [] then Some(([], 0))
    else
      match Walk(b, p[..|p| - 1])
      case None => None
      case Some((name, offset)) =>
        var (node, i) := (NodeAt(b, offset), p[|p| - 1]);
        if node.Success? && i < |node.value.edges| then
          Some((name + node.value.edges[i].suffix, node.value.edges[i].child))
        else None
  }

  ghost predicate Spells(b: Blob, name: Name, offset: nat) {
    exists p :: Walk(b, p) == Some((name, offset))
  }

  ghost predicate Reachable(b: Blob, offset: nat) {
    exists p :: Walk(b, p).Some? && Walk(b, p).value.1 == offset
  }

  predicate Exports(b: Blob, offset: nat) {
    NodeAt(b, offset).Success? && NodeAt(b, offset).value.terminal.Some?
  }

  /** Entry `e` is what the terminal node at `offset` exports under a name spelled by a path to it. */
  ghost predicate IsExportOf(b: Blob, e: Entry, offset: nat) {
    && Exports(b, offset)
    && Spells(b, e.name, offset)
    && e == EntryFor(e.name, NodeAt(b, offset).value.terminal.value)
  }

  // ---- what an entry says ----------------------------------------------------------------------------------

  /** The node at `offset` announces a terminal payload. */
  predicate HasTerminal(b: Blob, offset: nat) {
    Read(b.bytes, offset).Success? && Read(b.bytes, offset).value.0 != 0
  }

  /** The optional second number at `c`: there exactly when the flags say so, and then no further than `end`. */
  predicate ResolverSays(b: Blob, c: nat, end: nat, flags: U64, resolver: Option<U64>) {
    if flags / 16 % 2 == 1 then
      && Read(b.bytes, c).Success?
      && var (number, stop) := Read(b.bytes, c).value;
      && resolver == Some(number) && stop <= end
    else resolver == None && c <= end
  }

  /** The entry, field by field, from the numbers and strings that the blob holds for the node at `offset`. */
  predicate EntrySays(b: Blob, offset: nat, e: Entry) {
    && HasTerminal(b, offset)
    && var (size, c) := Read(b.bytes, offset).value;
    && Read(b.bytes, c).Success?
    && var (flags, c1) := Read(b.bytes, c).value;
    && Read(b.bytes, c1).Success?
    && var (number, c2) := Read(b.bytes, c1).value;
    && e.flags == flags
    && match e.target
       case Reexport(ordinal, importName) =>
         && flags / 8 % 2 == 1 && ordinal == number
         && FirstZero(b.bytes, c2).Some?
         && var zero := FirstZero(b.bytes, c2).value;
         && importName == (if b.lossy(b.bytes[c2..zero]) == [] then e.name else b.lossy(b.bytes[c2..zero]))
         && zero < c + size
       case Address(relative, address, resolver) =>
         && flags / 8 % 2 == 0 && relative == number
         && address == (if flags % 4 == 2 then number else b.base + number)
         && ResolverSays(b, c2, c + size, flags, resolver)
  }

  lemma ExportSays(b: Blob, e: Entry, offset: nat)
    requires IsExportOf(b, e, offset)
    ensures EntrySays(b, offset, e)
  {
    hide Read, Spells;
  }

  lemma ExportsExactly(b: Blob, offset: nat)
    requires NodeAt(b, offset).Success?
    ensures Exports(b, offset) <==> HasTerminal(b, offset)
  {
    hide Read, TerminalAt, EdgesAt;
  }

  /** The listing says what the blob holds, for each reachable node that announces a terminal and for no other. */
  lemma ListingSays(b: Blob, listing: seq<Entry>, offsets: seq<nat>)
    requires IsListing(b, listing, offsets) && EveryReachableNodeDecodes(b)
    ensures forall o :: o in offsets <==> Reachable(b, o) && HasTerminal(b, o)
    ensures forall i | 0 <= i < |listing| :: Spells(b, listing[i].name, offsets[i]) && EntrySays(b, offsets[i], listing[i])
  {
    hide HasTerminal, Exports, EntrySays, NodeAt, Spells, Reachable;
    forall o | Reachable(b, o)
      ensures Exports(b, o) <==> HasTerminal(b, o)
    {
      ExportsExactly(b, o);
    }
    forall i | 0 <= i < |listing|
      ensures Spells(b, listing[i].name, offsets[i]) && EntrySays(b, offsets[i], listing[i])
    {
      ExportSays(b, listing[i], offsets[i]);
    }
  }

  // ---- the graph searched ----------------------------------------------------------------------------------

  lemma ChildSpelled(b: Blob, name: Name, offset: nat, i: nat)
    requires Spells(b, name, offset) && NodeAt(b, offset).Success? && i < |NodeAt(b, offset).value.edges|
    ensures var edge := NodeAt(b, offset).value.edges[i]; Spells(b, name + edge.suffix, edge.child)
  {
    var p :| Walk(b, p) == Some((name, offset));
    assert (p + [i])[..|p|] == p;
    var edge := NodeAt(b, offset).value.edges[i];
    assert Walk(b, p + [i]) == Some((name + edge.suffix, edge.child));
  }

  lemma RootSpelled(b: Blob)
    ensures Spells(b, [], 0)
  {
    assert Walk(b, []) == Some(([], 0));
  }

  lemma SpelledIsReachable(b: Blob, name: Name, offset: nat)
    requires Spells(b, name, offset)
    ensures Reachable(b, offset)
  {
  }

  ghost predicate ClosedUnderEdges(b: Blob, nodes: set<nat>) {
    forall o, i | o in nodes && NodeAt(b, o).Success? && 0 <= i < |NodeAt(b, o).value.edges| ::
      NodeAt(b, o).value.edges[i].child in nodes
  }

  lemma {:induction false} WalkStaysInside(b: Blob, nodes: set<nat>, p: seq<nat>)
    requires 0 in nodes && ClosedUnderEdges(b, nodes) && Walk(b, p).Some?
    ensures Walk(b, p).value.1 in nodes
  {
    if p != [] {
      WalkStaysInside(b, nodes, p[..|p| - 1]);
    }
  }

  // ---- reading one node ----------------------------------------------------------------------------------

  method ReadCString(b: Blob, start: nat) returns (r: Result<Name, Malformed>, cursor: nat)
    ensures match CString(b, start)
            case Success((name, next)) => r == Success(name) && cursor == next
            case Failure(e) => r == Failure(e)
  {
    cursor := start;
    while cursor < |b.bytes| && b.bytes[cursor] != 0
      invariant start <= cursor && FirstZero(b.bytes, cursor) == FirstZero(b.bytes, start)
    {
      cursor := cursor + 1;
    }
    if cursor >= |b.bytes| {
      return Failure(Unterminated), cursor;
    }
    r, cursor := Success(b.lossy(b.bytes[start..cursor])), cursor + 1;
  }

  method ReadTerminal(b: Blob, start: nat) returns (r: Result<Terminal, Malformed>, cursor: nat)
    ensures match TerminalAt(b, start)
            case Success((terminal, next)) => r == Success(terminal) && cursor == next
            case Failure(e) => r == Failure(e)
  {
    var flags;
    flags, cursor := ReadUleb128(b.bytes, start);
    if flags.Failure? {
      return Failure(flags.error), cursor;
    }
    var value;
    value, cursor := ReadUleb128(b.bytes, cursor);
    if value.Failure? {
      return Failure(value.error), cursor;
    }
    if HasFlag(flags.value, REEXPORT) {
      var name;
      name, cursor := ReadCString(b, cursor);
      if name.Failure? {
        return Failure(name.error), cursor;
      }
      return Success(Terminal(flags.value, Reexport(value.value, name.value))), cursor;
    }
    var address := value.value;
    if flags.value % 4 != KIND_ABSOLUTE {
      if b.base + value.value >= TWO_64 {
        return Failure(Overflow), cursor;
      }
      address := b.base + value.value;
    }
    var other := None;
    if HasFlag(flags.value, STUB_AND_RESOLVER) {
      var resolver;
      resolver, cursor := ReadUleb128(b.bytes, cursor);
      if resolver.Failure? {
        return Failure(resolver.error), cursor;
      }
      other := Some(resolver.value);
    }
    r := Success(Terminal(flags.value, Address(value.value, address, other)));
  }

  method ReadEdges(b: Blob, start: nat, count: nat) returns (r: Result<seq<Edge>, Malformed>)
    ensures r == EdgesAt(b, start, count)
  {
    hide Read, CString;
    var edges := [];
    var cursor := start;
    var index := 0;
    ThenMore([], [], EdgesAt(b, start, count));
    while index < count
      invariant index <= count
      invariant EdgesAt(b, start, count) == Then(edges, EdgesAt(b, cursor, count - index))
    {
      var suffix, child;
      var next;
      suffix, next := ReadCString(b, cursor);
      if suffix.Failure? {
        return Failure(suffix.error);
      }
      child, next := ReadUleb128(b.bytes, next);
      if child.Failure? {
        return Failure(child.error);
      }
      if child.value >= |b.bytes| {
        return Failure(OutOfRange);
      }
      ThenMore(edges, [Edge(suffix.value, child.value)], EdgesAt(b, next, count - index - 1));
      edges := edges + [Edge(suffix.value, child.value)];
      cursor := next;
      index := index + 1;
    }
    assert edges + [] == edges;
    r := Success(edges);
  }

  method ReadNode(b: Blob, offset: nat) returns (r: Result<Node, Malformed>)
    ensures r == NodeAt(b, offset)
  {
    hide Read, TerminalAt, EdgesAt;
    var size, cursor := ReadUleb128(b.bytes, offset);
    if size.Failure? {
      return Failure(size.error);
    }
    var end := cursor + size.value;
    if end > |b.bytes| {
      return Failure(OutOfRange);
    }
    var terminal := None;
    if size.value != 0 {
      var found, stop := ReadTerminal(b, cursor);
      if found.Failure? {
        return Failure(found.error);
      }
      if stop > end {
        return Failure(OutOfRange);
      }
      terminal := Some(found.value);
    }
    if end == |b.bytes| {
      return Failure(Truncated);
    }
    var edges := ReadEdges(b, end + 1, b.bytes[end]);
    if edges.Failure? {
      return Failure(edges.error);
    }
    r := Success(Node(terminal, edges.value));
  }

  // ---- order ---------------------------------------------------------------------------------------------

  /** Byte-wise order of names, as strings compare. */
  predicate NameLeq(a: Name, b: Name) {
    a == [] || (b != [] && (a[0] < b[0] || (a[0] == b[0] && NameLeq(a[1..], b[1..]))))
  }

  /** A prefix comes first; otherwise the first byte that differs decides. */
  lemma {:induction false} NameLeqMeans(a: Name, b: Name)
    ensures NameLeq(a, b) <==> a <= b || exists i: nat :: i < |a| && i < |b| && a[..i] == b[..i] && a[i] < b[i]
  {
    if a != [] && b != [] {
      var (a', b') := (a[1..], b[1..]);
      assert a == [a[0]] + a' && b == [b[0]] + b';
      NameLeqMeans(a', b');
      forall i: nat | 0 < i < |a| && i < |b| && a[..i] == b[..i]
        ensures a[0] == b[0]
      {
        assert a[..i][0] == b[..i][0];
      }
      if a[0] == b[0] {
        forall i: nat | i < |a'| && i < |b'|
          ensures a'[..i] == b'[..i] <==> a[..i + 1] == b[..i + 1]
        {
          assert a[..i + 1] == [a[0]] + a'[..i] && b[..i + 1] == [b[0]] + b'[..i];
        }
        if exists i: nat :: i < |a'| && i < |b'| && a'[..i] == b'[..i] && a'[i] < b'[i] {
          var i: nat :| i < |a'| && i < |b'| && a'[..i] == b'[..i] && a'[i] < b'[i];
          assert a[..i + 1] == b[..i + 1] && a[i + 1] < b[i + 1];
        }
        if exists i: nat :: i < |a| && i < |b| && a[..i] == b[..i] && a[i] < b[i] {
          var i: nat :| i < |a| && i < |b| && a[..i] == b[..i] && a[i] < b[i];
          assert a'[..i - 1] == b'[..i - 1] && a'[i - 1] < b'[i - 1];
        }
      } else if a[0] < b[0] {
        assert a[..0] == b[..0];
      }
    }
  }

  predicate Leq(a: Entry, b: Entry) {
    NameLeq(a.name, b.name) && (a.name == b.name ==> a.flags <= b.flags)
  }

  lemma {:induction false} NameOrder(a: Name, b: Name, c: Name)
    ensures NameLeq(a, b) || NameLeq(b, a)
    ensures NameLeq(a, b) && NameLeq(b, a) ==> a == b
    ensures NameLeq(a, b) && NameLeq(b, c) ==> NameLeq(a, c)
  {
    if a != [] && b != [] && c != [] {
      NameOrder(a[1..], b[1..], c[1..]);
    } else if a != [] && b != [] {
      NameOrder(a[1..], b[1..], []);
    }
    if a != [] && b != [] && a[0] == b[0] && a[1..] == b[1..] {
      assert a == [a[0]] + a[1..] && b == [b[0]] + b[1..];
    }
  }

  lemma LeqOrder(a: Entry, b: Entry, c: Entry)
    ensures Leq(a, b) || Leq(b, a)
    ensures Leq(a, b) && Leq(b, c) ==> Leq(a, c)
  {
    NameOrder(a.name, b.name, c.name);
    NameOrder(b.name, a.name, c.name);
    NameOrder(b.name, c.name, a.name);
    NameOrder(c.name, a.name, b.name);
  }

  predicate InOrder(es: seq<Entry>) {
    forall i, j | 0 <= i < j < |es| :: Leq(es[i], es[j])
  }

  function Insert(e: Entry, es: seq<Entry>): seq<Entry> {
    if es == [] || Leq(e, es[0]) then [e] + es else [es[0]] + Insert(e, es[1..])
  }

  /** A stable sort by name and then by flags. */
  function Sort(es: seq<Entry>): seq<Entry> {
    if es == [] then [] else Insert(es[0], Sort(es[1..]))
  }

  lemma {:induction false} InsertKeepsOrder(e: Entry, es: seq<Entry>)
    requires InOrder(es)
    ensures InOrder(Insert(e, es)) && multiset(Insert(e, es)) == multiset(es) + multiset{e}
  {
    if es == [] {
    } else if Leq(e, es[0]) {
      forall j | 0 <= j < |es|
        ensures Leq(e, es[j])
      {
        LeqOrder(e, es[0], es[j]);
      }
    } else {
      LeqOrder(e, es[0], e);
      InsertKeepsOrder(e, es[1..]);
      assert es == [es[0]] + es[1..];
      var rest := Insert(e, es[1..]);
      forall j | 0 <= j < |rest|
        ensures Leq(es[0], rest[j])
      {
        assert rest[j] in multiset(rest);
        assert rest[j] == e || rest[j] in es[1..];
      }
    }
  }

  lemma {:induction false} SortSorts(es: seq<Entry>)
    ensures InOrder(Sort(es)) && multiset(Sort(es)) == multiset(es)
  {
    hide Insert, Leq;
    if es != [] {
      SortSorts(es[1..]);
      InsertKeepsOrder(es[0], Sort(es[1..]));
      assert es == [es[0]] + es[1..];
    }
  }

  // ---- the search ----------------------------------------------------------------------------------------

  ghost predicate EveryReachableNodeDecodes(b: Blob) {
    forall o | Reachable(b, o) :: NodeAt(b, o).Success?
  }

  /** One entry for each reachable terminal node; `offsets[i]` is the node that entry `i` is for. */
  ghost predicate IsListing(b: Blob, entries: seq<Entry>, offsets: seq<nat>) {
    && |entries| == |offsets|
    && (forall i, j | 0 <= i < j < |offsets| :: offsets[i] != offsets[j])
    && (forall o :: o in offsets <==> Reachable(b, o) && Exports(b, o))
    && (forall i | 0 <= i < |entries| :: IsExportOf(b, entries[i], offsets[i]))
  }

  type Item = (Name, nat)

  function Children(name: Name, edges: seq<Edge>): seq<Item> {
    if edges == [] then [] else Children(name, edges[1..]) + [(name + edges[0].suffix, edges[0].child)]
  }

  lemma {:induction false} ChildrenAreEdges(name: Name, edges: seq<Edge>)
    ensures forall i | 0 <= i < |edges| :: (name + edges[i].suffix, edges[i].child) in Children(name, edges)
    ensures forall item | item in Children(name, edges) ::
              exists i :: 0 <= i < |edges| && item == (name + edges[i].suffix, edges[i].child)
  {
    if edges != [] {
      ChildrenAreEdges(name, edges[1..]);
      forall item | item in Children(name, edges)
        ensures exists i :: 0 <= i < |edges| && item == (name + edges[i].suffix, edges[i].child)
      {
        if item in Children(name, edges[1..]) {
          var i :| 0 <= i < |edges[1..]| && item == (name + edges[1..][i].suffix, edges[1..][i].child);
          assert item == (name + edges[i + 1].suffix, edges[i + 1].child);
        }
      }
      forall i | 0 <= i < |edges|
        ensures (name + edges[i].suffix, edges[i].child) in Children(name, edges)
      {
        if i > 0 { assert edges[1..][i - 1] == edges[i]; }
      }
    }
  }

  /** Last edge first, so that the first edge ends up on top of the stack. */
  method PushChildren(stack: seq<Item>, name: Name, edges: seq<Edge>) returns (pushed: seq<Item>)
    ensures pushed == stack + Children(name, edges)
  {
    pushed := stack;
    var i := |edges|;
    assert edges[i..] == [];
    while i > 0
      invariant 0 <= i <= |edges| && pushed == stack + Children(name, edges[i..])
    {
      i := i - 1;
      assert edges[i..][1..] == edges[i + 1..];
      pushed := pushed + [(name + edges[i].suffix, edges[i].child)];
    }
    assert edges[0..] == edges;
  }

  predicate Pending(stack: seq<Item>, offset: nat) {
    exists item | item in stack :: item.1 == offset
  }

  /** Everything on the stack is a spelled path; whatever was visited decodes and leads on to visited or stacked nodes. */
  ghost predicate Frontier(b: Blob, stack: seq<Item>, seen: set<nat>) {
    && (forall item | item in stack :: item.1 < |b.bytes| && Spells(b, item.0, item.1))
    && (forall o | o in seen :: o < |b.bytes| && Reachable(b, o) && NodeAt(b, o).Success?)
    && (0 in seen || Pending(stack, 0))
    && (forall o, i | o in seen && 0 <= i < |NodeAt(b, o).value.edges| ::
          var child := NodeAt(b, o).value.edges[i].child; child in seen || Pending(stack, child))
  }

  ghost predicate ListsSeen(b: Blob, entries: seq<Entry>, offsets: seq<nat>, seen: set<nat>) {
    && |entries| == |offsets|
    && (forall i, j | 0 <= i < j < |offsets| :: offsets[i] != offsets[j])
    && (forall o :: o in offsets <==> o in seen && Exports(b, o))
    && (forall i | 0 <= i < |entries| :: IsExportOf(b, entries[i], offsets[i]))
  }

  lemma SkipKeepsFrontier(b: Blob, stack: seq<Item>, seen: set<nat>)
    requires stack != [] && Frontier(b, stack, seen) && stack[|stack| - 1].1 in seen
    ensures Frontier(b, stack[..|stack| - 1], seen)
  {
    hide NodeAt, Spells, Reachable;
    var rest := stack[..|stack| - 1];
    assert stack == rest + [stack[|stack| - 1]];
    forall o | Pending(stack, o) && o !in seen
      ensures Pending(rest, o)
    {
      var item :| item in stack && item.1 == o;
      assert item in rest;
    }
  }

  lemma {:induction false} EdgesInRange(b: Blob, c: nat, count: nat)
    requires EdgesAt(b, c, count).Success?
    ensures forall e | e in EdgesAt(b, c, count).value :: e.child < |b.bytes|
    decreases count
  {
    if count > 0 {
      var c1 := CString(b, c).value.1;
      EdgesInRange(b, Read(b.bytes, c1).value.1, count - 1);
    }
  }

  lemma NodeEdgesInRange(b: Blob, offset: nat)
    requires NodeAt(b, offset).Success?
    ensures forall i | 0 <= i < |NodeAt(b, offset).value.edges| :: NodeAt(b, offset).value.edges[i].child < |b.bytes|
  {
    hide Read, TerminalAt, EdgesAt;
    var (size, c) := Read(b.bytes, offset).value;
    EdgesInRange(b, c + size + 1, b.bytes[c + size]);
    assert NodeAt(b, offset).value.edges == EdgesAt(b, c + size + 1, b.bytes[c + size]).value;
  }

  /** What is on the stack once `offset` has been taken off it and its children put on. */
  function Expanded(b: Blob, stack: seq<Item>): seq<Item>
    requires stack != [] && NodeAt(b, stack[|stack| - 1].1).Success?
  {
    var (name, offset) := stack[|stack| - 1];
    stack[..|stack| - 1] + Children(name, NodeAt(b, offset).value.edges)
  }

  lemma ExpandedSpelled(b: Blob, stack: seq<Item>)
    requires stack != [] && NodeAt(b, stack[|stack| - 1].1).Success?
    requires forall item | item in stack :: item.1 < |b.bytes| && Spells(b, item.0, item.1)
    ensures forall item | item in Expanded(b, stack) :: item.1 < |b.bytes| && Spells(b, item.0, item.1)
  {
    hide NodeAt, Children;
    var (name, offset) := stack[|stack| - 1];
    var edges := NodeAt(b, offset).value.edges;
    ChildrenAreEdges(name, edges);
    NodeEdgesInRange(b, offset);
    assert stack[|stack| - 1] in stack;
    forall item | item in Expanded(b, stack)
      ensures item.1 < |b.bytes| && Spells(b, item.0, item.1)
    {
      if item in Children(name, edges) {
        var i :| 0 <= i < |edges| && item == (name + edges[i].suffix, edges[i].child);
        ChildSpelled(b, name, offset, i);
      } else {
        assert item in stack;
      }
    }
  }

  lemma ExpandedPending(b: Blob, stack: seq<Item>, o: nat)
    requires stack != [] && NodeAt(b, stack[|stack| - 1].1).Success?
    requires Pending(stack, o) && o != stack[|stack| - 1].1
    ensures Pending(Expanded(b, stack), o)
  {
    hide NodeAt, Children;
    var item :| item in stack && item.1 == o;
    assert stack == stack[..|stack| - 1] + [stack[|stack| - 1]];
    assert item in stack[..|stack| - 1];
    assert item in Expanded(b, stack);
  }

  lemma ChildrenPending(b: Blob, stack: seq<Item>)
    requires stack != [] && NodeAt(b, stack[|stack| - 1].1).Success?
    ensures var edges := NodeAt(b, stack[|stack| - 1].1).value.edges;
            forall i | 0 <= i < |edges| :: Pending(Expanded(b, stack), edges[i].child)
  {
    hide NodeAt, Children;
    var (name, offset) := stack[|stack| - 1];
    var edges := NodeAt(b, offset).value.edges;
    ChildrenAreEdges(name, edges);
    forall i | 0 <= i < |edges|
      ensures Pending(Expanded(b, stack), edges[i].child)
    {
      assert (name + edges[i].suffix, edges[i].child) in Children(name, edges);
      assert (name + edges[i].suffix, edges[i].child) in Expanded(b, stack);
    }
  }

  lemma VisitKeepsFrontier(b: Blob, stack: seq<Item>, seen: set<nat>)
    requires stack != [] && Frontier(b, stack, seen)
    requires var (_, offset) := stack[|stack| - 1]; offset !in seen && NodeAt(b, offset).Success?
    ensures var (name, offset) := stack[|stack| - 1];
            Frontier(b, stack[..|stack| - 1] + Children(name, NodeAt(b, offset).value.edges), seen + {offset})
  {
    hide NodeAt, Children, Pending, Spells, Reachable, Expanded;
    var (name, offset) := stack[|stack| - 1];
    var stack' := Expanded(b, stack);
    assert stack[|stack| - 1] in stack;
    ExpandedSpelled(b, stack);
    ChildrenPending(b, stack);
    SpelledIsReachable(b, name, offset);
    forall o | Pending(stack, o) && o != offset
      ensures Pending(stack', o)
    {
      ExpandedPending(b, stack, o);
    }
    assert Frontier(b, stack', seen + {offset});
    ExpandedIs(b, stack);
  }

  lemma ExpandedIs(b: Blob, stack: seq<Item>)
    requires stack != [] && NodeAt(b, stack[|stack| - 1].1).Success?
    ensures var (name, offset) := stack[|stack| - 1];
            Expanded(b, stack) == stack[..|stack| - 1] + Children(name, NodeAt(b, offset).value.edges)
  {
  }

  lemma VisitListsSeen(b: Blob, entries: seq<Entry>, offsets: seq<nat>, seen: set<nat>, name: Name, offset: nat)
    requires ListsSeen(b, entries, offsets, seen) && offset !in seen && Spells(b, name, offset)
    ensures var node := NodeAt(b, offset);
            if Exports(b, offset) then
              ListsSeen(b, entries + [EntryFor(name, node.value.terminal.value)], offsets + [offset], seen + {offset})
            else ListsSeen(b, entries, offsets, seen + {offset})
  {
    hide NodeAt, Spells;
  }

  /** With nothing left to visit, what was visited is exactly what is reachable. */
  lemma SearchIsComplete(b: Blob, seen: set<nat>, o: nat)
    requires Frontier(b, [], seen)
    ensures o in seen <==> Reachable(b, o)
  {
    hide NodeAt;
    assert ClosedUnderEdges(b, seen);
    if Reachable(b, o) {
      var p :| Walk(b, p).Some? && Walk(b, p).value.1 == o;
      WalkStaysInside(b, seen, p);
    }
  }

  function Below(n: nat): (r: set<nat>)
    ensures forall o: nat :: o in r <==> o < n
    ensures |r| == n
  {
    if n == 0 then {} else Below(n - 1) + {n - 1}
  }

  function Elements(offsets: seq<nat>): set<nat> {
    set o | o in offsets
  }

  lemma {:induction false} DistinctCount(offsets: seq<nat>)
    requires forall i, j | 0 <= i < j < |offsets| :: offsets[i] != offsets[j]
    ensures |Elements(offsets)| == |offsets|
  {
    if offsets == [] {
      assert Elements(offsets) == {};
    } else {
      var n := |offsets| - 1;
      DistinctCount(offsets[..n]);
      assert Elements(offsets) == Elements(offsets[..n]) + {offsets[n]};
    }
  }

  lemma SubsetCount(a: set<nat>, b: set<nat>)
    requires a <= b
    ensures |a| <= |b|
  {
    assert b == a + (b - a);
  }

  /** The offsets decoded so far: each once, all reachable, and no more of them than there are bytes. */
  ghost predicate DecodedOnce(b: Blob, decoded: seq<nat>) {
    && (forall i, j | 0 <= i < j < |decoded| :: decoded[i] != decoded[j])
    && (forall o | o in decoded :: o < |b.bytes| && Reachable(b, o))
  }

  lemma DecodedOneMore(b: Blob, decoded: seq<nat>, seen: set<nat>, offset: nat)
    requires DecodedOnce(b, decoded) && (forall o :: o in decoded <==> o in seen)
    requires offset < |b.bytes| && Reachable(b, offset) && offset !in seen
    ensures DecodedOnce(b, decoded + [offset])
    ensures forall o :: o in decoded + [offset] <==> o in seen + {offset}
  {
    hide Reachable;
    assert forall i | 0 <= i < |decoded| :: decoded[i] in decoded;
  }

  lemma DecodedWithinBytes(b: Blob, decoded: seq<nat>)
    requires DecodedOnce(b, decoded)
    ensures |decoded| <= |b.bytes|
  {
    hide Reachable;
    DistinctCount(decoded);
    SubsetCount(Elements(decoded), Below(|b.bytes|));
  }

  /**
   Decoding ends on every blob, cyclic or not, since each turn either visits a new offset or shortens the stack.
   It succeeds exactly when every node reachable from the root decodes, and then yields exactly one entry per
   reachable terminal node, named by the edge labels of some path to it, sorted by name and then by flags.  Each entry
   says what the blob holds for its node, number by number.
   Whether it succeeds or fails, `decoded`, the offsets it decoded in turn, has no offset twice.
   */
  method DecodeExportsTrie(b: Blob)
    returns (r: Result<seq<Entry>, Malformed>, ghost listing: seq<Entry>, ghost offsets: seq<nat>, ghost decoded: seq<nat>)
    ensures r.Success? <==> b.bytes == [] || EveryReachableNodeDecodes(b)
    ensures b.bytes == [] ==> r == Success([])
    ensures r.Success? && b.bytes != [] ==>
              && IsListing(b, listing, offsets)
              && multiset(r.value) == multiset(listing)
              && InOrder(r.value)
              && (forall o :: o in decoded <==> Reachable(b, o))
              && (forall o :: o in offsets <==> Reachable(b, o) && HasTerminal(b, o))
              && (forall i | 0 <= i < |listing| ::
                    Spells(b, listing[i].name, offsets[i]) && EntrySays(b, offsets[i], listing[i]))
    ensures r.Failure? ==> decoded != [] && NodeAt(b, decoded[|decoded| - 1]) == Failure(r.error)
    ensures DecodedOnce(b, decoded) && |decoded| <= |b.bytes|
  {
    hide HasTerminal, EntrySays, IsExportOf, NameLeq, Walk, Sort;
    listing, offsets, decoded := [], [], [];
    if b.bytes == [] {
      return Success([]), [], [], [];
    }
    var entries := [];
    var stack: seq<Item> := [([], 0)];
    var seen: set<nat> := {};
    RootSpelled(b);
    assert Pending(stack, 0) by { assert ([], 0) in stack; }
    ghost var all := Below(|b.bytes|);
    while stack != []
      invariant Frontier(b, stack, seen)
      invariant ListsSeen(b, entries, offsets, seen)
      invariant DecodedOnce(b, decoded) && forall o :: o in decoded <==> o in seen
      decreases all - seen, |stack|
    {
      var (name, offset) := stack[|stack| - 1];
      assert stack[|stack| - 1] in stack;
      SpelledIsReachable(b, name, offset);
      if offset in seen {
        SkipKeepsFrontier(b, stack, seen);
        stack := stack[..|stack| - 1];
      } else {
        DecodedOneMore(b, decoded, seen, offset);
        decoded := decoded + [offset];
        DecodedWithinBytes(b, decoded);
        var node := ReadNode(b, offset);
        if node.Failure? {
          return Failure(node.error), [], [], decoded;
        }
        VisitKeepsFrontier(b, stack, seen);
        VisitListsSeen(b, entries, offsets, seen, name, offset);
        stack := PushChildren(stack[..|stack| - 1], name, node.value.edges);
        seen := seen + {offset};
        if node.value.terminal.Some? {
          entries := entries + [EntryFor(name, node.value.terminal.value)];
          offsets := offsets + [offset];
        }
        assert offset in all;
      }
    }
    forall o: nat
      ensures o in seen <==> Reachable(b, o)
    {
      SearchIsComplete(b, seen, o);
    }
    listing := entries;
    ListingSays(b, listing, offsets);
    DecodedWithinBytes(b, decoded);
    SortSorts(entries);
    r := Success(Sort(entries));
  }

  // ---- consequences --------------------------------------------------------------------------------------

  /** However the nodes are shared, there are no more entries than bytes. */
  lemma NoMoreEntriesThanBytes(b: Blob, listing: seq<Entry>, offsets: seq<nat>)
    requires IsListing(b, listing, offsets)
    ensures |listing| <= |b.bytes|
  {
    forall o | o in offsets
      ensures o < |b.bytes|
    {
      assert Exports(b, o);
    }
    DistinctCount(offsets);
    SubsetCount(Elements(offsets), Below(|b.bytes|));
  }

  /** No node can be reached along two different paths. */
  ghost predicate TreeShaped(b: Blob) {
    forall p, q | Walk(b, p).Some? && Walk(b, q).Some? && Walk(b, p).value.1 == Walk(b, q).value.1 :: p == q
  }

  /** On a tree the entries are the terminal paths, one for one: each path gives its entry, at one place only. */
  lemma TreeListsItsPaths(b: Blob, listing: seq<Entry>, offsets: seq<nat>, p: seq<nat>) returns (i: nat)
    requires IsListing(b, listing, offsets) && TreeShaped(b)
    requires Walk(b, p).Some? && Exports(b, Walk(b, p).value.1)
    ensures var (name, offset) := Walk(b, p).value;
            && i < |listing| && offsets[i] == offset
            && listing[i] == EntryFor(name, NodeAt(b, offset).value.terminal.value)
            && forall j | 0 <= j < |listing| && offsets[j] == offset :: j == i
  {
    hide NodeAt;
    var (name, offset) := Walk(b, p).value;
    assert Reachable(b, offset);
    assert offset in offsets;
    i :| 0 <= i < |offsets| && offsets[i] == offset;
    assert IsExportOf(b, listing[i], offset);
    var q :| Walk(b, q) == Some((listing[i].name, offset));
    assert q == p;
  }
}
