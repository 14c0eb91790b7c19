/**
  Log metadata is an arbitrary object graph: objects are numbered, and a value is a
  primitive or a reference to one.  The two sanitisers turn such a graph into a
  finite tree.
 */
module LogGraph {
  import opened Wrappers
  import opened Shared

  datatype Value =
    | Undefined
    | Null
    | Text(s: string)
    | Number(n: real)
    | Boolean(b: bool)
    | BigInt(i: int)
    | Function
    | Symbol(description: string)
    | Ref(id: nat)

  datatype Kind = Plain | Array | Error

  /** The own enumerable entries of an object, or the items of an array under their indices. */
  datatype Entry = Entry(key: string, value: Value)
  datatype Node = Node(kind: Kind, entries: seq<Entry>)

  type Graph = seq<Node>

  function NodeOf(g: Graph, id: nat): Node {
    if id < |g| then g[id] else Node(Plain, [])
  }

  datatype Mark = Circular | TooDeep

  /** An output tree; `Branch` names the object it was expanded from. */
  datatype Out =
    | Leaf(value: Value)
    | BigIntText(i: int)
    | FunctionText
    | SymbolText(description: string)
    | Placeholder(mark: Mark)
    | Branch(id: nat, kind: Kind, base: nat, fields: seq<Field>)
  datatype Field = Field(key: string, out: Out)

  /** The objects met so far. */
  class WeakSet {
    var ids: set<nat>

    constructor ()
      ensures ids == {}
    {
      ids := {};
    }
  }

  // ---- measures of a tree

  /** All nodes; `base` counts the name, message and stack written for an error. */
  function Nodes(out: Out): nat {
    match out
    case Branch(_, _, base, fields) => 1 + base + NodesAll(fields)
    case _ => 1
  }

  function NodesAll(fields: seq<Field>): nat {
    if fields == [] then 0 else Nodes(fields[0].out) + NodesAll(fields[1..])
  }

  function Height(out: Out): nat {
    match out
    case Branch(_, _, base, fields) => 1 + Max(if base > 0 then 1 else 0, HeightAll(fields))
    case _ => 1
  }

  function HeightAll(fields: seq<Field>): nat {
    if fields == [] then 0 else Max(Height(fields[0].out), HeightAll(fields[1..]))
  }

  function Max(a: nat, b: nat): nat { if a < b then b else a }

  /** How often object `x` is expanded. */
  function Expansions(out: Out, x: nat): nat {
    match out
    case Branch(id, _, _, fields) => One(id == x) + ExpansionsAll(fields, x)
    case _ => 0
  }

  function ExpansionsAll(fields: seq<Field>, x: nat): nat {
    if fields == [] then 0 else Expansions(fields[0].out, x) + ExpansionsAll(fields[1..], x)
  }

  /**
    What a sanitiser shows: functions and symbols as text or as they are, and of an
    error's own entries none, or those with other keys than the given ones.
   */
  datatype Style = Style(texts: bool, errorKeys: Option<set<string>>)

  /**
    The tree says what the graph holds: primitives as they are or as text, objects
    with their kind, keys and values in order, except where a placeholder stands for
    an object.
   */
  ghost predicate Matches(g: Graph, value: Value, out: Out, style: Style)
    decreases out
  {
    match value
    case BigInt(i) => out == BigIntText(i)
    case Function => out == if style.texts then FunctionText else Leaf(value)
    case Symbol(d) => out == if style.texts then SymbolText(d) else Leaf(value)
    case Ref(id) =>
      out.Placeholder? ||
      (&& out.Branch? && out.id == id && out.kind == NodeOf(g, id).kind
       && out.base == (if out.kind == Error then 3 else 0)
       && if out.kind != Error then MatchesAll(g, NodeOf(g, id).entries, out.fields, {}, style)
          else if style.errorKeys.None? then out.fields == []
          else MatchesAll(g, NodeOf(g, id).entries, out.fields, style.errorKeys.value, style))
    case _ => out == Leaf(value)
  }

  /** The fields are those of the entries, in order, without the entries under the skipped keys. */
  ghost predicate MatchesAll(g: Graph, entries: seq<Entry>, fields: seq<Field>, skipped: set<string>, style: Style)
    decreases fields, |entries|
  {
    if entries == [] then fields == []
    else if entries[0].key in skipped then MatchesAll(g, entries[1..], fields, skipped, style)
    else
      && fields != [] && entries[0].key == fields[0].key
      && Matches(g, entries[0].value, fields[0].out, style)
      && MatchesAll(g, entries[1..], fields[1..], skipped, style)
  }

  lemma {:induction false} PrefixMatches(g: Graph, entries: seq<Entry>, fields: seq<Field>, n: nat, style: Style)
    requires MatchesAll(g, entries, fields, {}, style)
    ensures |fields| == |entries|
    ensures n <= |fields| ==> MatchesAll(g, entries[..n], fields[..n], {}, style)
    decreases |entries|
  {
    if entries != [] {
      PrefixMatches(g, entries[1..], fields[1..], if n == 0 then 0 else n - 1, style);
      if 0 < n <= |fields| {
        assert entries[..n][1..] == entries[1..][..n - 1] && fields[..n][1..] == fields[1..][..n - 1];
      }
    }
  }

  // ---- the size of the graph

  /** The entries of the objects of `ids`, all together. */
  function EdgesOf(g: Graph, ids: set<nat>, n: nat): nat
    requires n <= |g|
  {
    if n == 0 then 0 else (if n - 1 in ids then |g[n - 1].entries| else 0) + EdgesOf(g, ids, n - 1)
  }

  function Edges(g: Graph): nat {
    if g == [] then 0 else |g[|g| - 1].entries| + Edges(g[..|g| - 1])
  }

  lemma {:induction false} EdgesOfNew(g: Graph, ids: set<nat>, id: nat, n: nat)
    requires n <= |g| && id !in ids
    ensures EdgesOf(g, ids + {id}, n) == EdgesOf(g, ids, n) + if id < n then |g[id].entries| else 0
  {
    if n > 0 {
      EdgesOfNew(g, ids, id, n - 1);
    }
  }

  lemma {:induction false} EdgesOfSome(g: Graph, ids: set<nat>, n: nat)
    requires n <= |g|
    ensures EdgesOf(g, ids, n) <= Edges(g[..n])
  {
    if n > 0 {
      EdgesOfSome(g, ids, n - 1);
      assert g[..n][..n - 1] == g[..n - 1];
    }
  }
}

/** `sanitizeValue` and `normalizeLogMetadata`. */
module LogNormalizer {
  import opened Wrappers
  import opened LogGraph
  import opened Shared

  const DEPTH_LIMIT := 8

  /** The keys for which `k in object` holds of every plain object. */
  const INHERITED_KEYS := {
    "constructor", "hasOwnProperty", "isPrototypeOf", "propertyIsEnumerable", "toLocaleString", "toString", "valueOf",
    "__proto__", "__defineGetter__", "__defineSetter__", "__lookupGetter__", "__lookupSetter__" }

  /** The keys for which `k in errorObj` already holds. */
  const TAKEN_KEYS := {"name", "message", "stack"} + INHERITED_KEYS

  function FreeEntries(entries: seq<Entry>): (free: seq<Entry>)
    ensures |free| <= |entries|
  {
    if entries == [] then []
    else (if entries[0].key in TAKEN_KEYS then [] else [entries[0]]) + FreeEntries(entries[1..])
  }

  function EntriesToWalk(node: Node): (entries: seq<Entry>)
    ensures |entries| <= |node.entries|
  {
    if node.kind == Error then FreeEntries(node.entries) else node.entries
  }

  function BaseFields(kind: Kind): nat { if kind == Error then 3 else 0 }

  function Room(depth: nat): nat { if depth <= DEPTH_LIMIT then DEPTH_LIMIT + 2 - depth else 1 }

  /** The tree of a value and the objects seen after it. */
  function Sanitize(g: Graph, value: Value, seen: set<nat>, depth: nat): (Out, set<nat>)
    decreases Room(depth), 0
  {
    match value
    case BigInt(i) => (BigIntText(i), seen)
    case Ref(id) =>
      if id in seen then (Placeholder(Circular), seen)
      else if depth > DEPTH_LIMIT then (Placeholder(TooDeep), seen + {id})
      else
        var node := NodeOf(g, id);
        var (fields, after) := SanitizeAll(g, EntriesToWalk(node), seen + {id}, depth + 1);
        (Branch(id, node.kind, BaseFields(node.kind), fields), after)
    case _ => (Leaf(value), seen)
  }

  function SanitizeAll(g: Graph, entries: seq<Entry>, seen: set<nat>, depth: nat): (seq<Field>, set<nat>)
    decreases Room(depth), 1 + |entries|
  {
    if entries == [] then ([], seen)
    else
      var (out, mid) := Sanitize(g, entries[0].value, seen, depth);
      var (rest, after) := SanitizeAll(g, entries[1..], mid, depth);
      ([Field(entries[0].key, out)] + rest, after)
  }

  // ---- the methods of the source: a shared set that grows, results filled in loops

  method SanitizeValue(g: Graph, value: Value, seen: WeakSet, depth: nat) returns (out: Out)
    modifies seen
    ensures (out, seen.ids) == Sanitize(g, value, old(seen.ids), depth)
    decreases Room(depth), 0
  {
    if value.BigInt? {
      return BigIntText(value.i);
    }
    if !value.Ref? {
      return Leaf(value);
    }
    if value.id in seen.ids {
      return Placeholder(Circular);
    }
    seen.ids := seen.ids + {value.id};
    if depth > DEPTH_LIMIT {
      return Placeholder(TooDeep);
    }
    var node := NodeOf(g, value.id);
    var fields := SanitizeEntries(g, EntriesToWalk(node), seen, depth + 1);
    return Branch(value.id, node.kind, BaseFields(node.kind), fields);
  }

  method SanitizeEntries(g: Graph, entries: seq<Entry>, seen: WeakSet, depth: nat) returns (fields: seq<Field>)
    modifies seen
    ensures (fields, seen.ids) == SanitizeAll(g, entries, old(seen.ids), depth)
    decreases Room(depth), 1
  {
    fields := [];
    assert entries[0..] == entries;
    ghost var walk := SanitizeAll(g, entries, seen.ids, depth);
    assert [] + walk.0 == walk.0;
    for k := 0 to |entries|
      invariant var (rest, after) := SanitizeAll(g, entries[k..], seen.ids, depth);
                (fields + rest, after) == walk
    {
      ghost var before := seen.ids;
      var out := SanitizeValue(g, entries[k].value, seen, depth);
      assert entries[k..][1..] == entries[k + 1..];
      ghost var rest := SanitizeAll(g, entries[k + 1..], seen.ids, depth).0;
      assert fields + ([Field(entries[k].key, out)] + rest) == (fields + [Field(entries[k].key, out)]) + rest;
      fields := fields + [Field(entries[k].key, out)];
    }
    assert fields + [] == fields;
  }

  /** The record handed to the logger. */
  datatype Metadata = Empty | Single(out: Out) | Items(fields: seq<Field>) | Whole(out: Out)

  function Normalize(g: Graph, value: Value): Metadata {
    match value
    case Undefined => Empty
    case Null => Empty
    case Ref(id) =>
      if NodeOf(g, id).kind == Array then Items(SanitizeAll(g, NodeOf(g, id).entries, {}, 1).0)
      else Whole(Sanitize(g, value, {}, 0).0)
    case _ => Single(Sanitize(g, value, {}, 0).0)
  }

  method NormalizeLogMetadata(g: Graph, value: Value) returns (metadata: Metadata)
    ensures metadata == Normalize(g, value)
  {
    if value.Undefined? || value.Null? {
      return Empty;
    }
    var seen := new WeakSet();
    if value.Ref? && NodeOf(g, value.id).kind == Array {
      var fields := SanitizeEntries(g, NodeOf(g, value.id).entries, seen, 1);
      return Items(fields);
    }
    var out := SanitizeValue(g, value, seen, 0);
    return if value.Ref? then Whole(out) else Single(out);
  }

  // ---- what the walk keeps

  const STYLE := Style(false, Some({"name", "message", "stack"} + INHERITED_KEYS))

  /** The tree is true to the graph, and its placeholders stand for objects seen or too deep. */
  lemma {:induction false} TreeMatches(g: Graph, value: Value, seen: set<nat>, depth: nat)
    ensures var (out, after) := Sanitize(g, value, seen, depth);
            && Matches(g, value, out, STYLE)
            && (out == Placeholder(Circular) <==> value.Ref? && value.id in seen)
            && (out == Placeholder(TooDeep) <==> value.Ref? && value.id !in seen && depth > 8)
    decreases Room(depth), 0
  {
    hide EntriesToWalk, MatchesAll, INHERITED_KEYS;
    if value.Ref? && value.id !in seen && depth <= DEPTH_LIMIT {
      var node := NodeOf(g, value.id);
      AllTreesMatch(g, EntriesToWalk(node), seen + {value.id}, depth + 1);
      WalkShows(g, node, SanitizeAll(g, EntriesToWalk(node), seen + {value.id}, depth + 1).0);
    }
  }

  lemma WalkShows(g: Graph, node: Node, fields: seq<Field>)
    requires MatchesAll(g, EntriesToWalk(node), fields, {}, STYLE)
    ensures MatchesAll(g, node.entries, fields, if node.kind == Error then TAKEN_KEYS else {}, STYLE)
  {
    if node.kind == Error {
      FreeEntriesMatch(g, node.entries, fields);
    }
  }

  lemma {:induction false} AllTreesMatch(g: Graph, entries: seq<Entry>, seen: set<nat>, depth: nat)
    ensures MatchesAll(g, entries, SanitizeAll(g, entries, seen, depth).0, {}, STYLE)
    decreases Room(depth), 1 + |entries|
  {
    if entries != [] {
      var (out, mid) := Sanitize(g, entries[0].value, seen, depth);
      TreeMatches(g, entries[0].value, seen, depth);
      AllTreesMatch(g, entries[1..], mid, depth);
      var rest := SanitizeAll(g, entries[1..], mid, depth).0;
      assert ([Field(entries[0].key, out)] + rest)[1..] == rest;
    }
  }

  lemma {:induction false} FreeEntriesMatch(g: Graph, entries: seq<Entry>, fields: seq<Field>)
    requires MatchesAll(g, FreeEntries(entries), fields, {}, STYLE)
    ensures MatchesAll(g, entries, fields, TAKEN_KEYS, STYLE)
    decreases |entries|
  {
    if entries != [] {
      var rest := FreeEntries(entries[1..]);
      if entries[0].key in TAKEN_KEYS {
        assert FreeEntries(entries) == [] + rest == rest;
        FreeEntriesMatch(g, entries[1..], fields);
      } else {
        assert FreeEntries(entries) == [entries[0]] + rest && ([entries[0]] + rest)[1..] == rest;
        FreeEntriesMatch(g, entries[1..], fields[1..]);
      }
    }
  }

  /** The record for every kind of metadata, true to it. */
  lemma NormalizedMatches(g: Graph, value: Value)
    ensures var m := Normalize(g, value);
            match value
            case Undefined => m == Empty
            case Null => m == Empty
            case Ref(id) =>
              if NodeOf(g, id).kind == Array then m.Items? && MatchesAll(g, NodeOf(g, id).entries, m.fields, {}, STYLE)
              else m.Whole? && m.out.Branch? && Matches(g, value, m.out, STYLE)
            case _ => m.Single? && Matches(g, value, m.out, STYLE)
  {
    TreeMatches(g, value, {}, 0);
    if value.Ref? {
      AllTreesMatch(g, NodeOf(g, value.id).entries, {}, 1);
    }
  }

  /** Objects are seen at most once, so expanded at most once. */
  lemma {:induction false} ExpandsOnce(g: Graph, value: Value, seen: set<nat>, depth: nat, x: nat)
    ensures var (out, after) := Sanitize(g, value, seen, depth);
            seen <= after && Expansions(out, x) + One(x in seen) <= One(x in after)
    decreases Room(depth), 0
  {
    hide EntriesToWalk;
    if value.Ref? && value.id !in seen && depth <= DEPTH_LIMIT {
      ExpandsAllOnce(g, EntriesToWalk(NodeOf(g, value.id)), seen + {value.id}, depth + 1, x);
    }
  }

  lemma {:induction false} ExpandsAllOnce(g: Graph, entries: seq<Entry>, seen: set<nat>, depth: nat, x: nat)
    ensures var (fields, after) := SanitizeAll(g, entries, seen, depth);
            seen <= after && ExpansionsAll(fields, x) + One(x in seen) <= One(x in after)
    decreases Room(depth), 1 + |entries|
  {
    if entries != [] {
      var (out, mid) := Sanitize(g, entries[0].value, seen, depth);
      ExpandsOnce(g, entries[0].value, seen, depth, x);
      ExpandsAllOnce(g, entries[1..], mid, depth, x);
      var rest := SanitizeAll(g, entries[1..], mid, depth).0;
      assert ([Field(entries[0].key, out)] + rest)[1..] == rest;
    }
  }

  /** A value costs at most four nodes, and every expansion pays for its values with the entries of the object it sees. */
  lemma {:induction false} NodesArePaid(g: Graph, value: Value, seen: set<nat>, depth: nat)
    ensures var (out, after) := Sanitize(g, value, seen, depth);
            Nodes(out) + 4 * EdgesOf(g, seen, |g|) <= 4 + 4 * EdgesOf(g, after, |g|)
    decreases Room(depth), 0
  {
    hide EntriesToWalk;
    if value.Ref? && value.id !in seen {
      EdgesOfNew(g, seen, value.id, |g|);
      if depth <= DEPTH_LIMIT {
        AllNodesArePaid(g, EntriesToWalk(NodeOf(g, value.id)), seen + {value.id}, depth + 1);
      }
    }
  }

  lemma {:induction false} AllNodesArePaid(g: Graph, entries: seq<Entry>, seen: set<nat>, depth: nat)
    ensures var (fields, after) := SanitizeAll(g, entries, seen, depth);
            NodesAll(fields) + 4 * EdgesOf(g, seen, |g|) <= 4 * |entries| + 4 * EdgesOf(g, after, |g|)
    decreases Room(depth), 1 + |entries|
  {
    if entries != [] {
      var (out, mid) := Sanitize(g, entries[0].value, seen, depth);
      NodesArePaid(g, entries[0].value, seen, depth);
      AllNodesArePaid(g, entries[1..], mid, depth);
      var rest := SanitizeAll(g, entries[1..], mid, depth).0;
      assert ([Field(entries[0].key, out)] + rest)[1..] == rest;
    }
  }

  lemma {:induction false} HeightIsBounded(g: Graph, value: Value, seen: set<nat>, depth: nat)
    ensures Height(Sanitize(g, value, seen, depth).0) <= Room(depth)
    decreases Room(depth), 0
  {
    hide EntriesToWalk;
    if value.Ref? && value.id !in seen && depth <= DEPTH_LIMIT {
      AllHeightsAreBounded(g, EntriesToWalk(NodeOf(g, value.id)), seen + {value.id}, depth + 1);
    }
  }

  lemma {:induction false} AllHeightsAreBounded(g: Graph, entries: seq<Entry>, seen: set<nat>, depth: nat)
    ensures HeightAll(SanitizeAll(g, entries, seen, depth).0) <= Room(depth)
    decreases Room(depth), 1 + |entries|
  {
    if entries != [] {
      var (out, mid) := Sanitize(g, entries[0].value, seen, depth);
      HeightIsBounded(g, entries[0].value, seen, depth);
      AllHeightsAreBounded(g, entries[1..], mid, depth);
      var rest := SanitizeAll(g, entries[1..], mid, depth).0;
      assert ([Field(entries[0].key, out)] + rest)[1..] == rest;
    }
  }

  // ---- main results on normalizeLogMetadata

  function MetadataNodes(m: Metadata): nat {
    match m
    case Empty => 1
    case Single(out) => 1 + Nodes(out)
    case Items(fields) => 2 + NodesAll(fields)
    case Whole(out) => Nodes(out)
  }

  function MetadataHeight(m: Metadata): nat {
    match m
    case Empty => 1
    case Single(out) => 1 + Height(out)
    case Items(fields) => 2 + HeightAll(fields)
    case Whole(out) => Height(out)
  }

  /** How often the metadata of `value` expands object `x`; the `items` array expands an array root. */
  function MetadataExpansions(m: Metadata, value: Value, x: nat): nat {
    match m
    case Empty => 0
    case Single(_) => 0
    case Items(fields) => One(value == Ref(x)) + ExpansionsAll(fields, x)
    case Whole(out) => Expansions(out, x)
  }

  /** On any graph, cyclic or shared: a tree of bounded height and of size linear in the edges. */
  lemma NormalizedIsSmall(g: Graph, value: Value)
    ensures MetadataHeight(Normalize(g, value)) <= 11
    ensures MetadataNodes(Normalize(g, value)) <= 5 + 8 * Edges(g)
  {
    hide Sanitize, SanitizeAll, Nodes, NodesAll, Height, HeightAll, Edges;
    WholeIsSmall(g, value);
    if value.Ref? {
      ItemsAreSmall(g, NodeOf(g, value.id).entries);
      NodeHasFewerEdges(g, value.id);
    } else {
      HeightIsBounded(g, value, {}, DEPTH_LIMIT + 1);
      PrimitiveIgnoresDepth(g, value, 0, DEPTH_LIMIT + 1);
    }
  }

  lemma PrimitiveIgnoresDepth(g: Graph, value: Value, d1: nat, d2: nat)
    requires !value.Ref?
    ensures Sanitize(g, value, {}, d1) == Sanitize(g, value, {}, d2)
  {}

  lemma WholeIsSmall(g: Graph, value: Value)
    ensures Height(Sanitize(g, value, {}, 0).0) <= Room(0)
    ensures Nodes(Sanitize(g, value, {}, 0).0) <= 4 + 4 * Edges(g)
  {
    hide Sanitize, Nodes, Height, Edges;
    assert g[..|g|] == g;
    HeightIsBounded(g, value, {}, 0);
    NodesArePaid(g, value, {}, 0);
    EdgesOfSome(g, Sanitize(g, value, {}, 0).1, |g|);
  }

  lemma ItemsAreSmall(g: Graph, entries: seq<Entry>)
    ensures HeightAll(SanitizeAll(g, entries, {}, 1).0) <= Room(1)
    ensures NodesAll(SanitizeAll(g, entries, {}, 1).0) <= 4 * |entries| + 4 * Edges(g)
  {
    hide SanitizeAll, NodesAll, HeightAll, Edges;
    assert g[..|g|] == g;
    AllHeightsAreBounded(g, entries, {}, 1);
    AllNodesArePaid(g, entries, {}, 1);
    EdgesOfSome(g, SanitizeAll(g, entries, {}, 1).1, |g|);
  }

  lemma {:induction false} NodeHasFewerEdges(g: Graph, id: nat)
    ensures |NodeOf(g, id).entries| <= Edges(g)
    decreases |g|
  {
    if id < |g| - 1 {
      NodeHasFewerEdges(g[..|g| - 1], id);
    }
  }

  /**
    Every object is expanded at most once, except that an array given as the
    metadata itself is not remembered and may be expanded a second time.
   */
  lemma NormalizedExpandsOnce(g: Graph, value: Value, x: nat)
    ensures var n := MetadataExpansions(Normalize(g, value), value, x);
            && n <= 2
            && (n == 2 ==> value == Ref(x) && NodeOf(g, x).kind == Array)
  {
    ExpandsOnce(g, value, {}, 0, x);
    if value.Ref? {
      ExpandsAllOnce(g, NodeOf(g, value.id).entries, {}, 1, x);
    }
  }

  // ---- exactly when an array given as the metadata is expanded twice

  ghost predicate RefsIn(entries: seq<Entry>, into: set<nat>) {
    forall e <- entries :: e.value.Ref? ==> e.value.id in into
  }

  /** What the walk reaches from `ids` in one step lies in `into`. */
  ghost predicate Walked(g: Graph, ids: set<nat>, into: set<nat>) {
    forall id <- ids :: RefsIn(EntriesToWalk(NodeOf(g, id)), into)
  }

  ghost predicate Closed(g: Graph, ids: set<nat>) {
    Walked(g, ids, ids)
  }

  /** Following the references of an array leads back to it. */
  ghost predicate OnCycle(g: Graph, id: nat) {
    forall closed: set<nat> :: Closed(g, closed) && RefsIn(NodeOf(g, id).entries, closed) ==> id in closed
  }

  lemma {:induction false} AllStayInside(g: Graph, entries: seq<Entry>, seen: set<nat>, depth: nat, closed: set<nat>, x: nat)
    requires Closed(g, closed) && RefsIn(entries, closed) && x !in closed
    ensures ExpansionsAll(SanitizeAll(g, entries, seen, depth).0, x) == 0
    ensures SanitizeAll(g, entries, seen, depth).1 <= seen + closed
    decreases Room(depth), 1 + |entries|
  {
    if entries != [] {
      assert entries[0] in entries;
      var (out, mid) := Sanitize(g, entries[0].value, seen, depth);
      StaysInside(g, entries[0].value, seen, depth, closed, x);
      AllStayInside(g, entries[1..], mid, depth, closed, x);
      var rest := SanitizeAll(g, entries[1..], mid, depth).0;
      assert ([Field(entries[0].key, out)] + rest)[1..] == rest;
    }
  }

  lemma {:induction false} StaysInside(g: Graph, value: Value, seen: set<nat>, depth: nat, closed: set<nat>, x: nat)
    requires Closed(g, closed) && (value.Ref? ==> value.id in closed) && x !in closed
    ensures Expansions(Sanitize(g, value, seen, depth).0, x) == 0
    ensures Sanitize(g, value, seen, depth).1 <= seen + closed
    decreases Room(depth), 0
  {
    hide EntriesToWalk;
    if value.Ref? && value.id !in seen && depth <= DEPTH_LIMIT {
      AllStayInside(g, EntriesToWalk(NodeOf(g, value.id)), seen + {value.id}, depth + 1, closed, x);
    }
  }

  /** An array on no cycle is expanded once. */
  lemma RootOffEveryCycleExpandsOnce(g: Graph, id: nat)
    requires NodeOf(g, id).kind == Array && !OnCycle(g, id)
    ensures MetadataExpansions(Normalize(g, Ref(id)), Ref(id), id) == 1
  {
    var closed: set<nat> :| Closed(g, closed) && RefsIn(NodeOf(g, id).entries, closed) && id !in closed;
    AllStayInside(g, NodeOf(g, id).entries, {}, 1, closed, id);
  }

  /** The depth limit cut nothing off. */
  predicate Uncut(out: Out) {
    match out
    case Placeholder(mark) => mark != TooDeep
    case Branch(_, _, _, fields) => UncutAll(fields)
    case _ => true
  }

  predicate UncutAll(fields: seq<Field>) {
    fields == [] || (Uncut(fields[0].out) && UncutAll(fields[1..]))
  }

  /** What an uncut walk has newly seen, it has expanded and followed up completely. */
  ghost predicate Followed(g: Graph, seen: set<nat>, after: set<nat>) {
    seen <= after && Walked(g, after - seen, after)
  }

  lemma {:induction false} WalkIsComplete(g: Graph, value: Value, seen: set<nat>, depth: nat, x: nat)
    requires Uncut(Sanitize(g, value, seen, depth).0)
    ensures var (out, after) := Sanitize(g, value, seen, depth);
            && Followed(g, seen, after)
            && (value.Ref? ==> value.id in after)
            && (x in after - seen ==> Expansions(out, x) >= 1)
    decreases Room(depth), 0
  {
    hide EntriesToWalk;
    if value.Ref? && value.id !in seen && depth <= DEPTH_LIMIT {
      AllWalksAreComplete(g, EntriesToWalk(NodeOf(g, value.id)), seen + {value.id}, depth + 1, x);
    }
  }

  lemma {:induction false} AllWalksAreComplete(g: Graph, entries: seq<Entry>, seen: set<nat>, depth: nat, x: nat)
    requires UncutAll(SanitizeAll(g, entries, seen, depth).0)
    ensures var (fields, after) := SanitizeAll(g, entries, seen, depth);
            && Followed(g, seen, after)
            && RefsIn(entries, after)
            && (x in after - seen ==> ExpansionsAll(fields, x) >= 1)
    decreases Room(depth), 1 + |entries|
  {
    if entries != [] {
      var (out, mid) := Sanitize(g, entries[0].value, seen, depth);
      var rest := SanitizeAll(g, entries[1..], mid, depth).0;
      assert ([Field(entries[0].key, out)] + rest)[1..] == rest;
      WalkIsComplete(g, entries[0].value, seen, depth, x);
      AllWalksAreComplete(g, entries[1..], mid, depth, x);
      assert forall e <- entries :: e == entries[0] || e in entries[1..];
    }
  }

  /** Where the depth limit cuts nothing off, an array is expanded twice exactly when it is on a cycle. */
  lemma UncutRootExpandsTwiceExactly(g: Graph, id: nat)
    requires NodeOf(g, id).kind == Array && UncutAll(SanitizeAll(g, NodeOf(g, id).entries, {}, 1).0)
    ensures MetadataExpansions(Normalize(g, Ref(id)), Ref(id), id) == 2 <==> OnCycle(g, id)
  {
    if OnCycle(g, id) {
      var entries := NodeOf(g, id).entries;
      AllWalksAreComplete(g, entries, {}, 1, id);
      var after := SanitizeAll(g, entries, {}, 1).1;
      assert after - {} == after;
      assert Closed(g, after) && RefsIn(entries, after);
      NormalizedExpandsOnce(g, Ref(id), id);
    } else {
      RootOffEveryCycleExpandsOnce(g, id);
    }
  }

  /** A walk among few objects never gets too deep: its depth is at most the number of objects it has seen. */
  lemma {:induction false} SmallWalkIsUncut(g: Graph, value: Value, seen: set<nat>, depth: nat, closed: set<nat>)
    requires Closed(g, closed) && (value.Ref? ==> value.id in closed) && |closed| <= DEPTH_LIMIT
    requires seen <= closed && depth <= |seen| + 1
    ensures var (out, after) := Sanitize(g, value, seen, depth);
            Uncut(out) && seen <= after <= closed
    decreases Room(depth), 0
  {
    hide EntriesToWalk;
    if value.Ref? && value.id !in seen {
      assert seen + {value.id} <= closed;
      SubsetSize(seen + {value.id}, closed);
      AllSmallWalksAreUncut(g, EntriesToWalk(NodeOf(g, value.id)), seen + {value.id}, depth + 1, closed);
    }
  }

  lemma {:induction false} AllSmallWalksAreUncut(g: Graph, entries: seq<Entry>, seen: set<nat>, depth: nat, closed: set<nat>)
    requires Closed(g, closed) && RefsIn(entries, closed) && |closed| <= DEPTH_LIMIT
    requires seen <= closed && depth <= |seen| + 1
    ensures var (fields, after) := SanitizeAll(g, entries, seen, depth);
            UncutAll(fields) && seen <= after <= closed
    decreases Room(depth), 1 + |entries|
  {
    if entries != [] {
      assert entries[0] in entries;
      var (out, mid) := Sanitize(g, entries[0].value, seen, depth);
      SmallWalkIsUncut(g, entries[0].value, seen, depth, closed);
      SubsetSize(seen, mid);
      AllSmallWalksAreUncut(g, entries[1..], mid, depth, closed);
      var rest := SanitizeAll(g, entries[1..], mid, depth).0;
      assert ([Field(entries[0].key, out)] + rest)[1..] == rest;
    }
  }

  lemma SubsetSize(a: set<nat>, b: set<nat>)
    requires a <= b
    ensures |a| <= |b|
  {
    assert b == a + (b - a);
  }

  /**
    Main result on repeated expansion: an array that leads to at most eight objects
    is expanded twice exactly when it is on a cycle.
   */
  lemma RootExpandsTwiceExactly(g: Graph, id: nat, reached: set<nat>)
    requires NodeOf(g, id).kind == Array
    requires Closed(g, reached) && RefsIn(NodeOf(g, id).entries, reached) && |reached| <= 8
    ensures MetadataExpansions(Normalize(g, Ref(id)), Ref(id), id) == 2 <==> OnCycle(g, id)
  {
    AllSmallWalksAreUncut(g, NodeOf(g, id).entries, {}, 1, reached);
    UncutRootExpandsTwiceExactly(g, id);
  }

  // ---- eight is sharp: rings of arrays

  function Successor(n: nat, i: nat): nat {
    if i + 1 == n then 0 else i + 1
  }

  function Ring(n: nat): Graph {
    seq(n, (i: nat) => Node(Array, [Entry("0", Ref(Successor(n, i)))]))
  }

  lemma RingNode(n: nat, i: nat)
    requires i < n
    ensures NodeOf(Ring(n), i) == Node(Array, [Entry("0", Ref(Successor(n, i)))])
    ensures EntriesToWalk(NodeOf(Ring(n), i)) == [Entry("0", Ref(Successor(n, i)))]
  {}

  function UpTo(n: nat): (ids: set<nat>)
    ensures |ids| == n && forall i: nat :: i in ids <==> i < n
  {
    if n == 0 then {} else UpTo(n - 1) + {n - 1}
  }

  lemma {:induction false} RingLeadsBack(n: nat, i: nat, closed: set<nat>)
    requires i < n && Closed(Ring(n), closed) && RefsIn(NodeOf(Ring(n), i).entries, closed)
    ensures 0 in closed
    decreases n - i
  {
    hide Ring, NodeOf, EntriesToWalk;
    RingNode(n, i);
    assert NodeOf(Ring(n), i).entries[0] in NodeOf(Ring(n), i).entries;
    assert Successor(n, i) in closed;
    if i + 1 < n {
      RingNode(n, i + 1);
      assert RefsIn(EntriesToWalk(NodeOf(Ring(n), i + 1)), closed);
      RingLeadsBack(n, i + 1, closed);
    }
  }

  /** The walk of a long ring is cut before it comes back. */
  lemma {:induction false} LongRingIsCut(n: nat, i: nat, seen: set<nat>)
    requires n > DEPTH_LIMIT && 1 <= i <= DEPTH_LIMIT + 1
    ensures ExpansionsAll(SanitizeAll(Ring(n), NodeOf(Ring(n), i - 1).entries, seen, i).0, 0) == 0
    decreases DEPTH_LIMIT + 1 - i
  {
    RingNode(n, i - 1);
    if i <= DEPTH_LIMIT && i !in seen {
      RingNode(n, i);
      LongRingIsCut(n, i + 1, seen + {i});
    }
  }

  lemma RingIsClosed(n: nat)
    requires n > 0
    ensures NodeOf(Ring(n), 0).kind == Array
    ensures Closed(Ring(n), UpTo(n)) && RefsIn(NodeOf(Ring(n), 0).entries, UpTo(n))
    ensures OnCycle(Ring(n), 0)
  {
    hide Ring, NodeOf, EntriesToWalk;
    forall i <- UpTo(n) ensures RefsIn(EntriesToWalk(NodeOf(Ring(n), i)), UpTo(n)) {
      RingNode(n, i);
    }
    RingNode(n, 0);
    forall closed | Closed(Ring(n), closed) && RefsIn(NodeOf(Ring(n), 0).entries, closed) ensures 0 in closed {
      RingLeadsBack(n, 0, closed);
    }
  }

  /** A ring of arrays is on a cycle whatever its length, and its root is expanded twice exactly up to eight. */
  lemma RingExpandsTwiceExactly(n: nat)
    requires n > 0
    ensures OnCycle(Ring(n), 0)
    ensures MetadataExpansions(Normalize(Ring(n), Ref(0)), Ref(0), 0) == 2 <==> n <= 8
  {
    RingIsClosed(n);
    hide Ring, NodeOf, Closed, RefsIn, OnCycle, SanitizeAll, ExpansionsAll;
    if n <= DEPTH_LIMIT {
      RootExpandsTwiceExactly(Ring(n), 0, UpTo(n));
    } else {
      LongRingIsCut(n, 1, {});
    }
  }

  /**
    The exception is real: an array that contains itself is expanded twice, if the
    items before that one do not lead back to it.
   */
  lemma SelfContainingRootExpandsTwice(g: Graph, id: nat, before: seq<Entry>, self: Entry, rest: seq<Entry>, closed: set<nat>)
    requires NodeOf(g, id) == Node(Array, before + [self] + rest) && self.value == Ref(id)
    requires Closed(g, closed) && RefsIn(before, closed) && id !in closed
    ensures MetadataExpansions(Normalize(g, Ref(id)), Ref(id), id) == 2
  {
    WalkReachesSelf(g, before, self, rest, {}, closed);
    NormalizedExpandsOnce(g, Ref(id), id);
  }

  lemma {:induction false} WalkReachesSelf(
      g: Graph, before: seq<Entry>, self: Entry, rest: seq<Entry>, seen: set<nat>, closed: set<nat>)
    requires self.value.Ref? && self.value.id !in seen && self.value.id !in closed
    requires Closed(g, closed) && RefsIn(before, closed)
    ensures ExpansionsAll(SanitizeAll(g, before + [self] + rest, seen, 1).0, self.value.id) >= 1
    decreases |before|
  {
    var id, all := self.value.id, before + [self] + rest;
    var (out, mid) := Sanitize(g, all[0].value, seen, 1);
    var tail := SanitizeAll(g, all[1..], mid, 1).0;
    assert ([Field(all[0].key, out)] + tail)[1..] == tail;
    if before == [] {
      assert all[0] == self && out.Branch? && out.id == id;
      assert Expansions(out, id) >= 1;
    } else {
      assert all[0] == before[0] && before[0] in before;
      assert all[1..] == before[1..] + [self] + rest;
      StaysInside(g, before[0].value, seen, 1, closed, id);
      WalkReachesSelf(g, before[1..], self, rest, mid, closed);
    }
  }

  /** Sharing is reported as a cycle: any later reference to an object, cyclic or not and however deep, is marked. */
  lemma SharedIsMarkedCircular(g: Graph, id: nat, seen: set<nat>, depth: nat, later: set<nat>, laterDepth: nat)
    requires Sanitize(g, Ref(id), seen, depth).1 <= later
    ensures Sanitize(g, Ref(id), later, laterDepth) == (Placeholder(Circular), later)
  {
    if id !in seen && depth <= DEPTH_LIMIT {
      ExpandsAllOnce(g, EntriesToWalk(NodeOf(g, id)), seen + {id}, depth + 1, id);
    } else {
      assert id in Sanitize(g, Ref(id), seen, depth).1;
    }
  }
}

/** `sanitizeMetadataValue` and `sanitizeLogMetadata`: depth counts down, errors are leaves. */
module LogMetadata {
  import opened Wrappers
  import opened LogGraph
  import opened Shared

  const MAX_DEPTH := 8
  const MAX_KEYS := 64

  function Sanitize(g: Graph, value: Value, depth: nat, seen: set<nat>): (Out, set<nat>)
    decreases depth, 0
  {
    match value
    case BigInt(i) => (BigIntText(i), seen)
    case Function => (FunctionText, seen)
    case Symbol(description) => (SymbolText(description), seen)
    case Ref(id) =>
      var node := NodeOf(g, id);
      if node.kind == Error then (Branch(id, Error, 3, []), seen)
      else if depth == 0 then (Placeholder(TooDeep), seen)
      else if id in seen then (Placeholder(Circular), seen)
      else
        var (fields, after) := SanitizeAll(g, node.entries, depth - 1, seen + {id});
        (Branch(id, node.kind, 0, fields), after)
    case _ => (Leaf(value), seen)
  }

  function SanitizeAll(g: Graph, entries: seq<Entry>, depth: nat, seen: set<nat>): (seq<Field>, set<nat>)
    decreases depth, 1 + |entries|
  {
    if entries == [] then ([], seen)
    else
      var (out, mid) := Sanitize(g, entries[0].value, depth, seen);
      var (rest, after) := SanitizeAll(g, entries[1..], depth, mid);
      ([Field(entries[0].key, out)] + rest, after)
  }

  /** The recursion of the source over a shared set. */
  method SanitizeMetadataValue(g: Graph, value: Value, depth: nat, seen: WeakSet) returns (out: Out)
    modifies seen
    ensures (out, seen.ids) == Sanitize(g, value, depth, old(seen.ids))
    decreases depth, 0
  {
    match value {
      case BigInt(i) => return BigIntText(i);
      case Function => return FunctionText;
      case Symbol(description) => return SymbolText(description);
      case Ref(id) =>
        var node := NodeOf(g, id);
        if node.kind == Error {
          return Branch(id, Error, 3, []);
        }
        if depth == 0 {
          return Placeholder(TooDeep);
        }
        if id in seen.ids {
          return Placeholder(Circular);
        }
        seen.ids := seen.ids + {id};
        var fields := SanitizeMetadataEntries(g, node.entries, depth - 1, seen);
        return Branch(id, node.kind, 0, fields);
      case _ => return Leaf(value);
    }
  }

  method SanitizeMetadataEntries(g: Graph, entries: seq<Entry>, depth: nat, seen: WeakSet) returns (fields: seq<Field>)
    modifies seen
    ensures (fields, seen.ids) == SanitizeAll(g, entries, depth, old(seen.ids))
    decreases depth, 1
  {
    fields := [];
    assert entries[0..] == entries;
    ghost var walk := SanitizeAll(g, entries, depth, seen.ids);
    assert [] + walk.0 == walk.0;
    for k := 0 to |entries|
      invariant var (rest, after) := SanitizeAll(g, entries[k..], depth, seen.ids);
                (fields + rest, after) == walk
    {
      var out := SanitizeMetadataValue(g, entries[k].value, depth, seen);
      assert entries[k..][1..] == entries[k + 1..];
      ghost var rest := SanitizeAll(g, entries[k + 1..], depth, seen.ids).0;
      assert fields + ([Field(entries[k].key, out)] + rest) == (fields + [Field(entries[k].key, out)]) + rest;
      fields := fields + [Field(entries[k].key, out)];
    }
    assert fields + [] == fields;
  }

  /** None is the empty record; at most 64 keys are kept, and the number dropped is added. */
  datatype Record = Empty | Fields(fields: seq<Field>) | ErrorFields | Bounded(fields: seq<Field>, dropped: nat)

  function SanitizeLogMetadata(g: Graph, value: Value): Record {
    if !value.Ref? || NodeOf(g, value.id).kind == Array then Empty
    else
      match Sanitize(g, value, MAX_DEPTH, {}).0
      case Branch(_, kind, _, fields) =>
        if kind == Error then ErrorFields
        else if |fields| <= MAX_KEYS then Fields(fields)
        else Bounded(fields[..MAX_KEYS], |fields| - MAX_KEYS)
      case _ => Empty
  }

  const STYLE := Style(true, None)

  /** The tree is true to the graph, with an error's own entries left out; where its placeholders stand. */
  lemma {:induction false} TreeMatches(g: Graph, value: Value, depth: nat, seen: set<nat>)
    ensures var out := Sanitize(g, value, depth, seen).0;
            var isObject := value.Ref? && NodeOf(g, value.id).kind != Error;
            && Matches(g, value, out, STYLE)
            && (out == Placeholder(TooDeep) <==> isObject && depth == 0)
            && (out == Placeholder(Circular) <==> isObject && depth > 0 && value.id in seen)
    decreases depth, 0
  {
    if value.Ref? && NodeOf(g, value.id).kind != Error && depth > 0 && value.id !in seen {
      AllTreesMatch(g, NodeOf(g, value.id).entries, depth - 1, seen + {value.id});
    }
  }

  lemma {:induction false} AllTreesMatch(g: Graph, entries: seq<Entry>, depth: nat, seen: set<nat>)
    ensures MatchesAll(g, entries, SanitizeAll(g, entries, depth, seen).0, {}, STYLE)
    decreases depth, 1 + |entries|
  {
    if entries != [] {
      var (out, mid) := Sanitize(g, entries[0].value, depth, seen);
      TreeMatches(g, entries[0].value, depth, seen);
      AllTreesMatch(g, entries[1..], depth, mid);
      var rest := SanitizeAll(g, entries[1..], depth, mid).0;
      assert ([Field(entries[0].key, out)] + rest)[1..] == rest;
    }
  }

  lemma {:induction false} ExpandsOnce(g: Graph, value: Value, depth: nat, seen: set<nat>, x: nat)
    requires NodeOf(g, x).kind != Error
    ensures var (out, after) := Sanitize(g, value, depth, seen);
            seen <= after && Expansions(out, x) + One(x in seen) <= One(x in after)
    decreases depth, 0
  {
    if value.Ref? && NodeOf(g, value.id).kind != Error && depth > 0 && value.id !in seen {
      ExpandsAllOnce(g, NodeOf(g, value.id).entries, depth - 1, seen + {value.id}, x);
    }
  }

  lemma {:induction false} ExpandsAllOnce(g: Graph, entries: seq<Entry>, depth: nat, seen: set<nat>, x: nat)
    requires NodeOf(g, x).kind != Error
    ensures var (fields, after) := SanitizeAll(g, entries, depth, seen);
            seen <= after && ExpansionsAll(fields, x) + One(x in seen) <= One(x in after)
    decreases depth, 1 + |entries|
  {
    if entries != [] {
      var (out, mid) := Sanitize(g, entries[0].value, depth, seen);
      ExpandsOnce(g, entries[0].value, depth, seen, x);
      ExpandsAllOnce(g, entries[1..], depth, mid, x);
      var rest := SanitizeAll(g, entries[1..], depth, mid).0;
      assert ([Field(entries[0].key, out)] + rest)[1..] == rest;
    }
  }

  /** An error costs four nodes each time it is met, so an entry costs at most four. */
  lemma {:induction false} NodesArePaid(g: Graph, value: Value, depth: nat, seen: set<nat>)
    ensures var (out, after) := Sanitize(g, value, depth, seen);
            && Nodes(out) + 4 * EdgesOf(g, seen, |g|) <= 4 + 4 * EdgesOf(g, after, |g|)
            && Height(out) <= depth + 2
    decreases depth, 0
  {
    if value.Ref? && NodeOf(g, value.id).kind != Error && depth > 0 && value.id !in seen {
      EdgesOfNew(g, seen, value.id, |g|);
      AllNodesArePaid(g, NodeOf(g, value.id).entries, depth - 1, seen + {value.id});
    }
  }

  lemma {:induction false} AllNodesArePaid(g: Graph, entries: seq<Entry>, depth: nat, seen: set<nat>)
    ensures var (fields, after) := SanitizeAll(g, entries, depth, seen);
            && NodesAll(fields) + 4 * EdgesOf(g, seen, |g|) <= 4 * |entries| + 4 * EdgesOf(g, after, |g|)
            && HeightAll(fields) <= depth + 2 && |fields| == |entries|
    decreases depth, 1 + |entries|
  {
    if entries != [] {
      var (out, mid) := Sanitize(g, entries[0].value, depth, seen);
      NodesArePaid(g, entries[0].value, depth, seen);
      AllNodesArePaid(g, entries[1..], depth, mid);
      var rest := SanitizeAll(g, entries[1..], depth, mid).0;
      assert ([Field(entries[0].key, out)] + rest)[1..] == rest;
    }
  }

  /** On any graph: each object other than an error at most once, bounded height, linear size. */
  lemma SanitizedIsSmall(g: Graph, value: Value, x: nat)
    ensures var out := Sanitize(g, value, 8, {}).0;
            && (NodeOf(g, x).kind != Error ==> Expansions(out, x) <= 1)
            && Height(out) <= 10
            && Nodes(out) <= 4 + 4 * Edges(g)
  {
    assert g[..|g|] == g;
    if NodeOf(g, x).kind != Error {
      ExpandsOnce(g, value, MAX_DEPTH, {}, x);
    }
    NodesArePaid(g, value, MAX_DEPTH, {});
    EdgesOfSome(g, Sanitize(g, value, MAX_DEPTH, {}).1, |g|);
  }

  /**
    The record shows the root's first 64 entries, in order, as the walk from depth 8
    shows them, and counts the rest; errors are reduced and anything else is empty.
   */
  lemma KeysAreBounded(g: Graph, value: Value)
    ensures match SanitizeLogMetadata(g, value)
            case Bounded(fields, dropped) =>
              && value.Ref? && NodeOf(g, value.id).kind == Plain
              && |fields| == 64 && dropped > 0 && 64 + dropped == |NodeOf(g, value.id).entries|
              && MatchesAll(g, NodeOf(g, value.id).entries[..64], fields, {}, STYLE)
              && fields == Sanitize(g, value, 8, {}).0.fields[..64]
            case Fields(fields) =>
              && value.Ref? && NodeOf(g, value.id).kind == Plain
              && |fields| == |NodeOf(g, value.id).entries| <= 64
              && MatchesAll(g, NodeOf(g, value.id).entries, fields, {}, STYLE)
              && fields == Sanitize(g, value, 8, {}).0.fields
            case ErrorFields => value.Ref? && NodeOf(g, value.id).kind == Error
            case Empty => value.Ref? ==> NodeOf(g, value.id).kind == Array
  {
    if value.Ref? && NodeOf(g, value.id).kind == Plain {
      var entries := NodeOf(g, value.id).entries;
      AllTreesMatch(g, entries, MAX_DEPTH - 1, {} + {value.id});
      PrefixMatches(g, entries, SanitizeAll(g, entries, MAX_DEPTH - 1, {} + {value.id}).0, MAX_KEYS, STYLE);
    }
  }
}
