/** Refusal of PDFs with attachments or executable actions (app/documents/validation.py). */
module PdfValidation {
  import opened Base
  import opened PdfGraph

  const DISALLOWED_KEYS: set<string> := {"/EmbeddedFiles", "/JavaScript", "/JS", "/AA"}
  const DISALLOWED_ACTIONS: set<string> :=
    {"/JavaScript", "/Launch", "/SubmitForm", "/GoToR", "/RichMedia", "/Sound", "/Movie"}

  /** What `str` makes of a reference, which is up to the PDF library. */
  type Spelling = ObjRef -> string

  /** What `str` makes of an entry read with `get`, which hands out references as they are. */
  function Spelled(spell: Spelling, v: Value): string {
    match v
    case Indirect(ref) => spell(ref)
    case Direct(LeafNode(_, text)) => text
    case _ => "<object>"
  }

  /** A reference is not spelled like an action that it does not denote. */
  ghost predicate Honest(g: Graph, spell: Spelling) {
    forall ref :: spell(ref) in DISALLOWED_ACTIONS ==> End(g.table, ref).LeafNode? && End(g.table, ref).text == spell(ref)
  }

  /** What the check of one dictionary refuses. */
  predicate Disallowed(spell: Spelling, entries: map<string, Value>) {
    || entries.Keys * DISALLOWED_KEYS != {}
    || ("/S" in entries && Spelled(spell, entries["/S"]) in DISALLOWED_ACTIONS)
  }

  /** What the walk may come to: every reference is resolved once. */
  ghost predicate Reachable(g: Graph, root: Value, d: Id) {
    d in g.dicts && Reach(g, {}, MarkOf(root), DictMark(d))
  }

  /** Some dictionary that the walk may come to is refused by the check. */
  ghost predicate HasDisallowed(g: Graph, spell: Spelling, root: Value) {
    exists d :: Reachable(g, root, d) && Disallowed(spell, g.dicts[d])
  }

  ghost function Denoted(g: Graph, v: Value): Node {
    match v
    case Indirect(ref) => End(g.table, ref)
    case Direct(node) => node
  }

  /** A forbidden key, or a forbidden action whether it is spelled in place or behind references. */
  ghost predicate Forbidden(g: Graph, entries: map<string, Value>) {
    || entries.Keys * DISALLOWED_KEYS != {}
    || ("/S" in entries && Denoted(g, entries["/S"]).LeafNode? && Denoted(g, entries["/S"]).text in DISALLOWED_ACTIONS)
  }

  /** What the check is for: nothing forbidden anywhere in the document as it is to be read. */
  ghost predicate HasForbidden(g: Graph, root: Value) {
    exists d :: Reachable(Unchained(g), root, d) && Forbidden(g, g.dicts[d])
  }

  /** No forbidden key, and a forbidden action behind a reference that is not spelled like it. */
  ghost predicate Overlooked(g: Graph, spell: Spelling, entries: map<string, Value>) {
    && entries.Keys * DISALLOWED_KEYS == {}
    && "/S" in entries && entries["/S"].Indirect? && spell(entries["/S"].ref) !in DISALLOWED_ACTIONS
    && Denoted(g, entries["/S"]).LeafNode? && Denoted(g, entries["/S"]).text in DISALLOWED_ACTIONS
  }

  ghost predicate HasOverlooked(g: Graph, spell: Spelling, root: Value) {
    exists d :: Reachable(g, root, d) && Overlooked(g, spell, g.dicts[d])
  }

  /** The walk meets a reference that resolves to a reference again, and that leads on to something forbidden. */
  ghost predicate HasForbiddenBeyond(g: Graph, root: Value) {
    exists next, d :: d in g.dicts && Beyond(g, {}, MarkOf(root), next, DictMark(d)) && Forbidden(g, g.dicts[d])
  }

  /** The keys and actions that are forbidden. */
  lemma ForbiddenMeans(g: Graph, entries: map<string, Value>)
    ensures Forbidden(g, entries) <==>
      || "/EmbeddedFiles" in entries || "/JavaScript" in entries || "/JS" in entries || "/AA" in entries
      || (&& "/S" in entries && Denoted(g, entries["/S"]).LeafNode?
          && var action := Denoted(g, entries["/S"]).text;
             || action == "/JavaScript" || action == "/Launch" || action == "/SubmitForm" || action == "/GoToR"
             || action == "/RichMedia" || action == "/Sound" || action == "/Movie")
  {
    if k :| k in entries.Keys * DISALLOWED_KEYS { assert k in DISALLOWED_KEYS; }
    forall k | k in entries && k in DISALLOWED_KEYS ensures k in entries.Keys * DISALLOWED_KEYS {}
  }

  lemma ForbiddenIffRefusedOrOverlooked(g: Graph, spell: Spelling, entries: map<string, Value>)
    requires Honest(g, spell)
    ensures Forbidden(g, entries) <==> Disallowed(spell, entries) || Overlooked(g, spell, entries)
  {
    assert "<object>" !in DISALLOWED_ACTIONS by {
      assert "<object>"[0] == '<' && forall action :: action in DISALLOWED_ACTIONS ==> action[0] == '/';
    }
    if "/S" in entries && entries["/S"].Indirect? {
      assert spell(entries["/S"].ref) in DISALLOWED_ACTIONS ==> End(g.table, entries["/S"].ref).text == spell(entries["/S"].ref);
    }
  }

  /** What is forbidden is what the check refuses, actions behind references not spelled like them, and what stands beyond chains. */
  lemma ForbiddenIffFound(g: Graph, spell: Spelling, root: Value)
    requires WellFormed(g) && ValueIn(g, root) && Honest(g, spell)
    ensures HasForbidden(g, root) <==> HasDisallowed(g, spell, root) || HasOverlooked(g, spell, root) || HasForbiddenBeyond(g, root)
  {
    forall d | d in g.dicts
      ensures Forbidden(g, g.dicts[d]) <==> Disallowed(spell, g.dicts[d]) || Overlooked(g, spell, g.dicts[d])
      ensures Reachable(Unchained(g), root, d) <==>
              Reachable(g, root, d) || exists next :: Beyond(g, {}, MarkOf(root), next, DictMark(d))
    {
      ForbiddenIffRefusedOrOverlooked(g, spell, g.dicts[d]);
      ReachedOrBeyond(g, {}, root, d);
    }
    if HasForbidden(g, root) {
      var d :| Reachable(Unchained(g), root, d) && Forbidden(g, g.dicts[d]);
      if !Reachable(g, root, d) {
        var next :| Beyond(g, {}, MarkOf(root), next, DictMark(d));
        assert HasForbiddenBeyond(g, root);
      }
    }
  }

  /** The walk recurses on Python's stack; when that is exhausted an exception ends it. */
  datatype Outcome = Verdict(found: bool) | StackExhausted

  // ------------------------------------------------------------------
  // Paths that meet no dictionary on the way
  // ------------------------------------------------------------------

  predicate IsDictMark(m: Marker) {
    m.DirectMark? && m.node.DictNode?
  }

  /** A path all of whose markers before the last are arrays, references or leaves. */
  ghost predicate NearPath(g: Graph, path: seq<Marker>, m: Marker, n: Marker) {
    PathBetween(g, {}, path, m, n) && forall i :: 0 <= i < |path| - 1 ==> !IsDictMark(path[i])
  }

  /** `n` is met from `m` before any other dictionary. */
  ghost predicate Near(g: Graph, m: Marker, n: Marker) {
    exists path :: NearPath(g, path, m, n)
  }

  /** An array met again from itself without a dictionary in between. */
  ghost predicate OnArrayCycle(g: Graph, a: Id) {
    exists n :: Edge(g, {}, ArrayMark(a), n) && Near(g, n, ArrayMark(a))
  }

  ghost predicate NoArrayCycle(g: Graph, root: Value) {
    forall a :: a in g.arrays && Reach(g, {}, MarkOf(root), ArrayMark(a)) ==> !OnArrayCycle(g, a)
  }

  lemma NearSelf(g: Graph, m: Marker)
    ensures Near(g, m, m)
  {
    assert NearPath(g, [m], m, m);
  }

  lemma NearStep(g: Graph, m: Marker, n: Marker, o: Marker)
    requires !IsDictMark(m) && Edge(g, {}, m, n) && Near(g, n, o)
    ensures Near(g, m, o)
  {
    var path :| NearPath(g, path, n, o);
    assert NearPath(g, [m] + path, m, o);
  }

  lemma NearTrans(g: Graph, m: Marker, n: Marker, o: Marker)
    requires !IsDictMark(n) && Near(g, m, n) && Near(g, n, o)
    ensures Near(g, m, o)
  {
    var p :| NearPath(g, p, m, n);
    var q :| NearPath(g, q, n, o);
    assert NearPath(g, p + q[1..], m, o);
  }

  /** What is near `m` is `m` itself or near one of its successors. */
  lemma NearFirst(g: Graph, m: Marker, o: Marker) returns (n: Marker)
    requires Near(g, m, o) && m != o
    ensures !IsDictMark(m) && Edge(g, {}, m, n) && Near(g, n, o)
  {
    var path :| NearPath(g, path, m, o);
    n := path[1];
    assert Edge(g, {}, path[0], path[1]);
    assert NearPath(g, path[1..], n, o);
  }

  // ------------------------------------------------------------------
  // The walk
  // ------------------------------------------------------------------

  /** Every dictionary met first from `m` has been visited. */
  ghost predicate NearIn(g: Graph, m: Marker, visited: set<Id>) {
    forall d :: Near(g, m, DictMark(d)) ==> d in visited
  }

  /** The newly visited dictionaries are harmless, and so far as they lead on, what they meet has been visited. */
  ghost predicate Checked(g: Graph, spell: Spelling, before: set<Id>, visited: set<Id>) {
    && before <= visited
    && forall d {:trigger d in visited} :: d in visited && d !in before ==>
         && d in g.dicts && !Disallowed(spell, g.dicts[d])
         && forall n :: Edge(g, {}, DictMark(d), n) ==> NearIn(g, n, visited) && Grounded(g, n)
  }

  /** No array cycle is met from `m` before a dictionary. */
  ghost predicate Grounded(g: Graph, m: Marker) {
    forall a :: Near(g, m, ArrayMark(a)) ==> !OnArrayCycle(g, a)
  }

  /** `n * w`, spelled so that only addition is needed to reason about it. */
  function Times(n: nat, w: nat): nat {
    if n == 0 then 0 else Times(n - 1, w) + w
  }

  /** How many nested calls a walk can need: each dictionary is entered once, with arrays in between. */
  ghost function Need(g: Graph, node: Node, visited: set<Id>): nat {
    Times(|g.dicts.Keys - visited|, |g.arrays| + 2) + if node.ArrayNode? then 1 + |ArraysBelow(g, node.arr)| else 0
  }

  ghost function ArraysBelow(g: Graph, a: Id): set<Id> {
    set b | b in g.arrays && exists n :: Edge(g, {}, ArrayMark(a), n) && Near(g, n, ArrayMark(b))
  }

  class Walker {
    const graph: Graph
    const spell: Spelling
    var visited: set<Id>

    constructor (graph: Graph, spell: Spelling)
      ensures this.graph == graph && this.spell == spell && visited == {}
    {
      this.graph, this.spell := graph, spell;
      visited := {};
    }

    method Walk(value: Value, depth: nat, ghost root: Value) returns (r: Outcome)
      requires WellFormed(graph) && ValueIn(graph, value) && Reach(graph, {}, MarkOf(root), MarkOf(value))
      requires visited <= graph.dicts.Keys
      modifies this
      ensures old(visited) <= visited <= graph.dicts.Keys
      ensures r == Verdict(true) ==> HasDisallowed(graph, spell, root)
      ensures r == Verdict(false) ==>
        && Checked(graph, spell, old(visited), visited)
        && NearIn(graph, MarkOf(value), visited) && Grounded(graph, MarkOf(value))
      ensures r == StackExhausted && NoArrayCycle(graph, root) ==>
        depth <= Need(graph, NodeOf(graph.table, value), old(visited))
      decreases depth
    {
      if depth == 0 {
        return StackExhausted;
      }
      var node := NodeOf(graph.table, value);
      NodeReached(graph, root, value);
      match node {
        case DictNode(d) => r := WalkDict(d, depth, root);
        case ArrayNode(a) => r := WalkArray(a, depth, root);
        case _ =>
          r := Verdict(false);
          LeafMeetsNothing(graph, node);
      }
      if r == Verdict(false) { BehindReference(graph, value, visited); }
    }

    method WalkDict(d: Id, depth: nat, ghost root: Value) returns (r: Outcome)
      requires WellFormed(graph) && d in graph.dicts && Reachable(graph, root, d) && depth > 0
      requires visited <= graph.dicts.Keys
      modifies this
      ensures old(visited) <= visited <= graph.dicts.Keys
      ensures r == Verdict(true) ==> HasDisallowed(graph, spell, root)
      ensures r == Verdict(false) ==>
        && Checked(graph, spell, old(visited), visited)
        && NearIn(graph, DictMark(d), visited) && Grounded(graph, DictMark(d))
      ensures r == StackExhausted && NoArrayCycle(graph, root) ==> depth <= Need(graph, DictNode(d), old(visited))
      decreases depth, 0
    {
      DictMeetsItself(graph, d);
      if d in visited {
        return Verdict(false);
      }
      visited := visited + {d};
      if Disallowed(spell, graph.dicts[d]) {
        return Verdict(true);
      }
      var items := graph.dicts[d];
      var keys := items.Keys;
      ghost var base := visited;
      while keys != {}
        invariant keys <= items.Keys
        invariant base <= visited <= graph.dicts.Keys
        invariant Checked(graph, spell, base, visited)
        invariant forall k :: k in items.Keys - keys ==>
          NearIn(graph, MarkOf(items[k]), visited) && Grounded(graph, MarkOf(items[k]))
      {
        var k :| k in keys;
        keys := keys - {k};
        ghost var before := visited;
        EntryReached(graph, root, d, k);
        r := Walk(items[k], depth - 1, root);
        if r != Verdict(false) {
          NeedShrinks(graph, d, items[k], old(visited), before);
          return;
        }
        CheckedFurther(graph, spell, base, before, visited);
      }
      AllEntriesChecked(graph, spell, d, old(visited), visited);
      return Verdict(false);
    }

    method WalkArray(a: Id, depth: nat, ghost root: Value) returns (r: Outcome)
      requires WellFormed(graph) && a in graph.arrays && depth > 0
      requires Reach(graph, {}, MarkOf(root), ArrayMark(a))
      requires visited <= graph.dicts.Keys
      modifies this
      ensures old(visited) <= visited <= graph.dicts.Keys
      ensures r == Verdict(true) ==> HasDisallowed(graph, spell, root)
      ensures r == Verdict(false) ==>
        && Checked(graph, spell, old(visited), visited)
        && NearIn(graph, ArrayMark(a), visited) && Grounded(graph, ArrayMark(a))
      ensures r == StackExhausted && NoArrayCycle(graph, root) ==> depth <= Need(graph, ArrayNode(a), old(visited))
      decreases depth, 0
    {
      var items := graph.arrays[a];
      for i := 0 to |items|
        invariant old(visited) <= visited <= graph.dicts.Keys
        invariant Checked(graph, spell, old(visited), visited)
        invariant forall j :: 0 <= j < i ==> NearIn(graph, MarkOf(items[j]), visited) && Grounded(graph, MarkOf(items[j]))
      {
        ghost var before := visited;
        ItemReached(graph, root, a, i);
        r := Walk(items[i], depth - 1, root);
        if r != Verdict(false) {
          if NoArrayCycle(graph, root) { ItemNeedsLess(graph, root, a, i, old(visited), before); }
          return;
        }
        CheckedFurther(graph, spell, old(visited), before, visited);
      }
      AllItemsChecked(graph, a, visited);
      return Verdict(false);
    }
  }

  /**
   * `validate_pdf` admits a document if the walk ends with a verdict that nothing was found. With stack enough, that is
   * right for documents that reach nothing forbidden and no cycle of arrays, and for others wrong exactly if all that is
   * forbidden stands behind references spelled otherwise, or beyond references to references.
   */
  method Admit(graph: Graph, spell: Spelling, root: Value, depth: nat) returns (admitted: bool)
    requires WellFormed(graph) && ValueIn(graph, root)
    ensures admitted ==> !HasDisallowed(graph, spell, root) && NoArrayCycle(graph, root)
    ensures admitted && Honest(graph, spell) && HasForbidden(graph, root) ==>
              HasOverlooked(graph, spell, root) || HasForbiddenBeyond(graph, root)
    ensures depth > Need(graph, NodeOf(graph.table, root), {}) ==>
              (admitted <==> !HasDisallowed(graph, spell, root) && NoArrayCycle(graph, root))
    ensures depth > Need(graph, NodeOf(graph.table, root), {}) && Honest(graph, spell) ==>
              ((admitted <==> !HasForbidden(graph, root) && NoArrayCycle(graph, root)) <==>
               || HasDisallowed(graph, spell, root) || !NoArrayCycle(graph, root)
               || (!HasOverlooked(graph, spell, root) && !HasForbiddenBeyond(graph, root)))
  {
    var walker := new Walker(graph, spell);
    ReachSelf(graph, {}, MarkOf(root));
    var r := walker.Walk(root, depth, root);
    admitted := r == Verdict(false);
    if admitted { NothingFound(graph, spell, root, walker.visited); }
    if Honest(graph, spell) { ForbiddenIffFound(graph, spell, root); }
  }

  lemma NothingFound(g: Graph, spell: Spelling, root: Value, visited: set<Id>)
    requires Checked(g, spell, {}, visited) && NearIn(g, MarkOf(root), visited) && Grounded(g, MarkOf(root))
    ensures !HasDisallowed(g, spell, root) && NoArrayCycle(g, root)
  {
    forall d | Reachable(g, root, d) ensures !Disallowed(spell, g.dicts[d]) {
      var path :| PathBetween(g, {}, path, MarkOf(root), DictMark(d));
      EverythingChecked(g, spell, visited, path);
    }
    forall a | a in g.arrays && Reach(g, {}, MarkOf(root), ArrayMark(a)) ensures !OnArrayCycle(g, a) {
      var path :| PathBetween(g, {}, path, MarkOf(root), ArrayMark(a));
      EverythingChecked(g, spell, visited, path);
    }
  }

  // ------------------------------------------------------------------
  // Three documents that are judged wrongly
  // ------------------------------------------------------------------

  const ROOT := Direct(DictNode(1))

  const FIRST := ObjRef(0, 2, 0)

  const SECOND := ObjRef(0, 3, 0)

  /** One dictionary whose action `/Launch` is an indirect object. */
  const INDIRECT_ACTION := Graph(map[1 := map["/S" := Indirect(FIRST)]], map[], map[FIRST := LeafNode(3, "/Launch")])

  /** A script in a dictionary that a reference to a reference leads to. */
  const SCRIPT_BEYOND_CHAIN := Graph(
    map[1 := map["/OpenAction" := Indirect(FIRST)], 2 := map["/JS" := Direct(LeafNode(4, "script"))]], map[],
    map[FIRST := RefNode(SECOND), SECOND := DictNode(2)])

  /** One dictionary with an array that contains itself. */
  const SELF_CONTAINED := Graph(map[1 := map["/Kids" := Direct(ArrayNode(2))]], map[2 := [Direct(ArrayNode(2))]], map[])

  lemma RootIsReached(g: Graph)
    requires 1 in g.dicts
    ensures Reachable(g, ROOT, 1) && Reachable(Unchained(g), ROOT, 1)
  {
    ReachSelf(g, {}, DictMark(1));
    ReachSelf(Unchained(g), {}, DictMark(1));
  }

  /** The action is reached and forbidden, and still found only if `str` spells the reference like it. */
  lemma IndirectActionIsOverlooked(spell: Spelling)
    ensures var g := INDIRECT_ACTION;
      && WellFormed(g) && ValueIn(g, ROOT) && HasForbidden(g, ROOT) && NoArrayCycle(g, ROOT)
      && (HasDisallowed(g, spell, ROOT) <==> spell(FIRST) in DISALLOWED_ACTIONS)
      && (HasOverlooked(g, spell, ROOT) <==> spell(FIRST) !in DISALLOWED_ACTIONS)
  {
    var g := INDIRECT_ACTION;
    RootIsReached(g);
    EndOfNext(g.table, FIRST);
    assert g.dicts[1]["/S"] == Indirect(FIRST);
    assert Forbidden(g, g.dicts[1]);
    assert Disallowed(spell, g.dicts[1]) <==> spell(FIRST) in DISALLOWED_ACTIONS;
    assert Overlooked(g, spell, g.dicts[1]) <==> spell(FIRST) !in DISALLOWED_ACTIONS;
  }

  /** The walk takes the reference it is left with for a leaf, and never comes to the script. */
  lemma ScriptBeyondChainIsOverlooked(spell: Spelling)
    ensures var g := SCRIPT_BEYOND_CHAIN;
      && WellFormed(g) && ValueIn(g, ROOT) && NoArrayCycle(g, ROOT)
      && HasForbidden(g, ROOT) && HasForbiddenBeyond(g, ROOT) && !HasDisallowed(g, spell, ROOT) && !HasOverlooked(g, spell, ROOT)
  {
    var g := SCRIPT_BEYOND_CHAIN;
    var first, chain := IndirectMark(FIRST), DirectMark(RefNode(SECOND));
    assert DictEdge(g, {}, 1, "/OpenAction", first);
    ReachSelf(g, {}, chain);
    ReachStep(g, {}, first, chain, chain);
    ReachStep(g, {}, DictMark(1), first, chain);
    EndOfNext(g.table, SECOND);
    UnchainedResolves(g, SECOND);
    ReachSelf(Unchained(g), {}, DictMark(2));
    ReachStep(Unchained(g), {}, IndirectMark(SECOND), DictMark(2), DictMark(2));
    assert Beyond(g, {}, DictMark(1), SECOND, DictMark(2));
    assert "/JS" in g.dicts[2].Keys * DISALLOWED_KEYS;
    assert Forbidden(g, g.dicts[2]);
    ReachedOrBeyond(g, {}, ROOT, 2);
    assert Reachable(Unchained(g), ROOT, 2);
    forall d | Reachable(g, ROOT, d) ensures d == 1 {
      var path :| PathBetween(g, {}, path, DictMark(1), DictMark(d));
      StaysBeforeChain(path);
    }
  }

  lemma StaysBeforeChain(path: seq<Marker>)
    requires IsPath(SCRIPT_BEYOND_CHAIN, {}, path) && path[0] == DictMark(1)
    ensures path[|path| - 1] != DictMark(2)
  {
    var g, s := SCRIPT_BEYOND_CHAIN, {DictMark(1), IndirectMark(FIRST), DirectMark(RefNode(SECOND))};
    forall m, n | m in s && Edge(g, {}, m, n) ensures n in s {
      if m == DictMark(1) { var k :| DictEdge(g, {}, 1, k, n); }
    }
    ClosedHoldsReachable(g, {}, s, path);
  }

  /** Nothing in the document is forbidden, but its array is met again from itself. */
  lemma HarmlessArrayCycleIsRefused(spell: Spelling)
    ensures var g := SELF_CONTAINED;
      WellFormed(g) && ValueIn(g, ROOT) && !HasForbidden(g, ROOT) && !HasDisallowed(g, spell, ROOT) && !NoArrayCycle(g, ROOT)
  {
    var g := SELF_CONTAINED;
    assert !Forbidden(g, g.dicts[1]) && !Disallowed(spell, g.dicts[1]);
    RootIsReached(g);
    assert DictEdge(g, {}, 1, "/Kids", ArrayMark(2)) && ArrayEdge(g, 2, 0, ArrayMark(2));
    ReachSelf(g, {}, ArrayMark(2));
    ReachStep(g, {}, DictMark(1), ArrayMark(2), ArrayMark(2));
    NearSelf(g, ArrayMark(2));
  }

  // ------------------------------------------------------------------
  // Proofs
  // ------------------------------------------------------------------

  lemma ReachFurther(g: Graph, m: Marker, n: Marker, o: Marker)
    requires Reach(g, {}, m, n) && Edge(g, {}, n, o)
    ensures Reach(g, {}, m, o)
  {
    var path :| PathBetween(g, {}, path, m, n);
    assert PathBetween(g, {}, path + [o], m, o);
  }

  lemma NodeReached(g: Graph, root: Value, value: Value)
    requires WellFormed(g) && ValueIn(g, value) && Reach(g, {}, MarkOf(root), MarkOf(value))
    ensures NodeIn(g, NodeOf(g.table, value))
    ensures Reach(g, {}, MarkOf(root), DirectMark(NodeOf(g.table, value)))
  {
    if value.Indirect? { ReachFurther(g, MarkOf(root), MarkOf(value), DirectMark(NodeOf(g.table, value))); }
  }

  lemma EntryReached(g: Graph, root: Value, d: Id, k: string)
    requires WellFormed(g) && Reachable(g, root, d) && k in g.dicts[d]
    ensures ValueIn(g, g.dicts[d][k]) && Reach(g, {}, MarkOf(root), MarkOf(g.dicts[d][k]))
  {
    assert DictEdge(g, {}, d, k, MarkOf(g.dicts[d][k]));
    ReachFurther(g, MarkOf(root), DictMark(d), MarkOf(g.dicts[d][k]));
  }

  lemma ItemReached(g: Graph, root: Value, a: Id, i: nat)
    requires WellFormed(g) && a in g.arrays && i < |g.arrays[a]| && Reach(g, {}, MarkOf(root), ArrayMark(a))
    ensures ValueIn(g, g.arrays[a][i]) && Reach(g, {}, MarkOf(root), MarkOf(g.arrays[a][i]))
    ensures Edge(g, {}, ArrayMark(a), MarkOf(g.arrays[a][i]))
  {
    assert ArrayEdge(g, a, i, MarkOf(g.arrays[a][i]));
    ReachFurther(g, MarkOf(root), ArrayMark(a), MarkOf(g.arrays[a][i]));
  }

  lemma DictMeetsItself(g: Graph, d: Id)
    ensures forall o :: Near(g, DictMark(d), o) ==> o == DictMark(d)
  {
    forall o | Near(g, DictMark(d), o) ensures o == DictMark(d) {
      if o != DictMark(d) { var n := NearFirst(g, DictMark(d), o); assert false; }
    }
  }

  lemma LeafMeetsNothing(g: Graph, node: Node)
    requires node.LeafNode? || node.RefNode?
    ensures forall o :: Near(g, DirectMark(node), o) ==> o == DirectMark(node)
  {
    forall o | Near(g, DirectMark(node), o) ensures o == DirectMark(node) {
      if o != DirectMark(node) { var n := NearFirst(g, DirectMark(node), o); assert false; }
    }
  }

  /** A reference meets what its object meets. */
  lemma BehindReference(g: Graph, value: Value, visited: set<Id>)
    requires var m := DirectMark(NodeOf(g.table, value)); NearIn(g, m, visited) && Grounded(g, m)
    ensures NearIn(g, MarkOf(value), visited) && Grounded(g, MarkOf(value))
  {
    forall o | Near(g, MarkOf(value), o) && o != MarkOf(value) ensures Near(g, DirectMark(NodeOf(g.table, value)), o) {
      if value.Indirect? { var n := NearFirst(g, MarkOf(value), o); }
    }
  }

  lemma NearInGrows(g: Graph, m: Marker, small: set<Id>, large: set<Id>)
    requires NearIn(g, m, small) && small <= large
    ensures NearIn(g, m, large)
  {
  }

  lemma CheckedFurther(g: Graph, spell: Spelling, a: set<Id>, b: set<Id>, c: set<Id>)
    requires Checked(g, spell, a, b) && Checked(g, spell, b, c)
    ensures Checked(g, spell, a, c)
    ensures forall m :: NearIn(g, m, b) ==> NearIn(g, m, c)
  {
    forall m | NearIn(g, m, b) ensures NearIn(g, m, c) { NearInGrows(g, m, b, c); }
  }

  lemma AllEntriesChecked(g: Graph, spell: Spelling, d: Id, before: set<Id>, visited: set<Id>)
    requires d in g.dicts && !Disallowed(spell, g.dicts[d]) && Checked(g, spell, before + {d}, visited)
    requires forall k :: k in g.dicts[d] ==>
      NearIn(g, MarkOf(g.dicts[d][k]), visited) && Grounded(g, MarkOf(g.dicts[d][k]))
    ensures Checked(g, spell, before, visited)
  {
    forall n | Edge(g, {}, DictMark(d), n) ensures NearIn(g, n, visited) && Grounded(g, n) {
      var k :| DictEdge(g, {}, d, k, n);
    }
  }

  lemma AllItemsChecked(g: Graph, a: Id, visited: set<Id>)
    requires a in g.arrays
    requires forall j :: 0 <= j < |g.arrays[a]| ==>
      NearIn(g, MarkOf(g.arrays[a][j]), visited) && Grounded(g, MarkOf(g.arrays[a][j]))
    ensures NearIn(g, ArrayMark(a), visited) && Grounded(g, ArrayMark(a))
  {
    forall o | Near(g, ArrayMark(a), o) && o != ArrayMark(a)
      ensures exists j :: 0 <= j < |g.arrays[a]| && Near(g, MarkOf(g.arrays[a][j]), o)
    {
      var n := NearFirst(g, ArrayMark(a), o);
      var j :| ArrayEdge(g, a, j, n);
    }
    forall n | Edge(g, {}, ArrayMark(a), n) ensures Near(g, n, ArrayMark(a)) ==> !OnArrayCycle(g, a) {
      var j :| ArrayEdge(g, a, j, n);
    }
  }

  lemma NeedShrinks(g: Graph, d: Id, child: Value, before: set<Id>, now: set<Id>)
    requires d in g.dicts && d !in before && before + {d} <= now <= g.dicts.Keys
    ensures Need(g, NodeOf(g.table, child), now) < Need(g, DictNode(d), before)
  {
    FewerLeft(g.dicts.Keys, d, before, now);
    NeedBound(g, NodeOf(g.table, child), now);
    MoreTimes(|g.dicts.Keys - now|, |g.dicts.Keys - before|, |g.arrays| + 2);
  }

  lemma FewerLeft(all: set<Id>, d: Id, before: set<Id>, now: set<Id>)
    requires d in all && d !in before && before + {d} <= now
    ensures |all - now| < |all - before|
  {
    SubsetSize(all - now, all - before - {d});
  }

  lemma NeedBound(g: Graph, node: Node, visited: set<Id>)
    ensures Need(g, node, visited) <= Times(|g.dicts.Keys - visited|, |g.arrays| + 2) + 1 + |g.arrays|
  {
    if node.ArrayNode? {
      SubsetSize(ArraysBelow(g, node.arr), g.arrays.Keys);
      assert |g.arrays.Keys| == |g.arrays|;
    }
  }

  lemma {:induction false} MoreTimes(a: nat, b: nat, w: nat)
    requires a < b
    ensures Times(a, w) + w <= Times(b, w)
    decreases b
  {
    if a < b - 1 { MoreTimes(a, b - 1, w); }
  }

  lemma ItemNeedsLess(g: Graph, root: Value, a: Id, i: nat, before: set<Id>, now: set<Id>)
    requires WellFormed(g) && NoArrayCycle(g, root) && a in g.arrays && i < |g.arrays[a]|
    requires Reach(g, {}, MarkOf(root), ArrayMark(a)) && before <= now <= g.dicts.Keys
    ensures Need(g, NodeOf(g.table, g.arrays[a][i]), now) < Need(g, ArrayNode(a), before)
  {
    var node := NodeOf(g.table, g.arrays[a][i]);
    SubsetSize(g.dicts.Keys - now, g.dicts.Keys - before);
    if |g.dicts.Keys - now| < |g.dicts.Keys - before| {
      MoreTimes(|g.dicts.Keys - now|, |g.dicts.Keys - before|, |g.arrays| + 2);
    }
    if node.ArrayNode? {
      ItemReached(g, root, a, i);
      NodeReached(g, root, g.arrays[a][i]);
      FewerBelow(g, root, a, i, node.arr);
    }
  }

  /** Without array cycles an array inside another has strictly fewer arrays below it. */
  lemma FewerBelow(g: Graph, root: Value, a: Id, i: nat, b: Id)
    requires NoArrayCycle(g, root) && a in g.arrays && i < |g.arrays[a]| && b in g.arrays
    requires NodeOf(g.table, g.arrays[a][i]) == ArrayNode(b)
    requires Reach(g, {}, MarkOf(root), ArrayMark(b))
    ensures |ArraysBelow(g, b)| < |ArraysBelow(g, a)|
  {
    var n := MarkOf(g.arrays[a][i]);
    assert ArrayEdge(g, a, i, n);
    NearSelf(g, ArrayMark(b));
    if n != ArrayMark(b) { NearStep(g, n, ArrayMark(b), ArrayMark(b)); }
    assert b in ArraysBelow(g, a) - ArraysBelow(g, b);
    forall c | c in ArraysBelow(g, b) ensures c in ArraysBelow(g, a) {
      var o :| Edge(g, {}, ArrayMark(b), o) && Near(g, o, ArrayMark(c));
      NearStep(g, ArrayMark(b), o, ArrayMark(c));
      NearTrans(g, n, ArrayMark(b), ArrayMark(c));
    }
    SubsetSize(ArraysBelow(g, b), ArraysBelow(g, a) - {b});
  }

  /** What a closed, harmless set of visited dictionaries says about everything reachable. */
  lemma {:induction false} EverythingChecked(g: Graph, spell: Spelling, visited: set<Id>, path: seq<Marker>)
    requires IsPath(g, {}, path) && Checked(g, spell, {}, visited)
    requires NearIn(g, path[0], visited) && Grounded(g, path[0])
    ensures var last := path[|path| - 1];
      && (IsDictMark(last) ==> last.node.dict in visited)
      && (forall a :: last == ArrayMark(a) ==> !OnArrayCycle(g, a))
    decreases |path|
  {
    NearSelf(g, path[0]);
    if |path| > 1 {
      var m, n := path[0], path[1];
      assert Edge(g, {}, m, n);
      if !IsDictMark(m) {
        forall o | Near(g, n, o) ensures Near(g, m, o) { NearStep(g, m, n, o); }
      } else {
        assert m == DictMark(m.node.dict);
      }
      EverythingChecked(g, spell, visited, path[1..]);
    }
  }
}
