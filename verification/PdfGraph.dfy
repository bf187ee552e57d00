/**
 * The object graph of a PDF in memory: dictionaries and arrays, each with the identity that Python's `id` gives it,
 * joined directly or by indirect references, and free to form cycles.
 */
module PdfGraph {
  import opened Base

  type Id = nat

  datatype ObjRef = ObjRef(pdf: nat, number: nat, generation: nat)

  /**
   * A leaf is a name, string, number or null, with its identity and its text. An indirect object may again be a
   * reference.
   */
  datatype Node = DictNode(dict: Id) | ArrayNode(arr: Id) | LeafNode(id: nat, text: string) | RefNode(ref: ObjRef)

  datatype Value = Indirect(ref: ObjRef) | Direct(node: Node)

  /** What one call of `get_object` returns; a library that resolves further never returns a `RefNode`. */
  type Table = map<ObjRef, Node>

  const NULL_NODE := LeafNode(0, "null")

  function Resolve(table: Table, ref: ObjRef): Node {
    if ref in table then table[ref] else NULL_NODE
  }

  function NodeOf(table: Table, v: Value): Node {
    match v
    case Indirect(ref) => Resolve(table, ref)
    case Direct(node) => node
  }

  /** What a traversal remembers of a value it has met. */
  datatype Marker = IndirectMark(ref: ObjRef) | DirectMark(node: Node)

  function MarkOf(v: Value): Marker {
    match v
    case Indirect(ref) => IndirectMark(ref)
    case Direct(node) => DirectMark(node)
  }

  function DictMark(d: Id): Marker {
    DirectMark(DictNode(d))
  }

  function ArrayMark(a: Id): Marker {
    DirectMark(ArrayNode(a))
  }

  datatype Graph = Graph(dicts: map<Id, map<string, Value>>, arrays: map<Id, seq<Value>>, table: Table)

  ghost predicate NodeIn(g: Graph, n: Node) {
    (n.DictNode? ==> n.dict in g.dicts) && (n.ArrayNode? ==> n.arr in g.arrays)
  }

  ghost predicate ValueIn(g: Graph, v: Value) {
    v.Direct? ==> NodeIn(g, v.node) && !v.node.RefNode?
  }

  /** Every dictionary and array that occurs anywhere belongs to the graph. */
  ghost predicate WellFormed(g: Graph) {
    && (forall d, k :: d in g.dicts && k in g.dicts[d] ==> ValueIn(g, g.dicts[d][k]))
    && (forall a, i :: a in g.arrays && 0 <= i < |g.arrays[a]| ==> ValueIn(g, g.arrays[a][i]))
    && (forall r :: r in g.table ==> NodeIn(g, g.table[r]))
  }

  // ------------------------------------------------------------------
  // Reachability, not following the entries under some keys
  // ------------------------------------------------------------------

  ghost predicate DictEdge(g: Graph, skip: set<string>, d: Id, k: string, n: Marker) {
    d in g.dicts && k in g.dicts[d] && k !in skip && n == MarkOf(g.dicts[d][k])
  }

  ghost predicate ArrayEdge(g: Graph, a: Id, i: int, n: Marker) {
    a in g.arrays && 0 <= i < |g.arrays[a]| && n == MarkOf(g.arrays[a][i])
  }

  ghost predicate Edge(g: Graph, skip: set<string>, m: Marker, n: Marker) {
    match m
    case IndirectMark(ref) => n == DirectMark(Resolve(g.table, ref))
    case DirectMark(DictNode(d)) => exists k :: DictEdge(g, skip, d, k, n)
    case DirectMark(ArrayNode(a)) => exists i :: ArrayEdge(g, a, i, n)
    case DirectMark(_) => false
  }

  ghost predicate IsPath(g: Graph, skip: set<string>, path: seq<Marker>) {
    path != [] && forall i :: 0 <= i < |path| - 1 ==> Edge(g, skip, path[i], path[i + 1])
  }

  ghost predicate PathBetween(g: Graph, skip: set<string>, path: seq<Marker>, m: Marker, n: Marker) {
    IsPath(g, skip, path) && path[0] == m && path[|path| - 1] == n
  }

  ghost predicate Reach(g: Graph, skip: set<string>, m: Marker, n: Marker) {
    exists path :: PathBetween(g, skip, path, m, n)
  }

  lemma ReachSelf(g: Graph, skip: set<string>, m: Marker)
    ensures Reach(g, skip, m, m)
  {
    assert PathBetween(g, skip, [m], m, m);
  }

  lemma ReachStep(g: Graph, skip: set<string>, m: Marker, n: Marker, o: Marker)
    requires Edge(g, skip, m, n) && Reach(g, skip, n, o)
    ensures Reach(g, skip, m, o)
  {
    var path :| PathBetween(g, skip, path, n, o);
    assert PathBetween(g, skip, [m] + path, m, o);
  }

  /** A set that holds the start and is closed under the edges holds everything reachable. */
  lemma {:induction false} ClosedHoldsReachable(g: Graph, skip: set<string>, s: set<Marker>, path: seq<Marker>)
    requires IsPath(g, skip, path) && path[0] in s
    requires forall m, n :: m in s && Edge(g, skip, m, n) ==> n in s
    ensures path[|path| - 1] in s
    decreases |path|
  {
    if |path| > 1 {
      assert Edge(g, skip, path[0], path[1]);
      assert forall i :: 0 <= i < |path[1..]| ==> path[1..][i] == path[i + 1];
      ClosedHoldsReachable(g, skip, s, path[1..]);
    }
  }

  /** Graphs with the same edges have the same paths. */
  lemma SameEdgesSameReach(g: Graph, skip: set<string>, h: Graph, skip': set<string>, m: Marker, n: Marker)
    requires forall a, b :: Edge(g, skip, a, b) <==> Edge(h, skip', a, b)
    ensures Reach(g, skip, m, n) <==> Reach(h, skip', m, n)
  {
    if Reach(g, skip, m, n) {
      var path :| PathBetween(g, skip, path, m, n);
      assert PathBetween(h, skip', path, m, n);
    }
    if Reach(h, skip', m, n) {
      var path :| PathBetween(h, skip', path, m, n);
      assert PathBetween(g, skip, path, m, n);
    }
  }

  // ------------------------------------------------------------------
  // The finitely many markers a traversal can meet
  // ------------------------------------------------------------------

  ghost function Universe(g: Graph, root: Value): set<Marker> {
    {MarkOf(root), DirectMark(NULL_NODE)}
    + (set d, k | d in g.dicts && k in g.dicts[d] :: MarkOf(g.dicts[d][k]))
    + (set a, i | a in g.arrays && 0 <= i < |g.arrays[a]| :: MarkOf(g.arrays[a][i]))
    + (set r | r in g.table :: DirectMark(g.table[r]))
  }

  lemma UniverseIsClosed(g: Graph, root: Value, m: Marker, n: Marker)
    requires m in Universe(g, root) && Edge(g, {}, m, n)
    ensures n in Universe(g, root)
  {
    match m
    case IndirectMark(ref) =>
    case DirectMark(DictNode(d)) =>
      var k :| DictEdge(g, {}, d, k, n);
    case DirectMark(ArrayNode(a)) =>
      var i :| ArrayEdge(g, a, i, n);
    case DirectMark(_) =>
  }

  // ------------------------------------------------------------------
  // Chains of references
  // ------------------------------------------------------------------

  /** What stands at the end of a chain of at most `n` further references. */
  function Chase(table: Table, ref: ObjRef, n: nat): Option<Node>
    decreases n
  {
    match Resolve(table, ref)
    case RefNode(next) => if n == 0 then None else Chase(table, next, n - 1)
    case node => Some(node)
  }

  lemma {:induction false} ChaseFurther(table: Table, ref: ObjRef, n: nat, m: nat)
    requires Chase(table, ref, n).Some? && n <= m
    ensures Chase(table, ref, m) == Chase(table, ref, n)
    decreases n
  {
    match Resolve(table, ref)
    case RefNode(next) => ChaseFurther(table, next, n - 1, m - 1);
    case _ =>
  }

  /** The object that a reference denotes; a cycle of references denotes null. */
  ghost function End(table: Table, ref: ObjRef): Node {
    if n: nat :| Chase(table, ref, n).Some? then Chase(table, ref, n).value else NULL_NODE
  }

  lemma EndOfChase(table: Table, ref: ObjRef, n: nat)
    requires Chase(table, ref, n).Some?
    ensures End(table, ref) == Chase(table, ref, n).value
  {
    var m: nat :| Chase(table, ref, m).Some? && End(table, ref) == Chase(table, ref, m).value;
    if m <= n { ChaseFurther(table, ref, m, n); } else { ChaseFurther(table, ref, n, m); }
  }

  lemma EndOfNext(table: Table, ref: ObjRef)
    ensures match Resolve(table, ref)
            case RefNode(next) => End(table, ref) == End(table, next)
            case node => End(table, ref) == node
  {
    match Resolve(table, ref)
    case RefNode(next) =>
      if n: nat :| Chase(table, next, n).Some? {
        EndOfChase(table, next, n);
        assert Chase(table, ref, n + 1) == Chase(table, next, n);
        EndOfChase(table, ref, n + 1);
      } else if n: nat :| Chase(table, ref, n).Some? {
        assert Chase(table, next, n - 1).Some?;
      }
    case _ =>
      assert Chase(table, ref, 0).Some?;
      EndOfChase(table, ref, 0);
  }

  /** The document as it is to be read: every reference leads to the object at the end of its chain. */
  ghost function Unchained(g: Graph): Graph {
    g.(table := map ref | ref in g.table :: End(g.table, ref))
  }

  lemma UnchainedResolves(g: Graph, ref: ObjRef)
    ensures Resolve(Unchained(g).table, ref) == End(g.table, ref)
  {
    EndOfNext(g.table, ref);
  }

  /** A chain that a traversal has met, and where its next reference leads. */
  ghost predicate Beyond(g: Graph, skip: set<string>, m: Marker, next: ObjRef, n: Marker) {
    Reach(g, skip, m, DirectMark(RefNode(next))) && Reach(Unchained(g), skip, IndirectMark(next), n)
  }

  lemma UnchainedEdge(g: Graph, skip: set<string>, m: Marker, n: Marker)
    ensures Edge(g, skip, m, n) && !(n.DirectMark? && n.node.RefNode?) ==> Edge(Unchained(g), skip, m, n)
    ensures Edge(Unchained(g), skip, m, n) ==>
      || Edge(g, skip, m, n)
      || (m.IndirectMark? && Resolve(g.table, m.ref).RefNode? && Edge(Unchained(g), skip, IndirectMark(Resolve(g.table, m.ref).ref), n))
  {
    var h := Unchained(g);
    match m
    case IndirectMark(ref) =>
      EndOfNext(g.table, ref);
      UnchainedResolves(g, ref);
      if Resolve(g.table, ref).RefNode? { UnchainedResolves(g, Resolve(g.table, ref).ref); }
    case DirectMark(DictNode(d)) =>
      assert forall k :: DictEdge(g, skip, d, k, n) <==> DictEdge(h, skip, d, k, n);
    case DirectMark(ArrayNode(a)) =>
      assert forall i :: ArrayEdge(g, a, i, n) <==> ArrayEdge(h, a, i, n);
    case DirectMark(_) =>
  }

  /** What the document reaches as it is to be read, a traversal reaches, or else stands beyond a chain that it meets. */
  lemma {:induction false} UnchainedPathSplits(g: Graph, skip: set<string>, path: seq<Marker>, n: Marker)
    requires path != [] && PathBetween(Unchained(g), skip, path, path[0], n)
    ensures Reach(g, skip, path[0], n) || exists next :: Beyond(g, skip, path[0], next, n)
    decreases |path|
  {
    ReachSelf(g, skip, path[0]);
    if |path| > 1 {
      var h, m, rest := Unchained(g), path[0], path[1..];
      assert Edge(h, skip, m, path[1]);
      assert PathBetween(h, skip, rest, path[1], n);
      UnchainedEdge(g, skip, m, path[1]);
      if Edge(g, skip, m, path[1]) {
        UnchainedPathSplits(g, skip, rest, n);
        if Reach(g, skip, path[1], n) {
          ReachStep(g, skip, m, path[1], n);
        } else {
          var next :| Beyond(g, skip, path[1], next, n);
          ReachStep(g, skip, m, path[1], DirectMark(RefNode(next)));
          assert Beyond(g, skip, m, next, n);
        }
      } else {
        var next := Resolve(g.table, m.ref).ref;
        ReachSelf(g, skip, DirectMark(RefNode(next)));
        ReachStep(g, skip, m, DirectMark(RefNode(next)), DirectMark(RefNode(next)));
        assert Reach(h, skip, path[1], n);
        ReachStep(h, skip, IndirectMark(next), path[1], n);
        assert Beyond(g, skip, m, next, n);
      }
    }
  }

  lemma {:induction false} PathIsUnchained(g: Graph, skip: set<string>, path: seq<Marker>, n: Marker)
    requires WellFormed(g) && path != [] && PathBetween(g, skip, path, path[0], n) && path[0] != n
    ensures !(n.DirectMark? && n.node.RefNode?) ==> Reach(Unchained(g), skip, path[0], n)
    ensures forall next, o :: n == DirectMark(RefNode(next)) && o != IndirectMark(next) && Reach(Unchained(g), skip, IndirectMark(next), o)
              ==> Reach(Unchained(g), skip, path[0], o)
    decreases |path|
  {
    var h, m, rest := Unchained(g), path[0], path[1..];
    assert Edge(g, skip, m, path[1]) && PathBetween(g, skip, rest, path[1], n);
    UnchainedEdge(g, skip, m, path[1]);
    if path[1] == n {
      ReachSelf(h, skip, n);
      if n.DirectMark? && n.node.RefNode? {
        OnlyReferencesLeadToChains(g, skip, m, n);
        forall o | o != IndirectMark(n.node.ref) && Reach(h, skip, IndirectMark(n.node.ref), o) ensures Reach(h, skip, m, o) {
          ChainHeadReaches(g, skip, m, n.node.ref, o);
        }
      } else {
        ReachStep(h, skip, m, n, n);
      }
    } else {
      assert Edge(g, skip, rest[0], rest[1]);
      PathIsUnchained(g, skip, rest, n);
      forall o | Reach(h, skip, path[1], o) ensures Reach(h, skip, m, o) { ReachStep(h, skip, m, path[1], o); }
    }
  }

  lemma OnlyReferencesLeadToChains(g: Graph, skip: set<string>, m: Marker, n: Marker)
    requires WellFormed(g) && Edge(g, skip, m, n)
    ensures m.IndirectMark? || n.IndirectMark? || !n.node.RefNode?
  {
    match m
    case DirectMark(DictNode(d)) =>
      var k :| DictEdge(g, skip, d, k, n);
      assert ValueIn(g, g.dicts[d][k]);
    case DirectMark(ArrayNode(a)) =>
      var i :| ArrayEdge(g, a, i, n);
      assert ValueIn(g, g.arrays[a][i]);
    case _ =>
  }

  lemma ChainHeadReaches(g: Graph, skip: set<string>, m: Marker, next: ObjRef, o: Marker)
    requires Edge(g, skip, m, DirectMark(RefNode(next))) && m.IndirectMark?
    requires o != IndirectMark(next) && Reach(Unchained(g), skip, IndirectMark(next), o)
    ensures Reach(Unchained(g), skip, m, o)
  {
    var h := Unchained(g);
    EndOfNext(g.table, m.ref);
    UnchainedResolves(g, m.ref);
    UnchainedResolves(g, next);
    var path :| PathBetween(h, skip, path, IndirectMark(next), o);
    assert Edge(h, skip, path[0], path[1]);
    assert PathBetween(h, skip, path[1..], path[1], o);
    ReachStep(h, skip, m, path[1], o);
  }

  /** From an entry of the document, all dictionaries that it reaches as it is to be read. */
  lemma ReachedOrBeyond(g: Graph, skip: set<string>, root: Value, d: Id)
    requires WellFormed(g) && ValueIn(g, root)
    ensures Reach(Unchained(g), skip, MarkOf(root), DictMark(d)) <==>
            Reach(g, skip, MarkOf(root), DictMark(d)) || exists next :: Beyond(g, skip, MarkOf(root), next, DictMark(d))
  {
    var m, n, h := MarkOf(root), DictMark(d), Unchained(g);
    if Reach(h, skip, m, n) {
      var path :| PathBetween(h, skip, path, m, n);
      UnchainedPathSplits(g, skip, path, n);
    }
    if Reach(g, skip, m, n) {
      var path :| PathBetween(g, skip, path, m, n);
      if m == n { ReachSelf(h, skip, m); } else { PathIsUnchained(g, skip, path, n); }
    }
    if next :| Beyond(g, skip, m, next, n) {
      var path :| PathBetween(g, skip, path, m, DirectMark(RefNode(next)));
      PathIsUnchained(g, skip, path, DirectMark(RefNode(next)));
    }
  }
}
