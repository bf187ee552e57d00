/** Removal of active and identifying entries before a page is packaged (app/documents/package.py). */
module PdfPackage {
  import opened PdfGraph

  const UNSAFE_PDF_KEYS: seq<string> :=
    ["/A", "/AA", "/AF", "/Annots", "/EmbeddedFiles", "/JavaScript", "/JS", "/Metadata", "/Names", "/OpenAction"]

  function KeySet(keys: seq<string>): set<string> {
    set k | k in keys
  }

  const UNSAFE: set<string> := KeySet(UNSAFE_PDF_KEYS)

  const PARENT: set<string> := {"/Parent"}

  /** Reachable without following `/Parent` or an entry that is about to be deleted. */
  ghost predicate Cleanable(g: Graph, root: Value, m: Marker) {
    Reach(g, UNSAFE + PARENT, MarkOf(root), m)
  }

  /** The graph with the unsafe entries of some dictionaries deleted and nothing else changed. */
  ghost function Stripped(g: Graph, which: set<Id>): Graph {
    g.(dicts := map d | d in g.dicts :: if d in which then g.dicts[d] - UNSAFE else g.dicts[d])
  }

  ghost function DictsReached(g: Graph, root: Value): set<Id> {
    set d | d in g.dicts && Cleanable(g, root, DictMark(d))
  }

  ghost function DictsSeen(g: Graph, seen: set<Marker>): set<Id> {
    set d | d in g.dicts && DictMark(d) in seen
  }

  // ------------------------------------------------------------------
  // The traversal
  // ------------------------------------------------------------------

  /** Every marker added was reached from the start, and all its successors have been met too. */
  ghost predicate Explored(g: Graph, start: Marker, before: set<Marker>, after: set<Marker>) {
    && before <= after
    && (forall m {:trigger m in after} :: m in after && m !in before ==> Reach(g, UNSAFE + PARENT, start, m))
    && (forall m, n {:trigger Edge(g, UNSAFE + PARENT, m, n)} ::
          m in after && m !in before && Edge(g, UNSAFE + PARENT, m, n) ==> n in after)
  }

  lemma ReachTrans(g: Graph, m: Marker, n: Marker, o: Marker)
    requires Reach(g, UNSAFE + PARENT, m, n) && Reach(g, UNSAFE + PARENT, n, o)
    ensures Reach(g, UNSAFE + PARENT, m, o)
  {
    var p :| PathBetween(g, UNSAFE + PARENT, p, m, n);
    var q :| PathBetween(g, UNSAFE + PARENT, q, n, o);
    assert PathBetween(g, UNSAFE + PARENT, p + q[1..], m, o);
  }

  lemma ExploredFurther(g: Graph, start: Marker, a: set<Marker>, b: set<Marker>, child: Marker, c: set<Marker>)
    requires Explored(g, start, a, b) && Reach(g, UNSAFE + PARENT, start, child) && Explored(g, child, b, c)
    ensures Explored(g, start, a, c)
  {
    forall m | m in c && m !in a ensures Reach(g, UNSAFE + PARENT, start, m) {
      if m !in b { ReachTrans(g, start, child, m); }
    }
  }

  class Cleaner {
    const arrays: map<Id, seq<Value>>
    const table: Table
    var dicts: map<Id, map<string, Value>>
    var seen: set<Marker>

    ghost function View(): Graph
      reads this
    {
      Graph(dicts, arrays, table)
    }

    constructor (g: Graph)
      ensures View() == g && seen == {}
    {
      dicts, arrays, table := g.dicts, g.arrays, g.table;
      seen := {};
    }

    method PopUnsafe(d: Id)
      requires d in dicts
      modifies this`dicts
      ensures dicts == old(dicts)[d := old(dicts)[d] - UNSAFE]
    {
      assert old(dicts)[d] - KeySet([]) == old(dicts)[d];
      for i := 0 to |UNSAFE_PDF_KEYS|
        invariant dicts == old(dicts)[d := old(dicts)[d] - KeySet(UNSAFE_PDF_KEYS[..i])]
      {
        var popped := dicts[d] - {UNSAFE_PDF_KEYS[i]};
        assert popped == old(dicts)[d] - KeySet(UNSAFE_PDF_KEYS[..i + 1]);
        dicts := dicts[d := popped];
      }
      assert UNSAFE_PDF_KEYS[..|UNSAFE_PDF_KEYS|] == UNSAFE_PDF_KEYS;
    }

    /** The recursive traversal; the order in which a dictionary's entries are taken is left open. */
    method RemoveUnsafe(value: Value, ghost g: Graph, ghost universe: set<Marker>)
      requires WellFormed(g) && ValueIn(g, value) && MarkOf(value) in universe
      requires forall m, n :: m in universe && Edge(g, {}, m, n) ==> n in universe
      requires View() == Stripped(g, DictsSeen(g, seen))
      modifies this
      ensures View() == Stripped(g, DictsSeen(g, seen))
      ensures Explored(g, MarkOf(value), old(seen), seen) && MarkOf(value) in seen
      decreases universe - seen, 0
    {
      if value.Indirect? {
        if IndirectMark(value.ref) in seen {
          return;
        }
        Marking(g, seen, IndirectMark(value.ref));
        seen := seen + {IndirectMark(value.ref)};
      }
      var node := NodeOf(table, value);
      StartReaches(g, value);
      if DirectMark(node) in seen {
        return;
      }
      Marking(g, seen, DirectMark(node));
      seen := seen + {DirectMark(node)};
      ghost var base := seen;
      assert NodeIn(g, node) && DirectMark(node) in universe;
      match node {
        case DictNode(d) => RemoveFromDict(d, g, universe);
        case ArrayNode(a) => RemoveFromArray(a, g, universe);
        case _ =>
      }
      StartExplored(g, value, old(seen), base, seen);
    }

    method RemoveFromDict(d: Id, ghost g: Graph, ghost universe: set<Marker>)
      requires WellFormed(g) && d in g.dicts && DictMark(d) in universe && DictMark(d) in seen
      requires forall m, n :: m in universe && Edge(g, {}, m, n) ==> n in universe
      requires View() == Stripped(g, DictsSeen(g, seen) - {d})
      modifies this
      ensures View() == Stripped(g, DictsSeen(g, seen))
      ensures Explored(g, DictMark(d), old(seen), seen)
      ensures forall n :: Edge(g, UNSAFE + PARENT, DictMark(d), n) ==> n in seen
      decreases universe - seen, 2
    {
      Popping(g, DictsSeen(g, seen) - {d}, d);
      assert DictsSeen(g, seen) - {d} + {d} == DictsSeen(g, seen);
      PopUnsafe(d);
      RemoveFromEntries(d, dicts[d], g, universe);
      EntriesAreSuccessors(g, d, seen);
    }

    /** `for key, nested in tuple(value.items())`, over the entries as they were when the loop began. */
    method RemoveFromEntries(d: Id, items: map<string, Value>, ghost g: Graph, ghost universe: set<Marker>)
      requires WellFormed(g) && d in g.dicts && DictMark(d) in universe && DictMark(d) in seen && items == g.dicts[d] - UNSAFE
      requires forall m, n :: m in universe && Edge(g, {}, m, n) ==> n in universe
      requires View() == Stripped(g, DictsSeen(g, seen))
      modifies this
      ensures View() == Stripped(g, DictsSeen(g, seen))
      ensures Explored(g, DictMark(d), old(seen), seen)
      ensures forall k :: k in g.dicts[d] && k !in UNSAFE + PARENT ==> MarkOf(g.dicts[d][k]) in seen
      decreases universe - seen, 1
    {
      var keys := items.Keys;
      ReachSelf(g, UNSAFE + PARENT, DictMark(d));
      while keys != {}
        invariant keys <= items.Keys
        invariant View() == Stripped(g, DictsSeen(g, seen))
        invariant Explored(g, DictMark(d), old(seen), seen)
        invariant forall k :: k in items.Keys - keys && k != "/Parent" ==> MarkOf(items[k]) in seen
      {
        var k :| k in keys;
        keys := keys - {k};
        if k != "/Parent" {
          ghost var before := seen;
          assert universe - seen <= universe - old(seen);
          EntryReached(g, d, k);
          RemoveUnsafe(items[k], g, universe);
          ExploredFurther(g, DictMark(d), old(seen), before, MarkOf(items[k]), seen);
        }
      }
      assert forall k :: k in g.dicts[d] && k !in UNSAFE + PARENT ==> k in items.Keys - keys && items[k] == g.dicts[d][k];
    }

    method RemoveFromArray(a: Id, ghost g: Graph, ghost universe: set<Marker>)
      requires WellFormed(g) && a in g.arrays && ArrayMark(a) in universe && ArrayMark(a) in seen
      requires forall m, n :: m in universe && Edge(g, {}, m, n) ==> n in universe
      requires View() == Stripped(g, DictsSeen(g, seen))
      modifies this
      ensures View() == Stripped(g, DictsSeen(g, seen))
      ensures Explored(g, ArrayMark(a), old(seen), seen)
      ensures forall n :: Edge(g, UNSAFE + PARENT, ArrayMark(a), n) ==> n in seen
      decreases universe - seen, 1
    {
      var items := arrays[a];
      for i := 0 to |items|
        invariant View() == Stripped(g, DictsSeen(g, seen))
        invariant Explored(g, ArrayMark(a), old(seen), seen)
        invariant forall j :: 0 <= j < i ==> MarkOf(items[j]) in seen
      {
        ghost var before := seen;
        assert universe - seen <= universe - old(seen);
        assert ArrayEdge(g, a, i, MarkOf(items[i]));
        ReachSelf(g, UNSAFE + PARENT, MarkOf(items[i]));
        ReachStep(g, UNSAFE + PARENT, ArrayMark(a), MarkOf(items[i]), MarkOf(items[i]));
        RemoveUnsafe(items[i], g, universe);
        ExploredFurther(g, ArrayMark(a), old(seen), before, MarkOf(items[i]), seen);
      }
    }
  }

  // ------------------------------------------------------------------
  // What a whole traversal does
  // ------------------------------------------------------------------

  /** From nothing seen, exactly the reachable markers are met. */
  lemma ExploredIsReachable(g: Graph, start: Marker, after: set<Marker>, m: Marker)
    requires Explored(g, start, {}, after) && start in after
    ensures m in after <==> Reach(g, UNSAFE + PARENT, start, m)
  {
    if Reach(g, UNSAFE + PARENT, start, m) {
      var path :| PathBetween(g, UNSAFE + PARENT, path, start, m);
      ClosedHoldsReachable(g, UNSAFE + PARENT, after, path);
    }
  }

  lemma {:induction false} CleanedPathStaysCleanable(g: Graph, root: Value, path: seq<Marker>)
    requires IsPath(Stripped(g, DictsReached(g, root)), PARENT, path) && path[0] == MarkOf(root)
    ensures Cleanable(g, root, path[|path| - 1])
    decreases |path|
  {
    var h := Stripped(g, DictsReached(g, root));
    if |path| == 1 {
      ReachSelf(g, UNSAFE + PARENT, MarkOf(root));
    } else {
      var n := |path| - 1;
      assert IsPath(h, PARENT, path[..n]);
      CleanedPathStaysCleanable(g, root, path[..n]);
      assert Edge(h, PARENT, path[n - 1], path[n]);
      CleanedEdge(g, root, path[n - 1], path[n]);
      ReachSelf(g, UNSAFE + PARENT, path[n]);
      ReachStep(g, UNSAFE + PARENT, path[n - 1], path[n], path[n]);
      ReachTrans(g, MarkOf(root), path[n - 1], path[n]);
    }
  }

  lemma CleanedEdge(g: Graph, root: Value, m: Marker, n: Marker)
    requires Cleanable(g, root, m) && Edge(Stripped(g, DictsReached(g, root)), PARENT, m, n)
    ensures Edge(g, UNSAFE + PARENT, m, n)
  {
    var h := Stripped(g, DictsReached(g, root));
    match m
    case DirectMark(DictNode(d)) =>
      var k :| DictEdge(h, PARENT, d, k, n);
      assert DictEdge(g, UNSAFE + PARENT, d, k, n);
    case DirectMark(ArrayNode(a)) =>
      var i :| ArrayEdge(h, a, i, n);
      assert ArrayEdge(g, a, i, n);
    case _ =>
  }

  /**
   * In the cleaned graph no dictionary that the page reaches without following `/Parent` holds an unsafe key, and the
   * dictionaries the page reaches are those it reached before through entries that were kept.
   */
  lemma CleanedGraphIsSafe(g: Graph, root: Value, d: Id)
    requires d in g.dicts
    ensures var h := Stripped(g, DictsReached(g, root));
      && (Reach(h, PARENT, MarkOf(root), DictMark(d)) <==> Cleanable(g, root, DictMark(d)))
      && (Reach(h, PARENT, MarkOf(root), DictMark(d)) ==> h.dicts[d].Keys !! UNSAFE)
  {
    var h := Stripped(g, DictsReached(g, root));
    if Reach(h, PARENT, MarkOf(root), DictMark(d)) {
      var path :| PathBetween(h, PARENT, path, MarkOf(root), DictMark(d));
      CleanedPathStaysCleanable(g, root, path);
    }
    if Cleanable(g, root, DictMark(d)) {
      StrippedSameReach(g, DictsReached(g, root), MarkOf(root), DictMark(d));
      var path :| PathBetween(h, UNSAFE + PARENT, path, MarkOf(root), DictMark(d));
      forall i | 0 <= i < |path| - 1 ensures Edge(h, PARENT, path[i], path[i + 1]) {
        FewerSkippedMoreEdges(h, path[i], path[i + 1]);
      }
      assert PathBetween(h, PARENT, path, MarkOf(root), DictMark(d));
    }
  }

  lemma FewerSkippedMoreEdges(g: Graph, m: Marker, n: Marker)
    requires Edge(g, UNSAFE + PARENT, m, n)
    ensures Edge(g, PARENT, m, n)
  {
    if m.DirectMark? && m.node.DictNode? {
      var k :| DictEdge(g, UNSAFE + PARENT, m.node.dict, k, n);
      assert DictEdge(g, PARENT, m.node.dict, k, n);
    }
  }

  /** Deleting unsafe entries does not change what is reachable without them. */
  lemma StrippedSameReach(g: Graph, which: set<Id>, m: Marker, n: Marker)
    ensures Reach(Stripped(g, which), UNSAFE + PARENT, m, n) <==> Reach(g, UNSAFE + PARENT, m, n)
  {
    var h, skip := Stripped(g, which), UNSAFE + PARENT;
    forall a, b ensures Edge(g, skip, a, b) <==> Edge(h, skip, a, b) {
      StrippedSameEdge(g, which, a, b);
    }
    SameEdgesSameReach(g, skip, h, skip, m, n);
  }

  lemma StrippedSameEdge(g: Graph, which: set<Id>, a: Marker, b: Marker)
    ensures Edge(g, UNSAFE + PARENT, a, b) <==> Edge(Stripped(g, which), UNSAFE + PARENT, a, b)
  {
    var h, skip := Stripped(g, which), UNSAFE + PARENT;
    match a
    case DirectMark(DictNode(d)) =>
      assert forall k :: DictEdge(g, skip, d, k, b) <==> DictEdge(h, skip, d, k, b);
    case DirectMark(ArrayNode(arr)) =>
      assert forall i :: ArrayEdge(g, arr, i, b) <==> ArrayEdge(h, arr, i, b);
    case _ =>
  }

  /** Cleaning takes the ten unsafe entries from the dictionaries reached and leaves every other entry as it was. */
  lemma CleaningTakesOnlyUnsafeEntries(g: Graph, root: Value, d: Id, k: string)
    requires d in g.dicts
    ensures var h := Stripped(g, DictsReached(g, root));
      && h.arrays == g.arrays && h.table == g.table && h.dicts.Keys == g.dicts.Keys
      && (k in h.dicts[d] <==>
            k in g.dicts[d] && !(&& Cleanable(g, root, DictMark(d))
                                 && (|| k == "/A" || k == "/AA" || k == "/AF" || k == "/Annots" || k == "/EmbeddedFiles"
                                     || k == "/JavaScript" || k == "/JS" || k == "/Metadata" || k == "/Names" || k == "/OpenAction")))
      && (k in h.dicts[d] ==> h.dicts[d][k] == g.dicts[d][k])
  {
    var keys := UNSAFE_PDF_KEYS;
    assert keys[0] == "/A" && keys[1] == "/AA" && keys[2] == "/AF" && keys[3] == "/Annots" && keys[4] == "/EmbeddedFiles";
    assert keys[5] == "/JavaScript" && keys[6] == "/JS" && keys[7] == "/Metadata" && keys[8] == "/Names" && keys[9] == "/OpenAction";
  }

  // ------------------------------------------------------------------
  // What stands beyond chains of references
  // ------------------------------------------------------------------

  ghost predicate Unsafe(g: Graph, d: Id) {
    d in g.dicts && !(g.dicts[d].Keys !! UNSAFE)
  }

  /** No unsafe key anywhere in the document as it is to be read, without following `/Parent`. */
  ghost predicate SafeToRead(g: Graph, root: Value) {
    forall d :: Reach(Unchained(g), PARENT, MarkOf(root), DictMark(d)) ==> !Unsafe(g, d)
  }

  /** The cleaner meets a reference that resolves to a reference again, and beyond it is what it never comes to. */
  ghost predicate UnsafeBeyond(g: Graph, root: Value, next: ObjRef, d: Id) {
    && Unsafe(g, d) && !Cleanable(g, root, DictMark(d))
    && Beyond(g, UNSAFE + PARENT, MarkOf(root), next, DictMark(d))
  }

  lemma UnchainedStripped(g: Graph, which: set<Id>)
    ensures Unchained(Stripped(g, which)) == Stripped(Unchained(g), which)
  {
  }

  /** On the way to unsafe keys, the first dictionary that has some is come to without following such a key. */
  lemma {:induction false} FirstUnsafe(h: Graph, path: seq<Marker>, d: Id) returns (first: Id)
    requires path != [] && PathBetween(Unchained(h), PARENT, path, path[0], DictMark(d)) && Unsafe(h, d)
    ensures Unsafe(h, first) && Reach(Unchained(h), UNSAFE + PARENT, path[0], DictMark(first))
    decreases |path|
  {
    var u, m := Unchained(h), path[0];
    ReachSelf(u, UNSAFE + PARENT, m);
    if m.DirectMark? && m.node.DictNode? && Unsafe(h, m.node.dict) {
      first := m.node.dict;
    } else {
      var n := path[1];
      assert Edge(u, PARENT, m, n) && PathBetween(u, PARENT, path[1..], n, DictMark(d));
      first := FirstUnsafe(h, path[1..], d);
      if m.DirectMark? && m.node.DictNode? {
        var k :| DictEdge(u, PARENT, m.node.dict, k, n);
        assert DictEdge(u, UNSAFE + PARENT, m.node.dict, k, n);
      }
      ReachStep(u, UNSAFE + PARENT, m, n, DictMark(first));
    }
  }

  lemma FewerSkippedMoreReached(g: Graph, m: Marker, n: Marker)
    requires Reach(g, UNSAFE + PARENT, m, n)
    ensures Reach(g, PARENT, m, n)
  {
    var path :| PathBetween(g, UNSAFE + PARENT, path, m, n);
    forall i | 0 <= i < |path| - 1 ensures Edge(g, PARENT, path[i], path[i + 1]) {
      FewerSkippedMoreEdges(g, path[i], path[i + 1]);
    }
    assert PathBetween(g, PARENT, path, m, n);
  }

  /** The cleaned document is safe exactly if no chain that the cleaner meets leads to unsafe keys it never comes to. */
  lemma CleanedDocumentIsSafeIff(g: Graph, root: Value)
    requires WellFormed(g) && ValueIn(g, root)
    ensures SafeToRead(Stripped(g, DictsReached(g, root)), root) <==> !exists next, d :: UnsafeBeyond(g, root, next, d)
  {
    var which := DictsReached(g, root);
    var h := Stripped(g, which);
    UnchainedStripped(g, which);
    if !SafeToRead(h, root) {
      var d :| Reach(Unchained(h), PARENT, MarkOf(root), DictMark(d)) && Unsafe(h, d);
      var path :| PathBetween(Unchained(h), PARENT, path, MarkOf(root), DictMark(d));
      var first := FirstUnsafe(h, path, d);
      assert first !in which;
      StrippedSameReach(Unchained(g), which, MarkOf(root), DictMark(first));
      ReachedOrBeyond(g, UNSAFE + PARENT, root, first);
      var next :| Beyond(g, UNSAFE + PARENT, MarkOf(root), next, DictMark(first));
      assert UnsafeBeyond(g, root, next, first);
    }
    if next, d :| UnsafeBeyond(g, root, next, d) {
      ReachedOrBeyond(g, UNSAFE + PARENT, root, d);
      StrippedSameReach(Unchained(g), which, MarkOf(root), DictMark(d));
      FewerSkippedMoreReached(Unchained(h), MarkOf(root), DictMark(d));
      assert Unsafe(h, d);
    }
  }

  const PAGE := Direct(DictNode(1))

  /** A page whose resources are a reference to a reference to a dictionary with a script. */
  const SCRIPT_BEYOND_CHAIN := Graph(
    map[1 := map["/Resources" := Indirect(ObjRef(0, 2, 0))], 2 := map["/JS" := Direct(LeafNode(4, "script"))]], map[],
    map[ObjRef(0, 2, 0) := RefNode(ObjRef(0, 3, 0)), ObjRef(0, 3, 0) := DictNode(2)])

  const HEAD := IndirectMark(ObjRef(0, 2, 0))

  const CHAIN := DirectMark(RefNode(ObjRef(0, 3, 0)))

  lemma ScriptIsBeyondChain()
    ensures Beyond(SCRIPT_BEYOND_CHAIN, UNSAFE + PARENT, DictMark(1), ObjRef(0, 3, 0), DictMark(2))
  {
    var g, skip := SCRIPT_BEYOND_CHAIN, UNSAFE + PARENT;
    NamesOfKeys();
    assert DictEdge(g, skip, 1, "/Resources", HEAD);
    ReachSelf(g, skip, CHAIN);
    ReachStep(g, skip, HEAD, CHAIN, CHAIN);
    ReachStep(g, skip, DictMark(1), HEAD, CHAIN);
    EndOfNext(g.table, ObjRef(0, 3, 0));
    UnchainedResolves(g, ObjRef(0, 3, 0));
    ReachSelf(Unchained(g), skip, DictMark(2));
    ReachStep(Unchained(g), skip, IndirectMark(ObjRef(0, 3, 0)), DictMark(2), DictMark(2));
  }

  lemma ScriptIsNotReached()
    ensures !Cleanable(SCRIPT_BEYOND_CHAIN, PAGE, DictMark(2))
  {
    var g, skip := SCRIPT_BEYOND_CHAIN, UNSAFE + PARENT;
    if Cleanable(g, PAGE, DictMark(2)) {
      var path :| PathBetween(g, skip, path, DictMark(1), DictMark(2));
      ClosedHoldsReachable(g, skip, {DictMark(1), HEAD, CHAIN}, path);
    }
  }

  /** The cleaner takes the reference it is left with for a leaf, and the script stays. */
  lemma ScriptBeyondChainStays()
    ensures WellFormed(SCRIPT_BEYOND_CHAIN) && ValueIn(SCRIPT_BEYOND_CHAIN, PAGE)
    ensures !SafeToRead(Stripped(SCRIPT_BEYOND_CHAIN, DictsReached(SCRIPT_BEYOND_CHAIN, PAGE)), PAGE)
  {
    var g := SCRIPT_BEYOND_CHAIN;
    NamesOfKeys();
    ScriptIsBeyondChain();
    ScriptIsNotReached();
    assert "/JS" in g.dicts[2].Keys * UNSAFE;
    assert UnsafeBeyond(g, PAGE, ObjRef(0, 3, 0), 2);
    CleanedDocumentIsSafeIff(g, PAGE);
  }

  lemma NamesOfKeys()
    ensures "/JS" in UNSAFE && "/Resources" !in UNSAFE + PARENT
  {
    assert UNSAFE_PDF_KEYS[6] == "/JS";
    forall k | k in UNSAFE_PDF_KEYS ensures k != "/Resources" {}
  }

  /** Cleaning the pages of a document one after the other deletes what each of them reached in the original. */
  lemma CleaningComposes(g: Graph, which: set<Id>, root: Value)
    ensures DictsReached(Stripped(g, which), root) == DictsReached(g, root)
    ensures Stripped(Stripped(g, which), DictsReached(g, root)) == Stripped(g, which + DictsReached(g, root))
  {
    forall d | d in g.dicts
      ensures Cleanable(Stripped(g, which), root, DictMark(d)) <==> Cleanable(g, root, DictMark(d))
    {
      StrippedSameReach(g, which, MarkOf(root), DictMark(d));
    }
    StrippedTwice(g, which, DictsReached(g, root));
  }

  lemma StrippedTwice(g: Graph, a: set<Id>, b: set<Id>)
    ensures Stripped(Stripped(g, a), b) == Stripped(g, a + b)
  {
    assert forall d :: d in g.dicts ==> (g.dicts[d] - UNSAFE) - UNSAFE == g.dicts[d] - UNSAFE;
  }

  /** Cleaning a cleaned page changes nothing. */
  lemma CleaningIsIdempotent(g: Graph, root: Value)
    ensures var h := Stripped(g, DictsReached(g, root));
            Stripped(h, DictsReached(h, root)) == h
  {
    CleaningComposes(g, DictsReached(g, root), root);
    assert DictsReached(g, root) + DictsReached(g, root) == DictsReached(g, root);
  }

  ghost function ReachedFromAny(g: Graph, pages: seq<Value>): set<Id> {
    set d | d in g.dicts && exists i :: 0 <= i < |pages| && d in DictsReached(g, pages[i])
  }

  method CleanPage(cleaner: Cleaner, root: Value)
    requires WellFormed(cleaner.View()) && ValueIn(cleaner.View(), root)
    modifies cleaner
    ensures cleaner.View() == Stripped(old(cleaner.View()), DictsReached(old(cleaner.View()), root))
  {
    ghost var g := cleaner.View();
    cleaner.seen := {};
    assert DictsSeen(g, {}) == {} && Stripped(g, {}) == g;
    forall m, n | m in Universe(g, root) && Edge(g, {}, m, n) ensures n in Universe(g, root) {
      UniverseIsClosed(g, root, m, n);
    }
    cleaner.RemoveUnsafe(root, g, Universe(g, root));
    forall d | d in g.dicts ensures DictMark(d) in cleaner.seen <==> Cleanable(g, root, DictMark(d)) {
      ExploredIsReachable(g, MarkOf(root), cleaner.seen, DictMark(d));
    }
    assert DictsSeen(g, cleaner.seen) == DictsReached(g, root);
  }

  /** `build_pdf_package` cleans every page of a source with a fresh set of seen objects. */
  method CleanPages(cleaner: Cleaner, pages: seq<Value>)
    requires WellFormed(cleaner.View()) && forall i :: 0 <= i < |pages| ==> ValueIn(cleaner.View(), pages[i])
    modifies cleaner
    ensures cleaner.View() == Stripped(old(cleaner.View()), ReachedFromAny(old(cleaner.View()), pages))
  {
    ghost var g := cleaner.View();
    assert ReachedFromAny(g, pages[..0]) == {} && Stripped(g, {}) == g;
    for i := 0 to |pages|
      invariant cleaner.View() == Stripped(g, ReachedFromAny(g, pages[..i]))
    {
      StrippedIsWellFormed(g, ReachedFromAny(g, pages[..i]));
      CleaningComposes(g, ReachedFromAny(g, pages[..i]), pages[i]);
      CleanPage(cleaner, pages[i]);
      OneMorePage(g, pages, i);
    }
    assert pages[..|pages|] == pages;
  }

  lemma StrippedIsWellFormed(g: Graph, which: set<Id>)
    requires WellFormed(g)
    ensures WellFormed(Stripped(g, which))
    ensures forall v :: ValueIn(g, v) ==> ValueIn(Stripped(g, which), v)
  {
    var h := Stripped(g, which);
    forall d, k | d in h.dicts && k in h.dicts[d] ensures ValueIn(h, h.dicts[d][k]) {
      assert ValueIn(g, g.dicts[d][k]);
    }
  }

  lemma OneMorePage(g: Graph, pages: seq<Value>, i: nat)
    requires i < |pages|
    ensures ReachedFromAny(g, pages[..i + 1]) == ReachedFromAny(g, pages[..i]) + DictsReached(g, pages[i])
  {
    forall d | d in ReachedFromAny(g, pages[..i]) + DictsReached(g, pages[i]) ensures d in ReachedFromAny(g, pages[..i + 1]) {
      if d in DictsReached(g, pages[i]) {
        assert pages[..i + 1][i] == pages[i];
      } else {
        var j :| 0 <= j < i && d in DictsReached(g, pages[..i][j]);
        assert pages[..i + 1][j] == pages[j];
      }
    }
  }

  lemma Marking(g: Graph, seen: set<Marker>, m: Marker)
    requires m !in seen
    ensures m.DirectMark? && m.node.DictNode? ==> DictsSeen(g, seen + {m}) - {m.node.dict} == DictsSeen(g, seen)
    ensures !(m.DirectMark? && m.node.DictNode?) ==> DictsSeen(g, seen + {m}) == DictsSeen(g, seen)
  {
  }

  lemma Popping(g: Graph, which: set<Id>, d: Id)
    requires d in g.dicts && d !in which
    ensures Stripped(g, which).dicts[d] == g.dicts[d]
    ensures Stripped(g, which).dicts[d := g.dicts[d] - UNSAFE] == Stripped(g, which + {d}).dicts
  {
  }

  lemma EntryReached(g: Graph, d: Id, k: string)
    requires WellFormed(g) && d in g.dicts && k in g.dicts[d] && k !in UNSAFE + PARENT
    ensures ValueIn(g, g.dicts[d][k])
    ensures Edge(g, {}, DictMark(d), MarkOf(g.dicts[d][k]))
    ensures Reach(g, UNSAFE + PARENT, DictMark(d), MarkOf(g.dicts[d][k]))
  {
    var n := MarkOf(g.dicts[d][k]);
    assert DictEdge(g, {}, d, k, n) && DictEdge(g, UNSAFE + PARENT, d, k, n);
    ReachSelf(g, UNSAFE + PARENT, n);
    ReachStep(g, UNSAFE + PARENT, DictMark(d), n, n);
  }

  lemma EntriesAreSuccessors(g: Graph, d: Id, seen: set<Marker>)
    requires d in g.dicts
    requires forall k :: k in g.dicts[d] && k !in UNSAFE + PARENT ==> MarkOf(g.dicts[d][k]) in seen
    ensures forall n :: Edge(g, UNSAFE + PARENT, DictMark(d), n) ==> n in seen
  {
    forall n | Edge(g, UNSAFE + PARENT, DictMark(d), n) ensures n in seen {
      var k :| DictEdge(g, UNSAFE + PARENT, d, k, n);
    }
  }

  lemma StartReaches(g: Graph, value: Value)
    ensures Reach(g, UNSAFE + PARENT, MarkOf(value), MarkOf(value))
    ensures Reach(g, UNSAFE + PARENT, MarkOf(value), DirectMark(NodeOf(g.table, value)))
    ensures value.Indirect? ==> Edge(g, {}, MarkOf(value), DirectMark(NodeOf(g.table, value)))
  {
    ReachSelf(g, UNSAFE + PARENT, MarkOf(value));
    if value.Indirect? {
      ReachSelf(g, UNSAFE + PARENT, DirectMark(NodeOf(g.table, value)));
      ReachStep(g, UNSAFE + PARENT, MarkOf(value), DirectMark(NodeOf(g.table, value)), DirectMark(NodeOf(g.table, value)));
    }
  }

  /** Once the node behind a value is explored, so is the value. */
  lemma StartExplored(g: Graph, value: Value, before: set<Marker>, base: set<Marker>, after: set<Marker>)
    requires var m := DirectMark(NodeOf(g.table, value));
      && base == before + {MarkOf(value), m}
      && Explored(g, m, base, after)
      && (forall n :: Edge(g, UNSAFE + PARENT, m, n) ==> n in after)
    ensures Explored(g, MarkOf(value), before, after)
  {
    StartReaches(g, value);
    forall n | n in after && n !in before ensures Reach(g, UNSAFE + PARENT, MarkOf(value), n) {
      if n !in base { ReachTrans(g, MarkOf(value), DirectMark(NodeOf(g.table, value)), n); }
    }
  }
}
