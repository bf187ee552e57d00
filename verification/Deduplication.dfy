/**
 * The repairs made before reconciliation: works without any field, and copies of one title
 * (app/importer/publication_reconciliation.py, `_quarantine_empty_legacy_works` and `_deduplicate_exact_title_works`).
 */
module Deduplication {
  import opened Base
  import opened Manifest

  const MEANINGFUL := [Doi, AuthorsText, Title, Journal, PublicationYear]

  predicate Empty(w: Work) {
    forall f :: f in MEANINGFUL ==> Blank(w.metadata, f)
  }

  function Quarantined(w: Work): Work {
    if Empty(w) && w.review.disposition in {None, Some(PENDING)} then
      w.(review := Review(Some(REJECTED), "Empty legacy parser artifact with no bibliographic fields.", EmptyArtifact(w.review.disposition)))
    else w
  }

  function Rank(w: Work): nat {
    match w.review.disposition
    case None => 0
    case Some(d) =>
      if d == PUBLISHED then 5 else if d == "ACCEPTED_PREPRINT" then 4 else if d == "UNDER_PREPARATION" then 3
      else if d == PENDING then 2 else if d == REJECTED then 1 else 0
  }

  function Weight(w: Work): nat {
    (if Blank(w.metadata, Doi) then 0 else 2) + (if w.status == RESOLVED then 1 else 0)
  }

  predicate Better(v: Work, w: Work) {
    Rank(v) > Rank(w) || (Rank(v) == Rank(w) && Weight(v) > Weight(w))
  }

  predicate Titled(env: Environment, w: Work) {
    |KeyOf(env, w)| >= 16
  }

  function GroupOf(env: Environment, w: Work): (string, string) {
    (w.folder, KeyOf(env, w))
  }

  predicate Twins(env: Environment, v: Work, w: Work) {
    Titled(env, v) && GroupOf(env, v) == GroupOf(env, w)
  }

  predicate Leads(works: seq<Work>, p: nat, j: nat)
    requires p < |works| && j < |works|
  {
    if j < p then Better(works[p], works[j]) else !Better(works[j], works[p])
  }

  /** The first of the best copies. */
  ghost predicate IsPrimary(env: Environment, works: seq<Work>, p: nat) {
    p < |works| && Titled(env, works[p])
    && forall j :: 0 <= j < |works| && Twins(env, works[p], works[j]) ==> Leads(works, p, j)
  }

  function SetAside(w: Work, primary: WorkId): Work {
    w.(review := Review(Some(REJECTED), "Exact-title duplicate of canonical work", DuplicateOf(primary)))
  }

  /** Every titled work but the primary one of its group is set aside in favour of the primary. */
  ghost predicate DeduplicatedAt(env: Environment, works: seq<Work>, i: nat, w: Work)
    requires i < |works|
  {
    if Titled(env, works[i]) && !IsPrimary(env, works, i) then
      exists p: nat :: IsPrimary(env, works, p) && Twins(env, works[i], works[p]) && w == SetAside(works[i], works[p].id)
    else w == works[i]
  }

  ghost predicate Deduplicated(env: Environment, works: seq<Work>, after: seq<Work>) {
    |after| == |works| && forall i :: 0 <= i < |works| ==> DeduplicatedAt(env, works, i, after[i])
  }

  function AllQuarantined(works: seq<Work>): seq<Work> {
    seq(|works|, i requires 0 <= i < |works| => Quarantined(works[i]))
  }

  /** Both repairs, as a run begins with them. */
  ghost predicate Repairs(env: Environment, works: seq<Work>, repaired: seq<Work>) {
    Deduplicated(env, AllQuarantined(works), repaired)
  }

  // ------------------------------------------------------------------
  // The repairs as the program makes them
  // ------------------------------------------------------------------

  type Groups = map<(string, string), seq<nat>>

  /** The indices below `n` of the works of one group, in order. */
  ghost predicate Members(env: Environment, works: seq<Work>, n: nat, g: (string, string), members: seq<nat>) {
    && (forall a, b :: 0 <= a < b < |members| ==> members[a] < members[b])
    && (forall i :: i in members ==> InGroup(env, works, n, g, i))
    && (forall i :: InGroup(env, works, n, g, i) ==> i in members)
  }

  predicate InGroup(env: Environment, works: seq<Work>, n: nat, g: (string, string), i: nat) {
    i < n && i < |works| && Titled(env, works[i]) && GroupOf(env, works[i]) == g
  }

  ghost predicate Grouped(env: Environment, works: seq<Work>, groups: Groups, n: nat) {
    && (forall g :: g in groups ==> groups[g] != [] && Members(env, works, n, g, groups[g]))
    && (forall i :: 0 <= i < n && i < |works| && Titled(env, works[i]) ==> GroupOf(env, works[i]) in groups)
  }

  lemma MembersGrow(env: Environment, works: seq<Work>, n: nat, g: (string, string), members: seq<nat>)
    requires n < |works| && Members(env, works, n, g, members)
    ensures Members(env, works, n + 1, g, if InGroup(env, works, n + 1, g, n) then members + [n] else members)
  {
    var more := if InGroup(env, works, n + 1, g, n) then members + [n] else members;
    forall i ensures i in more <==> InGroup(env, works, n + 1, g, i) {
      assert i in members <==> InGroup(env, works, n, g, i);
    }
    assert forall a :: 0 <= a < |members| ==> members[a] in members;
  }

  function WithMember(env: Environment, works: seq<Work>, groups: Groups, i: nat): Groups
    requires i < |works|
  {
    var g := GroupOf(env, works[i]);
    if Titled(env, works[i]) then groups[g := (if g in groups then groups[g] else []) + [i]] else groups
  }

  lemma GroupedOneMore(env: Environment, works: seq<Work>, groups: Groups, i: nat)
    requires i < |works| && Grouped(env, works, groups, i)
    ensures Grouped(env, works, WithMember(env, works, groups, i), i + 1)
  {
    var more := WithMember(env, works, groups, i);
    forall g | g in more ensures more[g] != [] && Members(env, works, i + 1, g, more[g]) {
      if g !in groups {
        forall k ensures !InGroup(env, works, i, g, k) {}
        assert Members(env, works, i, g, []);
        MembersGrow(env, works, i, g, []);
      } else {
        MembersGrow(env, works, i, g, groups[g]);
      }
    }
  }

  /** Each group once, in the order in which Python's dictionary keeps them. */
  ghost predicate Lists(order: seq<(string, string)>, groups: Groups) {
    && (forall g :: g in groups <==> g in order)
    && forall a, b :: 0 <= a < b < |order| ==> order[a] != order[b]
  }

  lemma ListsOneMore(order: seq<(string, string)>, groups: Groups, g: (string, string), members: seq<nat>)
    requires Lists(order, groups) && g !in groups
    ensures Lists(order + [g], groups[g := members])
  {
    assert forall a :: 0 <= a < |order| ==> order[a] in order;
  }

  class Repair {
    const env: Environment
    var works: seq<Work>
    var touched: set<string>

    constructor (env: Environment, works: seq<Work>)
      ensures this.env == env && this.works == works && touched == {}
    {
      this.env, this.works, touched := env, works, {};
    }

    method QuarantineEmpty()
      modifies this
      ensures |works| == old(|works|) && forall i :: 0 <= i < |works| ==> works[i] == Quarantined(old(works[i]))
    {
      for i := 0 to |works|
        invariant |works| == old(|works|)
        invariant forall k :: 0 <= k < |works| ==> works[k] == if k < i then Quarantined(old(works[k])) else old(works[k])
      {
        var w := works[i];
        if Empty(w) && w.review.disposition in {None, Some(PENDING)} {
          works := works[i := Quarantined(w)];
          touched := touched + {w.folder};
        }
      }
    }

    method Group() returns (groups: Groups, order: seq<(string, string)>)
      ensures Grouped(env, works, groups, |works|)
      ensures Lists(order, groups)
    {
      groups, order := map[], [];
      for i := 0 to |works|
        invariant Grouped(env, works, groups, i) && Lists(order, groups)
      {
        ghost var before := groups;
        if Titled(env, works[i]) {
          var g := GroupOf(env, works[i]);
          if g in groups {
            groups := groups[g := groups[g] + [i]];
          } else {
            ListsOneMore(order, groups, g, [i]);
            groups, order := groups[g := [i]], order + [g];
          }
        }
        assert [] + [i] == [i] && groups == WithMember(env, works, before, i);
        GroupedOneMore(env, works, before, i);
      }
    }

    /** The first member that no other member betters. */
    method Best(members: seq<nat>) returns (p: nat)
      requires members != [] && forall a :: 0 <= a < |members| ==> members[a] < |works|
      ensures exists a :: 0 <= a < |members| && p == members[a]
                     && (forall b :: 0 <= b < a ==> Better(works[p], works[members[b]]))
                     && forall b :: a <= b < |members| ==> !Better(works[members[b]], works[p])
    {
      var a := 0;
      for k := 1 to |members|
        invariant a < |members|
        invariant a < k
        invariant forall b :: 0 <= b < a ==> Better(works[members[a]], works[members[b]])
        invariant forall b :: a <= b < k ==> !Better(works[members[b]], works[members[a]])
      {
        if Better(works[members[k]], works[members[a]]) { a := k; }
      }
      p := members[a];
    }

    method SetOthersAside(members: seq<nat>, p: nat)
      requires p < |works| && forall a :: 0 <= a < |members| ==> members[a] < |works|
      modifies this
      ensures |works| == old(|works|)
      ensures forall i :: 0 <= i < |works| ==>
                works[i] == if i in members && i != p then SetAside(old(works[i]), old(works[p].id)) else old(works[i])
    {
      var id := works[p].id;
      for a := 0 to |members|
        invariant |works| == old(|works|)
        invariant forall i :: 0 <= i < |works| ==>
                    works[i] == if i in members[..a] && i != p then SetAside(old(works[i]), id) else old(works[i])
      {
        var i := members[a];
        if i != p {
          touched := touched + {works[i].folder};
          works := works[i := SetAside(works[i], id)];
        }
      }
      assert members[..|members|] == members;
    }

    method Deduplicate()
      modifies this
      ensures Deduplicated(env, old(works), works)
    {
      ghost var start := works;
      var groups, order := Group();
      for k := 0 to |order|
        invariant |works| == |start|
        invariant forall i :: 0 <= i < |start| ==> DoneAt(env, start, order[..k], i, works[i])
      {
        DeduplicateGroup(groups[order[k]], order[k], start, order[..k]);
        assert order[..k + 1] == order[..k] + [order[k]];
      }
      assert order[..|order|] == order;
    }

    method DeduplicateGroup(members: seq<nat>, g: (string, string), ghost start: seq<Work>, ghost done: seq<(string, string)>)
      requires members != [] && Members(env, start, |start|, g, members) && g !in done
      requires |works| == |start| && forall i :: 0 <= i < |start| ==> DoneAt(env, start, done, i, works[i])
      modifies this
      ensures |works| == |start| && forall i :: 0 <= i < |start| ==> DoneAt(env, start, done + [g], i, works[i])
    {
      ghost var before := works;
      MembersUntouched(env, start, works, g, members, done);
      var p := Best(members);
      BestIsPrimary(env, start, g, members, p);
      if |members| >= 2 {
        SetOthersAside(members, p);
      } else {
        assert p in members;
      }
      GroupDone(env, start, before, works, g, members, done, p);
    }
  }

  lemma MembersUntouched(env: Environment, start: seq<Work>, works: seq<Work>, g: (string, string), members: seq<nat>, done: seq<(string, string)>)
    requires Members(env, start, |start|, g, members) && g !in done
    requires |works| == |start| && forall i :: 0 <= i < |start| ==> DoneAt(env, start, done, i, works[i])
    ensures forall a :: 0 <= a < |members| ==> members[a] < |start| && works[members[a]] == start[members[a]]
  {
    forall a | 0 <= a < |members| ensures members[a] < |start| && works[members[a]] == start[members[a]] {
      assert InGroup(env, start, |start|, g, members[a]);
      assert DoneAt(env, start, done, members[a], works[members[a]]);
    }
  }

  lemma GroupDone(env: Environment, start: seq<Work>, before: seq<Work>, works: seq<Work>, g: (string, string), members: seq<nat>,
                  done: seq<(string, string)>, p: nat)
    requires Members(env, start, |start|, g, members) && g !in done
    requires |before| == |start| && forall i :: 0 <= i < |start| ==> DoneAt(env, start, done, i, before[i])
    requires IsPrimary(env, start, p) && InGroup(env, start, |start|, g, p)
    requires |works| == |start| && forall i :: 0 <= i < |start| ==>
               works[i] == if i in members && i != p then SetAside(before[i], before[p].id) else before[i]
    ensures forall i :: 0 <= i < |start| ==> DoneAt(env, start, done + [g], i, works[i])
  {
    forall i | 0 <= i < |start| ensures DoneAt(env, start, done + [g], i, works[i]) {
      assert DoneAt(env, start, done, i, before[i]) && DoneAt(env, start, done, p, before[p]);
      assert i in members <==> InGroup(env, start, |start|, g, i);
      if i in members { MemberDone(env, start, i, p); }
    }
  }

  /** The work once the groups listed have been gone through. */
  ghost predicate DoneAt(env: Environment, works: seq<Work>, done: seq<(string, string)>, i: nat, w: Work)
    requires i < |works|
  {
    if Titled(env, works[i]) && GroupOf(env, works[i]) in done then DeduplicatedAt(env, works, i, w) else w == works[i]
  }

  lemma BestIsPrimary(env: Environment, works: seq<Work>, g: (string, string), members: seq<nat>, p: nat)
    requires Members(env, works, |works|, g, members) && p < |works| && forall a :: 0 <= a < |members| ==> members[a] < |works|
    requires exists a :: 0 <= a < |members| && p == members[a]
                  && (forall b :: 0 <= b < a ==> Better(works[p], works[members[b]]))
                  && forall b :: a <= b < |members| ==> !Better(works[members[b]], works[p])
    ensures IsPrimary(env, works, p) && InGroup(env, works, |works|, g, p)
  {
    var a :| 0 <= a < |members| && p == members[a]
             && (forall b :: 0 <= b < a ==> Better(works[p], works[members[b]]))
             && forall b :: a <= b < |members| ==> !Better(works[members[b]], works[p]);
    assert InGroup(env, works, |works|, g, p);
    forall j | 0 <= j < |works| && Twins(env, works[p], works[j])
      ensures Leads(works, p, j)
    {
      assert InGroup(env, works, |works|, g, j);
      var b :| 0 <= b < |members| && members[b] == j;
    }
  }

  lemma PrimaryIsUnique(env: Environment, works: seq<Work>, p: nat, q: nat)
    requires IsPrimary(env, works, p) && IsPrimary(env, works, q) && Twins(env, works[p], works[q])
    ensures p == q
  {
    assert Leads(works, p, q) && Leads(works, q, p);
  }

  lemma MemberDone(env: Environment, works: seq<Work>, i: nat, p: nat)
    requires i < |works| && IsPrimary(env, works, p) && Twins(env, works[p], works[i])
    ensures DeduplicatedAt(env, works, i, if i != p then SetAside(works[i], works[p].id) else works[i])
  {
    if IsPrimary(env, works, i) { PrimaryIsUnique(env, works, i, p); }
  }

  // ------------------------------------------------------------------
  // One pass, and another
  // ------------------------------------------------------------------

  lemma DeduplicatedKeeps(env: Environment, works: seq<Work>, after: seq<Work>)
    requires Deduplicated(env, works, after)
    ensures forall i :: 0 <= i < |works| ==>
              && after[i] == works[i].(review := after[i].review) && KeyOf(env, after[i]) == KeyOf(env, works[i])
              && (after[i] == works[i] || after[i].review.disposition == Some(REJECTED))
              && (IsPrimary(env, works, i) ==> after[i] == works[i])
  {
    forall i | 0 <= i < |works| ensures
        && after[i] == works[i].(review := after[i].review) && KeyOf(env, after[i]) == KeyOf(env, works[i])
        && (after[i] == works[i] || after[i].review.disposition == Some(REJECTED))
        && (IsPrimary(env, works, i) ==> after[i] == works[i]) {
      assert DeduplicatedAt(env, works, i, after[i]);
    }
  }

  /** Afterwards an applicant has at most one standing work of a long title. */
  lemma AtMostOneStanding(env: Environment, works: seq<Work>, after: seq<Work>, i: nat, j: nat)
    requires Deduplicated(env, works, after) && i < j < |works| && Twins(env, works[i], works[j])
    ensures !(Standing(works[i].folder, after[i]) && Standing(works[j].folder, after[j]))
  {
    assert DeduplicatedAt(env, works, i, after[i]) && DeduplicatedAt(env, works, j, after[j]);
    if IsPrimary(env, works, i) && IsPrimary(env, works, j) { PrimaryIsUnique(env, works, i, j); }
  }

  /** The best copy of each title is left as it was. */
  lemma BestCopyIsKept(env: Environment, works: seq<Work>, after: seq<Work>, i: nat) returns (p: nat)
    requires Deduplicated(env, works, after) && i < |works| && Titled(env, works[i])
    ensures p < |works| && Twins(env, works[i], works[p]) && after[p] == works[p] && !Better(works[i], works[p])
  {
    assert DeduplicatedAt(env, works, i, after[i]);
    if IsPrimary(env, works, i) {
      p := i;
    } else {
      var q: nat :| q < |works| && IsPrimary(env, works, q) && Twins(env, works[i], works[q]);
      p := q;
    }
    assert DeduplicatedAt(env, works, p, after[p]);
  }

  /** The primary would also lead a copy that has been set aside. */
  predicate Outlasts(works: seq<Work>, p: nat, j: nat)
    requires p < |works| && j < |works|
  {
    Rank(works[p]) >= 2 || (Rank(works[p]) == 1 && (Weight(works[p]) > Weight(works[j]) || (Weight(works[p]) == Weight(works[j]) && p < j)))
  }

  ghost predicate OutlastsAll(env: Environment, works: seq<Work>, p: nat)
    requires p < |works|
  {
    forall j :: 0 <= j < |works| && j != p && Twins(env, works[p], works[j]) ==> Outlasts(works, p, j)
  }

  lemma CopyIsSetAside(env: Environment, works: seq<Work>, after: seq<Work>, p: nat, j: nat)
    requires Deduplicated(env, works, after) && IsPrimary(env, works, p)
    requires j < |works| && j != p && Twins(env, works[p], works[j])
    ensures after[j] == SetAside(works[j], works[p].id)
  {
    assert DeduplicatedAt(env, works, j, after[j]);
    if IsPrimary(env, works, j) { PrimaryIsUnique(env, works, p, j); }
    var q: nat :| q < |works| && IsPrimary(env, works, q) && Twins(env, works[j], works[q]) && after[j] == SetAside(works[j], works[q].id);
    PrimaryIsUnique(env, works, p, q);
  }

  /** The primary stays primary exactly when it is reviewed, and better than a mere artifact unless all copies are ones. */
  lemma PrimaryLastsIff(env: Environment, works: seq<Work>, after: seq<Work>, p: nat)
    requires Deduplicated(env, works, after) && IsPrimary(env, works, p)
    ensures IsPrimary(env, after, p) <==> OutlastsAll(env, works, p)
  {
    DeduplicatedKeeps(env, works, after);
    forall j | 0 <= j < |works| && j != p && Twins(env, works[p], works[j])
      ensures Outlasts(works, p, j) <==> Leads(after, p, j)
    {
      CopyIsSetAside(env, works, after, p, j);
      assert Rank(after[j]) == 1 && Weight(after[j]) == Weight(works[j]) && after[p] == works[p];
    }
    forall j | 0 <= j < |works| ensures Twins(env, after[p], after[j]) <==> Twins(env, works[p], works[j]) {}
    if IsPrimary(env, after, p) {
      forall j | 0 <= j < |works| && j != p && Twins(env, works[p], works[j]) ensures Outlasts(works, p, j) {
        assert Twins(env, after[p], after[j]);
      }
    }
  }

  /** The first of the heaviest copies. */
  ghost predicate Heaviest(env: Environment, works: seq<Work>, q: nat) {
    q < |works| && Titled(env, works[q])
    && forall j :: 0 <= j < |works| && Twins(env, works[q], works[j]) ==> Outweighs(works, q, j)
  }

  predicate Outweighs(works: seq<Work>, q: nat, j: nat)
    requires q < |works| && j < |works|
  {
    if j < q then Weight(works[q]) > Weight(works[j]) else Weight(works[j]) <= Weight(works[q])
  }

  lemma SetAsideRank(env: Environment, works: seq<Work>, after: seq<Work>, p: nat, j: nat)
    requires Deduplicated(env, works, after) && IsPrimary(env, works, p) && Rank(works[p]) == 1
    requires j < |works| && Twins(env, works[p], works[j])
    ensures Rank(after[j]) == 1 && Weight(after[j]) == Weight(works[j])
  {
    if j == p {
      assert DeduplicatedAt(env, works, p, after[p]);
    } else {
      CopyIsSetAside(env, works, after, p, j);
    }
  }

  lemma TwinsStayTwins(env: Environment, works: seq<Work>, after: seq<Work>, i: nat, j: nat)
    requires Deduplicated(env, works, after) && i < |works| && j < |works|
    ensures Twins(env, after[i], after[j]) <==> Twins(env, works[i], works[j])
  {
    assert DeduplicatedAt(env, works, i, after[i]) && DeduplicatedAt(env, works, j, after[j]);
  }

  lemma TwinsTrans(env: Environment, u: Work, v: Work, w: Work)
    requires Twins(env, u, v)
    ensures Twins(env, v, w) <==> Twins(env, u, w)
  {
  }

  /** Once a group consists of works set aside, only weight and position decide. */
  lemma HeaviestLeads(env: Environment, works: seq<Work>, after: seq<Work>, p: nat, q: nat)
    requires Deduplicated(env, works, after) && IsPrimary(env, works, p) && Rank(works[p]) == 1
    requires q < |works| && Twins(env, works[p], works[q])
    ensures IsPrimary(env, after, q) <==> Heaviest(env, works, q)
  {
    TwinsStayTwins(env, works, after, q, q);
    forall j | 0 <= j < |works|
      ensures Twins(env, after[q], after[j]) <==> Twins(env, works[q], works[j])
      ensures Twins(env, works[q], works[j]) ==> (Leads(after, q, j) <==> Outweighs(works, q, j))
    {
      TwinsStayTwins(env, works, after, q, j);
      TwinsTrans(env, works[p], works[q], works[j]);
      if Twins(env, works[q], works[j]) {
        SetAsideRank(env, works, after, p, q);
        SetAsideRank(env, works, after, p, j);
      }
    }
  }

  /** The primary was already set aside in favour of the heaviest copy, which then changes places with it to no effect. */
  ghost predicate Swapped(env: Environment, works: seq<Work>, p: nat, q: nat)
    requires p < |works|
  {
    && q != p && Heaviest(env, works, q) && Twins(env, works[p], works[q])
    && works[p] == SetAside(works[p], works[q].id)
    && forall j :: 0 <= j < |works| && j != p && j != q && Twins(env, works[p], works[j]) ==> works[p].id == works[q].id
  }

  ghost predicate Settles(env: Environment, works: seq<Work>, p: nat)
    requires p < |works|
  {
    OutlastsAll(env, works, p) || exists q: nat :: Swapped(env, works, p, q)
  }

  lemma PrimaryStays(env: Environment, works: seq<Work>, after: seq<Work>, p: nat)
    requires Deduplicated(env, works, after) && IsPrimary(env, works, p)
    ensures after[p] == works[p]
  {
    assert DeduplicatedAt(env, works, p, after[p]);
  }

  lemma LastingGroupStays(env: Environment, works: seq<Work>, after: seq<Work>, again: seq<Work>, p: nat, i: nat)
    requires Deduplicated(env, works, after) && Deduplicated(env, after, again)
    requires IsPrimary(env, works, p) && OutlastsAll(env, works, p) && i < |works| && Twins(env, works[p], works[i])
    ensures again[i] == after[i]
  {
    PrimaryLastsIff(env, works, after, p);
    PrimaryStays(env, works, after, p);
    PrimaryStays(env, after, again, p);
    if i != p {
      TwinsStayTwins(env, works, after, p, i);
      CopyIsSetAside(env, works, after, p, i);
      CopyIsSetAside(env, after, again, p, i);
    }
  }

  lemma SwappedGroupStays(env: Environment, works: seq<Work>, after: seq<Work>, again: seq<Work>, p: nat, q: nat, i: nat)
    requires Deduplicated(env, works, after) && Deduplicated(env, after, again)
    requires IsPrimary(env, works, p) && Swapped(env, works, p, q) && i < |works| && Twins(env, works[p], works[i])
    ensures again[i] == after[i]
  {
    HeaviestLeads(env, works, after, p, q);
    PrimaryStays(env, works, after, p);
    PrimaryStays(env, after, again, q);
    CopyIsSetAside(env, works, after, p, q);
    if i != q {
      TwinsTrans(env, works[p], works[q], works[i]);
      TwinsStayTwins(env, works, after, q, i);
      CopyIsSetAside(env, after, again, q, i);
      if i != p { CopyIsSetAside(env, works, after, p, i); }
    }
  }

  /** The copy that displaces a primary that does not last, if that changes nothing. */
  lemma DisplacedToNoEffect(env: Environment, works: seq<Work>, after: seq<Work>, p: nat) returns (q: nat)
    requires Deduplicated(env, works, after) && Deduplicated(env, after, after)
    requires IsPrimary(env, works, p) && !OutlastsAll(env, works, p)
    ensures q < |works| && q != p && Twins(env, works[p], works[q]) && IsPrimary(env, after, q)
    ensures works[p] == SetAside(works[p], works[q].id)
  {
    PrimaryLastsIff(env, works, after, p);
    PrimaryStays(env, works, after, p);
    assert DeduplicatedAt(env, after, p, after[p]);
    TwinsStayTwins(env, works, after, p, p);
    var o: nat :| o < |after| && IsPrimary(env, after, o) && Twins(env, after[p], after[o]) && after[p] == SetAside(after[p], after[o].id);
    q := o;
    TwinsStayTwins(env, works, after, p, q);
    CopyIsSetAside(env, works, after, p, q);
  }

  lemma UnchangedGroupSettles(env: Environment, works: seq<Work>, after: seq<Work>, p: nat)
    requires Deduplicated(env, works, after) && Deduplicated(env, after, after) && IsPrimary(env, works, p)
    ensures Settles(env, works, p)
  {
    if !OutlastsAll(env, works, p) {
      var q := DisplacedToNoEffect(env, works, after, p);
      HeaviestLeads(env, works, after, p, q);
      forall j | 0 <= j < |works| && j != p && j != q && Twins(env, works[p], works[j]) ensures works[p].id == works[q].id {
        OthersNameBoth(env, works, after, p, q, j);
      }
      assert Swapped(env, works, p, q);
    }
  }

  lemma OthersNameBoth(env: Environment, works: seq<Work>, after: seq<Work>, p: nat, q: nat, j: nat)
    requires Deduplicated(env, works, after) && Deduplicated(env, after, after)
    requires IsPrimary(env, works, p) && IsPrimary(env, after, q) && Twins(env, works[p], works[q]) && q != p
    requires j < |works| && j != p && j != q && Twins(env, works[p], works[j])
    ensures works[p].id == works[q].id
  {
    TwinsTrans(env, works[p], works[q], works[j]);
    TwinsStayTwins(env, works, after, q, j);
    CopyIsSetAside(env, works, after, p, q);
    CopyIsSetAside(env, works, after, p, j);
    CopyIsSetAside(env, after, after, q, j);
  }

  /**
   * A second pass is without effect exactly if every primary lasts, or had already been set aside in favour of the copy
   * that takes its place.
   */
  lemma SecondPassChangesNothingIff(env: Environment, works: seq<Work>, after: seq<Work>, again: seq<Work>)
    requires Deduplicated(env, works, after) && Deduplicated(env, after, again)
    ensures again == after <==> forall p :: 0 <= p < |works| && IsPrimary(env, works, p) ==> Settles(env, works, p)
  {
    if again == after {
      forall p | 0 <= p < |works| && IsPrimary(env, works, p) ensures Settles(env, works, p) {
        UnchangedGroupSettles(env, works, after, p);
      }
    }
    if forall p :: 0 <= p < |works| && IsPrimary(env, works, p) ==> Settles(env, works, p) {
      forall i | 0 <= i < |works| ensures again[i] == after[i] {
        SettledWorkStays(env, works, after, again, i);
      }
    }
  }

  lemma SettledWorkStays(env: Environment, works: seq<Work>, after: seq<Work>, again: seq<Work>, i: nat)
    requires Deduplicated(env, works, after) && Deduplicated(env, after, again) && i < |works|
    requires forall p :: 0 <= p < |works| && IsPrimary(env, works, p) ==> Settles(env, works, p)
    ensures again[i] == after[i]
  {
    assert DeduplicatedAt(env, works, i, after[i]) && DeduplicatedAt(env, after, i, again[i]);
    if Titled(env, works[i]) {
      var p: nat :| p < |works| && IsPrimary(env, works, p) && Twins(env, works[i], works[p]);
      if OutlastsAll(env, works, p) {
        LastingGroupStays(env, works, after, again, p, i);
      } else {
        var q: nat :| Swapped(env, works, p, q);
        SwappedGroupStays(env, works, after, again, p, q, i);
      }
    } else {
      assert after[i] == works[i];
    }
  }

  /** They do when every work carries a known disposition. */
  lemma ReviewedPrimariesLast(env: Environment, works: seq<Work>, p: nat)
    requires IsPrimary(env, works, p) && forall w :: w in works ==> Rank(w) >= 1
    ensures OutlastsAll(env, works, p)
  {
    forall j | 0 <= j < |works| && j != p && Twins(env, works[p], works[j]) ensures Outlasts(works, p, j) {
      assert works[p] in works && works[j] in works;
    }
  }

  /**
   * Of the copies of a title a work stands after two passes exactly if it is the primary one, was not set aside to begin
   * with, and lasts. Of copies none of which was ever reviewed, none stands.
   */
  lemma StandsAfterTwoPassesIff(env: Environment, works: seq<Work>, after: seq<Work>, again: seq<Work>, p: nat, k: nat)
    requires Deduplicated(env, works, after) && Deduplicated(env, after, again)
    requires IsPrimary(env, works, p) && k < |works| && Twins(env, works[p], works[k])
    ensures Standing(works[k].folder, again[k]) <==>
            k == p && works[p].review.disposition != Some(REJECTED) && OutlastsAll(env, works, p)
  {
    PrimaryLastsIff(env, works, after, p);
    DeduplicatedKeeps(env, works, after);
    DeduplicatedKeeps(env, after, again);
    assert DeduplicatedAt(env, after, p, again[p]);
    if k != p { CopyIsSetAside(env, works, after, p, k); }
  }

  const LONG_TITLE := "abcdefghijklmnopqrstuvwxyz"

  function TitledWork(id: string, title: string, year: Option<int>, disposition: Option<string>): Work {
    Work(GivenWork(id), "folder", "applicant", GivenOccurrence(id),
         map[Title := Text(title), PublicationYear := if year.Some? then Year(year.value) else Null], "UNRESOLVED",
         Review(disposition, "", Given("")), [], [])
  }

  /** Two works of one title that nobody has reviewed: after two passes neither stands. */
  lemma UnreviewedCopiesAreLost(env: Environment, after: seq<Work>, again: seq<Work>)
    requires env.titleKey(LONG_TITLE) == LONG_TITLE
    requires Deduplicated(env, [TitledWork("first", LONG_TITLE, None, None), TitledWork("second", LONG_TITLE, None, None)], after)
    requires Deduplicated(env, after, again)
    ensures |again| == 2 && !Standing("folder", again[0]) && !Standing("folder", again[1])
  {
    var works := [TitledWork("first", LONG_TITLE, None, None), TitledWork("second", LONG_TITLE, None, None)];
    assert Leads(works, 0, 0) && Leads(works, 0, 1);
    assert IsPrimary(env, works, 0) && Twins(env, works[0], works[1]) && !Outlasts(works, 0, 1);
    StandsAfterTwoPassesIff(env, works, after, again, 0, 0);
    StandsAfterTwoPassesIff(env, works, after, again, 0, 1);
  }

  /** The place of a work among the copies of its title, by its disposition. */
  function Place(w: Work): nat {
    if w.review.disposition == Some("PUBLISHED") then 0
    else if w.review.disposition == Some("ACCEPTED_PREPRINT") then 1
    else if w.review.disposition == Some("UNDER_PREPARATION") then 2
    else if w.review.disposition == Some("PENDING_REVIEW") then 3
    else if w.review.disposition == Some("NON_PUBLICATION") then 4
    else 5
  }

  /**
   * The copy that is kept comes first: by disposition; of equals one with a DOI; of equals one that is resolved; of equals
   * the earliest.
   */
  lemma KeptCopyComesFirst(env: Environment, works: seq<Work>, p: nat, j: nat)
    requires IsPrimary(env, works, p) && j < |works| && Twins(env, works[p], works[j])
    ensures Place(works[p]) <= Place(works[j])
    ensures Place(works[p]) == Place(works[j]) ==>
      && (!Blank(works[j].metadata, Doi) ==> !Blank(works[p].metadata, Doi))
      && (Blank(works[p].metadata, Doi) == Blank(works[j].metadata, Doi) ==>
            && (works[j].status == "RESOLVED" ==> works[p].status == "RESOLVED")
            && ((works[p].status == "RESOLVED" <==> works[j].status == "RESOLVED") ==> p <= j))
  {
    assert Leads(works, p, j);
  }

  lemma EmptyMeans(w: Work)
    ensures Empty(w) <==>
      && Blank(w.metadata, Doi) && Blank(w.metadata, AuthorsText) && Blank(w.metadata, Title) && Blank(w.metadata, Journal)
      && Blank(w.metadata, PublicationYear)
  {
    var fields := MEANINGFUL;
    assert fields[0] == Doi && fields[1] == AuthorsText && fields[2] == Title && fields[3] == Journal && fields[4] == PublicationYear;
    assert Doi in fields && AuthorsText in fields && Title in fields && Journal in fields && PublicationYear in fields;
  }

  /** A work is set aside as an empty artifact exactly if it has no bibliographic field and no explicit disposition. */
  lemma EmptyArtifactsAreSetAside(w: Work)
    ensures Quarantined(w) != w <==>
      && Blank(w.metadata, Doi) && Blank(w.metadata, AuthorsText) && Blank(w.metadata, Title) && Blank(w.metadata, Journal)
      && Blank(w.metadata, PublicationYear)
      && (w.review.disposition == None || w.review.disposition == Some("PENDING_REVIEW"))
    ensures Quarantined(w) != w ==>
      && Quarantined(w) == w.(review := Quarantined(w).review) && Quarantined(w).review.disposition == Some("NON_PUBLICATION")
      && Quarantined(w).review.basis == EmptyArtifact(w.review.disposition)
  {
    EmptyMeans(w);
    QuarantineActsIff(w);
  }

  lemma QuarantineActsIff(w: Work)
    ensures Quarantined(w) != w <==> Empty(w) && w.review.disposition in {None, Some(PENDING)}
  {
    if Empty(w) && w.review.disposition in {None, Some(PENDING)} { assert Quarantined(w).review.disposition == Some(REJECTED); }
  }
}
