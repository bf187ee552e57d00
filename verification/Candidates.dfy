/**
 * From flushed buffers to citation candidates (app/importer/publication_extraction.py, `_candidate_from_lines` and the
 * merging of equal candidates).
 */
module Candidates {
  import opened Base
  import opened Extraction

  /** How the text of an entry is read, taken as given: `years` gives each year with its position. */
  datatype Reading = Reading(
    join: seq<string> -> string,
    years: string -> seq<(int, nat)>,
    unpublished: string -> bool,
    namesApplicant: string -> bool,
    contactLine: string -> bool,
    separators: string -> nat,
    fold: string -> string)

  /** `start` and `end` are positions in reading order. */
  datatype Candidate = Candidate(start: nat, end: nat, pageStart: nat, pageEnd: nat, sectionLabel: string, status: string,
                                 raw: string, normalized: string, year: Option<int>, reason: string)

  /** Work in preparation has a year only if it is a recent one at the very beginning. */
  function YearOf(r: Reading, e: Entry): Option<int> {
    var found := r.years(r.join(TextsOf(e.fragments)));
    if e.status == "UNDER_PREPARATION" && (found == [] || found[0].1 > 8 || found[0].0 < 2000) then None
    else if found != [] then Some(found[0].0)
    else e.year
  }

  predicate Acceptable(r: Reading, e: Entry) {
    var raw := r.join(TextsOf(e.fragments));
    && |raw| >= 40
    && (YearOf(r, e).Some? || e.status in {"ACCEPTED_PREPRINT", "UNDER_PREPARATION"} || r.unpublished(raw))
    && r.namesApplicant(raw) && !r.contactLine(raw) && r.separators(raw) >= 2
  }

  function CandidateOf(r: Reading, lines: seq<Line>, e: Entry): Candidate
    requires e.fragments != [] && First(e).at < |lines| && Last(e).at < |lines|
  {
    var raw := r.join(TextsOf(e.fragments));
    Candidate(First(e).at, Last(e).at, lines[First(e).at].page, lines[Last(e).at].page, e.sectionLabel, e.status,
              raw, r.fold(raw), YearOf(r, e), e.reason)
  }

  function KeyOf(c: Candidate): (nat, nat, string) {
    (c.pageStart, c.pageEnd, c.normalized)
  }

  ghost predicate Within(lines: seq<Line>, entries: seq<Entry>) {
    forall i :: 0 <= i < |entries| ==> entries[i].fragments != [] && First(entries[i]).at < |lines| && Last(entries[i]).at < |lines|
  }

  ghost predicate Ascending(s: seq<nat>) {
    forall a, b :: 0 <= a < b < |s| ==> s[a] < s[b]
  }

  /** The candidate is that of the entry. */
  ghost predicate DrawnAt(r: Reading, lines: seq<Line>, entries: seq<Entry>, i: nat, c: Candidate)
    requires Within(lines, entries)
  {
    i < |entries| && Acceptable(r, entries[i]) && c == CandidateOf(r, lines, entries[i])
  }

  /** The candidates come from the entries named, in order. */
  ghost predicate Drawn(r: Reading, lines: seq<Line>, entries: seq<Entry>, origins: seq<nat>, candidates: seq<Candidate>)
    requires Within(lines, entries)
  {
    && |origins| == |candidates| && Ascending(origins)
    && forall a :: 0 <= a < |origins| ==> DrawnAt(r, lines, entries, origins[a], candidates[a])
  }

  ghost predicate DistinctKeys(candidates: seq<Candidate>) {
    forall a, b :: 0 <= a < b < |candidates| ==> KeyOf(candidates[a]) != KeyOf(candidates[b])
  }

  /** The candidate of the first entry with this one's key is among those drawn. */
  ghost predicate Represented(origins: seq<nat>, candidates: seq<Candidate>, i: nat, c: Candidate)
    requires |origins| == |candidates|
  {
    exists a :: 0 <= a < |candidates| && origins[a] <= i && KeyOf(candidates[a]) == KeyOf(c)
  }

  ghost predicate EntryRepresented(r: Reading, lines: seq<Line>, entries: seq<Entry>, origins: seq<nat>, candidates: seq<Candidate>, i: nat)
    requires Within(lines, entries) && |origins| == |candidates| && i < |entries|
  {
    Acceptable(r, entries[i]) ==> Represented(origins, candidates, i, CandidateOf(r, lines, entries[i]))
  }

  /** Every acceptable entry is represented once, by the first of its key, and nothing else is. */
  ghost predicate Collected(r: Reading, lines: seq<Line>, entries: seq<Entry>, candidates: seq<Candidate>)
    requires Within(lines, entries)
  {
    exists origins :: CollectedFrom(r, lines, entries, origins, candidates)
  }

  ghost predicate CollectedFrom(r: Reading, lines: seq<Line>, entries: seq<Entry>, origins: seq<nat>, candidates: seq<Candidate>)
    requires Within(lines, entries)
  {
    && Drawn(r, lines, entries, origins, candidates) && DistinctKeys(candidates)
    && forall i :: 0 <= i < |entries| ==> EntryRepresented(r, lines, entries, origins, candidates, i)
  }

  method Filter(r: Reading, lines: seq<Line>, entries: seq<Entry>) returns (candidates: seq<Candidate>, ghost origins: seq<nat>)
    requires Within(lines, entries)
    ensures Drawn(r, lines, entries, origins, candidates)
    ensures forall i :: 0 <= i < |entries| && Acceptable(r, entries[i]) ==> i in origins
  {
    candidates, origins := [], [];
    for i := 0 to |entries|
      invariant Drawn(r, lines, entries, origins, candidates)
      invariant forall a :: 0 <= a < |origins| ==> origins[a] < i
      invariant forall k :: 0 <= k < i && Acceptable(r, entries[k]) ==> k in origins
    {
      if Acceptable(r, entries[i]) {
        candidates, origins := candidates + [CandidateOf(r, lines, entries[i])], origins + [i];
      }
    }
  }

  ghost function KeysOf(candidates: seq<Candidate>): set<(nat, nat, string)> {
    set a | 0 <= a < |candidates| :: KeyOf(candidates[a])
  }

  lemma KeysOfLonger(candidates: seq<Candidate>, c: Candidate)
    ensures KeysOf(candidates + [c]) == KeysOf(candidates) + {KeyOf(c)}
    ensures DistinctKeys(candidates) && KeyOf(c) !in KeysOf(candidates) ==> DistinctKeys(candidates + [c])
  {
    var longer := candidates + [c];
    assert KeyOf(longer[|candidates|]) == KeyOf(c);
    forall key | key in KeysOf(candidates) ensures key in KeysOf(longer) {
      var a :| 0 <= a < |candidates| && KeyOf(candidates[a]) == key;
      assert KeyOf(longer[a]) == key;
    }
  }

  /** Some of all, at the ascending positions `kept`. */
  ghost predicate Kept(all: seq<Candidate>, kept: seq<nat>, some: seq<Candidate>) {
    |kept| == |some| && Ascending(kept) && forall a :: 0 <= a < |kept| ==> kept[a] < |all| && some[a] == all[kept[a]]
  }

  /** The first `n` of all are represented by those kept. */
  ghost predicate AllRepresented(all: seq<Candidate>, n: nat, kept: seq<nat>, some: seq<Candidate>)
    requires |kept| == |some| && n <= |all|
  {
    forall k :: 0 <= k < n ==> Represented(kept, some, k, all[k])
  }

  /** What the merging has come to after `n` candidates. */
  ghost predicate MergedSoFar(all: seq<Candidate>, n: nat, kept: seq<nat>, unique: seq<Candidate>) {
    && n <= |all| && Kept(all, kept, unique) && DistinctKeys(unique) && AllRepresented(all, n, kept, unique)
    && forall a :: 0 <= a < |kept| ==> kept[a] < n
  }

  lemma MergeKeeps(all: seq<Candidate>, n: nat, kept: seq<nat>, unique: seq<Candidate>)
    requires n < |all| && MergedSoFar(all, n, kept, unique) && KeyOf(all[n]) !in KeysOf(unique)
    ensures MergedSoFar(all, n + 1, kept + [n], unique + [all[n]])
    ensures KeysOf(unique + [all[n]]) == KeysOf(unique) + {KeyOf(all[n])}
  {
    KeysOfLonger(unique, all[n]);
    var more, longer := unique + [all[n]], kept + [n];
    forall k | 0 <= k < n + 1 ensures Represented(longer, more, k, all[k]) {
      if k < n {
        StillRepresented(kept, unique, longer, more, k, all[k]);
      } else {
        assert longer[|unique|] <= n && KeyOf(more[|unique|]) == KeyOf(all[n]);
      }
    }
  }

  lemma MergeSkips(all: seq<Candidate>, n: nat, kept: seq<nat>, unique: seq<Candidate>)
    requires n < |all| && MergedSoFar(all, n, kept, unique) && KeyOf(all[n]) in KeysOf(unique)
    ensures MergedSoFar(all, n + 1, kept, unique)
  {
    var a :| 0 <= a < |unique| && KeyOf(unique[a]) == KeyOf(all[n]);
    assert kept[a] <= n && Represented(kept, unique, n, all[n]);
  }

  lemma StillRepresented(kept: seq<nat>, unique: seq<Candidate>, longer: seq<nat>, more: seq<Candidate>, k: nat, c: Candidate)
    requires |kept| == |unique| && |longer| == |more| && kept <= longer && unique <= more && Represented(kept, unique, k, c)
    ensures Represented(longer, more, k, c)
  {
    var a :| 0 <= a < |unique| && kept[a] <= k && KeyOf(unique[a]) == KeyOf(c);
    assert longer[a] <= k && KeyOf(more[a]) == KeyOf(c);
  }

  /** Equal page span and citation: the first one stays. */
  method Unique(all: seq<Candidate>) returns (unique: seq<Candidate>, ghost kept: seq<nat>)
    ensures Kept(all, kept, unique) && DistinctKeys(unique) && AllRepresented(all, |all|, kept, unique)
  {
    unique, kept := [], [];
    var seen: set<(nat, nat, string)> := {};
    for i := 0 to |all|
      invariant MergedSoFar(all, i, kept, unique) && seen == KeysOf(unique)
    {
      if KeyOf(all[i]) !in seen {
        MergeKeeps(all, i, kept, unique);
        seen := seen + {KeyOf(all[i])};
        unique, kept := unique + [all[i]], kept + [i];
      } else {
        MergeSkips(all, i, kept, unique);
      }
    }
  }

  method Collect(r: Reading, lines: seq<Line>, entries: seq<Entry>) returns (candidates: seq<Candidate>)
    requires Within(lines, entries)
    ensures Collected(r, lines, entries, candidates)
  {
    var all, origins := Filter(r, lines, entries);
    ghost var kept;
    candidates, kept := Unique(all);
    KeptIsCollected(r, lines, entries, origins, all, kept, candidates);
  }

  /** The entries that the kept candidates came from. */
  function Picked(origins: seq<nat>, kept: seq<nat>): seq<nat>
    requires forall a :: 0 <= a < |kept| ==> kept[a] < |origins|
  {
    seq(|kept|, a requires 0 <= a < |kept| => origins[kept[a]])
  }

  lemma PickedIsDrawn(r: Reading, lines: seq<Line>, entries: seq<Entry>, origins: seq<nat>, all: seq<Candidate>,
                      kept: seq<nat>, candidates: seq<Candidate>)
    requires Within(lines, entries) && Drawn(r, lines, entries, origins, all) && Kept(all, kept, candidates)
    ensures Drawn(r, lines, entries, Picked(origins, kept), candidates)
  {
    var from := Picked(origins, kept);
    forall a | 0 <= a < |from| ensures DrawnAt(r, lines, entries, from[a], candidates[a]) {
      assert DrawnAt(r, lines, entries, origins[kept[a]], all[kept[a]]);
    }
  }

  lemma PickedRepresents(r: Reading, lines: seq<Line>, entries: seq<Entry>, origins: seq<nat>, all: seq<Candidate>,
                         kept: seq<nat>, candidates: seq<Candidate>, k: nat)
    requires Within(lines, entries) && Drawn(r, lines, entries, origins, all) && Kept(all, kept, candidates)
    requires k < |origins| && Represented(kept, candidates, k, all[k])
    ensures origins[k] < |entries| && EntryRepresented(r, lines, entries, Picked(origins, kept), candidates, origins[k])
  {
    assert DrawnAt(r, lines, entries, origins[k], all[k]);
    RepresentedFrom(origins, kept, Picked(origins, kept), candidates, k, all[k]);
  }

  lemma KeptIsCollected(r: Reading, lines: seq<Line>, entries: seq<Entry>, origins: seq<nat>, all: seq<Candidate>,
                        kept: seq<nat>, candidates: seq<Candidate>)
    requires Within(lines, entries) && Drawn(r, lines, entries, origins, all)
    requires forall i :: 0 <= i < |entries| && Acceptable(r, entries[i]) ==> i in origins
    requires Kept(all, kept, candidates) && DistinctKeys(candidates) && AllRepresented(all, |all|, kept, candidates)
    ensures Collected(r, lines, entries, candidates)
  {
    var from := Picked(origins, kept);
    PickedIsDrawn(r, lines, entries, origins, all, kept, candidates);
    forall i | 0 <= i < |entries| ensures EntryRepresented(r, lines, entries, from, candidates, i) {
      if Acceptable(r, entries[i]) {
        var k :| 0 <= k < |origins| && origins[k] == i;
        assert Represented(kept, candidates, k, all[k]);
        PickedRepresents(r, lines, entries, origins, all, kept, candidates, k);
      }
    }
    assert CollectedFrom(r, lines, entries, from, candidates);
  }

  lemma RepresentedFrom(origins: seq<nat>, kept: seq<nat>, from: seq<nat>, candidates: seq<Candidate>, k: nat, c: Candidate)
    requires |kept| == |candidates| == |from| && Represented(kept, candidates, k, c) && k < |origins| && Ascending(origins)
    requires forall a :: 0 <= a < |kept| ==> kept[a] < |origins| && from[a] == origins[kept[a]]
    ensures Represented(from, candidates, origins[k], c)
  {
    var a :| 0 <= a < |candidates| && kept[a] <= k && KeyOf(candidates[a]) == KeyOf(c);
    assert from[a] <= origins[k];
  }

  /** All of a document: the entries, filtered and merged. */
  method ExtractCandidates(c: Classifiers, r: Reading, dedicated: bool, lines: seq<Line>) returns (candidates: seq<Candidate>)
    requires Sensible(c)
    ensures exists entries ::
              && Segmentation(c, dedicated, lines, entries) && CutRight(c, lines, entries)
              && Within(lines, entries) && Collected(r, lines, entries, candidates)
  {
    var entries := Segment(c, dedicated, lines);
    EntriesWithin(c, dedicated, lines, entries);
    candidates := Collect(r, lines, entries);
  }

  lemma EntriesWithin(c: Classifiers, dedicated: bool, lines: seq<Line>, entries: seq<Entry>)
    requires Segmentation(c, dedicated, lines, entries)
    ensures Within(lines, entries)
  {
    AcceptedInOrder(c, dedicated, lines);
    forall i | 0 <= i < |entries|
      ensures entries[i].fragments != [] && First(entries[i]).at < |lines| && Last(entries[i]).at < |lines|
    {
      assert Uniform(entries[i]);
      var a := EntryInJoined(entries, i, 0);
      var b := EntryInJoined(entries, i, |entries[i].fragments| - 1);
    }
  }

  /** Filtering and merging keep the reading order: a candidate begins no earlier than its predecessor ends. */
  lemma CandidatesAreOrdered(c: Classifiers, r: Reading, dedicated: bool, lines: seq<Line>, entries: seq<Entry>,
                             candidates: seq<Candidate>, a: nat, b: nat)
    requires Segmentation(c, dedicated, lines, entries) && Within(lines, entries) && Collected(r, lines, entries, candidates)
    requires a < b < |candidates|
    ensures candidates[a].end <= candidates[b].start
    ensures candidates[a].end == candidates[b].start ==> b == a + 1
  {
    var k, l := TwoOrigins(r, lines, entries, candidates, a, b);
    EntriesAreOrdered(c, dedicated, lines, entries, k, l);
  }

  lemma TwoOrigins(r: Reading, lines: seq<Line>, entries: seq<Entry>, candidates: seq<Candidate>, a: nat, b: nat) returns (k: nat, l: nat)
    requires Within(lines, entries) && Collected(r, lines, entries, candidates) && a < b < |candidates|
    ensures k < l < |entries| && (b > a + 1 ==> l > k + 1)
    ensures candidates[a].end == Last(entries[k]).at && candidates[b].start == First(entries[l]).at
  {
    var origins :| CollectedFrom(r, lines, entries, origins, candidates);
    DrawnSpan(r, lines, entries, origins, candidates, a);
    DrawnSpan(r, lines, entries, origins, candidates, b);
    k, l := origins[a], origins[b];
    if b > a + 1 { assert origins[a] < origins[a + 1] < origins[b]; }
  }

  /** The candidate that stands for an entry, and the entry it came from. */
  lemma StandIn(r: Reading, lines: seq<Line>, entries: seq<Entry>, candidates: seq<Candidate>, i: nat) returns (a: nat, k: nat)
    requires Within(lines, entries) && Collected(r, lines, entries, candidates) && i < |entries| && Acceptable(r, entries[i])
    ensures a < |candidates| && KeyOf(candidates[a]) == KeyOf(CandidateOf(r, lines, entries[i])) && DistinctKeys(candidates)
    ensures k <= i && candidates[a].start == First(entries[k]).at
  {
    var origins :| CollectedFrom(r, lines, entries, origins, candidates);
    var e := CandidateOf(r, lines, entries[i]);
    assert EntryRepresented(r, lines, entries, origins, candidates, i);
    a :| 0 <= a < |candidates| && origins[a] <= i && KeyOf(candidates[a]) == KeyOf(e);
    DrawnSpan(r, lines, entries, origins, candidates, a);
    k := origins[a];
  }

  lemma DrawnSpan(r: Reading, lines: seq<Line>, entries: seq<Entry>, origins: seq<nat>, candidates: seq<Candidate>, a: nat)
    requires Within(lines, entries) && Drawn(r, lines, entries, origins, candidates) && a < |candidates|
    ensures origins[a] < |entries|
    ensures candidates[a].start == First(entries[origins[a]]).at && candidates[a].end == Last(entries[origins[a]]).at
  {
    assert DrawnAt(r, lines, entries, origins[a], candidates[a]);
  }

  /** No acceptable citation is lost: one of its pages and wording is there, and begins no later. */
  lemma NoCitationIsLost(c: Classifiers, r: Reading, dedicated: bool, lines: seq<Line>, entries: seq<Entry>,
                         candidates: seq<Candidate>, i: nat) returns (a: nat)
    requires Segmentation(c, dedicated, lines, entries) && Within(lines, entries) && Collected(r, lines, entries, candidates)
    requires i < |entries| && Acceptable(r, entries[i])
    ensures a < |candidates| && KeyOf(candidates[a]) == KeyOf(CandidateOf(r, lines, entries[i]))
    ensures candidates[a].start <= First(entries[i]).at
    ensures forall b :: 0 <= b < |candidates| && KeyOf(candidates[b]) == KeyOf(candidates[a]) ==> b == a
  {
    var k;
    a, k := StandIn(r, lines, entries, candidates, i);
    if k < i {
      EntriesAreOrdered(c, dedicated, lines, entries, k, i);
      EntrySpans(c, dedicated, lines, entries, k);
    }
  }

  lemma EntrySpans(c: Classifiers, dedicated: bool, lines: seq<Line>, entries: seq<Entry>, i: nat)
    requires Segmentation(c, dedicated, lines, entries) && i < |entries|
    ensures First(entries[i]).at <= Last(entries[i]).at
  {
    AcceptedInOrder(c, dedicated, lines);
    assert Uniform(entries[i]);
    var a := EntryInJoined(entries, i, 0);
    var b := EntryInJoined(entries, i, |entries[i].fragments| - 1);
  }

  // ------------------------------------------------------------------
  // What a candidate is
  // ------------------------------------------------------------------

  /** The candidate speaks of the entry: its span, its label and status, its text and that text folded. */
  ghost predicate SpeaksOf(r: Reading, lines: seq<Line>, e: Entry, c: Candidate) {
    && e.fragments != [] && c.start == First(e).at < |lines| && c.end == Last(e).at < |lines|
    && c.pageStart == lines[c.start].page && c.pageEnd == lines[c.end].page
    && c.sectionLabel == e.sectionLabel && c.status == e.status && c.reason == e.reason
    && c.raw == r.join(TextsOf(e.fragments)) && c.normalized == r.fold(c.raw)
  }

  /**
   * The year: the first one in the text, or the column's if there is none; of work in preparation only a year from 2000 on
   * within the first nine characters.
   */
  ghost predicate DatedAs(r: Reading, e: Entry, raw: string, year: Option<int>) {
    var years := r.years(raw);
    if e.status == "UNDER_PREPARATION"
    then year == if years != [] && years[0].1 <= 8 && years[0].0 >= 2000 then Some(years[0].0) else None
    else year == if years != [] then Some(years[0].0) else e.year
  }

  /** Long enough, dated or of a kind that need not be, naming the applicant, no contact line, and punctuated. */
  ghost predicate WorthKeeping(r: Reading, e: Entry, raw: string, year: Option<int>) {
    && |raw| >= 40 && r.namesApplicant(raw) && !r.contactLine(raw) && r.separators(raw) >= 2
    && (year.Some? || e.status == "ACCEPTED_PREPRINT" || e.status == "UNDER_PREPARATION" || r.unpublished(raw))
  }

  lemma YearIs(r: Reading, e: Entry)
    ensures DatedAs(r, e, r.join(TextsOf(e.fragments)), YearOf(r, e))
    ensures Acceptable(r, e) <==> WorthKeeping(r, e, r.join(TextsOf(e.fragments)), YearOf(r, e))
  {
  }

  /** Every candidate speaks of an entry that is worth keeping, with its year. */
  lemma CandidatesSpeakOfEntries(r: Reading, lines: seq<Line>, entries: seq<Entry>, candidates: seq<Candidate>, a: nat) returns (i: nat)
    requires Within(lines, entries) && Collected(r, lines, entries, candidates) && a < |candidates|
    ensures i < |entries| && SpeaksOf(r, lines, entries[i], candidates[a])
    ensures DatedAs(r, entries[i], candidates[a].raw, candidates[a].year)
    ensures WorthKeeping(r, entries[i], candidates[a].raw, candidates[a].year)
  {
    var origins :| CollectedFrom(r, lines, entries, origins, candidates);
    assert DrawnAt(r, lines, entries, origins[a], candidates[a]);
    i := origins[a];
    YearIs(r, entries[i]);
  }

  /** Every entry that is worth keeping has a candidate of its pages and folded text. */
  lemma EntriesHaveCandidates(r: Reading, lines: seq<Line>, entries: seq<Entry>, candidates: seq<Candidate>, i: nat, year: Option<int>)
    returns (a: nat)
    requires Within(lines, entries) && Collected(r, lines, entries, candidates) && i < |entries|
    requires var raw := r.join(TextsOf(entries[i].fragments)); DatedAs(r, entries[i], raw, year) && WorthKeeping(r, entries[i], raw, year)
    ensures a < |candidates| && candidates[a].pageStart == lines[First(entries[i]).at].page
    ensures candidates[a].pageEnd == lines[Last(entries[i]).at].page
    ensures candidates[a].normalized == r.fold(r.join(TextsOf(entries[i].fragments)))
  {
    YearIs(r, entries[i]);
    var k;
    a, k := StandIn(r, lines, entries, candidates, i);
  }
}
