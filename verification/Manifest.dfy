/**
 * The publication manifest, and the search for the work that a parsed citation belongs to
 * (app/importer/publication_reconciliation.py, `_match_work`).
 */
module Manifest {
  import opened Base

  const PENDING := "PENDING_REVIEW"
  const REJECTED := "NON_PUBLICATION"
  const PUBLISHED := "PUBLISHED"
  const RESOLVED := "RESOLVED"

  datatype Field = Doi | DoiUrl | AuthorsText | Title | Journal | Volume | Pages | PublicationYear

  /** The fields of a parsed citation, in the order in which they are copied. */
  const FIELDS := [Doi, DoiUrl, AuthorsText, Title, Journal, Volume, Pages, PublicationYear]

  datatype Value = Null | Text(text: string) | Year(year: int)

  type Metadata = map<Field, Value>

  predicate Blank(m: Metadata, f: Field) {
    f !in m || m[f] == Null || m[f] == Text("")
  }

  function TextOf(m: Metadata, f: Field): string {
    if f in m && m[f].Text? then m[f].text else ""
  }

  function YearOf(m: Metadata): Option<int> {
    if PublicationYear in m && m[PublicationYear].Year? then Some(m[PublicationYear].year) else None
  }

  datatype Candidate = Candidate(applicant: string, filename: string, pageStart: int, pageEnd: int, lineStart: int,
                                 raw: string, normalized: string, statusHint: string)

  datatype Parsed = Parsed(authors: string, title: string, journal: string, volume: string, pages: string,
                           year: Option<int>, doi: string, parser: string)

  datatype Classification = Classification(disposition: string, confidence: real, reason: string)

  /** Identifiers hashed from their ingredients, beside those that came with the manifest. */
  datatype OccurrenceId = GivenOccurrence(name: string)
    | ParsedOccurrence(applicant: string, filename: string, pageStart: int, pageEnd: int, normalized: string)

  datatype SourceId = GivenSource(name: string) | ParsedSource(applicant: string, normalized: string)

  datatype WorkId = GivenWork(name: string)
    | ParsedWork(applicant: string, doi: string, title: string, year: Option<int>, normalized: string)

  datatype Basis = Given(name: string) | FromCandidate(candidate: Candidate, parser: string, confidence: real)
    | EmptyArtifact(previous: Option<string>) | DuplicateOf(primary: WorkId)

  datatype Review = Review(disposition: Option<string>, reason: string, basis: Basis)

  datatype Work = Work(id: WorkId, folder: string, applicant: string, representative: OccurrenceId, metadata: Metadata,
                       status: string, review: Review, occurrenceIds: seq<OccurrenceId>, sourceIds: seq<SourceId>)

  datatype Occurrence = Occurrence(id: OccurrenceId, workId: WorkId, sourceId: SourceId, folder: string,
                                   candidate: Candidate, doi: string)

  datatype StatusRow = StatusRow(workId: WorkId, source: string, status: string)

  /** Text handling, parsing, classification and the public bibliography, all taken as given. */
  datatype Environment = Environment(
    casefold: string -> string,
    titleKey: string -> string,
    parse: Candidate -> Parsed,
    classify: (Parsed, string) -> Classification,
    resolve: (Candidate, Parsed) -> Option<Parsed>)

  /** Texts are their own keys, every citation is parsed and classified alike, and no bibliography is asked. */
  function PlainEnvironment(p: Parsed, cl: Classification): Environment {
    Environment(text => text, text => text, c => p, (q, hint) => cl, (c, q) => None)
  }

  function NormalizedTitle(env: Environment, title: string): string {
    if title == "" then "" else env.titleKey(title)
  }

  function KeyOf(env: Environment, w: Work): string {
    NormalizedTitle(env, TextOf(w.metadata, Title))
  }

  // ------------------------------------------------------------------
  // The search
  // ------------------------------------------------------------------

  /** Works of the applicant that are not set aside. */
  predicate Standing(folder: string, w: Work) {
    w.folder == folder && w.review.disposition != Some(REJECTED)
  }

  predicate YearsAgree(a: Option<int>, b: Option<int>) {
    a.None? || b.None? || -1 <= a.value - b.value <= 1
  }

  datatype Test =
    | SameDoi(doi: string)
    | Embedded(rawKey: string)
    | SameTitle(title: string, year: Option<int>)
    | SameTitleAndYear(title: string, exact: int)
    | TitledAmong(titles: set<string>, year: Option<int>)

  predicate Passes(env: Environment, folder: string, test: Test, w: Work) {
    Standing(folder, w)
    && match test
       case SameDoi(doi) => env.casefold(TextOf(w.metadata, Doi)) == doi
       case Embedded(rawKey) => |KeyOf(env, w)| >= 16 && Contains(KeyOf(env, w), rawKey)
       case SameTitle(title, year) => KeyOf(env, w) == title && YearsAgree(year, YearOf(w.metadata))
       case SameTitleAndYear(title, year) => KeyOf(env, w) == title && YearOf(w.metadata) == Some(year)
       case TitledAmong(titles, year) => KeyOf(env, w) in titles && YearsAgree(year, YearOf(w.metadata))
  }

  /** The one work that passes the test. */
  ghost predicate Sole(env: Environment, folder: string, test: Test, works: seq<Work>, i: nat) {
    i < |works| && Passes(env, folder, test, works[i])
    && forall j :: 0 <= j < |works| && Passes(env, folder, test, works[j]) ==> j == i
  }

  ghost predicate Several(env: Environment, folder: string, test: Test, works: seq<Work>) {
    exists i, j :: 0 <= i < j < |works| && Passes(env, folder, test, works[i]) && Passes(env, folder, test, works[j])
  }

  /** Known titles that the citation contains. */
  ghost function EmbeddedTitles(env: Environment, folder: string, rawKey: string, works: seq<Work>): set<string> {
    set i | 0 <= i < |works| && Passes(env, folder, Embedded(rawKey), works[i]) :: KeyOf(env, works[i])
  }

  /** Those not part of a longer one. */
  function Maximal(titles: set<string>): set<string> {
    set title | title in titles && !exists other :: other in titles && other != title && Contains(title, other)
  }

  datatype Match = NoMatch | Ambiguous | Matched(index: nat, action: string)

  ghost function MatchedTitles(env: Environment, works: seq<Work>, folder: string, raw: string): set<string> {
    Maximal(EmbeddedTitles(env, folder, NormalizedTitle(env, raw), works))
  }

  ghost predicate DoiDecides(env: Environment, works: seq<Work>, folder: string, p: Parsed, i: nat) {
    p.doi != "" && Sole(env, folder, SameDoi(env.casefold(p.doi)), works, i)
  }

  ghost predicate TitleDecides(env: Environment, works: seq<Work>, folder: string, p: Parsed, i: nat) {
    var title := NormalizedTitle(env, p.title);
    title != ""
    && (|| Sole(env, folder, SameTitle(title, p.year), works, i)
        || (&& Several(env, folder, SameTitle(title, p.year), works)
            && p.year.Some? && Sole(env, folder, SameTitleAndYear(title, p.year.value), works, i)))
  }

  ghost predicate CitationDecides(env: Environment, works: seq<Work>, folder: string, p: Parsed, raw: string, i: nat) {
    Sole(env, folder, TitledAmong(MatchedTitles(env, works, folder, raw), p.year), works, i)
  }

  /** What a search may answer: identifier first, then refusal of citations that name several works, then titles. */
  ghost predicate Answers(env: Environment, works: seq<Work>, folder: string, p: Parsed, raw: string, m: Match) {
    var byDoi := exists i :: DoiDecides(env, works, folder, p, i);
    var crowded := |MatchedTitles(env, works, folder, raw)| > 1;
    var byTitle := exists i :: TitleDecides(env, works, folder, p, i);
    match m
    case Matched(i, action) =>
      || (action == "MATCHED_DOI" && DoiDecides(env, works, folder, p, i))
      || (action == "MATCHED_TITLE" && !byDoi && !crowded && TitleDecides(env, works, folder, p, i))
      || (action == "MATCHED_TITLE_IN_CITATION" && !byDoi && !crowded && !byTitle && CitationDecides(env, works, folder, p, raw, i))
    case Ambiguous => !byDoi && crowded
    case NoMatch => !byDoi && !crowded && !byTitle && !exists i :: CitationDecides(env, works, folder, p, raw, i)
  }

  /** The rules leave one answer. */
  lemma AnswerIsUnique(env: Environment, works: seq<Work>, folder: string, p: Parsed, raw: string, m: Match, n: Match)
    requires Answers(env, works, folder, p, raw, m) && Answers(env, works, folder, p, raw, n)
    ensures m == n
  {
    if m.Matched? && n.Matched? && m.action == n.action == "MATCHED_TITLE" {
      TitleDecidesOnce(env, works, folder, p, m.index, n.index);
    }
  }

  lemma TitleDecidesOnce(env: Environment, works: seq<Work>, folder: string, p: Parsed, i: nat, j: nat)
    requires TitleDecides(env, works, folder, p, i) && TitleDecides(env, works, folder, p, j)
    ensures i == j
  {
    var title := NormalizedTitle(env, p.title);
    var same := SameTitle(title, p.year);
    assert !(Several(env, folder, same, works) && (Sole(env, folder, same, works, i) || Sole(env, folder, same, works, j)));
  }

  /** Whether a citation names several works does not depend on how it was parsed. */
  lemma AmbiguityIsSettledFirst(env: Environment, works: seq<Work>, folder: string, p: Parsed, raw: string, q: Parsed, m: Match)
    requires Answers(env, works, folder, p, raw, NoMatch) && Answers(env, works, folder, q, raw, m)
    ensures m != Ambiguous
  {
  }

  /** All indices below `n` whose work passes the test. */
  method Select(env: Environment, folder: string, test: Test, works: seq<Work>) returns (chosen: seq<nat>)
    ensures |chosen| == 1 ==> Sole(env, folder, test, works, chosen[0])
    ensures |chosen| != 1 ==> forall i: nat :: !Sole(env, folder, test, works, i)
    ensures |chosen| > 1 <==> Several(env, folder, test, works)
  {
    chosen := [];
    for k := 0 to |works|
      invariant Selected(env, folder, test, works, k, chosen)
    {
      if Passes(env, folder, test, works[k]) { chosen := chosen + [k]; }
    }
    SelectedMeans(env, folder, test, works, chosen);
  }

  /** The works below `k` that pass, in order. */
  ghost predicate Selected(env: Environment, folder: string, test: Test, works: seq<Work>, k: nat, chosen: seq<nat>)
    requires k <= |works|
  {
    && (forall a :: 0 <= a < |chosen| ==> chosen[a] < k && Passes(env, folder, test, works[chosen[a]]))
    && (forall a, b :: 0 <= a < b < |chosen| ==> chosen[a] < chosen[b])
    && forall i :: 0 <= i < k && Passes(env, folder, test, works[i]) ==> i in chosen
  }

  lemma SelectedMeans(env: Environment, folder: string, test: Test, works: seq<Work>, chosen: seq<nat>)
    requires Selected(env, folder, test, works, |works|, chosen)
    ensures |chosen| == 1 ==> Sole(env, folder, test, works, chosen[0])
    ensures |chosen| != 1 ==> forall i: nat :: !Sole(env, folder, test, works, i)
    ensures |chosen| > 1 <==> Several(env, folder, test, works)
  {
    if |chosen| > 1 {
      assert chosen[0] < chosen[1] && Passes(env, folder, test, works[chosen[0]]) && Passes(env, folder, test, works[chosen[1]]);
    } else if |chosen| == 1 {
      assert forall i :: 0 <= i < |works| && Passes(env, folder, test, works[i]) ==> i == chosen[0];
    }
  }

  method CollectTitles(env: Environment, folder: string, rawKey: string, works: seq<Work>) returns (titles: set<string>)
    ensures titles == EmbeddedTitles(env, folder, rawKey, works)
  {
    titles := {};
    for k := 0 to |works|
      invariant titles == EmbeddedTitles(env, folder, rawKey, works[..k])
    {
      assert works[..k + 1] == works[..k] + [works[k]];
      CollectedOneMore(env, folder, rawKey, works, k);
      if Passes(env, folder, Embedded(rawKey), works[k]) { titles := titles + {KeyOf(env, works[k])}; }
    }
    assert works[..|works|] == works;
  }

  lemma CollectedOneMore(env: Environment, folder: string, rawKey: string, works: seq<Work>, k: nat)
    requires k < |works|
    ensures EmbeddedTitles(env, folder, rawKey, works[..k + 1]) ==
            EmbeddedTitles(env, folder, rawKey, works[..k])
            + if Passes(env, folder, Embedded(rawKey), works[k]) then {KeyOf(env, works[k])} else {}
  {
    var before, after := works[..k], works[..k + 1];
    assert after[k] == works[k] && forall i :: 0 <= i < k ==> after[i] == before[i];
  }

  method MatchWork(env: Environment, works: seq<Work>, folder: string, p: Parsed, raw: string) returns (m: Match)
    ensures Answers(env, works, folder, p, raw, m)
  {
    if p.doi != "" {
      var withDoi := Select(env, folder, SameDoi(env.casefold(p.doi)), works);
      if |withDoi| == 1 { return Matched(withDoi[0], "MATCHED_DOI"); }
    }
    var titles := CollectTitles(env, folder, NormalizedTitle(env, raw), works);
    var maximal := Maximal(titles);
    if |maximal| > 1 { return Ambiguous; }
    var title := NormalizedTitle(env, p.title);
    if title != "" {
      var compatible := Select(env, folder, SameTitle(title, p.year), works);
      if |compatible| == 1 { return Matched(compatible[0], "MATCHED_TITLE"); }
      if |compatible| > 1 && p.year.Some? {
        var exact := Select(env, folder, SameTitleAndYear(title, p.year.value), works);
        if |exact| == 1 { return Matched(exact[0], "MATCHED_TITLE"); }
      }
    }
    var embedded := Select(env, folder, TitledAmong(maximal, p.year), works);
    if |embedded| == 1 { return Matched(embedded[0], "MATCHED_TITLE_IN_CITATION"); }
    return NoMatch;
  }

  // ------------------------------------------------------------------
  // The search, case by case
  // ------------------------------------------------------------------

  /** A work of the applicant that has not been set aside. */
  predicate Eligible(folder: string, w: Work) {
    w.folder == folder && w.review.disposition != Some("NON_PUBLICATION")
  }

  predicate WithinAYear(year: Option<int>, w: Work) {
    match (year, YearOf(w.metadata))
    case (Some(y), Some(z)) => y == z || y == z + 1 || z == y + 1
    case _ => true
  }

  /** The work has the citation's title and a year that is unknown or at most one off. */
  predicate TitleFits(env: Environment, folder: string, p: Parsed, w: Work) {
    Eligible(folder, w) && KeyOf(env, w) == NormalizedTitle(env, p.title) && WithinAYear(p.year, w)
  }

  predicate SharesDoi(env: Environment, folder: string, p: Parsed, w: Work) {
    Eligible(folder, w) && env.casefold(TextOf(w.metadata, Doi)) == env.casefold(p.doi)
  }

  ghost predicate OnlyDoi(env: Environment, works: seq<Work>, folder: string, p: Parsed, i: nat) {
    && p.doi != "" && i < |works| && SharesDoi(env, folder, p, works[i])
    && forall j :: 0 <= j < |works| && j != i ==> !SharesDoi(env, folder, p, works[j])
  }

  ghost predicate OnlyTitle(env: Environment, works: seq<Work>, folder: string, p: Parsed, i: nat) {
    && NormalizedTitle(env, p.title) != "" && i < |works| && TitleFits(env, folder, p, works[i])
    && forall j :: 0 <= j < |works| && j != i ==> !TitleFits(env, folder, p, works[j])
  }

  /** Several works fit, and one of them has the citation's very year. */
  ghost predicate OnlyYear(env: Environment, works: seq<Work>, folder: string, p: Parsed, i: nat) {
    && NormalizedTitle(env, p.title) != "" && p.year.Some? && i < |works| && TitleFits(env, folder, p, works[i])
    && YearOf(works[i].metadata) == p.year
    && (exists k :: 0 <= k < |works| && k != i && TitleFits(env, folder, p, works[k]))
    && forall j :: 0 <= j < |works| && j != i && TitleFits(env, folder, p, works[j]) ==> YearOf(works[j].metadata) != p.year
  }

  /** The only work with the DOI is the answer, whatever else may fit. */
  lemma DoiSettlesIt(env: Environment, works: seq<Work>, folder: string, p: Parsed, raw: string, m: Match)
    requires Answers(env, works, folder, p, raw, m)
    ensures forall i: nat :: m == Matched(i, "MATCHED_DOI") <==> OnlyDoi(env, works, folder, p, i)
  {
    forall i: nat | OnlyDoi(env, works, folder, p, i) ensures m == Matched(i, "MATCHED_DOI") {
      assert DoiDecides(env, works, folder, p, i);
    }
  }

  lemma TitleTests(env: Environment, works: seq<Work>, folder: string, p: Parsed, i: nat)
    ensures OnlyTitle(env, works, folder, p, i) || OnlyYear(env, works, folder, p, i) <==> TitleDecides(env, works, folder, p, i)
  {
    var title := NormalizedTitle(env, p.title);
    forall j | 0 <= j < |works| ensures Passes(env, folder, SameTitle(title, p.year), works[j]) <==> TitleFits(env, folder, p, works[j]) {}
    if p.year.Some? {
      forall j | 0 <= j < |works|
        ensures Passes(env, folder, SameTitleAndYear(title, p.year.value), works[j]) <==>
                TitleFits(env, folder, p, works[j]) && YearOf(works[j].metadata) == p.year
      {
      }
    }
    OtherTwo(env, works, folder, p, i);
  }

  lemma OtherTwo(env: Environment, works: seq<Work>, folder: string, p: Parsed, i: nat)
    requires i < |works| ==> forall j :: 0 <= j < |works| ==>
      (Passes(env, folder, SameTitle(NormalizedTitle(env, p.title), p.year), works[j]) <==> TitleFits(env, folder, p, works[j]))
    ensures i < |works| && TitleFits(env, folder, p, works[i]) ==>
      (Several(env, folder, SameTitle(NormalizedTitle(env, p.title), p.year), works) <==>
       exists k :: 0 <= k < |works| && k != i && TitleFits(env, folder, p, works[k]))
  {
    var test := SameTitle(NormalizedTitle(env, p.title), p.year);
    if i < |works| && TitleFits(env, folder, p, works[i]) {
      if k :| 0 <= k < |works| && k != i && TitleFits(env, folder, p, works[k]) {
        if i < k { assert Several(env, folder, test, works); } else { assert k < i; assert Several(env, folder, test, works); }
      }
    }
  }

  /** Failing that, and unless several titles are named, the only work that fits, or of several the only one of the very year. */
  lemma TitleSettlesIt(env: Environment, works: seq<Work>, folder: string, p: Parsed, raw: string, m: Match)
    requires Answers(env, works, folder, p, raw, m) && m != Ambiguous && !exists i: nat :: OnlyDoi(env, works, folder, p, i)
    ensures forall i: nat :: m == Matched(i, "MATCHED_TITLE") <==>
                             OnlyTitle(env, works, folder, p, i) || OnlyYear(env, works, folder, p, i)
  {
    forall i: nat ensures OnlyDoi(env, works, folder, p, i) <==> DoiDecides(env, works, folder, p, i) {}
    forall i: nat
      ensures OnlyTitle(env, works, folder, p, i) || OnlyYear(env, works, folder, p, i) <==> TitleDecides(env, works, folder, p, i)
    {
      TitleTests(env, works, folder, p, i);
    }
    if i: nat :| TitleDecides(env, works, folder, p, i) { AnswerByTitle(env, works, folder, p, raw, m, i); }
  }

  lemma AnswerByTitle(env: Environment, works: seq<Work>, folder: string, p: Parsed, raw: string, m: Match, i: nat)
    requires Answers(env, works, folder, p, raw, m) && m != Ambiguous && TitleDecides(env, works, folder, p, i)
    requires !exists j: nat :: DoiDecides(env, works, folder, p, j)
    ensures m == Matched(i, "MATCHED_TITLE")
  {
    assert Answers(env, works, folder, p, raw, Matched(i, "MATCHED_TITLE"));
    AnswerIsUnique(env, works, folder, p, raw, m, Matched(i, "MATCHED_TITLE"));
  }

  /** The citation names a work: it contains the work's title, of sixteen characters or more, which no longer one of them contains. */
  ghost predicate Names(env: Environment, works: seq<Work>, folder: string, raw: string, i: nat) {
    var rawKey := NormalizedTitle(env, raw);
    && i < |works| && Eligible(folder, works[i]) && |KeyOf(env, works[i])| >= 16 && Contains(KeyOf(env, works[i]), rawKey)
    && forall j :: 0 <= j < |works| && Eligible(folder, works[j]) && |KeyOf(env, works[j])| >= 16
                   && Contains(KeyOf(env, works[j]), rawKey) && KeyOf(env, works[j]) != KeyOf(env, works[i])
                   ==> !Contains(KeyOf(env, works[i]), KeyOf(env, works[j]))
  }

  lemma NamedTitles(env: Environment, works: seq<Work>, folder: string, raw: string, i: nat)
    requires i < |works| && Eligible(folder, works[i])
    ensures Names(env, works, folder, raw, i) <==> KeyOf(env, works[i]) in MatchedTitles(env, works, folder, raw)
  {
    var rawKey := NormalizedTitle(env, raw);
    var titles := EmbeddedTitles(env, folder, rawKey, works);
    if KeyOf(env, works[i]) in titles {
      var k :| 0 <= k < |works| && Passes(env, folder, Embedded(rawKey), works[k]) && KeyOf(env, works[k]) == KeyOf(env, works[i]);
    }
    if Names(env, works, folder, raw, i) {
      assert Passes(env, folder, Embedded(rawKey), works[i]);
      forall other | other in titles && other != KeyOf(env, works[i]) ensures !Contains(KeyOf(env, works[i]), other) {
        var j :| 0 <= j < |works| && Passes(env, folder, Embedded(rawKey), works[j]) && KeyOf(env, works[j]) == other;
      }
    }
    if KeyOf(env, works[i]) in MatchedTitles(env, works, folder, raw) {
      forall j | && 0 <= j < |works| && Eligible(folder, works[j]) && |KeyOf(env, works[j])| >= 16
                 && Contains(KeyOf(env, works[j]), rawKey) && KeyOf(env, works[j]) != KeyOf(env, works[i])
        ensures !Contains(KeyOf(env, works[i]), KeyOf(env, works[j]))
      {
        assert Passes(env, folder, Embedded(rawKey), works[j]) && KeyOf(env, works[j]) in titles;
      }
    }
  }

  /** The citation names works of two titles. */
  ghost predicate NamesTwo(env: Environment, works: seq<Work>, folder: string, raw: string) {
    exists i: nat, j: nat :: Names(env, works, folder, raw, i) && Names(env, works, folder, raw, j)
                             && KeyOf(env, works[i]) != KeyOf(env, works[j])
  }

  lemma NamesTwoIff(env: Environment, works: seq<Work>, folder: string, raw: string)
    ensures NamesTwo(env, works, folder, raw) <==> |MatchedTitles(env, works, folder, raw)| > 1
  {
    var titles := MatchedTitles(env, works, folder, raw);
    if i: nat, j: nat :| Names(env, works, folder, raw, i) && Names(env, works, folder, raw, j) && KeyOf(env, works[i]) != KeyOf(env, works[j]) {
      NamedTitles(env, works, folder, raw, i);
      NamedTitles(env, works, folder, raw, j);
      SubsetSize({KeyOf(env, works[i]), KeyOf(env, works[j])}, titles);
    }
    if |titles| > 1 { TwoNamed(env, works, folder, raw); }
  }

  /** A citation that names works of two titles, and whose DOI settles nothing, is ambiguous, and no other is. */
  lemma AmbiguousIff(env: Environment, works: seq<Work>, folder: string, p: Parsed, raw: string, m: Match)
    requires Answers(env, works, folder, p, raw, m)
    ensures m == Ambiguous <==> (!exists i: nat :: OnlyDoi(env, works, folder, p, i)) && NamesTwo(env, works, folder, raw)
  {
    forall i: nat ensures OnlyDoi(env, works, folder, p, i) <==> DoiDecides(env, works, folder, p, i) {}
    NamesTwoIff(env, works, folder, raw);
  }

  /** The only work that the citation names with a year that is unknown or at most one off. */
  ghost predicate OnlyNamed(env: Environment, works: seq<Work>, folder: string, p: Parsed, raw: string, i: nat) {
    && Names(env, works, folder, raw, i) && WithinAYear(p.year, works[i])
    && forall j: nat :: j != i && Names(env, works, folder, raw, j) ==> !WithinAYear(p.year, works[j])
  }

  lemma CitationTests(env: Environment, works: seq<Work>, folder: string, p: Parsed, raw: string, i: nat)
    ensures OnlyNamed(env, works, folder, p, raw, i) <==> CitationDecides(env, works, folder, p, raw, i)
  {
    var test := TitledAmong(MatchedTitles(env, works, folder, raw), p.year);
    forall j: nat | j < |works|
      ensures Passes(env, folder, test, works[j]) <==> Names(env, works, folder, raw, j) && WithinAYear(p.year, works[j])
    {
      if Eligible(folder, works[j]) { NamedTitles(env, works, folder, raw, j); }
    }
  }

  /** Where neither DOI nor title settles it, the only work that the citation names is the answer; failing that there is none. */
  lemma CitationSettlesIt(env: Environment, works: seq<Work>, folder: string, p: Parsed, raw: string, m: Match)
    requires Answers(env, works, folder, p, raw, m) && m != Ambiguous
    requires forall i: nat :: m != Matched(i, "MATCHED_DOI") && m != Matched(i, "MATCHED_TITLE")
    ensures forall i: nat :: m == Matched(i, "MATCHED_TITLE_IN_CITATION") <==> OnlyNamed(env, works, folder, p, raw, i)
    ensures m.Matched? || m == NoMatch
  {
    forall i: nat ensures OnlyNamed(env, works, folder, p, raw, i) <==> CitationDecides(env, works, folder, p, raw, i) {
      CitationTests(env, works, folder, p, raw, i);
    }
    if i: nat :| CitationDecides(env, works, folder, p, raw, i) { AnswerByCitation(env, works, folder, p, raw, m, i); }
  }

  lemma AnswerByCitation(env: Environment, works: seq<Work>, folder: string, p: Parsed, raw: string, m: Match, i: nat)
    requires Answers(env, works, folder, p, raw, m) && m != Ambiguous && CitationDecides(env, works, folder, p, raw, i)
    requires forall j: nat :: m != Matched(j, "MATCHED_DOI") && m != Matched(j, "MATCHED_TITLE")
    ensures m == Matched(i, "MATCHED_TITLE_IN_CITATION")
  {
    if m.Matched? {
      assert m == Matched(m.index, m.action);
      assert m.action == "MATCHED_TITLE_IN_CITATION";
    }
  }

  lemma TwoNamed(env: Environment, works: seq<Work>, folder: string, raw: string)
    requires |MatchedTitles(env, works, folder, raw)| > 1
    ensures NamesTwo(env, works, folder, raw)
  {
    var titles := MatchedTitles(env, works, folder, raw);
    var a :| a in titles;
    assert |titles - {a}| > 0;
    var b :| b in titles - {a};
    var i := NamedBy(env, works, folder, raw, a);
    var j := NamedBy(env, works, folder, raw, b);
    assert KeyOf(env, works[i]) != KeyOf(env, works[j]);
  }

  lemma NamedBy(env: Environment, works: seq<Work>, folder: string, raw: string, title: string) returns (i: nat)
    requires title in MatchedTitles(env, works, folder, raw)
    ensures Names(env, works, folder, raw, i) && KeyOf(env, works[i]) == title
  {
    var k :| 0 <= k < |works| && Passes(env, folder, Embedded(NormalizedTitle(env, raw)), works[k]) && KeyOf(env, works[k]) == title;
    i := k;
    NamedTitles(env, works, folder, raw, i);
  }
}
