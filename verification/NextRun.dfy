/**
 * When a citation that one run took up as a new work is taken up once more by the next, which begins with the repairs
 * (app/importer/publication_reconciliation.py, `reconcile_publication_manifest` on its own result).
 */
module NextRun {
  import opened Base
  import opened Manifest
  import opened Deduplication
  import opened Reconciliation
  import opened Conservation
  import opened Uptake

  // ------------------------------------------------------------------
  // What the repairs leave
  // ------------------------------------------------------------------

  /** The repairs leave the work alone: it is no empty artifact, and if its title is long, the first of the best copies. */
  ghost predicate Kept(env: Environment, works: seq<Work>, i: nat) {
    i < |works| && Quarantined(works[i]) == works[i] && (Titled(env, works[i]) ==> IsPrimary(env, works, i))
  }

  ghost predicate KeptPass(env: Environment, folder: string, test: Test, works: seq<Work>, i: nat) {
    Kept(env, works, i) && Passes(env, folder, test, works[i])
  }

  /** Of the works that the repairs leave, exactly one passes. */
  ghost predicate SoleKept(env: Environment, folder: string, test: Test, works: seq<Work>) {
    exists i: nat :: KeptPass(env, folder, test, works, i) && OnlyKept(env, folder, test, works, i)
  }

  ghost predicate OnlyKept(env: Environment, folder: string, test: Test, works: seq<Work>, i: nat) {
    forall j: nat :: KeptPass(env, folder, test, works, j) ==> j == i
  }

  /** The first of the best copies of some title passes. */
  ghost predicate PrimaryPasses(env: Environment, folder: string, test: Test, works: seq<Work>) {
    exists o: nat :: IsPrimary(env, works, o) && Passes(env, folder, test, works[o])
  }

  lemma TitledIsNotEmpty(env: Environment, w: Work)
    requires KeyOf(env, w) != ""
    ensures !Empty(w) && Quarantined(w) == w
  {
    assert Title in MEANINGFUL by { assert MEANINGFUL[2] == Title; }
  }

  lemma QuarantineKeepsKeys(env: Environment, w: Work)
    ensures KeyOf(env, Quarantined(w)) == KeyOf(env, w) && Quarantined(w).folder == w.folder
    ensures Titled(env, w) ==> Quarantined(w) == w
  {
    if Titled(env, w) { TitledIsNotEmpty(env, w); }
  }

  lemma QuarantineKeepsPrimaries(env: Environment, works: seq<Work>, i: nat)
    ensures IsPrimary(env, AllQuarantined(works), i) <==> IsPrimary(env, works, i)
  {
    var q := AllQuarantined(works);
    forall j | 0 <= j < |works| ensures KeyOf(env, q[j]) == KeyOf(env, works[j]) && q[j].folder == works[j].folder
      ensures Titled(env, works[j]) ==> q[j] == works[j]
    {
      QuarantineKeepsKeys(env, works[j]);
    }
    if i < |works| && Titled(env, works[i]) {
      forall j | 0 <= j < |works| ensures Twins(env, q[i], q[j]) <==> Twins(env, works[i], works[j])
        ensures Twins(env, works[i], works[j]) ==> (Leads(q, i, j) <==> Leads(works, i, j)) {}
    }
  }

  /** A work that is not left alone is set aside. */
  lemma RepairedAt(env: Environment, works: seq<Work>, repaired: seq<Work>, i: nat)
    requires Repairs(env, works, repaired) && i < |works|
    ensures |repaired| == |works| && KeyOf(env, repaired[i]) == KeyOf(env, works[i])
    ensures if Kept(env, works, i) then repaired[i] == works[i] else repaired[i].review.disposition == Some(REJECTED)
  {
    var q := AllQuarantined(works);
    assert q[i] == Quarantined(works[i]) && DeduplicatedAt(env, q, i, repaired[i]);
    QuarantineKeepsKeys(env, works[i]);
    QuarantineKeepsPrimaries(env, works, i);
  }

  lemma PassesAfterRepairs(env: Environment, folder: string, test: Test, works: seq<Work>, repaired: seq<Work>, i: nat)
    requires Repairs(env, works, repaired) && i < |works|
    ensures |repaired| == |works| && (Passes(env, folder, test, repaired[i]) <==> KeptPass(env, folder, test, works, i))
  {
    RepairedAt(env, works, repaired, i);
  }

  lemma SoleAfterRepairs(env: Environment, folder: string, test: Test, works: seq<Work>, repaired: seq<Work>)
    requires Repairs(env, works, repaired)
    ensures SomeSole(env, folder, test, repaired) <==> SoleKept(env, folder, test, works)
  {
    forall i: nat | i < |works|
      ensures Passes(env, folder, test, repaired[i]) <==> KeptPass(env, folder, test, works, i)
    {
      PassesAfterRepairs(env, folder, test, works, repaired, i);
    }
    forall i: nat ensures Sole(env, folder, test, repaired, i) <==>
                          KeptPass(env, folder, test, works, i) && OnlyKept(env, folder, test, works, i) {}
  }

  // ------------------------------------------------------------------
  // Titles that the repairs look at, and others
  // ------------------------------------------------------------------

  /** The test asks for one long title. */
  ghost predicate ForLongTitle(env: Environment, test: Test, title: string) {
    |title| >= 16
    && match test
       case SameTitle(t, _) => t == title
       case SameTitleAndYear(t, _) => t == title
       case TitledAmong(titles, _) => titles == {title}
       case _ => false
  }

  lemma LongTitleLeft(env: Environment, folder: string, test: Test, title: string, works: seq<Work>, repaired: seq<Work>, i: nat)
    requires Repairs(env, works, repaired) && ForLongTitle(env, test, title) && i < |works|
    ensures |repaired| == |works|
    ensures Passes(env, folder, test, repaired[i]) <==> IsPrimary(env, works, i) && Passes(env, folder, test, works[i])
  {
    PassesAfterRepairs(env, folder, test, works, repaired, i);
    if Titled(env, works[i]) { TitledIsNotEmpty(env, works[i]); }
  }

  lemma OnePrimaryPasses(env: Environment, folder: string, test: Test, title: string, works: seq<Work>, i: nat, j: nat)
    requires ForLongTitle(env, test, title) && IsPrimary(env, works, i) && IsPrimary(env, works, j)
    requires Passes(env, folder, test, works[i]) && Passes(env, folder, test, works[j])
    ensures i == j
  {
    assert KeyOf(env, works[i]) == title == KeyOf(env, works[j]);
    PrimaryIsUnique(env, works, i, j);
  }

  /** Of one long title at most one work is left, so the search finds it or nothing. */
  lemma LongTitleAfterRepairs(env: Environment, folder: string, test: Test, title: string, works: seq<Work>, repaired: seq<Work>)
    requires Repairs(env, works, repaired) && ForLongTitle(env, test, title)
    ensures !Several(env, folder, test, repaired)
    ensures SomeSole(env, folder, test, repaired) <==> PrimaryPasses(env, folder, test, works)
  {
    if i, j :| 0 <= i < j < |repaired| && Passes(env, folder, test, repaired[i]) && Passes(env, folder, test, repaired[j]) {
      LongTitleLeft(env, folder, test, title, works, repaired, i);
      LongTitleLeft(env, folder, test, title, works, repaired, j);
      OnePrimaryPasses(env, folder, test, title, works, i, j);
    }
    NoneOneOrSeveral(env, folder, test, repaired);
    if o: nat :| IsPrimary(env, works, o) && Passes(env, folder, test, works[o]) {
      LongTitleLeft(env, folder, test, title, works, repaired, o);
    }
    if i: nat :| Sole(env, folder, test, repaired, i) {
      LongTitleLeft(env, folder, test, title, works, repaired, i);
    }
  }

  /** Works of a shorter title are left as they are. */
  lemma ShortTitleAfterRepairs(env: Environment, folder: string, test: Test, works: seq<Work>, repaired: seq<Work>)
    requires Repairs(env, works, repaired) && (test.SameTitle? || test.SameTitleAndYear?) && 0 < |test.title| < 16
    ensures SomeSole(env, folder, test, repaired) <==> SomeSole(env, folder, test, works)
    ensures Several(env, folder, test, repaired) <==> Several(env, folder, test, works)
  {
    forall i: nat | i < |works| ensures Passes(env, folder, test, repaired[i]) <==> Passes(env, folder, test, works[i]) {
      PassesAfterRepairs(env, folder, test, works, repaired, i);
      if Passes(env, folder, test, works[i]) { TitledIsNotEmpty(env, works[i]); }
    }
    forall i: nat ensures Sole(env, folder, test, repaired, i) <==> Sole(env, folder, test, works, i) {}
  }

  // ------------------------------------------------------------------
  // The search on a repaired manifest
  // ------------------------------------------------------------------

  ghost function KeptTitles(env: Environment, folder: string, rawKey: string, works: seq<Work>): set<string> {
    set i | 0 <= i < |works| && KeptPass(env, folder, Embedded(rawKey), works, i) :: KeyOf(env, works[i])
  }

  lemma TitlesAfterRepairs(env: Environment, folder: string, raw: string, works: seq<Work>, repaired: seq<Work>)
    requires Repairs(env, works, repaired)
    ensures MatchedTitles(env, repaired, folder, raw) == Maximal(KeptTitles(env, folder, NormalizedTitle(env, raw), works))
  {
    var rawKey := NormalizedTitle(env, raw);
    forall i: nat | i < |works|
      ensures Passes(env, folder, Embedded(rawKey), repaired[i]) <==> KeptPass(env, folder, Embedded(rawKey), works, i)
      ensures KeyOf(env, repaired[i]) == KeyOf(env, works[i])
    {
      PassesAfterRepairs(env, folder, Embedded(rawKey), works, repaired, i);
      RepairedAt(env, works, repaired, i);
    }
    assert EmbeddedTitles(env, folder, rawKey, repaired) == KeptTitles(env, folder, rawKey, works);
  }

  ghost predicate DoiHidden(env: Environment, folder: string, works: seq<Work>, q: Parsed) {
    q.doi != "" ==> !SoleKept(env, folder, SameDoi(env.casefold(q.doi)), works)
  }

  /** The first of the best copies of a long title does not fit, or shorter titles are too many. */
  ghost predicate TitleHidden(env: Environment, folder: string, works: seq<Work>, q: Parsed) {
    var title := NormalizedTitle(env, q.title);
    if |title| >= 16 then !PrimaryPasses(env, folder, SameTitle(title, q.year), works)
    else title != "" ==>
      && !SomeSole(env, folder, SameTitle(title, q.year), works)
      && !(&& Several(env, folder, SameTitle(title, q.year), works)
           && q.year.Some? && SomeSole(env, folder, SameTitleAndYear(title, q.year.value), works))
  }

  /** The citation contains no long title that is left, or one of a work that does not fit. */
  ghost predicate CitationHidden(env: Environment, folder: string, works: seq<Work>, q: Parsed, raw: string) {
    var titles := Maximal(KeptTitles(env, folder, NormalizedTitle(env, raw), works));
    |titles| <= 1 && !PrimaryPasses(env, folder, TitledAmong(titles, q.year), works)
  }

  /** The search for the citation will find nothing once these works have been repaired. */
  ghost predicate Hidden(env: Environment, folder: string, works: seq<Work>, q: Parsed, raw: string) {
    DoiHidden(env, folder, works, q) && TitleHidden(env, folder, works, q) && CitationHidden(env, folder, works, q, raw)
  }

  lemma DoiAfterRepairs(env: Environment, folder: string, works: seq<Work>, repaired: seq<Work>, q: Parsed)
    requires Repairs(env, works, repaired)
    ensures (exists i: nat :: DoiDecides(env, repaired, folder, q, i)) <==> !DoiHidden(env, folder, works, q)
  {
    var test := SameDoi(env.casefold(q.doi));
    SoleAfterRepairs(env, folder, test, works, repaired);
    if q.doi != "" {
      forall i: nat ensures DoiDecides(env, repaired, folder, q, i) <==> Sole(env, folder, test, repaired, i) {}
    }
  }

  lemma TitleAfterRepairs(env: Environment, folder: string, works: seq<Work>, repaired: seq<Work>, q: Parsed)
    requires Repairs(env, works, repaired)
    ensures (exists i: nat :: TitleDecides(env, repaired, folder, q, i)) <==> !TitleHidden(env, folder, works, q)
  {
    var title := NormalizedTitle(env, q.title);
    TitleDecidesIff(env, repaired, folder, q);
    if |title| >= 16 {
      LongTitleAfterRepairs(env, folder, SameTitle(title, q.year), title, works, repaired);
    } else if title != "" {
      ShortTitleAfterRepairs(env, folder, SameTitle(title, q.year), works, repaired);
      if q.year.Some? { ShortTitleAfterRepairs(env, folder, SameTitleAndYear(title, q.year.value), works, repaired); }
    }
  }

  lemma AtMostOneIn(titles: set<string>, title: string)
    requires |titles| <= 1 && title in titles
    ensures titles == {title}
  {
    assert |titles - {title}| == 0;
  }

  lemma FewTitlesAfterRepairs(env: Environment, folder: string, works: seq<Work>, repaired: seq<Work>, titles: set<string>, year: Option<int>)
    requires Repairs(env, works, repaired) && |titles| <= 1 && forall title :: title in titles ==> |title| >= 16
    ensures SomeSole(env, folder, TitledAmong(titles, year), repaired) <==> PrimaryPasses(env, folder, TitledAmong(titles, year), works)
  {
    if title :| title in titles {
      AtMostOneIn(titles, title);
      LongTitleAfterRepairs(env, folder, TitledAmong(titles, year), title, works, repaired);
    }
  }

  lemma CitationAfterRepairs(env: Environment, folder: string, works: seq<Work>, repaired: seq<Work>, q: Parsed, raw: string)
    requires Repairs(env, works, repaired)
    ensures |MatchedTitles(env, repaired, folder, raw)| <= 1 && !(exists i: nat :: CitationDecides(env, repaired, folder, q, raw, i))
            <==> CitationHidden(env, folder, works, q, raw)
  {
    TitlesAfterRepairs(env, folder, raw, works, repaired);
    CitationDecidesIff(env, repaired, folder, q, raw);
    MatchedTitlesAreLong(env, repaired, folder, raw);
    var titles := MatchedTitles(env, repaired, folder, raw);
    if |titles| <= 1 { FewTitlesAfterRepairs(env, folder, works, repaired, titles, q.year); }
  }

  /** The search on a repaired manifest finds nothing exactly under these conditions on the manifest before the repairs. */
  lemma NothingAfterRepairsIff(env: Environment, folder: string, works: seq<Work>, repaired: seq<Work>, q: Parsed, raw: string)
    requires Repairs(env, works, repaired)
    ensures Answers(env, repaired, folder, q, raw, NoMatch) <==> Hidden(env, folder, works, q, raw)
  {
    DoiAfterRepairs(env, folder, works, repaired, q);
    TitleAfterRepairs(env, folder, works, repaired, q);
    CitationAfterRepairs(env, folder, works, repaired, q, raw);
  }

  // ------------------------------------------------------------------
  // A manifest that holds the citation's own work
  // ------------------------------------------------------------------

  /** The repairs keep another copy of the citation's long title, which is set aside itself or of an incompatible year. */
  ghost predicate Displaced(env: Environment, folder: string, works: seq<Work>, p: Parsed) {
    exists o: nat ::
      && IsPrimary(env, works, o) && works[o].folder == folder && KeyOf(env, works[o]) == NormalizedTitle(env, p.title)
      && (works[o].review.disposition == Some(REJECTED) || !YearsAgree(p.year, YearOf(works[o].metadata)))
  }

  /** A short title is that of several standing works of compatible years, and if the citation is dated of its very year. */
  ghost predicate Crowded(env: Environment, folder: string, works: seq<Work>, p: Parsed) {
    var title := NormalizedTitle(env, p.title);
    && Several(env, folder, SameTitle(title, p.year), works)
    && (p.year.Some? ==> Several(env, folder, SameTitleAndYear(title, p.year.value), works))
  }

  /** Neither by identifier nor by title nor by its wording does the citation lead to a work that the repairs leave. */
  ghost predicate Lost(env: Environment, folder: string, works: seq<Work>, p: Parsed, raw: string) {
    var title := NormalizedTitle(env, p.title);
    && DoiHidden(env, folder, works, p) && CitationHidden(env, folder, works, p, raw)
    && (title != "" ==> if |title| >= 16 then Displaced(env, folder, works, p) else Crowded(env, folder, works, p))
  }

  /** Every long-titled work has a first best copy. */
  lemma PrimaryOf(env: Environment, works: seq<Work>, repaired: seq<Work>, k: nat) returns (o: nat)
    requires Repairs(env, works, repaired) && k < |works| && Titled(env, works[k])
    ensures IsPrimary(env, works, o) && Twins(env, works[k], works[o])
  {
    var q := AllQuarantined(works);
    assert DeduplicatedAt(env, q, k, repaired[k]);
    QuarantineKeepsKeys(env, works[k]);
    if IsPrimary(env, q, k) {
      o := k;
    } else {
      var p: nat :| IsPrimary(env, q, p) && Twins(env, q[k], q[p]);
      o := p;
      QuarantineKeepsKeys(env, works[p]);
    }
    QuarantineKeepsPrimaries(env, works, o);
  }

  lemma LongTitleHiddenIff(env: Environment, folder: string, works: seq<Work>, repaired: seq<Work>, k: nat, p: Parsed)
    requires Repairs(env, works, repaired) && k < |works| && Own(env, folder, p, works[k])
    requires |NormalizedTitle(env, p.title)| >= 16
    ensures TitleHidden(env, folder, works, p) <==> Displaced(env, folder, works, p)
  {
    var test := SameTitle(NormalizedTitle(env, p.title), p.year);
    var o := PrimaryOf(env, works, repaired, k);
    if Passes(env, folder, test, works[o]) {
      if n: nat :| && IsPrimary(env, works, n) && works[n].folder == folder && KeyOf(env, works[n]) == NormalizedTitle(env, p.title)
                   && !Passes(env, folder, test, works[n]) {
        PrimaryIsUnique(env, works, n, o);
      }
    } else if n: nat :| IsPrimary(env, works, n) && Passes(env, folder, test, works[n]) {
      PrimaryIsUnique(env, works, n, o);
    }
  }

  lemma ShortTitleHiddenIff(env: Environment, folder: string, works: seq<Work>, k: nat, p: Parsed)
    requires k < |works| && Own(env, folder, p, works[k])
    requires 0 < |NormalizedTitle(env, p.title)| < 16
    ensures TitleHidden(env, folder, works, p) <==> Crowded(env, folder, works, p)
  {
    var title := NormalizedTitle(env, p.title);
    assert Passes(env, folder, SameTitle(title, p.year), works[k]);
    NoneOneOrSeveral(env, folder, SameTitle(title, p.year), works);
    if p.year.Some? {
      assert Passes(env, folder, SameTitleAndYear(title, p.year.value), works[k]);
      NoneOneOrSeveral(env, folder, SameTitleAndYear(title, p.year.value), works);
    }
  }

  lemma OwnHiddenIff(env: Environment, folder: string, works: seq<Work>, repaired: seq<Work>, k: nat, p: Parsed, raw: string)
    requires Repairs(env, works, repaired) && k < |works| && Own(env, folder, p, works[k])
    ensures Hidden(env, folder, works, p, raw) <==> Lost(env, folder, works, p, raw)
  {
    var title := NormalizedTitle(env, p.title);
    if |title| >= 16 {
      LongTitleHiddenIff(env, folder, works, repaired, k, p);
    } else if title != "" {
      ShortTitleHiddenIff(env, folder, works, k, p);
    }
  }

  // ------------------------------------------------------------------
  // The next run
  // ------------------------------------------------------------------

  /** On whatever manifest a run begins, its first citation is taken up exactly if nothing that the repairs leave is found. */
  lemma TakenUpAfterRepairsIff(env: Environment, folder: string, works: seq<Work>, c: Candidate, e: Document, e': Document)
    requires Repairs(env, works, e.works) && CandidateStep(env, folder, e, c, e')
    ensures |e'.works| > |e.works| <==>
      && Accepted(env, c, FinallyParsed(env, c), NoMatch)
      && Hidden(env, folder, works, env.parse(c), c.raw) && Hidden(env, folder, works, FinallyParsed(env, c), c.raw)
  {
    UptakeIff(env, folder, e, c, e');
    NothingAfterRepairsIff(env, folder, works, e.works, env.parse(c), c.raw);
    NothingAfterRepairsIff(env, folder, works, e.works, FinallyParsed(env, c), c.raw);
  }

  /**
   * A citation that the last step of one run took up as a new work is taken up again by the first step of the next exactly
   * if after the repairs neither its own work nor another one can be found; the new work then has the identifier of the
   * first.
   */
  lemma TakenUpByNextRunIff(env: Environment, folder: string, d: Document, c: Candidate, d1: Document, e: Document, e': Document)
    requires CandidateStep(env, folder, d, c, d1) && |d1.works| > |d.works|
    requires Repairs(env, d1.works, e.works) && CandidateStep(env, folder, e, c, e')
    ensures |e'.works| > |e.works| <==>
      && Lost(env, folder, d1.works, FinallyParsed(env, c), c.raw)
      && (env.resolve(c, env.parse(c)).Some? ==> Hidden(env, folder, d1.works, env.parse(c), c.raw))
    ensures |e'.works| > |e.works| ==> e'.works[|e.works|].id == d1.works[|d.works|].id && !DistinctWorkIds(e'.works)
  {
    var p, n := FinallyParsed(env, c), |d.works|;
    UptakeIff(env, folder, d, c, d1);
    TwiceUnderOneId(env, folder, d, c, d1);
    TakenUpAfterRepairsIff(env, folder, d1.works, c, e, e');
    OwnHiddenIff(env, folder, d1.works, e.works, n, p, c.raw);
    RepairedAt(env, d1.works, e.works, n);
    RepairKeepsIds(env, d1.works, e.works, n);
    if |e'.works| > |e.works| {
      TwiceUnderOneId(env, folder, e, c, e');
      assert e'.works[n] == e.works[n];
    }
  }

  lemma RepairKeepsIds(env: Environment, works: seq<Work>, repaired: seq<Work>, i: nat)
    requires Repairs(env, works, repaired) && i < |works|
    ensures |repaired| == |works| && repaired[i].id == works[i].id
  {
    assert DeduplicatedAt(env, AllQuarantined(works), i, repaired[i]) && AllQuarantined(works)[i] == Quarantined(works[i]);
  }

  /**
   * With the first best copy of a long title known: its own work is found if it is that copy; another copy is found if it
   * stands and the years agree; otherwise identifier and wording decide.
   */
  lemma LongTitleIsLostIff(env: Environment, folder: string, works: seq<Work>, repaired: seq<Work>, k: nat, o: nat, p: Parsed, raw: string)
    requires Repairs(env, works, repaired) && k < |works| && Own(env, folder, p, works[k])
    requires IsPrimary(env, works, o) && Twins(env, works[k], works[o])
    ensures Lost(env, folder, works, p, raw) <==>
      && o != k && (works[o].review.disposition == Some(REJECTED) || !YearsAgree(p.year, YearOf(works[o].metadata)))
      && DoiHidden(env, folder, works, p) && CitationHidden(env, folder, works, p, raw)
  {
    forall n: nat | IsPrimary(env, works, n) && works[n].folder == folder && KeyOf(env, works[n]) == NormalizedTitle(env, p.title)
      ensures n == o
    {
      PrimaryIsUnique(env, works, n, o);
    }
    assert Displaced(env, folder, works, p) <==>
      (works[o].review.disposition == Some(REJECTED) || !YearsAgree(p.year, YearOf(works[o].metadata)));
  }

  /** A long title without a year is found by the next run, whatever there is of it, as long as its work had a known review. */
  lemma DatelessLongTitleIsFound(env: Environment, folder: string, works: seq<Work>, repaired: seq<Work>, k: nat, p: Parsed, raw: string)
    requires Repairs(env, works, repaired) && k < |works| && Own(env, folder, p, works[k]) && Rank(works[k]) >= 2
    requires |NormalizedTitle(env, p.title)| >= 16 && p.year == None
    ensures !Lost(env, folder, works, p, raw)
  {
    var o := PrimaryOf(env, works, repaired, k);
    assert Leads(works, o, k);
    assert Passes(env, folder, SameTitle(NormalizedTitle(env, p.title), p.year), works[o]);
    LongTitleHiddenIff(env, folder, works, repaired, k, p);
  }

  const DATED_CITATION := Parsed("", LONG_TITLE, "", "", "", Some(2015), "", "parser")

  const DATED_ENVIRONMENT := PlainEnvironment(DATED_CITATION, Classification(PUBLISHED, 1.0, ""))

  const DATED_WORK := TitledWork("given", LONG_TITLE, Some(2010), Some(PUBLISHED))

  /**
   * A published work of 2010, and a citation of its title with the year 2015: taken up as a second work, which would be
   * found in the same run, but is set aside by the next, so that the citation is taken up a second time.
   */
  lemma OtherYearIsTakenUpAgain(d: Document, c: Candidate, d1: Document, e: Document, e': Document)
    requires d.works == [DATED_WORK]
    requires CandidateStep(DATED_ENVIRONMENT, "folder", d, c, d1)
    requires Repairs(DATED_ENVIRONMENT, d1.works, e.works) && CandidateStep(DATED_ENVIRONMENT, "folder", e, c, e')
    ensures |e'.works| == 3 && e'.works[2].id == e'.works[1].id
    ensures !NeverFound(DATED_ENVIRONMENT, "folder", d.works, DATED_CITATION)
  {
    var env := DATED_ENVIRONMENT;
    DatedCitationCounts(c);
    OtherYearMatchesNothing(d.works, c.raw);
    FirstYearAdded(d, c, d1);
    AddedIsNoBetter(d, c);
    OtherYearIsLost(d1.works, c.raw);
    TakenUpByNextRunIff(env, "folder", d, c, d1, e, e');
    RepairKeepsIds(env, d1.works, e.works, 1);
    TwiceUnderOneId(env, "folder", e, c, e');
  }

  /** The one work has the title, but no test that looks at years lets it pass. */
  lemma OtherYearFails(works: seq<Work>, titles: set<string>)
    requires works == [DATED_WORK]
    ensures KeyOf(DATED_ENVIRONMENT, works[0]) == LONG_TITLE == NormalizedTitle(DATED_ENVIRONMENT, DATED_CITATION.title)
    ensures !SomePass(DATED_ENVIRONMENT, "folder", SameTitle(LONG_TITLE, Some(2015)), works)
    ensures !SomePass(DATED_ENVIRONMENT, "folder", TitledAmong(titles, Some(2015)), works)
  {
    assert YearOf(works[0].metadata) == Some(2010);
  }

  lemma OtherYearMatchesNothing(works: seq<Work>, raw: string)
    requires works == [DATED_WORK]
    ensures Answers(DATED_ENVIRONMENT, works, "folder", DATED_CITATION, raw, NoMatch)
    ensures !NeverFound(DATED_ENVIRONMENT, "folder", works, DATED_CITATION)
  {
    var env, p := DATED_ENVIRONMENT, DATED_CITATION;
    var titles := MatchedTitles(env, works, "folder", raw);
    OtherYearFails(works, titles);
    NoneOneOrSeveral(env, "folder", SameTitle(LONG_TITLE, Some(2015)), works);
    NoneOneOrSeveral(env, "folder", TitledAmong(titles, Some(2015)), works);
    TitleDecidesIff(env, works, "folder", p);
    CitationDecidesIff(env, works, "folder", p, raw);
    OneMatchedTitle(works, raw);
  }

  lemma OneMatchedTitle(works: seq<Work>, raw: string)
    requires works == [DATED_WORK]
    ensures |MatchedTitles(DATED_ENVIRONMENT, works, "folder", raw)| <= 1
  {
    var env := DATED_ENVIRONMENT;
    OtherYearFails(works, {});
    forall title | title in EmbeddedTitles(env, "folder", NormalizedTitle(env, raw), works) ensures title == LONG_TITLE {}
    OnlyOne(MatchedTitles(env, works, "folder", raw));
  }

  lemma FirstYearAdded(d: Document, c: Candidate, d1: Document)
    requires d.works == [DATED_WORK] && CandidateStep(DATED_ENVIRONMENT, "folder", d, c, d1)
    ensures |d1.works| == 2 && d1.works[0] == DATED_WORK && Own(DATED_ENVIRONMENT, "folder", DATED_CITATION, d1.works[1])
    ensures d1 == Settled(DATED_ENVIRONMENT, "folder", d, c, DATED_CITATION, NoMatch)
  {
    DatedCitationCounts(c);
    OtherYearMatchesNothing(d.works, c.raw);
    UptakeIff(DATED_ENVIRONMENT, "folder", d, c, d1);
    TwiceUnderOneId(DATED_ENVIRONMENT, "folder", d, c, d1);
  }

  lemma DatedCitationCounts(c: Candidate)
    ensures FinallyParsed(DATED_ENVIRONMENT, c) == DATED_ENVIRONMENT.parse(c) == DATED_CITATION
    ensures Accepted(DATED_ENVIRONMENT, c, DATED_CITATION, NoMatch)
    ensures DATED_ENVIRONMENT.resolve(c, DATED_CITATION) == None
  {
  }

  lemma AddedIsNoBetter(d: Document, c: Candidate)
    requires |d.works| == 1
    ensures var works := Settled(DATED_ENVIRONMENT, "folder", d, c, DATED_CITATION, NoMatch).works;
            |works| == 2 && !Better(works[1], DATED_WORK)
  {
    var w := NewWork(DATED_ENVIRONMENT, "folder", c, DATED_CITATION, Classification(PUBLISHED, 1.0, ""));
    assert Weight(w) == 0 && Weight(WithOccurrence(w, c)) == 0 && Rank(DATED_WORK) == 5;
  }

  lemma OnlyOne(titles: set<string>)
    requires forall title :: title in titles ==> title == LONG_TITLE
    ensures |titles| <= 1
  {
    SubsetSize(titles, {LONG_TITLE});
  }

  lemma EarlierYearIsKept(works: seq<Work>)
    requires |works| == 2 && works[0] == DATED_WORK && KeyOf(DATED_ENVIRONMENT, works[1]) == LONG_TITLE && works[1].folder == "folder"
    requires !Better(works[1], DATED_WORK)
    ensures forall i: nat :: IsPrimary(DATED_ENVIRONMENT, works, i) <==> i == 0
  {
    var env := DATED_ENVIRONMENT;
    assert KeyOf(env, works[0]) == LONG_TITLE;
    assert Leads(works, 0, 0) && Leads(works, 0, 1) && IsPrimary(env, works, 0);
    forall i: nat | IsPrimary(env, works, i) ensures i == 0 { PrimaryIsUnique(env, works, i, 0); }
  }

  lemma OtherYearIsLost(works: seq<Work>, raw: string)
    requires |works| == 2 && works[0] == DATED_WORK && Own(DATED_ENVIRONMENT, "folder", DATED_CITATION, works[1])
    requires !Better(works[1], DATED_WORK)
    ensures Lost(DATED_ENVIRONMENT, "folder", works, DATED_CITATION, raw)
  {
    var env, p := DATED_ENVIRONMENT, DATED_CITATION;
    assert NormalizedTitle(env, p.title) == LONG_TITLE && |LONG_TITLE| == 26;
    EarlierYearIsKept(works);
    assert KeyOf(env, works[0]) == LONG_TITLE && YearOf(works[0].metadata) == Some(2010);
    assert Displaced(env, "folder", works, p);
    OnlyLongTitle(works, raw);
    assert CitationHidden(env, "folder", works, p, raw);
  }

  lemma OnlyLongTitle(works: seq<Work>, raw: string)
    requires forall i :: 0 <= i < |works| ==> KeyOf(DATED_ENVIRONMENT, works[i]) == LONG_TITLE
    ensures |Maximal(KeptTitles(DATED_ENVIRONMENT, "folder", NormalizedTitle(DATED_ENVIRONMENT, raw), works))| <= 1
  {
    var titles := KeptTitles(DATED_ENVIRONMENT, "folder", NormalizedTitle(DATED_ENVIRONMENT, raw), works);
    forall title | title in titles ensures title == LONG_TITLE {}
    OnlyOne(Maximal(titles));
  }
}
