/**
 * When a citation that was taken up as a new work is taken up once more
 * (app/importer/publication_reconciliation.py, `_match_work` on the works it added itself).
 */
module Uptake {
  import opened Base
  import opened Manifest
  import opened Reconciliation
  import opened Conservation

  // ------------------------------------------------------------------
  // One more work in the search
  // ------------------------------------------------------------------

  ghost predicate SomePass(env: Environment, folder: string, test: Test, works: seq<Work>) {
    exists i :: 0 <= i < |works| && Passes(env, folder, test, works[i])
  }

  ghost predicate SomeSole(env: Environment, folder: string, test: Test, works: seq<Work>) {
    exists i: nat :: Sole(env, folder, test, works, i)
  }

  lemma NoneOneOrSeveral(env: Environment, folder: string, test: Test, works: seq<Work>)
    ensures SomePass(env, folder, test, works) <==> SomeSole(env, folder, test, works) || Several(env, folder, test, works)
    ensures !(SomeSole(env, folder, test, works) && Several(env, folder, test, works))
  {
    if i :| 0 <= i < |works| && Passes(env, folder, test, works[i]) {
      if !Sole(env, folder, test, works, i) {
        var j :| 0 <= j < |works| && Passes(env, folder, test, works[j]) && j != i;
        if i < j {
          assert Several(env, folder, test, works);
        } else {
          assert j < i && Several(env, folder, test, works);
        }
      }
    }
  }

  /** A further work that passes is the only one exactly if none passed before. */
  lemma SoleAfterAppend(env: Environment, folder: string, test: Test, works: seq<Work>, w: Work)
    ensures SomeSole(env, folder, test, works + [w]) <==>
            if Passes(env, folder, test, w) then !SomePass(env, folder, test, works) else SomeSole(env, folder, test, works)
  {
    var more := works + [w];
    assert more[|works|] == w && forall i :: 0 <= i < |works| ==> more[i] == works[i];
    if Passes(env, folder, test, w) {
      if !SomePass(env, folder, test, works) { assert Sole(env, folder, test, more, |works|); }
      if i: nat :| Sole(env, folder, test, more, i) { assert i == |works|; }
    } else {
      if i: nat :| Sole(env, folder, test, works, i) { assert Sole(env, folder, test, more, i); }
      if i: nat :| Sole(env, folder, test, more, i) { assert Sole(env, folder, test, works, i); }
    }
  }

  lemma SeveralAfterAppend(env: Environment, folder: string, test: Test, works: seq<Work>, w: Work)
    ensures Several(env, folder, test, works + [w]) <==>
            Several(env, folder, test, works) || (Passes(env, folder, test, w) && SomePass(env, folder, test, works))
  {
    if Several(env, folder, test, works) {
      var i, j :| 0 <= i < j < |works| && Passes(env, folder, test, works[i]) && Passes(env, folder, test, works[j]);
      TwoPass(env, folder, test, works + [w], i, j);
    } else if Passes(env, folder, test, w) && SomePass(env, folder, test, works) {
      var i :| 0 <= i < |works| && Passes(env, folder, test, works[i]);
      TwoPass(env, folder, test, works + [w], i, |works|);
    }
    if Several(env, folder, test, works + [w]) { SeveralBeforeAppend(env, folder, test, works, w); }
  }

  lemma TwoPass(env: Environment, folder: string, test: Test, works: seq<Work>, i: nat, j: nat)
    requires i < j < |works| && Passes(env, folder, test, works[i]) && Passes(env, folder, test, works[j])
    ensures Several(env, folder, test, works)
  {
  }

  lemma SeveralBeforeAppend(env: Environment, folder: string, test: Test, works: seq<Work>, w: Work)
    requires Several(env, folder, test, works + [w])
    ensures Several(env, folder, test, works) || (Passes(env, folder, test, w) && SomePass(env, folder, test, works))
  {
    var more := works + [w];
    var i, j :| 0 <= i < j < |more| && Passes(env, folder, test, more[i]) && Passes(env, folder, test, more[j]);
    assert more[i] == works[i];
    if j < |works| {
      assert more[j] == works[j];
      TwoPass(env, folder, test, works, i, j);
    } else {
      assert more[j] == w;
    }
  }

  lemma TitlesAfterAppend(env: Environment, folder: string, rawKey: string, works: seq<Work>, w: Work)
    ensures EmbeddedTitles(env, folder, rawKey, works + [w])
            == EmbeddedTitles(env, folder, rawKey, works) + if Passes(env, folder, Embedded(rawKey), w) then {KeyOf(env, w)} else {}
  {
    var more := works + [w];
    assert more[..|works|] == works && more[..|works| + 1] == more && more[|works|] == w;
    CollectedOneMore(env, folder, rawKey, more, |works|);
  }

  lemma TitleDecidesIff(env: Environment, works: seq<Work>, folder: string, p: Parsed)
    ensures var title := NormalizedTitle(env, p.title);
      (exists i: nat :: TitleDecides(env, works, folder, p, i)) <==>
      title != "" && (|| SomeSole(env, folder, SameTitle(title, p.year), works)
                      || (&& Several(env, folder, SameTitle(title, p.year), works) && p.year.Some?
                          && SomeSole(env, folder, SameTitleAndYear(title, p.year.value), works)))
  {
    var title := NormalizedTitle(env, p.title);
    if title != "" {
      if i: nat :| Sole(env, folder, SameTitle(title, p.year), works, i) { assert TitleDecides(env, works, folder, p, i); }
      if Several(env, folder, SameTitle(title, p.year), works) && p.year.Some? {
        if i: nat :| Sole(env, folder, SameTitleAndYear(title, p.year.value), works, i) {
          assert TitleDecides(env, works, folder, p, i);
        }
      }
    }
  }

  lemma DoiAfterAppend(env: Environment, folder: string, works: seq<Work>, w: Work, q: Parsed)
    requires !exists i: nat :: DoiDecides(env, works, folder, q, i)
    ensures var test := SameDoi(env.casefold(q.doi));
      (exists i: nat :: DoiDecides(env, works + [w], folder, q, i)) <==>
      q.doi != "" && Passes(env, folder, test, w) && !SomePass(env, folder, test, works)
  {
    var test := SameDoi(env.casefold(q.doi));
    SoleAfterAppend(env, folder, test, works, w);
    if q.doi != "" {
      forall i: nat ensures DoiDecides(env, works, folder, q, i) <==> Sole(env, folder, test, works, i) {}
      forall i: nat ensures DoiDecides(env, works + [w], folder, q, i) <==> Sole(env, folder, test, works + [w], i) {}
      assert !SomeSole(env, folder, test, works);
    }
  }

  lemma TitleAfterAppend(env: Environment, folder: string, works: seq<Work>, w: Work, q: Parsed)
    requires !exists i: nat :: TitleDecides(env, works, folder, q, i)
    ensures var title := NormalizedTitle(env, q.title);
      (exists i: nat :: TitleDecides(env, works + [w], folder, q, i)) <==>
      title != "" && Passes(env, folder, SameTitle(title, q.year), w)
      && !(&& Several(env, folder, SameTitle(title, q.year), works)
           && (q.year.Some? && Passes(env, folder, SameTitleAndYear(title, q.year.value), w) ==>
                 SomePass(env, folder, SameTitleAndYear(title, q.year.value), works)))
  {
    var title := NormalizedTitle(env, q.title);
    var compatible := SameTitle(title, q.year);
    TitleDecidesIff(env, works, folder, q);
    TitleDecidesIff(env, works + [w], folder, q);
    if title != "" {
      NoneOneOrSeveral(env, folder, compatible, works);
      SoleAfterAppend(env, folder, compatible, works, w);
      SeveralAfterAppend(env, folder, compatible, works, w);
      if q.year.Some? {
        var exact := SameTitleAndYear(title, q.year.value);
        NoneOneOrSeveral(env, folder, exact, works);
        SoleAfterAppend(env, folder, exact, works, w);
      }
    }
  }

  // ------------------------------------------------------------------
  // The answer after the citation's own work was added
  // ------------------------------------------------------------------

  /** The work is the one that a citation so parsed gives rise to. */
  ghost predicate Own(env: Environment, folder: string, p: Parsed, w: Work) {
    && Standing(folder, w) && KeyOf(env, w) == NormalizedTitle(env, p.title) && YearOf(w.metadata) == p.year
    && TextOf(w.metadata, Doi) == TextOf(CanonicalMetadata(env, p), Doi)
  }

  /** The stored identifier is found again, which folding its case once more could prevent. */
  predicate IdentifierFound(env: Environment, p: Parsed) {
    env.casefold(TextOf(CanonicalMetadata(env, p), Doi)) == env.casefold(p.doi)
  }

  /**
   * The DOI, if any, is already on a standing work; and the title, if any, is that of several standing works with
   * compatible years, of which, if the citation is dated, some have its very year.
   */
  ghost predicate NeverFound(env: Environment, folder: string, works: seq<Work>, p: Parsed) {
    var title := NormalizedTitle(env, p.title);
    && (p.doi != "" && IdentifierFound(env, p) ==> SomePass(env, folder, SameDoi(env.casefold(p.doi)), works))
    && (title != "" ==>
          && Several(env, folder, SameTitle(title, p.year), works)
          && (p.year.Some? ==> SomePass(env, folder, SameTitleAndYear(title, p.year.value), works)))
  }

  lemma OwnDoiAfterAppend(env: Environment, folder: string, works: seq<Work>, w: Work, p: Parsed)
    requires Own(env, folder, p, w) && !exists i: nat :: DoiDecides(env, works, folder, p, i)
    ensures (exists i: nat :: DoiDecides(env, works + [w], folder, p, i)) <==>
            p.doi != "" && IdentifierFound(env, p) && !SomePass(env, folder, SameDoi(env.casefold(p.doi)), works)
  {
    DoiAfterAppend(env, folder, works, w, p);
    assert Passes(env, folder, SameDoi(env.casefold(p.doi)), w) <==> IdentifierFound(env, p);
  }

  lemma OwnTitleAfterAppend(env: Environment, folder: string, works: seq<Work>, w: Work, p: Parsed)
    requires Own(env, folder, p, w) && !exists i: nat :: TitleDecides(env, works, folder, p, i)
    ensures var title := NormalizedTitle(env, p.title);
      (exists i: nat :: TitleDecides(env, works + [w], folder, p, i)) <==>
      title != "" && !(&& Several(env, folder, SameTitle(title, p.year), works)
                       && (p.year.Some? ==> SomePass(env, folder, SameTitleAndYear(title, p.year.value), works)))
  {
    TitleAfterAppend(env, folder, works, w, p);
  }

  /** Where the title does not decide, the citation's own work adds no title to those it contains. */
  lemma TitlesUnchanged(env: Environment, folder: string, works: seq<Work>, w: Work, p: Parsed, raw: string)
    requires Own(env, folder, p, w)
    requires var title := NormalizedTitle(env, p.title); title != "" ==> Several(env, folder, SameTitle(title, p.year), works)
    ensures MatchedTitles(env, works + [w], folder, raw) == MatchedTitles(env, works, folder, raw)
  {
    var rawKey := NormalizedTitle(env, raw);
    TitlesAfterAppend(env, folder, rawKey, works, w);
    if Passes(env, folder, Embedded(rawKey), w) {
      var title := NormalizedTitle(env, p.title);
      assert title != "";
      var i, j :| 0 <= i < j < |works| && Passes(env, folder, SameTitle(title, p.year), works[i])
                  && Passes(env, folder, SameTitle(title, p.year), works[j]);
      assert Passes(env, folder, Embedded(rawKey), works[i]);
      assert KeyOf(env, works[i]) in EmbeddedTitles(env, folder, rawKey, works);
    }
  }

  lemma MatchedTitlesAreLong(env: Environment, works: seq<Work>, folder: string, raw: string)
    ensures forall title :: title in MatchedTitles(env, works, folder, raw) ==> |title| >= 16
  {
  }

  ghost function CitationTest(env: Environment, works: seq<Work>, folder: string, p: Parsed, raw: string): Test {
    TitledAmong(MatchedTitles(env, works, folder, raw), p.year)
  }

  lemma CitationDecidesIff(env: Environment, works: seq<Work>, folder: string, p: Parsed, raw: string)
    ensures (exists i: nat :: CitationDecides(env, works, folder, p, raw, i))
            <==> SomeSole(env, folder, CitationTest(env, works, folder, p, raw), works)
  {
    if i: nat :| Sole(env, folder, CitationTest(env, works, folder, p, raw), works, i) {
      assert CitationDecides(env, works, folder, p, raw, i);
    }
    if i: nat :| CitationDecides(env, works, folder, p, raw, i) {
      assert Sole(env, folder, CitationTest(env, works, folder, p, raw), works, i);
    }
  }

  /** If its own work is among those that the citation names, so are others of its title. */
  lemma OthersAreNamedToo(env: Environment, folder: string, works: seq<Work>, w: Work, p: Parsed, titles: set<string>)
    requires Own(env, folder, p, w) && Passes(env, folder, TitledAmong(titles, p.year), w)
    requires Several(env, folder, SameTitle(NormalizedTitle(env, p.title), p.year), works)
    ensures SomePass(env, folder, TitledAmong(titles, p.year), works)
  {
    var title := NormalizedTitle(env, p.title);
    var i, j :| 0 <= i < j < |works| && Passes(env, folder, SameTitle(title, p.year), works[i])
                && Passes(env, folder, SameTitle(title, p.year), works[j]);
    assert Passes(env, folder, TitledAmong(titles, p.year), works[i]);
  }

  lemma CitationAfterAppend(env: Environment, folder: string, works: seq<Work>, w: Work, p: Parsed, raw: string)
    requires Own(env, folder, p, w) && !exists i: nat :: CitationDecides(env, works, folder, p, raw, i)
    requires var title := NormalizedTitle(env, p.title); title != "" ==> Several(env, folder, SameTitle(title, p.year), works)
    ensures !exists i: nat :: CitationDecides(env, works + [w], folder, p, raw, i)
  {
    TitlesUnchanged(env, folder, works, w, p, raw);
    MatchedTitlesAreLong(env, works, folder, raw);
    var test := CitationTest(env, works, folder, p, raw);
    CitationDecidesIff(env, works, folder, p, raw);
    CitationDecidesIff(env, works + [w], folder, p, raw);
    SoleAfterAppend(env, folder, test, works, w);
    if Passes(env, folder, test, w) { OthersAreNamedToo(env, folder, works, w, p, MatchedTitles(env, works, folder, raw)); }
  }

  /** A citation that matched nothing still matches nothing next to its own work exactly if that can never be found. */
  lemma StillNoMatchIff(env: Environment, folder: string, works: seq<Work>, w: Work, p: Parsed, raw: string)
    requires Own(env, folder, p, w) && Answers(env, works, folder, p, raw, NoMatch)
    ensures Answers(env, works + [w], folder, p, raw, NoMatch) <==> NeverFound(env, folder, works, p)
  {
    OwnDoiAfterAppend(env, folder, works, w, p);
    OwnTitleAfterAppend(env, folder, works, w, p);
    if NeverFound(env, folder, works, p) {
      TitlesUnchanged(env, folder, works, w, p, raw);
      CitationAfterAppend(env, folder, works, w, p, raw);
    }
  }

  /** One more standing work, which adds no title to those the citation contains, is not found either. */
  ghost predicate Unnoticed(env: Environment, folder: string, works: seq<Work>, w: Work, q: Parsed, raw: string) {
    var title, cited := NormalizedTitle(env, q.title), CitationTest(env, works, folder, q, raw);
    && (q.doi != "" && Passes(env, folder, SameDoi(env.casefold(q.doi)), w) ==> SomePass(env, folder, SameDoi(env.casefold(q.doi)), works))
    && (title != "" && Passes(env, folder, SameTitle(title, q.year), w) ==>
          && Several(env, folder, SameTitle(title, q.year), works)
          && (q.year.Some? && Passes(env, folder, SameTitleAndYear(title, q.year.value), w) ==>
                SomePass(env, folder, SameTitleAndYear(title, q.year.value), works)))
    && (Passes(env, folder, cited, w) ==> SomePass(env, folder, cited, works))
  }

  lemma OtherStillNoMatchIff(env: Environment, folder: string, works: seq<Work>, w: Work, q: Parsed, raw: string)
    requires Answers(env, works, folder, q, raw, NoMatch)
    requires MatchedTitles(env, works + [w], folder, raw) == MatchedTitles(env, works, folder, raw)
    ensures Answers(env, works + [w], folder, q, raw, NoMatch) <==> Unnoticed(env, folder, works, w, q, raw)
  {
    DoiAfterAppend(env, folder, works, w, q);
    TitleAfterAppend(env, folder, works, w, q);
    CitationDecidesIff(env, works, folder, q, raw);
    CitationDecidesIff(env, works + [w], folder, q, raw);
    SoleAfterAppend(env, folder, CitationTest(env, works, folder, q, raw), works, w);
  }

  // ------------------------------------------------------------------
  // Reconciling the same candidate twice
  // ------------------------------------------------------------------

  /** The citation as it is settled: as the bibliography resolves it, or else as it was parsed. */
  function FinallyParsed(env: Environment, c: Candidate): Parsed {
    var resolved := env.resolve(c, env.parse(c));
    if resolved.Some? then resolved.value else env.parse(c)
  }

  /** Neither the parsed nor the resolved citation matches a work. */
  ghost predicate NothingFound(env: Environment, folder: string, works: seq<Work>, c: Candidate) {
    Answers(env, works, folder, env.parse(c), c.raw, NoMatch) && Answers(env, works, folder, FinallyParsed(env, c), c.raw, NoMatch)
  }

  lemma AcceptedAddsOwn(env: Environment, folder: string, d: Document, c: Candidate, p: Parsed)
    requires Accepted(env, c, p, NoMatch)
    ensures var works := Settled(env, folder, d, c, p, NoMatch).works;
      && |works| == |d.works| + 1 && works == d.works + [works[|d.works|]]
      && works[|d.works|].id == WorkIdOf(env, c, p) && Own(env, folder, p, works[|d.works|])
  {
    var d' := Settled(env, folder, d, c, p, NoMatch);
    assert d' == Added(env, folder, d, c, p, env.classify(p, c.statusHint));
    NewWorkIsOwn(env, folder, c, p, env.classify(p, c.statusHint));
  }

  lemma NewWorkIsOwn(env: Environment, folder: string, c: Candidate, p: Parsed, cl: Classification)
    requires cl.disposition != REJECTED
    ensures Own(env, folder, p, NewWork(env, folder, c, p, cl))
    ensures Own(env, folder, p, WithOccurrence(NewWork(env, folder, c, p, cl), c))
  {
  }

  lemma SettledWithoutMatch(env: Environment, folder: string, d: Document, c: Candidate, p: Parsed, m: Match)
    requires m.Matched? ==> m.index < |d.works|
    ensures |Settled(env, folder, d, c, p, m).works| > |d.works| <==> Accepted(env, c, p, m)
  {
    SettledWorkIds(env, folder, d, c, p, m);
  }

  /** A step adds a work exactly if the citation is found in neither form and worth taking up. */
  lemma UptakeIff(env: Environment, folder: string, d: Document, c: Candidate, d': Document)
    requires CandidateStep(env, folder, d, c, d')
    ensures var p := FinallyParsed(env, c);
      && (|d'.works| > |d.works| <==> NothingFound(env, folder, d.works, c) && Accepted(env, c, p, NoMatch))
      && (|d'.works| > |d.works| ==> d' == Settled(env, folder, d, c, p, NoMatch))
  {
    var p := env.parse(c);
    var m :| StepWith(env, folder, d, c, m, d');
    if Answers(env, d.works, folder, p, c.raw, NoMatch) { AnswerIsUnique(env, d.works, folder, p, c.raw, m, NoMatch); }
    if m.NoMatch? && env.resolve(c, p).Some? {
      ResolvedUptakeIff(env, folder, d, c, FinallyParsed(env, c), d');
    } else if !m.Ambiguous? {
      SettledWithoutMatch(env, folder, d, c, p, m);
    }
  }

  lemma ResolvedAnswer(env: Environment, folder: string, d: Document, c: Candidate, p: Parsed, d': Document) returns (m: Match)
    requires ResolvedStep(env, folder, d, c, p, d')
    ensures ResolvedTo(env, folder, d, c, p, m, d')
  {
    m :| ResolvedTo(env, folder, d, c, p, m, d');
  }

  lemma ResolvedUptakeIff(env: Environment, folder: string, d: Document, c: Candidate, p: Parsed, d': Document)
    requires ResolvedStep(env, folder, d, c, p, d') && Answers(env, d.works, folder, env.parse(c), c.raw, NoMatch)
    ensures |d'.works| > |d.works| <==> Answers(env, d.works, folder, p, c.raw, NoMatch) && Accepted(env, c, p, NoMatch)
    ensures |d'.works| > |d.works| ==> d' == Settled(env, folder, d, c, p, NoMatch)
  {
    var m := ResolvedAnswer(env, folder, d, c, p, d');
    AmbiguityIsSettledFirst(env, d.works, folder, env.parse(c), c.raw, p, m);
    SettledWithoutMatch(env, folder, d, c, p, m);
    if m.Matched? {
      if Answers(env, d.works, folder, p, c.raw, NoMatch) { AnswerIsUnique(env, d.works, folder, p, c.raw, m, NoMatch); }
    } else {
      assert m == NoMatch;
    }
  }

  /** Both the first and the second work of a citation taken up twice have its identifier. */
  lemma TwiceUnderOneId(env: Environment, folder: string, d: Document, c: Candidate, d': Document)
    requires CandidateStep(env, folder, d, c, d') && |d'.works| > |d.works|
    ensures |d'.works| == |d.works| + 1 && d'.works == d.works + [d'.works[|d.works|]]
    ensures d'.works[|d.works|].id == WorkIdOf(env, c, FinallyParsed(env, c)) && Own(env, folder, FinallyParsed(env, c), d'.works[|d.works|])
  {
    UptakeIff(env, folder, d, c, d');
    AcceptedAddsOwn(env, folder, d, c, FinallyParsed(env, c));
  }

  /**
   * A citation that was taken up as a new work is taken up again, when an equal one follows in the same run, exactly if its
   * own work can never be found, nor by the citation as it was before a bibliography resolved it; the new work then has the
   * identifier of the first.
   */
  lemma TakenUpAgainIff(env: Environment, folder: string, d: Document, c: Candidate, d1: Document, d2: Document)
    requires CandidateStep(env, folder, d, c, d1) && CandidateStep(env, folder, d1, c, d2) && |d1.works| > |d.works|
    ensures |d2.works| > |d1.works| <==>
      && NeverFound(env, folder, d.works, FinallyParsed(env, c))
      && (env.resolve(c, env.parse(c)).Some? ==> Unnoticed(env, folder, d.works, d1.works[|d.works|], env.parse(c), c.raw))
    ensures |d2.works| > |d1.works| ==> d2.works[|d1.works|].id == d1.works[|d.works|].id && !DistinctWorkIds(d2.works)
  {
    var p, w := FinallyParsed(env, c), d1.works[|d.works|];
    UptakeIff(env, folder, d, c, d1);
    TwiceUnderOneId(env, folder, d, c, d1);
    UptakeIff(env, folder, d1, c, d2);
    StillNoMatchIff(env, folder, d.works, w, p, c.raw);
    if NeverFound(env, folder, d.works, p) {
      TitlesUnchanged(env, folder, d.works, w, p, c.raw);
      OtherStillNoMatchIff(env, folder, d.works, w, env.parse(c), c.raw);
    }
    if |d2.works| > |d1.works| {
      TwiceUnderOneId(env, folder, d1, c, d2);
      assert d2.works[|d.works|] == d1.works[|d.works|];
    }
  }

  /** A citation with nothing but a short title. */
  const SHORT_CITATION := Parsed("", "short", "", "", "", None, "", "parser")

  const SHORT_WORK := Work(GivenWork("given"), "folder", "applicant", GivenOccurrence("given"), map[Title := Text("short")], "UNRESOLVED",
                           Review(Some(PENDING), "", Given("")), [], [])

  const SHORT_ENVIRONMENT := PlainEnvironment(SHORT_CITATION, Classification(PUBLISHED, 1.0, ""))

  lemma ShortTitleIsCrowded(works: seq<Work>, raw: string)
    requires works == [SHORT_WORK, SHORT_WORK.(id := GivenWork("other"))]
    ensures Several(SHORT_ENVIRONMENT, "folder", SameTitle("short", None), works)
    ensures Answers(SHORT_ENVIRONMENT, works, "folder", SHORT_CITATION, raw, NoMatch)
  {
    var env, compatible := SHORT_ENVIRONMENT, SameTitle("short", None);
    assert Passes(env, "folder", compatible, works[0]) && Passes(env, "folder", compatible, works[1]);
    TwoPass(env, "folder", compatible, works, 0, 1);
    NoneOneOrSeveral(env, "folder", compatible, works);
    TitleDecidesIff(env, works, "folder", SHORT_CITATION);
    assert EmbeddedTitles(env, "folder", NormalizedTitle(env, raw), works) == {};
    assert MatchedTitles(env, works, "folder", raw) == {};
  }

  lemma ShortCitationCounts(c: Candidate)
    ensures FinallyParsed(SHORT_ENVIRONMENT, c) == SHORT_ENVIRONMENT.parse(c) == SHORT_CITATION
    ensures Accepted(SHORT_ENVIRONMENT, c, SHORT_CITATION, NoMatch) && NormalizedTitle(SHORT_ENVIRONMENT, "short") == "short"
    ensures SHORT_ENVIRONMENT.resolve(c, SHORT_CITATION) == None
  {
  }

  /** Two pending works of one short title, and twice a citation with that title: four works, the last two under one identifier. */
  lemma ShortTitleIsTakenUpTwice(d: Document, c: Candidate, d1: Document, d2: Document)
    requires d.works == [SHORT_WORK, SHORT_WORK.(id := GivenWork("other"))]
    requires CandidateStep(SHORT_ENVIRONMENT, "folder", d, c, d1) && CandidateStep(SHORT_ENVIRONMENT, "folder", d1, c, d2)
    ensures |d2.works| == 4 && d2.works[2].id == d2.works[3].id
  {
    var env := SHORT_ENVIRONMENT;
    ShortCitationCounts(c);
    ShortTitleIsCrowded(d.works, c.raw);
    assert NeverFound(env, "folder", d.works, SHORT_CITATION);
    UptakeIff(env, "folder", d, c, d1);
    TwiceUnderOneId(env, "folder", d, c, d1);
    TakenUpAgainIff(env, "folder", d, c, d1, d2);
    TwiceUnderOneId(env, "folder", d1, c, d2);
  }
}
