/**
 * What reconciliation does with one citation, in terms of the document itself, and what the audit says of it
 * (app/importer/publication_reconciliation.py, the candidate loop).
 */
module Decisions {
  import opened Base
  import opened Manifest
  import opened Reconciliation
  import opened Conservation
  import opened Uptake

  // ------------------------------------------------------------------
  // What the citation contributes
  // ------------------------------------------------------------------

  function IdOf(c: Candidate): OccurrenceId {
    ParsedOccurrence(c.applicant, c.filename, c.pageStart, c.pageEnd, c.normalized)
  }

  /** A field that was blank takes the text, if there is one; any other stays. */
  ghost predicate TakesText(before: Metadata, after: Metadata, f: Field, text: string) {
    if !Blank(before, f) then f in after && after[f] == before[f]
    else if text != "" then f in after && after[f] == Text(text)
    else Blank(after, f)
  }

  ghost predicate TakesYear(before: Metadata, after: Metadata, year: Option<int>) {
    if !Blank(before, PublicationYear) then PublicationYear in after && after[PublicationYear] == before[PublicationYear]
    else if year.Some? then PublicationYear in after && after[PublicationYear] == Year(year.value)
    else Blank(after, PublicationYear)
  }

  function FoldedDoi(env: Environment, p: Parsed): string {
    if p.doi == "" then "" else env.casefold(p.doi)
  }

  /** The text that a citation has for a field. */
  function TextFor(env: Environment, p: Parsed, f: Field): string {
    match f
    case Doi => FoldedDoi(env, p)
    case DoiUrl => if FoldedDoi(env, p) == "" then "" else "https://doi.org/" + FoldedDoi(env, p)
    case AuthorsText => p.authors
    case Title => p.title
    case Journal => p.journal
    case Volume => p.volume
    case Pages => p.pages
    case PublicationYear => ""
  }

  ghost predicate TakesFields(env: Environment, p: Parsed, before: Metadata, after: Metadata) {
    (forall f :: f != PublicationYear ==> TakesText(before, after, f, TextFor(env, p, f))) && TakesYear(before, after, p.year)
  }

  /** A work has the disposition of the citation's class, but a publication with a core field missing is left pending. */
  ghost predicate Judged(review: Review, metadata: Metadata, c: Candidate, cl: Classification) {
    && review.disposition == Some(
         if cl.disposition == "PUBLISHED" && (Blank(metadata, AuthorsText) || Blank(metadata, Title) || Blank(metadata, Journal)
                                              || Blank(metadata, PublicationYear))
         then "PENDING_REVIEW" else cl.disposition)
    && review.basis.FromCandidate? && review.basis.candidate == c
  }

  /** An explicit review stays; a resolved work without review is not made pending; any other takes the citation's. */
  ghost predicate ReviewedBy(v: Work, w: Work, c: Candidate, cl: Classification) {
    var current := v.review.disposition;
    if current.Some? && current.value != "" && current.value != "PENDING_REVIEW" then w.review == v.review
    else if current.None? && w.status == "RESOLVED" && cl.disposition == "PENDING_REVIEW" then w.review == v.review
    else Judged(w.review, w.metadata, c, cl)
  }

  /** How the audit calls what became of the review. */
  function WordFor(v: Work, w: Work, cl: Classification): string {
    var current := v.review.disposition;
    if current.Some? && current.value != "" && current.value != "PENDING_REVIEW" then "PRESERVED_EXPLICIT_REVIEW"
    else if current.None? && w.status == "RESOLVED" && cl.disposition == "PENDING_REVIEW" then "PRESERVED_RESOLVED_PUBLICATION"
    else if current == Some("PENDING_REVIEW") then "PROMOTED_PENDING" else "ADDED_EXPLICIT_REVIEW"
  }

  /** The occurrence is recorded on the work unless its identifier was there before. */
  ghost predicate RecordedOn(env: Environment, d: Document, d': Document, v: Work, w: Work, c: Candidate, p: Parsed) {
    if HasOccurrence(d, IdOf(c)) then
      d'.occurrences == d.occurrences && w.occurrenceIds == v.occurrenceIds && w.sourceIds == v.sourceIds
    else
      && d'.occurrences == d.occurrences
           + [Occurrence(IdOf(c), v.id, ParsedSource(c.applicant, c.normalized), v.folder, c, FoldedDoi(env, p))]
      && w.occurrenceIds == v.occurrenceIds + [IdOf(c)]
      && (w.sourceIds == v.sourceIds + [ParsedSource(c.applicant, c.normalized)] || w.sourceIds == v.sourceIds)
      && ParsedSource(c.applicant, c.normalized) in w.sourceIds
  }

  // ------------------------------------------------------------------
  // The three things that can happen
  // ------------------------------------------------------------------

  /** The citation, as parsed or where that matched nothing as resolved, matches this work. */
  ghost predicate Finds(env: Environment, folder: string, works: seq<Work>, c: Candidate, p: Parsed, i: nat, action: string) {
    || (p == env.parse(c) && Answers(env, works, folder, p, c.raw, Matched(i, action)))
    || (&& Answers(env, works, folder, env.parse(c), c.raw, NoMatch) && env.resolve(c, env.parse(c)) == Some(p)
        && Answers(env, works, folder, p, c.raw, Matched(i, action)))
  }

  /** Blank fields are filled, a work with a DOI is resolved, the review is updated, and the work stays the same work. */
  ghost predicate CompletedBy(env: Environment, v: Work, w: Work, c: Candidate, p: Parsed) {
    && w == v.(metadata := w.metadata, status := w.status, review := w.review, occurrenceIds := w.occurrenceIds, sourceIds := w.sourceIds)
    && TakesFields(env, p, v.metadata, w.metadata)
    && w.status == (if Blank(w.metadata, Doi) then v.status else "RESOLVED")
    && ReviewedBy(v, w, c, env.classify(p, c.statusHint))
  }

  /** The row that the audit gains for a citation that matched. */
  function RowOfMatch(env: Environment, again: bool, v: Work, w: Work, c: Candidate, p: Parsed, action: string): AuditRow {
    var cl := env.classify(p, c.statusHint);
    AuditRow(c, p, cl.disposition, cl.confidence, Some(v.id), Some(IdOf(c)), if again then "ALREADY_RECONCILED" else action,
             WordFor(v, w, cl))
  }

  /** The citation is merged into the work and recorded on it, and all of it audited. */
  ghost predicate MergedInto(env: Environment, folder: string, d: Document, d': Document, c: Candidate, p: Parsed, i: nat, action: string)
    requires i < |d.works| && |d'.works| == |d.works|
  {
    && (forall j :: 0 <= j < |d.works| && j != i ==> d'.works[j] == d.works[j])
    && CompletedBy(env, d.works[i], d'.works[i], c, p) && RecordedOn(env, d, d', d.works[i], d'.works[i], c, p)
    && d'.statuses == d.statuses && d'.touched == d.touched + {folder}
    && d'.audit == d.audit + [RowOfMatch(env, HasOccurrence(d, IdOf(c)), d.works[i], d'.works[i], c, p, action)]
  }

  /** The work that a citation gives rise to. */
  ghost predicate WorkFor(env: Environment, folder: string, w: Work, c: Candidate, p: Parsed) {
    && w.folder == folder && w.applicant == c.applicant && w.representative == IdOf(c)
    && w.id == ParsedWork(c.applicant, p.doi, NormalizedTitle(env, p.title), p.year, c.normalized)
    && TakesFields(env, p, map[], w.metadata) && w.status == (if p.doi == "" then "UNRESOLVED" else "RESOLVED")
    && Judged(w.review, w.metadata, c, env.classify(p, c.statusHint))
  }

  /** The audit row of a citation that became a work. */
  ghost predicate RowOfNew(row: AuditRow, again: bool, w: Work, c: Candidate, p: Parsed) {
    && row.candidate == c && row.parsed == p && row.workId == Some(w.id) && row.occurrenceId == Some(IdOf(c))
    && Some(row.classification) == w.review.disposition && row.action == if again then "ALREADY_RECONCILED" else "ADDED_WORK"
  }

  /** The citation becomes a work of its own, with its occurrence and three rows of citation counts to look up. */
  ghost predicate AddedAsWork(env: Environment, folder: string, d: Document, d': Document, c: Candidate, p: Parsed)
    requires |d'.works| == |d.works| + 1
  {
    var w := d'.works[|d.works|];
    && d.works <= d'.works && WorkFor(env, folder, w, c, p)
    && RecordedOn(env, d, d', w.(occurrenceIds := [], sourceIds := []), w, c, p)
    && d'.statuses == d.statuses + [StatusRow(w.id, "GOOGLE_SCHOLAR", "MANUAL_REQUIRED"),
                                    StatusRow(w.id, "BIORXIV", "NOT_AVAILABLE_FROM_SOURCE"),
                                    StatusRow(w.id, "MEDRXIV", "NOT_AVAILABLE_FROM_SOURCE")]
    && d'.touched == d.touched + {folder}
    && |d'.audit| == |d.audit| + 1 && d.audit <= d'.audit && RowOfNew(d'.audit[|d.audit|], HasOccurrence(d, IdOf(c)), w, c, p)
  }

  const SKIPS: set<string> := {"SKIPPED_AMBIGUOUS_CITATION", "SKIPPED_NON_PUBLICATION", "SKIPPED_UNPARSABLE_CITATION"}

  /** Nothing but an audit row without work and occurrence. */
  ghost predicate SkippedAs(d: Document, d': Document, c: Candidate, p: Parsed, action: string) {
    && d' == d.(audit := d'.audit)
    && |d'.audit| == |d.audit| + 1 && d.audit <= d'.audit
    && var row := d'.audit[|d.audit|];
       row.candidate == c && row.parsed == p && row.workId == None && row.occurrenceId == None && row.action == row.decision == action
  }

  lemma FilledTakes(env: Environment, p: Parsed, before: Metadata)
    ensures TakesFields(env, p, before, Filled(before, CanonicalMetadata(env, p)))
  {
    forall f | f != PublicationYear ensures TakesText(before, Filled(before, CanonicalMetadata(env, p)), f, TextFor(env, p, f)) {
      FilledTakesText(env, p, before, f);
    }
    FilledTakesYear(env, p, before);
  }

  lemma FilledTakesYear(env: Environment, p: Parsed, before: Metadata)
    ensures TakesYear(before, Filled(before, CanonicalMetadata(env, p)), p.year)
  {
  }

  lemma FilledTakesText(env: Environment, p: Parsed, before: Metadata, f: Field)
    requires f != PublicationYear
    ensures TakesText(before, Filled(before, CanonicalMetadata(env, p)), f, TextFor(env, p, f))
  {
    var found := CanonicalMetadata(env, p);
    assert found[f] == TextOrNull(TextFor(env, p, f));
  }

  lemma CanonicalTakes(env: Environment, p: Parsed)
    ensures TakesFields(env, p, map[], CanonicalMetadata(env, p))
  {
    var none: Metadata, m := map[], CanonicalMetadata(env, p);
    forall f | f != PublicationYear ensures TakesText(none, m, f, TextFor(env, p, f)) {
      assert m[f] == TextOrNull(TextFor(env, p, f));
    }
  }

  // ------------------------------------------------------------------
  // They do happen, and nothing else
  // ------------------------------------------------------------------

  lemma AttachedRecords(env: Environment, d: Document, i: nat, c: Candidate, p: Parsed)
    requires i < |d.works|
    ensures var d' := Attached(env, d, i, c, p);
      && |d'.works| == |d.works| && (forall j :: 0 <= j < |d.works| && j != i ==> d'.works[j] == d.works[j])
      && d'.works[i] == d.works[i].(occurrenceIds := d'.works[i].occurrenceIds, sourceIds := d'.works[i].sourceIds)
      && RecordedOn(env, d, d', d.works[i], d'.works[i], c, p)
      && d'.statuses == d.statuses && d'.touched == d.touched && d'.audit == d.audit
  {
  }

  lemma ReviewedIs(v: Work, w: Work, c: Candidate, p: Parsed, cl: Classification)
    requires w.review == v.review
    ensures var x := w.(review := Reviewed(w, c, p, cl).0); ReviewedBy(v, x, c, cl) && Reviewed(w, c, p, cl).1 == WordFor(v, x, cl)
  {
  }

  lemma CompletedIs(env: Environment, v: Work, c: Candidate, p: Parsed)
    ensures var w := Completed(env, v, p); var cl := env.classify(p, c.statusHint);
      && CompletedBy(env, v, w.(review := Reviewed(w, c, p, cl).0), c, p)
      && Reviewed(w, c, p, cl).1 == WordFor(v, w.(review := Reviewed(w, c, p, cl).0), cl)
  {
    var w := Completed(env, v, p);
    FilledTakes(env, p, v.metadata);
    ReviewedIs(v, w, c, p, env.classify(p, c.statusHint));
  }

  lemma MergedIsInto(env: Environment, folder: string, d: Document, i: nat, c: Candidate, p: Parsed, action: string)
    requires i < |d.works|
    ensures var d' := Merged(env, folder, d, i, c, p, env.classify(p, c.statusHint), action);
            |d'.works| == |d.works| && MergedInto(env, folder, d, d', c, p, i, action)
  {
    var v, cl := d.works[i], env.classify(p, c.statusHint);
    CompletedIs(env, v, c, p);
    var w := Completed(env, v, p);
    var reviewed := w.(review := Reviewed(w, c, p, cl).0);
    var d1 := d.(works := d.works[i := reviewed]);
    AttachedRecords(env, d1, i, c, p);
    assert HasOccurrence(d1, IdOf(c)) <==> HasOccurrence(d, IdOf(c));
    CompletedStays(env, v, reviewed, Attached(env, d1, i, c, p).works[i], c, p);
  }

  lemma CompletedStays(env: Environment, v: Work, w: Work, x: Work, c: Candidate, p: Parsed)
    requires CompletedBy(env, v, w, c, p) && x == w.(occurrenceIds := x.occurrenceIds, sourceIds := x.sourceIds)
    ensures CompletedBy(env, v, x, c, p) && WordFor(v, x, env.classify(p, c.statusHint)) == WordFor(v, w, env.classify(p, c.statusHint))
  {
  }

  /** A citation that matches a work, as parsed or as resolved, is merged into that work and recorded there. */
  lemma MatchIsRecorded(env: Environment, folder: string, d: Document, c: Candidate, d': Document, p: Parsed, i: nat, action: string)
    requires CandidateStep(env, folder, d, c, d') && Finds(env, folder, d.works, c, p, i, action)
    ensures i < |d.works| && |d'.works| == |d.works| && MergedInto(env, folder, d, d', c, p, i, action)
  {
    MergedIsInto(env, folder, d, i, c, p, action);
    MatchSettles(env, folder, d, c, d', p, i, action);
  }

  lemma MatchSettles(env: Environment, folder: string, d: Document, c: Candidate, d': Document, p: Parsed, i: nat, action: string)
    requires CandidateStep(env, folder, d, c, d') && Finds(env, folder, d.works, c, p, i, action)
    ensures i < |d.works| && d' == Settled(env, folder, d, c, p, Matched(i, action))
  {
    var m :| StepWith(env, folder, d, c, m, d');
    if p == env.parse(c) && Answers(env, d.works, folder, p, c.raw, Matched(i, action)) {
      AnswerIsUnique(env, d.works, folder, p, c.raw, m, Matched(i, action));
    } else {
      AnswerIsUnique(env, d.works, folder, env.parse(c), c.raw, m, NoMatch);
      var n := ResolvedAnswer(env, folder, d, c, p, d');
      AnswerIsUnique(env, d.works, folder, p, c.raw, n, Matched(i, action));
    }
  }

  /** Worth a work of its own: no non-publication, and if left pending, with a title and not held for poor text. */
  predicate Worth(p: Parsed, cl: Classification) {
    && cl.disposition != "NON_PUBLICATION"
    && (cl.disposition == "PENDING_REVIEW" ==>
          p.title != "" && cl.confidence > 0.2 && !Contains("credible title", cl.reason) && !Contains("non-narrative", cl.reason))
  }

  lemma NewWorkIs(env: Environment, folder: string, c: Candidate, p: Parsed)
    ensures WorkFor(env, folder, NewWork(env, folder, c, p, env.classify(p, c.statusHint)), c, p)
  {
    CanonicalTakes(env, p);
  }

  lemma AddedIsWork(env: Environment, folder: string, d: Document, c: Candidate, p: Parsed)
    ensures var d' := Added(env, folder, d, c, p, env.classify(p, c.statusHint));
            |d'.works| == |d.works| + 1 && AddedAsWork(env, folder, d, d', c, p)
  {
    var cl := env.classify(p, c.statusHint);
    var w := NewWork(env, folder, c, p, cl);
    var d1 := d.(works := d.works + [w], statuses := d.statuses + CitationStatuses(w.id));
    NewWorkIs(env, folder, c, p);
    AttachedRecords(env, d1, |d.works|, c, p);
    assert HasOccurrence(d1, IdOf(c)) <==> HasOccurrence(d, IdOf(c));
    WorkStays(env, folder, w, Attached(env, d1, |d.works|, c, p).works[|d.works|], c, p);
  }

  lemma WorkStays(env: Environment, folder: string, w: Work, x: Work, c: Candidate, p: Parsed)
    requires WorkFor(env, folder, w, c, p) && x == w.(occurrenceIds := x.occurrenceIds, sourceIds := x.sourceIds)
    ensures WorkFor(env, folder, x, c, p)
  {
  }

  /** A citation that matches nothing and is worth it becomes a work of its own and is recorded there. */
  lemma UnmatchedIsAdded(env: Environment, folder: string, d: Document, c: Candidate, d': Document)
    requires CandidateStep(env, folder, d, c, d') && NothingFound(env, folder, d.works, c)
    requires Worth(FinallyParsed(env, c), env.classify(FinallyParsed(env, c), c.statusHint))
    ensures |d'.works| == |d.works| + 1 && AddedAsWork(env, folder, d, d', c, FinallyParsed(env, c))
  {
    UptakeIff(env, folder, d, c, d');
    AddedIsWork(env, folder, d, c, FinallyParsed(env, c));
  }

  /** Any other citation only gets an audit row that says why: ambiguous, no publication, or not parsable. */
  lemma RestIsSkipped(env: Environment, folder: string, d: Document, c: Candidate, d': Document)
    requires CandidateStep(env, folder, d, c, d')
    ensures Answers(env, d.works, folder, env.parse(c), c.raw, Ambiguous) ==>
              SkippedAs(d, d', c, env.parse(c), "SKIPPED_AMBIGUOUS_CITATION")
    ensures var p := FinallyParsed(env, c); var cl := env.classify(p, c.statusHint);
      NothingFound(env, folder, d.works, c) && !Worth(p, cl) ==>
        SkippedAs(d, d', c, p, if cl.disposition == "NON_PUBLICATION" then "SKIPPED_NON_PUBLICATION" else "SKIPPED_UNPARSABLE_CITATION")
  {
    var m :| StepWith(env, folder, d, c, m, d');
    if Answers(env, d.works, folder, env.parse(c), c.raw, Ambiguous) {
      AnswerIsUnique(env, d.works, folder, env.parse(c), c.raw, m, Ambiguous);
    }
    if NothingFound(env, folder, d.works, c) { NothingSettles(env, folder, d, c, d'); }
  }

  lemma NothingSettles(env: Environment, folder: string, d: Document, c: Candidate, d': Document)
    requires CandidateStep(env, folder, d, c, d') && NothingFound(env, folder, d.works, c)
    ensures d' == Settled(env, folder, d, c, FinallyParsed(env, c), NoMatch)
  {
    var p := env.parse(c);
    var m :| StepWith(env, folder, d, c, m, d');
    AnswerIsUnique(env, d.works, folder, p, c.raw, m, NoMatch);
    if env.resolve(c, p).Some? {
      var n := ResolvedAnswer(env, folder, d, c, FinallyParsed(env, c), d');
      AnswerIsUnique(env, d.works, folder, FinallyParsed(env, c), c.raw, n, NoMatch);
    }
  }

  /** There is no fourth possibility. */
  lemma MatchedNothingOrAmbiguous(env: Environment, folder: string, d: Document, c: Candidate, d': Document)
    requires CandidateStep(env, folder, d, c, d')
    ensures || (exists p, i: nat, action :: Finds(env, folder, d.works, c, p, i, action))
            || NothingFound(env, folder, d.works, c) || Answers(env, d.works, folder, env.parse(c), c.raw, Ambiguous)
  {
    var m :| StepWith(env, folder, d, c, m, d');
    if m.Matched? {
      assert Finds(env, folder, d.works, c, env.parse(c), m.index, m.action);
    } else if m.NoMatch? && env.resolve(c, env.parse(c)).Some? {
      var p := FinallyParsed(env, c);
      var n := ResolvedAnswer(env, folder, d, c, p, d');
      AmbiguityIsSettledFirst(env, d.works, folder, env.parse(c), c.raw, p, n);
      if n.Matched? { assert Finds(env, folder, d.works, c, p, n.index, n.action); }
    }
  }

  // ------------------------------------------------------------------
  // What the audit says is so
  // ------------------------------------------------------------------

  /** A row with an occurrence names one that is recorded, of its own citation; a row without one is of a citation skipped. */
  ghost predicate RowTrue(d: Document, row: AuditRow) {
    if row.occurrenceId.Some? then
      row.occurrenceId == Some(IdOf(row.candidate)) && HasOccurrence(d, IdOf(row.candidate)) && row.workId.Some? && row.action !in SKIPS
    else row.workId.None? && row.action in SKIPS
  }

  ghost predicate AuditTrue(d: Document, from: nat) {
    forall k :: from <= k < |d.audit| ==> RowTrue(d, d.audit[k])
  }

  lemma ActionsAreNoSkips(env: Environment, folder: string, works: seq<Work>, c: Candidate, p: Parsed, i: nat, action: string)
    requires Finds(env, folder, works, c, p, i, action)
    ensures action !in SKIPS
  {
    assert "MATCHED_DOI"[0] == 'M' && "MATCHED_TITLE"[0] == 'M' && "MATCHED_TITLE_IN_CITATION"[0] == 'M';
    assert forall skip :: skip in SKIPS ==> skip[0] == 'S';
  }

  lemma OtherActionsAreNoSkips()
    ensures "ALREADY_RECONCILED" !in SKIPS && "ADDED_WORK" !in SKIPS
  {
    assert "ALREADY_RECONCILED"[0] == 'A' == "ADDED_WORK"[0] && forall skip :: skip in SKIPS ==> skip[0] == 'S';
  }

  lemma MatchRowIsTrue(env: Environment, folder: string, d: Document, c: Candidate, d': Document, p: Parsed, i: nat, action: string)
    requires CandidateStep(env, folder, d, c, d') && Finds(env, folder, d.works, c, p, i, action)
    ensures |d'.audit| == |d.audit| + 1 && RowTrue(d', d'.audit[|d.audit|])
  {
    MatchIsRecorded(env, folder, d, c, d', p, i, action);
    ActionsAreNoSkips(env, folder, d.works, c, p, i, action);
    OtherActionsAreNoSkips();
    RecordedHas(env, d, d', d.works[i], d'.works[i], c, p);
  }

  lemma NewRowIsTrue(env: Environment, folder: string, d: Document, c: Candidate, d': Document)
    requires CandidateStep(env, folder, d, c, d') && NothingFound(env, folder, d.works, c)
    requires Worth(FinallyParsed(env, c), env.classify(FinallyParsed(env, c), c.statusHint))
    ensures |d'.audit| == |d.audit| + 1 && RowTrue(d', d'.audit[|d.audit|])
  {
    UnmatchedIsAdded(env, folder, d, c, d');
    OtherActionsAreNoSkips();
    var w := d'.works[|d.works|];
    RecordedHas(env, d, d', w.(occurrenceIds := [], sourceIds := []), w, c, FinallyParsed(env, c));
  }

  lemma StepRowIsTrue(env: Environment, folder: string, d: Document, c: Candidate, d': Document)
    requires CandidateStep(env, folder, d, c, d')
    ensures |d'.audit| == |d.audit| + 1 && RowTrue(d', d'.audit[|d.audit|])
  {
    MatchedNothingOrAmbiguous(env, folder, d, c, d');
    if p, i: nat, action :| Finds(env, folder, d.works, c, p, i, action) {
      MatchRowIsTrue(env, folder, d, c, d', p, i, action);
    } else if NothingFound(env, folder, d.works, c) && Worth(FinallyParsed(env, c), env.classify(FinallyParsed(env, c), c.statusHint)) {
      NewRowIsTrue(env, folder, d, c, d');
    } else {
      RestIsSkipped(env, folder, d, c, d');
    }
  }

  lemma RecordedHas(env: Environment, d: Document, d': Document, v: Work, w: Work, c: Candidate, p: Parsed)
    requires RecordedOn(env, d, d', v, w, c, p)
    ensures HasOccurrence(d', IdOf(c))
  {
    if !HasOccurrence(d, IdOf(c)) { assert d'.occurrences[|d.occurrences|].id == IdOf(c) && d'.occurrences[|d.occurrences|] in d'.occurrences; }
  }

  /** Over any run every row of the audit is true at the end. */
  lemma {:induction false} RunAuditIsTrue(env: Environment, applicants: map<string, string>, d: Document, cs: seq<Candidate>, d': Document)
    requires Reaches(env, applicants, d, cs, d')
    ensures |d.audit| <= |d'.audit| && AuditTrue(d', |d.audit|)
    decreases |cs|
  {
    if cs != [] {
      var n := |cs| - 1;
      var mid :| Reaches(env, applicants, d, cs[..n], mid) && CandidateStep(env, applicants[cs[n].applicant], mid, cs[n], d');
      RunAuditIsTrue(env, applicants, d, cs[..n], mid);
      StepConserves(env, applicants[cs[n].applicant], mid, cs[n], d');
      StepRowIsTrue(env, applicants[cs[n].applicant], mid, cs[n], d');
      forall k | |d.audit| <= k < |d'.audit| ensures RowTrue(d', d'.audit[k]) {
        if k < |mid.audit| { RowStaysTrue(mid, d', mid.audit[k]); }
      }
    }
  }

  lemma RowStaysTrue(d: Document, d': Document, row: AuditRow)
    requires RowTrue(d, row) && d.occurrences <= d'.occurrences
    ensures RowTrue(d', row)
  {
    if HasOccurrence(d, IdOf(row.candidate)) {
      var o :| o in d.occurrences && o.id == IdOf(row.candidate);
      assert o in d'.occurrences;
    }
  }
}
