/**
 * Additive reconciliation of parsed citations into the publication manifest
 * (app/importer/publication_reconciliation.py, the candidate loop of `reconcile_publication_manifest`).
 */
module Reconciliation {
  import opened Base
  import opened Manifest

  /** One decision, as the audit records it. */
  datatype AuditRow = AuditRow(candidate: Candidate, parsed: Parsed, classification: string, confidence: real,
                               workId: Option<WorkId>, occurrenceId: Option<OccurrenceId>, action: string, decision: string)

  datatype Document = Document(works: seq<Work>, occurrences: seq<Occurrence>, statuses: seq<StatusRow>,
                               touched: set<string>, audit: seq<AuditRow>)

  // ------------------------------------------------------------------
  // Values computed for one candidate
  // ------------------------------------------------------------------

  function OccurrenceIdOf(c: Candidate): OccurrenceId {
    ParsedOccurrence(c.applicant, c.filename, c.pageStart, c.pageEnd, c.normalized)
  }

  function SourceIdOf(c: Candidate): SourceId {
    ParsedSource(c.applicant, c.normalized)
  }

  function WorkIdOf(env: Environment, c: Candidate, p: Parsed): WorkId {
    ParsedWork(c.applicant, p.doi, NormalizedTitle(env, p.title), p.year, c.normalized)
  }

  function TextOrNull(text: string): Value {
    if text == "" then Null else Text(text)
  }

  function CanonicalMetadata(env: Environment, p: Parsed): Metadata {
    var doi := if p.doi == "" then "" else env.casefold(p.doi);
    map[
      Doi := TextOrNull(doi),
      DoiUrl := if doi == "" then Null else Text("https://doi.org/" + doi),
      AuthorsText := TextOrNull(p.authors),
      Title := TextOrNull(p.title),
      Journal := TextOrNull(p.journal),
      Volume := TextOrNull(p.volume),
      Pages := TextOrNull(p.pages),
      PublicationYear := if p.year.Some? then Year(p.year.value) else Null
    ]
  }

  predicate CompletePublished(m: Metadata) {
    !Blank(m, AuthorsText) && !Blank(m, Title) && !Blank(m, Journal) && !Blank(m, PublicationYear)
  }

  /** A publication without all of its core fields is left for review. */
  function ForMetadata(cl: Classification, m: Metadata): Classification {
    if cl.disposition != PUBLISHED || CompletePublished(m) then cl else Classification(PENDING, 0.35, "missing fields")
  }

  function ReviewOf(c: Candidate, p: Parsed, cl: Classification): Review {
    Review(Some(cl.disposition), "Corpus-wide PDF re-extraction: " + cl.reason, FromCandidate(c, p.parser, cl.confidence))
  }

  predicate LowQuality(p: Parsed, cl: Classification) {
    cl.disposition == PENDING
    && (p.title == "" || cl.confidence <= 0.2 || Contains("credible title", cl.reason) || Contains("non-narrative", cl.reason))
  }

  function NewWork(env: Environment, folder: string, c: Candidate, p: Parsed, cl: Classification): Work {
    var metadata := CanonicalMetadata(env, p);
    Work(WorkIdOf(env, c, p), folder, c.applicant, OccurrenceIdOf(c), metadata,
         if p.doi != "" then RESOLVED else "UNRESOLVED", ReviewOf(c, p, ForMetadata(cl, metadata)), [], [])
  }

  function CitationStatuses(id: WorkId): seq<StatusRow> {
    [StatusRow(id, "GOOGLE_SCHOLAR", "MANUAL_REQUIRED"),
     StatusRow(id, "BIORXIV", "NOT_AVAILABLE_FROM_SOURCE"),
     StatusRow(id, "MEDRXIV", "NOT_AVAILABLE_FROM_SOURCE")]
  }

  /** Blank fields take the new value where there is one. */
  function Filled(m: Metadata, found: Metadata): Metadata {
    m + map f | f in found && Blank(m, f) && !Blank(found, f) :: found[f]
  }

  /** The review after one more candidate, and what was decided about it. */
  function Reviewed(w: Work, c: Candidate, p: Parsed, cl: Classification): (Review, string) {
    var current := w.review.disposition;
    if current.Some? && current != Some("") && current != Some(PENDING) then (w.review, "PRESERVED_EXPLICIT_REVIEW")
    else if current.None? && w.status == RESOLVED && cl.disposition == PENDING then (w.review, "PRESERVED_RESOLVED_PUBLICATION")
    else (ReviewOf(c, p, ForMetadata(cl, w.metadata)), if current == Some(PENDING) then "PROMOTED_PENDING" else "ADDED_EXPLICIT_REVIEW")
  }

  function Completed(env: Environment, w: Work, p: Parsed): Work {
    var metadata := Filled(w.metadata, CanonicalMetadata(env, p));
    w.(metadata := metadata, status := if Blank(metadata, Doi) then w.status else RESOLVED)
  }

  // ------------------------------------------------------------------
  // One candidate as a step on the document
  // ------------------------------------------------------------------

  ghost predicate HasOccurrence(d: Document, id: OccurrenceId) {
    exists o :: o in d.occurrences && o.id == id
  }

  function WithOccurrence(w: Work, c: Candidate): Work {
    w.(occurrenceIds := w.occurrenceIds + [OccurrenceIdOf(c)],
       sourceIds := if SourceIdOf(c) in w.sourceIds then w.sourceIds else w.sourceIds + [SourceIdOf(c)])
  }

  function OccurrenceOf(env: Environment, w: Work, c: Candidate, p: Parsed): Occurrence {
    Occurrence(OccurrenceIdOf(c), w.id, SourceIdOf(c), w.folder, c, if p.doi == "" then "" else env.casefold(p.doi))
  }

  /** The occurrence is recorded once, on the work that was found. */
  ghost function Attached(env: Environment, d: Document, i: nat, c: Candidate, p: Parsed): Document
    requires i < |d.works|
  {
    if HasOccurrence(d, OccurrenceIdOf(c)) then d
    else d.(works := d.works[i := WithOccurrence(d.works[i], c)], occurrences := d.occurrences + [OccurrenceOf(env, d.works[i], c, p)])
  }

  ghost function Skipped(d: Document, c: Candidate, p: Parsed, cl: Classification, action: string): Document {
    d.(audit := d.audit + [AuditRow(c, p, cl.disposition, cl.confidence, None, None, action, action)])
  }

  ghost function Audited(d: Document, folder: string, row: AuditRow): Document {
    d.(touched := d.touched + {folder}, audit := d.audit + [row])
  }

  ghost function RowFor(d: Document, i: nat, c: Candidate, p: Parsed, cl: Classification, action: string, decision: string): AuditRow
    requires i < |d.works|
  {
    AuditRow(c, p, cl.disposition, cl.confidence, Some(d.works[i].id), Some(OccurrenceIdOf(c)),
             if HasOccurrence(d, OccurrenceIdOf(c)) then "ALREADY_RECONCILED" else action, decision)
  }

  ghost function Added(env: Environment, folder: string, d: Document, c: Candidate, p: Parsed, cl: Classification): Document {
    var w := NewWork(env, folder, c, p, cl);
    var d1 := d.(works := d.works + [w], statuses := d.statuses + CitationStatuses(w.id));
    Audited(Attached(env, d1, |d.works|, c, p), folder,
            RowFor(d1, |d.works|, c, p, ForMetadata(cl, w.metadata), "ADDED_WORK", "ADDED_EXPLICIT_REVIEW"))
  }

  ghost function Merged(env: Environment, folder: string, d: Document, i: nat, c: Candidate, p: Parsed, cl: Classification, action: string): Document
    requires i < |d.works|
  {
    var w := Completed(env, d.works[i], p);
    var (review, decision) := Reviewed(w, c, p, cl);
    var d1 := d.(works := d.works[i := w.(review := review)]);
    Audited(Attached(env, d1, i, c, p), folder, RowFor(d1, i, c, p, cl, action, decision))
  }

  /** What happens once the search has answered; an ambiguous second answer would count as none. */
  ghost function Settled(env: Environment, folder: string, d: Document, c: Candidate, p: Parsed, m: Match): Document
    requires m.Matched? ==> m.index < |d.works|
  {
    var cl := env.classify(p, c.statusHint);
    if m.Matched? then Merged(env, folder, d, m.index, c, p, cl, m.action)
    else if cl.disposition == REJECTED then Skipped(d, c, p, cl, "SKIPPED_NON_PUBLICATION")
    else if LowQuality(p, cl) then Skipped(d, c, p, cl, "SKIPPED_UNPARSABLE_CITATION")
    else Added(env, folder, d, c, p, cl)
  }

  /** The bibliography is asked only about candidates that match nothing, and then the search is repeated. */
  ghost predicate CandidateStep(env: Environment, folder: string, d: Document, c: Candidate, d': Document) {
    exists m :: StepWith(env, folder, d, c, m, d')
  }

  ghost predicate StepWith(env: Environment, folder: string, d: Document, c: Candidate, m: Match, d': Document) {
    var p := env.parse(c);
    && Answers(env, d.works, folder, p, c.raw, m)
    && if m.Ambiguous? then d' == Skipped(d, c, p, Classification(PENDING, 0.0, ""), "SKIPPED_AMBIGUOUS_CITATION")
       else if m.NoMatch? && env.resolve(c, p).Some? then ResolvedStep(env, folder, d, c, env.resolve(c, p).value, d')
       else d' == Settled(env, folder, d, c, p, m)
  }

  ghost predicate ResolvedStep(env: Environment, folder: string, d: Document, c: Candidate, p: Parsed, d': Document) {
    exists m :: ResolvedTo(env, folder, d, c, p, m, d')
  }

  ghost predicate ResolvedTo(env: Environment, folder: string, d: Document, c: Candidate, p: Parsed, m: Match, d': Document) {
    Answers(env, d.works, folder, p, c.raw, m) && d' == Settled(env, folder, d, c, p, m)
  }

  /** A whole run over candidates in the given order. */
  ghost predicate Reaches(env: Environment, applicants: map<string, string>, d: Document, cs: seq<Candidate>, d': Document) {
    if cs == [] then d' == d
    else
      var n := |cs| - 1;
      cs[n].applicant in applicants
      && exists mid :: Reaches(env, applicants, d, cs[..n], mid) && CandidateStep(env, applicants[cs[n].applicant], mid, cs[n], d')
  }

  // ------------------------------------------------------------------
  // The loop as the program runs it
  // ------------------------------------------------------------------

  /** The field is as it is to be once the new values are in. */
  predicate FilledAt(known: Metadata, found: Metadata, m: Metadata, f: Field) {
    if Blank(known, f) && !Blank(found, f) then f in m && m[f] == found[f] else SameAt(known, m, f)
  }

  predicate SameAt(m: Metadata, n: Metadata, f: Field) {
    if f in m then f in n && n[f] == m[f] else f !in n
  }

  lemma FilledEverywhere(known: Metadata, found: Metadata, m: Metadata)
    requires forall f :: FilledAt(known, found, m, f)
    ensures m == Filled(known, found)
  {
    var n := Filled(known, found);
    forall f ensures (f in m <==> f in n) && (f in m && f in n ==> m[f] == n[f]) {
      assert FilledAt(known, found, m, f);
    }
  }

  function FillOne(m: Metadata, found: Metadata, f: Field): Metadata {
    if Blank(m, f) && !Blank(found, f) then m[f := found[f]] else m
  }

  lemma FillOneAt(known: Metadata, found: Metadata, m: Metadata, g: Field, f: Field, was: bool)
    requires if was then FilledAt(known, found, m, f) else SameAt(known, m, f)
    ensures if was || f == g then FilledAt(known, found, FillOne(m, found, g), f) else SameAt(known, FillOne(m, found, g), f)
  {
  }

  method FillFields(known: Metadata, found: Metadata, fields: seq<Field>) returns (m: Metadata)
    requires forall f :: f in found ==> f in fields
    ensures m == Filled(known, found)
  {
    m := known;
    for k := 0 to |fields|
      invariant forall f :: if f in fields[..k] then FilledAt(known, found, m, f) else SameAt(known, m, f)
    {
      ghost var next := FillOne(m, found, fields[k]);
      forall f ensures if f in fields[..k + 1] then FilledAt(known, found, next, f) else SameAt(known, next, f) {
        FillOneAt(known, found, m, fields[k], f, f in fields[..k]);
      }
      if Blank(m, fields[k]) && !Blank(found, fields[k]) { m := m[fields[k] := found[fields[k]]]; }
      assert m == next;
    }
    assert fields[..|fields|] == fields;
    FilledEverywhere(known, found, m);
  }

  class Reconciler {
    const env: Environment
    /** Folder of each applicant, by name. */
    const applicants: map<string, string>
    var works: seq<Work>
    var occurrences: seq<Occurrence>
    var statuses: seq<StatusRow>
    var touched: set<string>
    var audit: seq<AuditRow>

    ghost function View(): Document
      reads this
    {
      Document(works, occurrences, statuses, touched, audit)
    }

    constructor (env: Environment, applicants: map<string, string>, works: seq<Work>, occurrences: seq<Occurrence>,
                 statuses: seq<StatusRow>, touched: set<string>)
      ensures this.env == env && this.applicants == applicants
      ensures View() == Document(works, occurrences, statuses, touched, [])
    {
      this.env, this.applicants := env, applicants;
      this.works, this.occurrences, this.statuses, this.touched, audit := works, occurrences, statuses, touched, [];
    }

    method Complete(i: nat, p: Parsed)
      requires i < |works|
      modifies this`works
      ensures works == old(works)[i := Completed(env, old(works[i]), p)]
    {
      var m := FillFields(works[i].metadata, CanonicalMetadata(env, p), FIELDS);
      works := works[i := works[i].(metadata := m)];
      if !Blank(m, Doi) { works := works[i := works[i].(status := RESOLVED)]; }
    }

    method ReconcileReview(i: nat, c: Candidate, p: Parsed, cl: Classification) returns (decision: string)
      requires i < |works|
      modifies this`works
      ensures works == old(works)[i := old(works[i]).(review := Reviewed(old(works[i]), c, p, cl).0)]
      ensures decision == Reviewed(old(works[i]), c, p, cl).1
    {
      var w := works[i];
      var current := w.review.disposition;
      if current.Some? && current != Some("") && current != Some(PENDING) {
        decision := "PRESERVED_EXPLICIT_REVIEW";
      } else if current.None? && w.status == RESOLVED && cl.disposition == PENDING {
        decision := "PRESERVED_RESOLVED_PUBLICATION";
      } else {
        works := works[i := w.(review := ReviewOf(c, p, ForMetadata(cl, w.metadata)))];
        decision := if current == Some(PENDING) then "PROMOTED_PENDING" else "ADDED_EXPLICIT_REVIEW";
      }
    }

    method AddOccurrence(i: nat, c: Candidate, p: Parsed) returns (id: OccurrenceId, added: bool)
      requires i < |works|
      modifies this`works, this`occurrences
      ensures View() == Attached(env, old(View()), i, c, p)
      ensures id == OccurrenceIdOf(c) && (added <==> !HasOccurrence(old(View()), id))
    {
      id, added := OccurrenceIdOf(c), true;
      for k := 0 to |occurrences|
        invariant View() == old(View())
        invariant added <==> forall j :: 0 <= j < k ==> occurrences[j].id != id
      {
        if occurrences[k].id == id { added := false; }
      }
      assert added ==> !HasOccurrence(View(), id);
      if added {
        occurrences := occurrences + [OccurrenceOf(env, works[i], c, p)];
        works := works[i := WithOccurrence(works[i], c)];
      }
    }

    method Record(folder: string, i: nat, c: Candidate, p: Parsed, cl: Classification, action: string, decision: string)
      requires i < |works|
      modifies this
      ensures View() == Audited(Attached(env, old(View()), i, c, p), folder, RowFor(old(View()), i, c, p, cl, action, decision))
    {
      var id, added := AddOccurrence(i, c, p);
      touched := touched + {folder};
      audit := audit + [AuditRow(c, p, cl.disposition, cl.confidence, Some(works[i].id), Some(id),
                                 if added then action else "ALREADY_RECONCILED", decision)];
    }

    method Merge(folder: string, i: nat, c: Candidate, p: Parsed, cl: Classification, action: string)
      requires i < |works|
      modifies this
      ensures View() == Merged(env, folder, old(View()), i, c, p, cl, action)
    {
      Complete(i, p);
      var decision := ReconcileReview(i, c, p, cl);
      Record(folder, i, c, p, cl, action, decision);
    }

    method Settle(folder: string, c: Candidate, p: Parsed, m: Match)
      requires m.Matched? ==> m.index < |works|
      modifies this
      ensures View() == Settled(env, folder, old(View()), c, p, m)
    {
      var cl := env.classify(p, c.statusHint);
      if m.Matched? {
        Merge(folder, m.index, c, p, cl, m.action);
      } else if cl.disposition == REJECTED || LowQuality(p, cl) {
        var action := if cl.disposition == REJECTED then "SKIPPED_NON_PUBLICATION" else "SKIPPED_UNPARSABLE_CITATION";
        audit := audit + [AuditRow(c, p, cl.disposition, cl.confidence, None, None, action, action)];
      } else {
        var work := NewWork(env, folder, c, p, cl);
        works, statuses := works + [work], statuses + CitationStatuses(work.id);
        Record(folder, |works| - 1, c, p, ForMetadata(cl, work.metadata), "ADDED_WORK", "ADDED_EXPLICIT_REVIEW");
      }
    }

    method ReconcileOne(folder: string, c: Candidate)
      modifies this
      ensures CandidateStep(env, folder, old(View()), c, View())
    {
      var p := env.parse(c);
      ghost var before := View();
      var m := MatchWork(env, works, folder, p, c.raw);
      if m.Ambiguous? {
        var action := "SKIPPED_AMBIGUOUS_CITATION";
        audit := audit + [AuditRow(c, p, PENDING, 0.0, None, None, action, action)];
        assert StepWith(env, folder, before, c, m, View());
        return;
      }
      var resolved := if m.NoMatch? then env.resolve(c, p) else None;
      if resolved.Some? {
        var n := MatchWork(env, works, folder, resolved.value, c.raw);
        Settle(folder, c, resolved.value, n);
        assert ResolvedTo(env, folder, before, c, resolved.value, n, View());
      } else {
        Settle(folder, c, p, m);
      }
      assert StepWith(env, folder, before, c, m, View());
    }

    /** Stops at the first candidate whose applicant is unknown; the caller then discards the document. */
    method Reconcile(cs: seq<Candidate>) returns (ok: bool)
      modifies this
      ensures ok <==> forall c :: c in cs ==> c.applicant in applicants
      ensures ok ==> Reaches(env, applicants, old(View()), cs, View())
    {
      for k := 0 to |cs|
        invariant forall c :: c in cs[..k] ==> c.applicant in applicants
        invariant Reaches(env, applicants, old(View()), cs[..k], View())
      {
        if cs[k].applicant !in applicants { return false; }
        ghost var mid := View();
        ReconcileOne(applicants[cs[k].applicant], cs[k]);
        assert cs[..k + 1][..k] == cs[..k] && cs[..k + 1][k] == cs[k];
        assert Reaches(env, applicants, old(View()), cs[..k], mid);
      }
      assert cs[..|cs|] == cs;
      return true;
    }
  }
}
