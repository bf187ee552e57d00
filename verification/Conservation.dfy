/** What reconciliation conserves, over whole runs. */
module Conservation {
  import opened Base
  import opened Manifest
  import opened Reconciliation

  // ------------------------------------------------------------------
  // Nothing is lost
  // ------------------------------------------------------------------

  /** A decision that a later candidate may not revise. */
  predicate Explicit(r: Review) {
    r.disposition.Some? && r.disposition != Some("") && r.disposition != Some(PENDING)
  }

  ghost predicate KeepsFilled(m: Metadata, n: Metadata) {
    forall f :: !Blank(m, f) ==> f in n && n[f] == m[f]
  }

  ghost predicate KeepsWork(v: Work, w: Work) {
    && w.id == v.id && w.folder == v.folder && w.applicant == v.applicant && w.representative == v.representative
    && KeepsFilled(v.metadata, w.metadata)
    && (v.status == w.status || w.status == RESOLVED)
    && (Explicit(v.review) ==> w.review == v.review)
    && v.occurrenceIds <= w.occurrenceIds && v.sourceIds <= w.sourceIds
  }

  ghost predicate KeepsWorks(v: seq<Work>, w: seq<Work>) {
    |v| <= |w| && forall i :: 0 <= i < |v| ==> KeepsWork(v[i], w[i])
  }

  function References(works: seq<Work>): nat {
    if works == [] then 0 else References(works[..|works| - 1]) + |works[|works| - 1].occurrenceIds|
  }

  /** Works, occurrences, status rows and audit rows stay, and the two balances do not move. */
  ghost predicate Conserves(d: Document, d': Document) {
    && KeepsWorks(d.works, d'.works)
    && d.occurrences <= d'.occurrences && d.statuses <= d'.statuses && d.audit <= d'.audit && d.touched <= d'.touched
    && |d'.statuses| - 3 * |d'.works| == |d.statuses| - 3 * |d.works|
    && References(d'.works) - |d'.occurrences| == References(d.works) - |d.occurrences|
  }

  lemma {:induction false} ReferencesOfReplacement(works: seq<Work>, i: nat, w: Work)
    requires i < |works|
    ensures References(works[i := w]) == References(works) - |works[i].occurrenceIds| + |w.occurrenceIds|
    decreases |works|
  {
    var n := |works| - 1;
    if i < n {
      ReferencesOfReplacement(works[..n], i, w);
      assert works[i := w][..n] == works[..n][i := w];
    } else {
      assert works[i := w][..n] == works[..n];
    }
  }

  lemma ConservesTrans(a: Document, b: Document, c: Document)
    requires Conserves(a, b) && Conserves(b, c)
    ensures Conserves(a, c)
  {
    forall i | 0 <= i < |a.works| ensures KeepsWork(a.works[i], c.works[i]) {
      assert KeepsWork(b.works[i], c.works[i]);
    }
  }

  lemma ReplacementKeepsWorks(works: seq<Work>, i: nat, w: Work)
    requires i < |works| && KeepsWork(works[i], w)
    ensures KeepsWorks(works, works[i := w])
  {
  }

  lemma AttachedConserves(env: Environment, d: Document, i: nat, c: Candidate, p: Parsed)
    requires i < |d.works|
    ensures Conserves(d, Attached(env, d, i, c, p))
  {
    if !HasOccurrence(d, OccurrenceIdOf(c)) {
      var w := WithOccurrence(d.works[i], c);
      ReferencesOfReplacement(d.works, i, w);
      ReplacementKeepsWorks(d.works, i, w);
    }
  }

  lemma AddedConserves(env: Environment, folder: string, d: Document, c: Candidate, p: Parsed, cl: Classification)
    ensures Conserves(d, Added(env, folder, d, c, p, cl))
  {
    var w := NewWork(env, folder, c, p, cl);
    var d1 := d.(works := d.works + [w], statuses := d.statuses + CitationStatuses(w.id));
    assert d1.works[..|d.works|] == d.works;
    assert Conserves(d, d1);
    AttachedConserves(env, d1, |d.works|, c, p);
    ConservesTrans(d, d1, Attached(env, d1, |d.works|, c, p));
  }

  lemma CompletedKeepsWork(env: Environment, w: Work, p: Parsed)
    ensures KeepsWork(w, Completed(env, w, p))
  {
  }

  lemma MergedConserves(env: Environment, folder: string, d: Document, i: nat, c: Candidate, p: Parsed, cl: Classification, action: string)
    requires i < |d.works|
    ensures Conserves(d, Merged(env, folder, d, i, c, p, cl, action))
  {
    CompletedKeepsWork(env, d.works[i], p);
    var w := Completed(env, d.works[i], p);
    var w1 := w.(review := Reviewed(w, c, p, cl).0);
    var d1 := d.(works := d.works[i := w1]);
    ReplacementKeepsWorks(d.works, i, w1);
    ReferencesOfReplacement(d.works, i, w1);
    AttachedConserves(env, d1, i, c, p);
    ConservesTrans(d, d1, Attached(env, d1, i, c, p));
  }

  lemma SettledConserves(env: Environment, folder: string, d: Document, c: Candidate, p: Parsed, m: Match)
    requires m.Matched? ==> m.index < |d.works|
    ensures Conserves(d, Settled(env, folder, d, c, p, m))
  {
    var cl := env.classify(p, c.statusHint);
    if m.Matched? {
      MergedConserves(env, folder, d, m.index, c, p, cl, m.action);
    } else if cl.disposition != REJECTED && !LowQuality(p, cl) {
      AddedConserves(env, folder, d, c, p, cl);
    }
  }

  /** The answer that the step settled on, with the citation as it was then parsed. */
  ghost predicate SettledOn(env: Environment, folder: string, d: Document, c: Candidate, d': Document, skipped: bool, p: Parsed, m: Match) {
    && (m.Matched? ==> m.index < |d.works|)
    && d' == if skipped then Skipped(d, c, p, Classification(PENDING, 0.0, ""), "SKIPPED_AMBIGUOUS_CITATION")
             else Settled(env, folder, d, c, p, m)
  }

  lemma ResolvedCases(env: Environment, folder: string, d: Document, c: Candidate, p: Parsed, d': Document) returns (m: Match)
    requires ResolvedStep(env, folder, d, c, p, d')
    ensures SettledOn(env, folder, d, c, d', false, p, m)
  {
    m :| ResolvedTo(env, folder, d, c, p, m, d');
  }

  lemma StepCases(env: Environment, folder: string, d: Document, c: Candidate, d': Document) returns (skipped: bool, p: Parsed, m: Match)
    requires CandidateStep(env, folder, d, c, d')
    ensures SettledOn(env, folder, d, c, d', skipped, p, m)
  {
    p := env.parse(c);
    m :| StepWith(env, folder, d, c, m, d');
    skipped := m.Ambiguous?;
    if m.NoMatch? && env.resolve(c, p).Some? {
      p := env.resolve(c, p).value;
      m := ResolvedCases(env, folder, d, c, p, d');
    }
  }

  lemma SettledAudits(env: Environment, folder: string, d: Document, c: Candidate, p: Parsed, m: Match)
    requires m.Matched? ==> m.index < |d.works|
    ensures exists row: AuditRow :: row.candidate == c && Settled(env, folder, d, c, p, m).audit == d.audit + [row]
  {
    var row := Settled(env, folder, d, c, p, m).audit[|d.audit|];
    assert row.candidate == c;
  }

  lemma StepConserves(env: Environment, folder: string, d: Document, c: Candidate, d': Document)
    requires CandidateStep(env, folder, d, c, d')
    ensures Conserves(d, d')
    ensures exists row: AuditRow :: row.candidate == c && d'.audit == d.audit + [row]
  {
    var skipped, p, m := StepCases(env, folder, d, c, d');
    if skipped {
      assert d'.audit[|d.audit|].candidate == c;
    } else {
      SettledConserves(env, folder, d, c, p, m);
      SettledAudits(env, folder, d, c, p, m);
    }
  }

  /** Two steps from the same document with the same candidate end alike. */
  lemma StepIsDetermined(env: Environment, folder: string, d: Document, c: Candidate, d1: Document, d2: Document)
    requires CandidateStep(env, folder, d, c, d1) && CandidateStep(env, folder, d, c, d2)
    ensures d1 == d2
  {
    var p := env.parse(c);
    forall m, n | Answers(env, d.works, folder, p, c.raw, m) && Answers(env, d.works, folder, p, c.raw, n) ensures m == n {
      AnswerIsUnique(env, d.works, folder, p, c.raw, m, n);
    }
    if env.resolve(c, p).Some? {
      var q := env.resolve(c, p).value;
      forall m, n | Answers(env, d.works, folder, q, c.raw, m) && Answers(env, d.works, folder, q, c.raw, n) ensures m == n {
        AnswerIsUnique(env, d.works, folder, q, c.raw, m, n);
      }
    }
  }

  /** One audit row for each candidate, in order. */
  ghost predicate AuditsEach(before: seq<AuditRow>, cs: seq<Candidate>, after: seq<AuditRow>) {
    |after| == |before| + |cs| && forall k :: 0 <= k < |cs| ==> after[|before| + k].candidate == cs[k]
  }

  lemma AuditsOneMore(before: seq<AuditRow>, cs: seq<Candidate>, mid: seq<AuditRow>, row: AuditRow)
    requires cs != [] && AuditsEach(before, cs[..|cs| - 1], mid) && row.candidate == cs[|cs| - 1]
    ensures AuditsEach(before, cs, mid + [row])
  {
  }

  /** Over any run nothing disappears, the balances hold, and every candidate has exactly one audit row, in order. */
  lemma {:induction false} RunConserves(env: Environment, applicants: map<string, string>, d: Document, cs: seq<Candidate>, d': Document)
    requires Reaches(env, applicants, d, cs, d')
    ensures Conserves(d, d')
    ensures AuditsEach(d.audit, cs, d'.audit)
    decreases |cs|
  {
    if cs != [] {
      var n := |cs| - 1;
      var mid :| Reaches(env, applicants, d, cs[..n], mid) && CandidateStep(env, applicants[cs[n].applicant], mid, cs[n], d');
      RunConserves(env, applicants, d, cs[..n], mid);
      StepConserves(env, applicants[cs[n].applicant], mid, cs[n], d');
      ConservesTrans(d, mid, d');
      var row: AuditRow :| row.candidate == cs[n] && d'.audit == mid.audit + [row];
      AuditsOneMore(d.audit, cs, mid.audit, row);
    }
  }

  // ------------------------------------------------------------------
  // Occurrences and works agree
  // ------------------------------------------------------------------

  ghost predicate DistinctIds(occurrences: seq<Occurrence>) {
    forall i, j :: 0 <= i < j < |occurrences| ==> occurrences[i].id != occurrences[j].id
  }

  /** The occurrence is listed by a work with the identifier and folder that it names. */
  ghost predicate Carried(works: seq<Work>, o: Occurrence) {
    exists k :: 0 <= k < |works| && works[k].id == o.workId && works[k].folder == o.folder && o.id in works[k].occurrenceIds
  }

  ghost predicate Consistent(d: Document) {
    && DistinctIds(d.occurrences)
    && (forall o :: o in d.occurrences ==> Carried(d.works, o))
    && forall k, id :: 0 <= k < |d.works| && id in d.works[k].occurrenceIds ==> HasOccurrence(d, id)
  }

  lemma CarriedStays(v: seq<Work>, w: seq<Work>, o: Occurrence)
    requires KeepsWorks(v, w) && Carried(v, o)
    ensures Carried(w, o)
  {
    var k :| 0 <= k < |v| && v[k].id == o.workId && v[k].folder == o.folder && o.id in v[k].occurrenceIds;
    assert KeepsWork(v[k], w[k]);
  }

  lemma AttachedStaysConsistent(env: Environment, d: Document, i: nat, c: Candidate, p: Parsed)
    requires Consistent(d) && i < |d.works|
    ensures Consistent(Attached(env, d, i, c, p))
    ensures HasOccurrence(Attached(env, d, i, c, p), OccurrenceIdOf(c))
  {
    var d' := Attached(env, d, i, c, p);
    if !HasOccurrence(d, OccurrenceIdOf(c)) {
      AttachedConserves(env, d, i, c, p);
      var o := OccurrenceOf(env, d.works[i], c, p);
      forall j | 0 <= j < |d.occurrences| ensures d.occurrences[j].id != o.id {
        assert d.occurrences[j] in d.occurrences;
      }
      assert d'.works[i].id == o.workId && o.id in d'.works[i].occurrenceIds;
      forall x | x in d'.occurrences ensures Carried(d'.works, x) {
        if x in d.occurrences { CarriedStays(d.works, d'.works, x); }
      }
      assert o in d'.occurrences;
      forall k, id | 0 <= k < |d'.works| && id in d'.works[k].occurrenceIds ensures HasOccurrence(d', id) {
        if id != o.id {
          assert id in d.works[k].occurrenceIds && HasOccurrence(d, id);
          var x :| x in d.occurrences && x.id == id;
          assert x in d'.occurrences;
        }
      }
    }
  }

  /** Changes to the works that leave their references alone. */
  lemma OtherChangesStayConsistent(d: Document, d': Document)
    requires Consistent(d) && KeepsWorks(d.works, d'.works) && d'.occurrences == d.occurrences
    requires forall k :: 0 <= k < |d'.works| ==> d'.works[k].occurrenceIds == if k < |d.works| then d.works[k].occurrenceIds else []
    ensures Consistent(d')
  {
    forall o | o in d'.occurrences ensures Carried(d'.works, o) {
      CarriedStays(d.works, d'.works, o);
    }
    forall k, id | 0 <= k < |d'.works| && id in d'.works[k].occurrenceIds ensures HasOccurrence(d', id) {
      assert HasOccurrence(d, id);
    }
  }

  lemma AuditDoesNotMatter(d: Document, d': Document)
    requires Consistent(d) && d'.works == d.works && d'.occurrences == d.occurrences
    ensures Consistent(d')
  {
    OtherChangesStayConsistent(d, d');
  }

  lemma AddedStaysConsistent(env: Environment, folder: string, d: Document, c: Candidate, p: Parsed, cl: Classification)
    requires Consistent(d)
    ensures Consistent(Added(env, folder, d, c, p, cl))
  {
    var w := NewWork(env, folder, c, p, cl);
    var d1 := d.(works := d.works + [w], statuses := d.statuses + CitationStatuses(w.id));
    OtherChangesStayConsistent(d, d1);
    AttachedStaysConsistent(env, d1, |d.works|, c, p);
    AuditDoesNotMatter(Attached(env, d1, |d.works|, c, p), Added(env, folder, d, c, p, cl));
  }

  lemma MergedStaysConsistent(env: Environment, folder: string, d: Document, i: nat, c: Candidate, p: Parsed, cl: Classification, action: string)
    requires Consistent(d) && i < |d.works|
    ensures Consistent(Merged(env, folder, d, i, c, p, cl, action))
  {
    CompletedKeepsWork(env, d.works[i], p);
    var w := Completed(env, d.works[i], p);
    var d1 := d.(works := d.works[i := w.(review := Reviewed(w, c, p, cl).0)]);
    ReplacementKeepsWorks(d.works, i, d1.works[i]);
    OtherChangesStayConsistent(d, d1);
    AttachedStaysConsistent(env, d1, i, c, p);
    AuditDoesNotMatter(Attached(env, d1, i, c, p), Merged(env, folder, d, i, c, p, cl, action));
  }

  lemma StepStaysConsistent(env: Environment, folder: string, d: Document, c: Candidate, d': Document)
    requires CandidateStep(env, folder, d, c, d') && Consistent(d)
    ensures Consistent(d')
  {
    var skipped, p, m := StepCases(env, folder, d, c, d');
    var cl := env.classify(p, c.statusHint);
    if skipped {
      AuditDoesNotMatter(d, d');
    } else if m.Matched? {
      MergedStaysConsistent(env, folder, d, m.index, c, p, cl, m.action);
    } else if cl.disposition != REJECTED && !LowQuality(p, cl) {
      AddedStaysConsistent(env, folder, d, c, p, cl);
    } else {
      AuditDoesNotMatter(d, d');
    }
  }

  /** Occurrence identifiers stay distinct, and occurrences and works keep naming each other, over any run. */
  lemma {:induction false} RunStaysConsistent(env: Environment, applicants: map<string, string>, d: Document, cs: seq<Candidate>, d': Document)
    requires Reaches(env, applicants, d, cs, d') && Consistent(d)
    ensures Consistent(d')
    decreases |cs|
  {
    if cs != [] {
      var n := |cs| - 1;
      var mid :| Reaches(env, applicants, d, cs[..n], mid) && CandidateStep(env, applicants[cs[n].applicant], mid, cs[n], d');
      RunStaysConsistent(env, applicants, d, cs[..n], mid);
      StepStaysConsistent(env, applicants[cs[n].applicant], mid, cs[n], d');
    }
  }

  // ------------------------------------------------------------------
  // The same candidate again
  // ------------------------------------------------------------------

  lemma SettledAgainAttachesNothing(env: Environment, folder: string, d: Document, c: Candidate, p: Parsed, m: Match)
    requires (m.Matched? ==> m.index < |d.works|) && HasOccurrence(d, OccurrenceIdOf(c))
    ensures Settled(env, folder, d, c, p, m).occurrences == d.occurrences
  {
  }

  /** A citation that was once recorded is not recorded a second time, whichever work it now matches. */
  lemma RecordedOnce(env: Environment, folder: string, d: Document, c: Candidate, d': Document)
    requires CandidateStep(env, folder, d, c, d') && HasOccurrence(d, OccurrenceIdOf(c))
    ensures d'.occurrences == d.occurrences && References(d'.works) == References(d.works)
  {
    var skipped, p, m := StepCases(env, folder, d, c, d');
    if !skipped { SettledAgainAttachesNothing(env, folder, d, c, p, m); }
    StepConserves(env, folder, d, c, d');
  }

  ghost predicate DistinctWorkIds(works: seq<Work>) {
    forall i, j :: 0 <= i < j < |works| ==> works[i].id != works[j].id
  }

  /** The citation is taken up as a work of its own. */
  ghost predicate Accepted(env: Environment, c: Candidate, p: Parsed, m: Match) {
    var cl := env.classify(p, c.statusHint);
    !m.Matched? && cl.disposition != REJECTED && !LowQuality(p, cl)
  }

  lemma SettledWorkIds(env: Environment, folder: string, d: Document, c: Candidate, p: Parsed, m: Match)
    requires m.Matched? ==> m.index < |d.works|
    ensures var works := Settled(env, folder, d, c, p, m).works;
      && |works| == |d.works| + (if Accepted(env, c, p, m) then 1 else 0)
      && (Accepted(env, c, p, m) ==> works[|d.works|].id == WorkIdOf(env, c, p))
  {
  }
}
