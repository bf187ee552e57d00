/** The guarantees of final submission over whole runs. */
module Resubmission {
  import opened Base
  import opened Drafts
  import opened Finalize
  import opened Workflow
  import opened Submission
  import D = Documents

  // ------------------------------------------------------------------
  // What a final confirmation guarantees
  // ------------------------------------------------------------------

  /** An application with a confirmation that nothing superseded is locked. */
  lemma UnsupersededMeansLocked(events: seq<Action>, i: nat)
    requires i < |Run(events).core.finals|
    ensures var c := Run(events).core;
            !c.finals[i].superseded ==> c.finals[i].app in c.drafts.locked
  {
    Reachable(events);
    assert FinalOk(Run(events).core, i);
  }

  /** While the newest confirmation stands, the five drafts are exactly what was submitted and none can be saved. */
  lemma NewestConfirmationIsFrozen(events: seq<Action>, i: nat, e: Action)
    requires var finals := Run(events).core.finals; Newest(finals, i) && !finals[i].superseded
    ensures var c := Run(events).core;
      && Frozen(c, c.finals[i])
      && (e.SaveSection? && e.app == c.finals[i].app ==> !SaveAccepted(c, e))
  {
    Reachable(events);
    assert FinalOk(Run(events).core, i);
  }

  /** Reopening a section either completes or changes nothing. */
  lemma ReopenSectionIsAllOrNothing(
    events: seq<Action>, app: Uuid, section: Section, reason: string, actor: string, group: string, now: int)
    ensures var c := Run(events).core;
            ReopenSectionResult(c, app, section, reason, actor, group).Err?
            ==> AfterReopenSection(c, app, section, reason, actor, group, now) == c
  {
    var c := Run(events).core;
    Reachable(events);
    if ReopenSectionError(c, app, section, reason, actor, group).None? {
      var i := ActiveIs(c.finals, app);
      assert FinalOk(c, i);
    }
  }

  /**
   * Reopening a document slot is not all-or-nothing: it has superseded the confirmation before it finds the slot
   * unavailable, exactly when an authorised, complete request for an application with an active confirmation names a
   * slot that is absent, another application's, or hidden from applicants.
   */
  lemma ReopenSlotHalfDoneIff(c: Core, app: Uuid, slot: Uuid, reason: string, actor: string, group: string, now: int)
    ensures (ReopenSlotResult(c, app, slot, reason, actor, group).Err?
             && AfterReopenSlot(c, app, slot, reason, actor, group, now) != c)
            <==> group == ADMINISTRATOR_GROUP && actor != "" && reason != "" && Active(c.finals, app).Some?
                 && !Listed(c.docs, app, slot)
  {
    if Active(c.finals, app).Some? {
      var i := ActiveIs(c.finals, app);
      assert Superseded(c.finals, c.finals[i].id)[i].superseded;
    }
  }

  /** A reopening of a slot that fails, half-done or not, touches nothing but the supersession of confirmations. */
  lemma FailedReopeningOnlySupersedes(c: Core, app: Uuid, slot: Uuid, reason: string, actor: string, group: string, now: int)
    requires ReopenSlotResult(c, app, slot, reason, actor, group).Err?
    ensures var c' := AfterReopenSlot(c, app, slot, reason, actor, group, now);
            c' == c.(finals := c'.finals) && OnlySuperseding(c.finals, c'.finals)
  {
    if Active(c.finals, app).Some? { SupersedingOnly(c.finals, Active(c.finals, app).value.id); }
  }

  // ------------------------------------------------------------------
  // Submitting twice
  // ------------------------------------------------------------------

  ghost predicate Submits(s: System, app: Uuid) {
    Ready(s.core, app)
  }

  /** A save of the application accepted, one of its slots changed, or its active confirmation superseded. */
  ghost predicate Effective(s: System, e: Action, app: Uuid) {
    var c := s.core;
    match e
    case SaveSection(a, _, _, _, _) => a == app && SaveAccepted(c, e)
    case ReopenSection(a, section, reason, actor, group, _) =>
      a == app && ReopenSectionError(c, a, section, reason, actor, group).None?
    case ReopenSlot(a, _, reason, actor, group, _) => a == app && ReopenSlotError(c, a, reason, actor, group).None?
    case RegisterUpload(ticket, _, _) =>
      ticket in s.tickets && s.tickets[ticket].slot.app == app && D.Registrable(c.docs, s.tickets[ticket])
    case Decide(decision) =>
      var id := D.DecidedSlot(c.docs, decision);
      id.Some? && id.value in c.docs.slots && c.docs.slots[id.value].app == app
    case _ => false
  }

  /** The confirmation is active and nothing has moved past it. */
  ghost predicate Standing(s: System, app: Uuid, final: FinalConfirmation) {
    && Active(s.core.finals, app) == Some(final)
    && !Outdated(s.core, app, final.manifest)
  }

  /** The confirmation is superseded, or something has moved past it. */
  ghost predicate Lapsed(s: System, app: Uuid, final: FinalConfirmation, i: nat) {
    && i < |s.core.finals|
    && s.core.finals[i] == final.(superseded := s.core.finals[i].superseded) && final.app == app
    && (s.core.finals[i].superseded || Outdated(s.core, app, final.manifest))
  }

  lemma {:induction false} ActiveOfOther(finals: seq<FinalConfirmation>, app: Uuid, id: Uuid)
    requires forall i :: 0 <= i < |finals| && finals[i].id == id ==> finals[i].app != app
    ensures Active(Superseded(finals, id), app) == Active(finals, app)
  {
    if finals != [] {
      var n := |finals| - 1;
      assert Superseded(finals, id)[..n] == Superseded(finals[..n], id);
      ActiveOfOther(finals[..n], app, id);
    }
  }

  lemma SupersedingOtherKeepsActive(s: System, app: Uuid, other: Uuid)
    requires IdsOk(s) && other != app
    ensures Active(AfterSupersede(s.core, other).finals, app) == Active(s.core.finals, app)
  {
    if Active(s.core.finals, other).Some? {
      var k := ActiveIs(s.core.finals, other);
      ActiveOfOther(s.core.finals, app, s.core.finals[k].id);
    }
  }

  /** Nothing of the application moved: its drafts and the slots it uses are the same. */
  ghost predicate SameWork(c: Core, c': Core, app: Uuid) {
    && D.Forward(c.docs, c'.docs)
    && (forall k :: 0 <= k < 5 ==> Row(c', app, k) == Row(c, app, k))
    && (forall id :: Listed(c'.docs, app, id) && c'.docs.slots[id].rowVersion > 1 ==>
          id in c.docs.slots && c'.docs.slots[id] == c.docs.slots[id])
  }

  lemma SameWorkKeepsLevel(c: Core, c': Core, app: Uuid, m: Manifest)
    requires SameWork(c, c', app) && !Outdated(c, app, m)
    ensures !Outdated(c', app, m)
  {
    forall k ensures !SectionAhead(c', app, m, k) {
      assert !SectionAhead(c, app, m, k);
    }
    forall id ensures !SlotAhead(c'.docs, app, m, id) {
      assert !SlotAhead(c.docs, app, m, id);
      if Recorded(c.docs, id, m.documents) && Listed(c'.docs, app, id) && c'.docs.slots[id].rowVersion > 1 {
        var e :| e in m.documents && e.version in c.docs.versions && c.docs.versions[e.version].slot == id
                 && id in c.docs.slots && e.slotRow == c.docs.slots[id].rowVersion;
        assert Recorded(c'.docs, id, m.documents);
      }
    }
  }

  lemma IneffectiveKeepsRows(s: System, e: Action, app: Uuid)
    requires !Effective(s, e, app)
    ensures forall k :: 0 <= k < 5 ==> Row(Step(s, e).core, app, k) == Row(s.core, app, k)
  {
  }

  lemma IneffectiveDecisionKeepsSlot(s: System, e: Action, app: Uuid, id: Uuid)
    requires D.Valid(s.core.docs) && e.Decide? && !Effective(s, e, app)
    requires Listed(Step(s, e).core.docs, app, id)
    ensures id in s.core.docs.slots && Step(s, e).core.docs.slots[id] == s.core.docs.slots[id]
  {
    D.DecisionKeepsKeys(s.core.docs, e.decision);
    assert Step(s, e).core.docs == D.AfterDecision(s.core.docs, e.decision);
    DecisionKeepsOtherSlot(s.core.docs, e.decision, app, id);
  }

  /** A decision that concerns no slot of the application leaves each of them alone. */
  lemma DecisionKeepsOtherSlot(docs: D.Registry, decision: D.Decision, app: Uuid, id: Uuid)
    requires D.Valid(docs) && id in docs.slots
    requires var decided := D.DecidedSlot(docs, decision);
      !(decided.Some? && decided.value in docs.slots && docs.slots[decided.value].app == app)
    requires id in D.AfterDecision(docs, decision).slots && D.AfterDecision(docs, decision).slots[id].app == app
    ensures D.AfterDecision(docs, decision).slots[id] == docs.slots[id]
  {
    D.DecisionChangesOneSlot(docs, decision, id);
    if D.DecidedSlot(docs, decision) == Some(id) { D.DecisionKeepsApplication(docs, decision, id); }
  }

  lemma IneffectiveRegistrationKeepsSlot(s: System, e: Action, app: Uuid, id: Uuid)
    requires IdsOk(s) && e.RegisterUpload? && !Effective(s, e, app)
    requires Listed(Step(s, e).core.docs, app, id)
    ensures id in s.core.docs.slots && Step(s, e).core.docs.slots[id] == s.core.docs.slots[id]
  {
  }

  /** A step that is not effective leaves the application's used slots alone; one it adds is not in use. */
  lemma IneffectiveKeepsSlot(s: System, e: Action, app: Uuid, id: Uuid)
    requires IdsOk(s) && D.Valid(s.core.docs) && !Effective(s, e, app)
    requires Listed(Step(s, e).core.docs, app, id) && Step(s, e).core.docs.slots[id].rowVersion > 1
    ensures id in s.core.docs.slots && Step(s, e).core.docs.slots[id] == s.core.docs.slots[id]
  {
    if e.Decide? {
      IneffectiveDecisionKeepsSlot(s, e, app, id);
    } else if e.RegisterUpload? {
      IneffectiveRegistrationKeepsSlot(s, e, app, id);
    } else if !TouchesDocuments(s, e) {
      OtherStepsKeepDocuments(s, e);
    }
  }

  lemma IneffectiveKeepsWork(s: System, e: Action, app: Uuid)
    requires Inv(s) && !Effective(s, e, app)
    ensures SameWork(s.core, Step(s, e).core, app)
  {
    DocumentsMoveOn(s, e);
    IneffectiveKeepsRows(s, e, app);
    var docs, docs' := s.core.docs, Step(s, e).core.docs;
    forall id | Listed(docs', app, id) && docs'.slots[id].rowVersion > 1
      ensures id in docs.slots && docs'.slots[id] == docs.slots[id]
    {
      IneffectiveKeepsSlot(s, e, app, id);
    }
  }

  lemma IneffectiveKeepsStanding(s: System, e: Action, app: Uuid, final: FinalConfirmation)
    requires Inv(s) && Standing(s, app, final) && !Effective(s, e, app)
    requires e.Submit? && e.app == app ==> !Submits(s, app)
    ensures Standing(Step(s, e), app, final)
  {
    IneffectiveKeepsWork(s, e, app);
    SameWorkKeepsLevel(s.core, Step(s, e).core, app, final.manifest);
    IneffectiveKeepsActive(s, e, app);
  }

  lemma IneffectiveKeepsActive(s: System, e: Action, app: Uuid)
    requires Inv(s) && !Effective(s, e, app) && Active(s.core.finals, app).Some?
    requires e.Submit? && e.app == app ==> !Submits(s, app)
    ensures Active(Step(s, e).core.finals, app) == Active(s.core.finals, app)
  {
    match e
    case ReopenSection(a, _, _, _, _, _) => if a != app { SupersedingOtherKeepsActive(s, app, a); }
    case ReopenSlot(a, _, _, _, _, _) => if a != app { SupersedingOtherKeepsActive(s, app, a); }
    case Submit(a, _) =>
      if |Step(s, e).core.finals| > |s.core.finals| {
        assert Step(s, e).core.finals[..|s.core.finals|] == s.core.finals;
      }
    case _ =>
  }

  lemma SlotChangeLapses(c: Core, c': Core, app: Uuid, m: Manifest, id: Uuid)
    requires D.Valid(c.docs) && D.Valid(c'.docs) && D.Forward(c.docs, c'.docs) && Below(c, app, m)
    requires id in c.docs.slots && c.docs.slots[id].app == app
    requires c.docs.slots[id].rowVersion < c'.docs.slots[id].rowVersion
    ensures Outdated(c', app, m)
  {
    assert D.SlotOk(c.docs, id) && D.SlotOk(c'.docs, id);
    GrownSlotIsAhead(c, c', app, m, id);
    assert SlotAhead(c'.docs, app, m, id);
  }

  lemma EffectiveSaveLapses(s: System, e: Action, final: FinalConfirmation, i: nat)
    requires Inv(s) && e.SaveSection? && SaveAccepted(s.core, e)
    requires i < |s.core.finals| && s.core.finals[i] == final && final.app == e.app
    ensures Lapsed(Step(s, e), e.app, final, i)
  {
    assert FinalOk(s.core, i);
    var k :| 0 <= k < 5 && REQUIRED_SECTIONS[k] == e.section;
    assert SectionAhead(Step(s, e).core, e.app, final.manifest, k);
  }

  lemma EffectiveReopenLapses(s: System, e: Action, final: FinalConfirmation, i: nat)
    requires e.ReopenSection? || e.ReopenSlot?
    requires Active(s.core.finals, e.app) == Some(final) && Effective(s, e, e.app)
    requires i < |s.core.finals| && s.core.finals[i] == final && final.app == e.app
    ensures Lapsed(Step(s, e), e.app, final, i)
  {
  }

  ghost predicate RowRaised(docs: D.Registry, docs': D.Registry, app: Uuid, id: Uuid) {
    && id in docs.slots && docs.slots[id].app == app
    && id in docs'.slots && docs.slots[id].rowVersion < docs'.slots[id].rowVersion
  }

  /** Every accepted slot operation raises the row version of a slot of the application. */
  lemma EffectiveRaisesRow(s: System, e: Action, app: Uuid) returns (id: Uuid)
    requires D.Valid(s.core.docs) && Effective(s, e, app) && (e.RegisterUpload? || e.Decide?)
    ensures RowRaised(s.core.docs, Step(s, e).core.docs, app, id)
  {
    match e
    case RegisterUpload(ticket, _, _) => id := s.tickets[ticket].slot.id;
    case Decide(decision) =>
      id := D.DecidedSlot(s.core.docs, decision).value;
      D.DecisionChangesOneSlot(s.core.docs, decision, id);
  }

  lemma EffectiveSlotChangeLapses(s: System, e: Action, app: Uuid, m: Manifest)
    requires Inv(s) && Below(s.core, app, m) && Effective(s, e, app)
    requires e.RegisterUpload? || e.Decide?
    ensures Outdated(Step(s, e).core, app, m)
  {
    DocumentsMoveOn(s, e);
    var id := EffectiveRaisesRow(s, e, app);
    SlotChangeLapses(s.core, Step(s, e).core, app, m, id);
  }

  lemma EffectiveLapses(s: System, e: Action, app: Uuid, final: FinalConfirmation, i: nat)
    requires Inv(s) && Standing(s, app, final) && Effective(s, e, app)
    requires i < |s.core.finals| && s.core.finals[i] == final && final.app == app
    ensures Lapsed(Step(s, e), app, final, i)
  {
    assert FinalOk(s.core, i);
    if e.SaveSection? {
      EffectiveSaveLapses(s, e, final, i);
    } else if e.ReopenSection? || e.ReopenSlot? {
      EffectiveReopenLapses(s, e, final, i);
    } else {
      EffectiveSlotChangeLapses(s, e, app, final.manifest);
    }
  }

  lemma FinalsOnlyGrow(s: System, e: Action)
    ensures var a, b := s.core.finals, Step(s, e).core.finals;
      |a| <= |b| && OnlySuperseding(a, b[..|a|])
  {
    if (e.ReopenSection? || e.ReopenSlot?) && Active(s.core.finals, e.app).Some? {
      SupersedingOnly(s.core.finals, Active(s.core.finals, e.app).value.id);
    }
  }

  lemma RowsMoveOn(s: System, e: Action, app: Uuid, k: nat)
    requires k < 5
    ensures var c, c' := s.core, Step(s, e).core;
            Row(c, app, k) < Row(c', app, k) || (Row(c, app, k) == Row(c', app, k) && HashOf(c, app, k) == HashOf(c', app, k))
  {
    if e.SaveSection? && SaveAccepted(s.core, e) && e.app == app && e.section == REQUIRED_SECTIONS[k] {
      assert Row(Step(s, e).core, app, k) == Row(s.core, app, k) + 1;
    } else {
      var key := (app, REQUIRED_SECTIONS[k]);
      var before, after := s.core.drafts.drafts, Step(s, e).core.drafts.drafts;
      assert key in before <==> key in after;
      assert key in before ==> before[key] == after[key];
    }
  }

  lemma StepIsOnward(s: System, e: Action)
    requires Inv(s)
    ensures Onward(s.core, Step(s, e).core)
  {
    DocumentsMoveOn(s, e);
    forall app: Uuid, k | 0 <= k < 5
      ensures var c, c' := s.core, Step(s, e).core;
        Row(c, app, k) < Row(c', app, k) || (Row(c, app, k) == Row(c', app, k) && HashOf(c, app, k) == HashOf(c', app, k))
    {
      RowsMoveOn(s, e, app, k);
    }
  }

  lemma LapsedStaysLapsed(s: System, e: Action, app: Uuid, final: FinalConfirmation, i: nat)
    requires Inv(s) && Lapsed(s, app, final, i)
    ensures Lapsed(Step(s, e), app, final, i)
  {
    FinalsOnlyGrow(s, e);
    assert Step(s, e).core.finals[i] == Step(s, e).core.finals[..|s.core.finals|][i];
    StepIsOnward(s, e);
    assert FinalOk(s.core, i);
    if Outdated(s.core, app, final.manifest) {
      OutdatedStaysOutdated(s.core, Step(s, e).core, app, final.manifest);
    }
  }

  ghost predicate NothingHappened(s: System, events: seq<Action>, app: Uuid) {
    forall i :: 0 <= i < |events| ==> !Effective(RunFrom(s, events[..i]), events[i], app)
  }

  ghost predicate NoSubmissionOf(s: System, events: seq<Action>, app: Uuid) {
    forall i :: 0 <= i < |events| && events[i].Submit? && events[i].app == app ==> !Submits(RunFrom(s, events[..i]), app)
  }

  lemma HappenedSoFar(s: System, events: seq<Action>, app: Uuid)
    requires events != []
    ensures var n := |events| - 1;
      && (NothingHappened(s, events, app)
          <==> NothingHappened(s, events[..n], app) && !Effective(RunFrom(s, events[..n]), events[n], app))
      && (NoSubmissionOf(s, events, app) ==>
          && NoSubmissionOf(s, events[..n], app)
          && (events[n].Submit? && events[n].app == app ==> !Submits(RunFrom(s, events[..n]), app)))
  {
    var n := |events| - 1;
    assert forall k :: 0 <= k < n ==> events[..n][..k] == events[..k];
    if NothingHappened(s, events, app) {
      forall k | 0 <= k < n ensures !Effective(RunFrom(s, events[..n][..k]), events[..n][k], app) {
        assert !Effective(RunFrom(s, events[..k]), events[k], app);
      }
    }
    if NothingHappened(s, events[..n], app) && !Effective(RunFrom(s, events[..n]), events[n], app) {
      forall k | 0 <= k <= n ensures !Effective(RunFrom(s, events[..k]), events[k], app) {
        if k < n { assert !Effective(RunFrom(s, events[..n][..k]), events[..n][k], app); }
      }
    }
  }

  lemma {:induction false} StandingUntilEffective(s: System, events: seq<Action>, app: Uuid, final: FinalConfirmation, i: nat)
    requires Inv(s) && Standing(s, app, final) && NoSubmissionOf(s, events, app)
    requires i < |s.core.finals| && s.core.finals[i] == final && final.app == app
    ensures if NothingHappened(s, events, app)
            then Standing(RunFrom(s, events), app, final) && i < |RunFrom(s, events).core.finals|
                 && RunFrom(s, events).core.finals[i] == final
            else Lapsed(RunFrom(s, events), app, final, i)
    decreases |events|
  {
    if events != [] {
      var n := |events| - 1;
      HappenedSoFar(s, events, app);
      StandingUntilEffective(s, events[..n], app, final, i);
      RunKeepsInv(s, events[..n]);
      OneMoreStep(RunFrom(s, events[..n]), events[n], app, final, i, NothingHappened(s, events[..n], app));
    }
  }

  lemma OneMoreStep(t: System, e: Action, app: Uuid, final: FinalConfirmation, i: nat, quiet: bool)
    requires Inv(t) && final.app == app && i < |t.core.finals|
    requires if quiet then Standing(t, app, final) && t.core.finals[i] == final else Lapsed(t, app, final, i)
    requires quiet && e.Submit? && e.app == app ==> !Submits(t, app)
    ensures if quiet && !Effective(t, e, app)
            then Standing(Step(t, e), app, final) && i < |Step(t, e).core.finals| && Step(t, e).core.finals[i] == final
            else Lapsed(Step(t, e), app, final, i)
  {
    if !quiet {
      LapsedStaysLapsed(t, e, app, final, i);
    } else if Effective(t, e, app) {
      EffectiveLapses(t, e, app, final, i);
    } else {
      IneffectiveKeepsStanding(t, e, app, final);
      StandingKeepsPlace(Step(t, e), app, final, i, t, e);
    }
  }

  lemma StandingKeepsPlace(s: System, app: Uuid, final: FinalConfirmation, i: nat, t: System, e: Action)
    requires Inv(t) && s == Step(t, e) && Standing(s, app, final)
    requires i < |t.core.finals| && t.core.finals[i] == final
    ensures i < |s.core.finals| && s.core.finals[i] == final
  {
    StepKeepsInv(t, e);
    FinalsOnlyGrow(t, e);
    var k := ActiveIs(s.core.finals, app);
    OnePlace(s.core.finals, i, k);
  }

  lemma OnePlace(finals: seq<FinalConfirmation>, i: nat, k: nat)
    requires forall m, n :: 0 <= m < n < |finals| ==> finals[m].id != finals[n].id
    requires i < |finals| && k < |finals| && finals[i].id == finals[k].id
    ensures i == k
  {
  }

  /** A successful submission leaves its confirmation standing, and it is the application's newest one. */
  lemma SubmitLeavesStanding(s: System, app: Uuid, now: int) returns (i: nat)
    requires Inv(s) && Submits(s, app)
    ensures var s' := Step(s, Submit(app, now));
            var final := SubmitResult(s.core, app, s.next, now).value;
      && Standing(s', app, final)
      && i < |s'.core.finals| && s'.core.finals[i] == final && final.app == app
      && Newest(s'.core.finals, i)
      && Frozen(s'.core, final)
      && final.manifest == ManifestOf(s.core, app)
  {
    if Resubmission(s.core, app) {
      i := ReturnedStands(s, app, now);
    } else {
      i := |s.core.finals|;
      AppendedStands(s, app, now);
    }
  }

  lemma ReturnedStands(s: System, app: Uuid, now: int) returns (i: nat)
    requires Inv(s) && Submits(s, app) && Resubmission(s.core, app)
    ensures Step(s, Submit(app, now)) == s
    ensures i < |s.core.finals| && s.core.finals[i] == Active(s.core.finals, app).value && Newest(s.core.finals, i)
    ensures var final := s.core.finals[i];
      final.app == app && final.manifest == ManifestOf(s.core, app) && Standing(s, app, final) && Frozen(s.core, final)
  {
    i := ActiveIs(s.core.finals, app);
    assert FinalOk(s.core, i);
    ManifestUnlessOutdated(s.core, app, s.core.finals[i].manifest);
  }

  lemma AppendedStands(s: System, app: Uuid, now: int)
    requires Inv(s) && Submits(s, app) && !Resubmission(s.core, app)
    ensures var s', i := Step(s, Submit(app, now)), |s.core.finals|;
      var final := Confirmation(s.core, app, s.next, now);
      && s'.core.finals == s.core.finals + [final] && Newest(s'.core.finals, i)
      && Standing(s', app, final) && Frozen(s'.core, final)
  {
    var s' := Step(s, Submit(app, now));
    assert s'.core == AfterSubmit(s.core, app, s.next, now);
    SubmitMovesOn(s.core, app, s.next, now);
    SubmitFreezes(s.core, app, s.next, now);
    SubmitIsLevel(s.core, app, s.next, now);
    LastIsActive(s.core.finals, Confirmation(s.core, app, s.next, now));
  }

  lemma LastIsActive(finals: seq<FinalConfirmation>, last: FinalConfirmation)
    requires !last.superseded
    ensures Active(finals + [last], last.app) == Some(last) && Newest(finals + [last], |finals|)
  {
  }

  lemma SubmitIsLevel(c: Core, app: Uuid, id: Uuid, now: int)
    requires CoreOk(c) && Ready(c, app) && !Resubmission(c, app)
    ensures !Outdated(AfterSubmit(c, app, id, now), app, ManifestOf(c, app))
  {
    FreshManifest(c, app);
    SameWorkKeepsLevel(c, AfterSubmit(c, app, id, now), app, ManifestOf(c, app));
  }

  lemma StandingIsReturned(s: System, app: Uuid, now: int, final: FinalConfirmation, i: nat)
    requires Inv(s) && Submits(s, app) && Standing(s, app, final)
    requires i < |s.core.finals| && s.core.finals[i] == final
    ensures SubmitResult(s.core, app, s.next, now) == Ok(final) && Step(s, Submit(app, now)) == s
  {
    assert FinalOk(s.core, i);
    var k := ActiveIs(s.core.finals, app);
    ManifestUnlessOutdated(s.core, app, final.manifest);
  }

  lemma LapsedIsNotReturned(s: System, app: Uuid, now: int, final: FinalConfirmation, i: nat)
    requires Inv(s) && Submits(s, app) && Lapsed(s, app, final, i)
    ensures SubmitResult(s.core, app, s.next, now).value.id != final.id
  {
    assert FinalOk(s.core, i);
    if Resubmission(s.core, app) {
      var k := ActiveIs(s.core.finals, app);
      assert FinalOk(s.core, k);
      if k == i {
        ManifestUnlessOutdated(s.core, app, final.manifest);
      } else {
        assert s.core.finals[if k < i then k else i].id != s.core.finals[if k < i then i else k].id;
      }
    }
  }

  /**
   * Two successive successful submissions of an application return the same confirmation exactly when in between none
   * of its saves was accepted, none of its slots changed and its confirmation was not superseded; the second one then
   * changes no state at all.
   */
  lemma SecondSubmissionIsIdempotentIff(before: seq<Action>, app: Uuid, now1: int, between: seq<Action>, now2: int)
    requires Submits(Run(before), app)
    requires NoSubmissionOf(Step(Run(before), Submit(app, now1)), between, app)
    requires Submits(RunFrom(Step(Run(before), Submit(app, now1)), between), app)
    ensures var s := Run(before);
            var s1 := Step(s, Submit(app, now1));
            var s2 := RunFrom(s1, between);
            var first := SubmitResult(s.core, app, s.next, now1).value;
            var second := SubmitResult(s2.core, app, s2.next, now2).value;
      && (second.id == first.id <==> NothingHappened(s1, between, app))
      && (second.id == first.id ==> second == first && Step(s2, Submit(app, now2)) == s2)
  {
    var s := Run(before);
    Reachable(before);
    var i := SubmitLeavesStanding(s, app, now1);
    var s1 := Step(s, Submit(app, now1));
    var first := SubmitResult(s.core, app, s.next, now1).value;
    StepKeepsInv(s, Submit(app, now1));
    StandingUntilEffective(s1, between, app, first, i);
    RunKeepsInv(s1, between);
    if NothingHappened(s1, between, app) {
      StandingIsReturned(RunFrom(s1, between), app, now2, first, i);
    } else {
      LapsedIsNotReturned(RunFrom(s1, between), app, now2, first, i);
    }
  }

  // ------------------------------------------------------------------
  // Two confirmations at once
  // ------------------------------------------------------------------

  /** An application has another confirmation, beside the newest of all, that nothing superseded. */
  ghost predicate OtherActive(finals: seq<FinalConfirmation>, app: Uuid) {
    finals != [] && Active(finals[..|finals| - 1], app).Some?
  }

  /**
   * A submission puts a new confirmation beside one that is still active exactly if the application is ready, has an
   * active confirmation, and its manifest is not the recorded one any more.
   */
  lemma SubmitAppendsBesideActiveIff(s: System, app: Uuid, now: int)
    requires Inv(s)
    ensures var finals, finals' := s.core.finals, Step(s, Submit(app, now)).core.finals;
      |finals'| > |finals| && OtherActive(finals', app) && Active(finals', app) == Some(finals'[|finals|])
      <==> Ready(s.core, app) && Active(finals, app).Some? && ManifestOf(s.core, app) != Active(finals, app).value.manifest
  {
    var finals, finals' := s.core.finals, Step(s, Submit(app, now)).core.finals;
    if Active(finals, app).Some? { ActiveIsHashed(s, app); }
    if |finals'| > |finals| { assert finals'[..|finals|] == finals; }
  }

  lemma ActiveIsHashed(s: System, app: Uuid)
    requires Inv(s) && Active(s.core.finals, app).Some?
    ensures Active(s.core.finals, app).value.hash == ManifestHash(Active(s.core.finals, app).value.manifest)
  {
    var i := ActiveIs(s.core.finals, app);
    assert FinalOk(s.core, i);
  }
}
