/** What every run of the submission workflow keeps, and what it means to submit twice. */
module Submission {
  import opened Base
  import opened Drafts
  import opened Confirmations
  import opened Finalize
  import opened Workflow
  import D = Documents

  // ------------------------------------------------------------------
  // The invariant
  // ------------------------------------------------------------------

  ghost predicate Newest(finals: seq<FinalConfirmation>, i: nat) {
    i < |finals| && forall j :: i < j < |finals| ==> finals[j].app != finals[i].app
  }

  /** No section is open for change, and all five drafts have the row version and content that was submitted. */
  ghost predicate Frozen(c: Core, final: FinalConfirmation) {
    && ReopenedSections(c.drafts, final.app) == {}
    && |final.manifest.sections| == 5
    && forall k :: 0 <= k < 5 ==>
         final.manifest.sections[k] == SectionEntry(REQUIRED_SECTIONS[k], Row(c, final.app, k), HashOf(c, final.app, k))
  }

  ghost predicate FinalIdsOk(finals: seq<FinalConfirmation>, next: Uuid) {
    && (forall i :: 0 <= i < |finals| ==> finals[i].id < next)
    && forall i, j :: 0 <= i < j < |finals| ==> finals[i].id != finals[j].id
  }

  ghost predicate DocumentIdsOk(docs: D.Registry, tickets: map<Uuid, D.Ticket>, next: Uuid) {
    && (forall id :: id in docs.slots ==> id < next)
    && (forall id :: id in docs.versions ==> id < next)
    && forall t :: t in tickets ==> t < next && tickets[t].version == t && t !in docs.versions && tickets[t].slot.id in docs.slots
  }

  ghost predicate IdsOk(s: System) {
    DocumentIdsOk(s.core.docs, s.tickets, s.next) && FinalIdsOk(s.core.finals, s.next)
  }

  ghost predicate DraftsOk(drafts: Store) {
    forall key :: key in drafts.drafts ==> drafts.drafts[key].rowVersion >= 1 && drafts.drafts[key].app == key.0
                                           && drafts.drafts[key].section == key.1
  }

  ghost predicate FinalOk(c: Core, i: nat)
    requires i < |c.finals|
  {
    var final := c.finals[i];
    && final.hash == ManifestHash(final.manifest)
    && Below(c, final.app, final.manifest)
    && (!final.superseded ==> final.app in c.drafts.locked)
    && (!final.superseded && Newest(c.finals, i) ==> Frozen(c, final))
    && (!final.superseded && !Newest(c.finals, i) ==> Outdated(c, final.app, final.manifest))
  }

  ghost predicate CoreOk(c: Core) {
    && D.Valid(c.docs)
    && DraftsOk(c.drafts)
    && forall i {:trigger FinalOk(c, i)} :: 0 <= i < |c.finals| ==> FinalOk(c, i)
  }

  ghost predicate Inv(s: System) {
    IdsOk(s) && CoreOk(s.core)
  }

  // ------------------------------------------------------------------
  // Every step keeps it
  // ------------------------------------------------------------------

  /** Confirmations are only appended or marked superseded. */
  ghost predicate OnlySuperseding(a: seq<FinalConfirmation>, b: seq<FinalConfirmation>) {
    && |a| == |b|
    && forall i :: 0 <= i < |a| ==> b[i] == a[i].(superseded := b[i].superseded) && (a[i].superseded ==> b[i].superseded)
  }

  lemma OldFinalStaysOk(c: Core, c': Core, i: nat)
    requires D.Valid(c.docs) && D.Valid(c'.docs) && Onward(c, c') && c.drafts.locked <= c'.drafts.locked
    requires OnlySuperseding(c.finals, c'.finals) && i < |c.finals| && FinalOk(c, i)
    requires !c'.finals[i].superseded && Newest(c'.finals, i) ==> Frozen(c', c'.finals[i])
    ensures FinalOk(c', i)
  {
    BelowStaysBelow(c, c', c.finals[i].app, c.finals[i].manifest);
    assert Newest(c'.finals, i) ==> Newest(c.finals, i);
    if !c'.finals[i].superseded && !Newest(c'.finals, i) {
      OutdatedStaysOutdated(c, c', c.finals[i].app, c.finals[i].manifest);
    }
  }

  lemma DocumentStepKeepsCore(c: Core, c': Core)
    requires CoreOk(c) && D.Valid(c'.docs) && D.Forward(c.docs, c'.docs)
    requires c' == c.(docs := c'.docs)
    ensures CoreOk(c')
  {
    forall i | 0 <= i < |c'.finals| ensures FinalOk(c', i) {
      assert FinalOk(c, i);
      OldFinalStaysOk(c, c', i);
    }
  }

  function Saved(c: Core, e: Action): Core
    requires e.SaveSection?
  {
    c.(drafts := AfterSave(c.drafts, e.app, e.section, e.fields, e.expected, e.source))
  }

  lemma SaveMovesOn(c: Core, e: Action)
    requires CoreOk(c) && e.SaveSection? && SaveAccepted(c, e)
    ensures Onward(c, Saved(c, e)) && DraftsOk(Saved(c, e).drafts)
  {
  }

  /** Nothing that is frozen can be saved. */
  lemma SaveKeepsFrozen(c: Core, e: Action, i: nat)
    requires e.SaveSection? && SaveAccepted(c, e) && i < |c.finals| && FinalOk(c, i)
    requires !c.finals[i].superseded && Newest(c.finals, i)
    ensures Frozen(Saved(c, e), c.finals[i])
  {
    assert Frozen(c, c.finals[i]) && c.finals[i].app != e.app;
  }

  lemma SaveKeepsCore(c: Core, e: Action)
    requires CoreOk(c) && e.SaveSection? && SaveAccepted(c, e)
    ensures CoreOk(Saved(c, e))
  {
    SaveMovesOn(c, e);
    var c' := Saved(c, e);
    forall i | 0 <= i < |c'.finals| ensures FinalOk(c', i) {
      assert FinalOk(c, i);
      if !c.finals[i].superseded && Newest(c.finals, i) { SaveKeepsFrozen(c, e, i); }
      OldFinalStaysOk(c, c', i);
    }
  }

  lemma ConfirmKeepsCore(c: Core, app: Uuid, section: Section)
    requires CoreOk(c) && (app, section) in c.drafts.drafts
    ensures CoreOk(c.(confirmed := AfterConfirm(c.confirmed, app, section, c.drafts.drafts[(app, section)])))
  {
    var c' := c.(confirmed := AfterConfirm(c.confirmed, app, section, c.drafts.drafts[(app, section)]));
    forall i | 0 <= i < |c'.finals| ensures FinalOk(c', i) {
      assert FinalOk(c, i);
      OldFinalStaysOk(c, c', i);
    }
  }

  lemma {:induction false} ActiveIs(finals: seq<FinalConfirmation>, app: Uuid) returns (i: nat)
    requires Active(finals, app).Some?
    ensures i < |finals| && finals[i] == Active(finals, app).value && finals[i].app == app && !finals[i].superseded
    ensures forall j :: i < j < |finals| && finals[j].app == app ==> finals[j].superseded
  {
    var n := |finals| - 1;
    if finals[n].app == app && !finals[n].superseded {
      i := n;
    } else {
      i := ActiveIs(finals[..n], app);
    }
  }

  lemma {:induction false} ActiveNone(finals: seq<FinalConfirmation>, app: Uuid)
    requires Active(finals, app).None?
    ensures forall j :: 0 <= j < |finals| && finals[j].app == app ==> finals[j].superseded
  {
    if finals != [] {
      ActiveNone(finals[..|finals| - 1], app);
    }
  }

  /** Superseding the active confirmation, and at most reopening sections of that application, keeps the invariant. */
  lemma SupersedeKeepsCore(c: Core, app: Uuid, c': Core)
    requires CoreOk(c)
    requires Active(c.finals, app).Some?
    requires D.Valid(c'.docs) && D.Forward(c.docs, c'.docs)
    requires c'.finals == Superseded(c.finals, Active(c.finals, app).value.id)
    requires c'.drafts.drafts == c.drafts.drafts && c'.drafts.locked == c.drafts.locked
    requires forall a :: a != app ==> ReopenedSections(c'.drafts, a) == ReopenedSections(c.drafts, a)
    ensures CoreOk(c')
  {
    var k := ActiveIs(c.finals, app);
    SupersedingOnly(c.finals, c.finals[k].id);
    assert Onward(c, c');
    forall i | 0 <= i < |c'.finals| ensures FinalOk(c', i) {
      assert FinalOk(c, i);
      SupersededFinalOk(c, app, c', k, i);
    }
  }

  lemma SupersedingOnly(finals: seq<FinalConfirmation>, id: Uuid)
    ensures OnlySuperseding(finals, Superseded(finals, id))
  {
  }

  lemma SupersededFinalOk(c: Core, app: Uuid, c': Core, k: nat, i: nat)
    requires D.Valid(c.docs) && D.Valid(c'.docs) && Onward(c, c')
    requires OnlySuperseding(c.finals, c'.finals) && i < |c.finals| && FinalOk(c, i)
    requires k < |c.finals| && c.finals[k].app == app && c'.finals[k].superseded
    requires forall j :: k < j < |c.finals| && c.finals[j].app == app ==> c.finals[j].superseded
    requires c'.drafts.drafts == c.drafts.drafts && c'.drafts.locked == c.drafts.locked
    requires forall a :: a != app ==> ReopenedSections(c'.drafts, a) == ReopenedSections(c.drafts, a)
    ensures FinalOk(c', i)
  {
    if !c'.finals[i].superseded && Newest(c'.finals, i) {
      OtherStaysFrozen(c, app, c', k, i);
    }
    OldFinalStaysOk(c, c', i);
  }

  lemma OtherStaysFrozen(c: Core, app: Uuid, c': Core, k: nat, i: nat)
    requires OnlySuperseding(c.finals, c'.finals) && i < |c.finals| && k < |c.finals|
    requires c.finals[k].app == app && c'.finals[k].superseded
    requires forall j :: k < j < |c.finals| && c.finals[j].app == app ==> c.finals[j].superseded
    requires FinalOk(c, i) && !c'.finals[i].superseded && Newest(c'.finals, i)
    requires c'.drafts.drafts == c.drafts.drafts
    requires forall a :: a != app ==> ReopenedSections(c'.drafts, a) == ReopenedSections(c.drafts, a)
    ensures Frozen(c', c'.finals[i])
  {
    assert Newest(c.finals, i);
    assert c'.finals[k].app == app;
  }

  lemma SubmitKeepsCore(c: Core, app: Uuid, id: Uuid, now: int)
    requires CoreOk(c)
    ensures CoreOk(AfterSubmit(c, app, id, now))
  {
    var c' := AfterSubmit(c, app, id, now);
    if c' != c {
      FreshManifest(c, app);
      LevelSections(c, app);
      forall i | 0 <= i < |c'.finals| ensures FinalOk(c', i) {
        if i == |c.finals| {
          NewFinalOk(c, app, id, now);
        } else {
          EarlierFinalOk(c, app, id, now, i);
        }
      }
    }
  }

  lemma LevelSections(c: Core, app: Uuid)
    requires Ready(c, app)
    ensures |ManifestOf(c, app).sections| == 5
    ensures forall k :: 0 <= k < 5 ==>
              ManifestOf(c, app).sections[k] == SectionEntry(REQUIRED_SECTIONS[k], Row(c, app, k), HashOf(c, app, k))
  {
    assert REQUIRED_SECTIONS[..5] == REQUIRED_SECTIONS;
    ReadySections(c, app, 5);
  }

  lemma NewFinalOk(c: Core, app: Uuid, id: Uuid, now: int)
    requires CoreOk(c) && Ready(c, app) && !Resubmission(c, app)
    ensures FinalOk(AfterSubmit(c, app, id, now), |c.finals|)
  {
    var c' := AfterSubmit(c, app, id, now);
    FreshManifest(c, app);
    SubmitMovesOn(c, app, id, now);
    SubmitFreezes(c, app, id, now);
    BelowStaysBelow(c, c', app, ManifestOf(c, app));
  }

  lemma SubmitFreezes(c: Core, app: Uuid, id: Uuid, now: int)
    requires Ready(c, app) && !Resubmission(c, app)
    ensures Frozen(AfterSubmit(c, app, id, now), Confirmation(c, app, id, now))
    ensures app in AfterSubmit(c, app, id, now).drafts.locked
  {
    LevelSections(c, app);
  }

  lemma EarlierFinalOk(c: Core, app: Uuid, id: Uuid, now: int, i: nat)
    requires CoreOk(c) && Ready(c, app) && !Resubmission(c, app) && i < |c.finals|
    ensures FinalOk(AfterSubmit(c, app, id, now), i)
  {
    var c' := AfterSubmit(c, app, id, now);
    assert FinalOk(c, i);
    SubmitMovesOn(c, app, id, now);
    BelowStaysBelow(c, c', c.finals[i].app, c.finals[i].manifest);
    AppendedFinal(c.finals, c'.finals[|c.finals|], i);
    if !c.finals[i].superseded && !Newest(c'.finals, i) {
      EarlierIsOutdated(c, app, i);
      OutdatedStaysOutdated(c, c', c.finals[i].app, c.finals[i].manifest);
    }
  }

  lemma SubmitMovesOn(c: Core, app: Uuid, id: Uuid, now: int)
    requires D.Valid(c.docs) && Ready(c, app) && !Resubmission(c, app)
    ensures var c' := AfterSubmit(c, app, id, now);
      Onward(c, c') && c'.docs == c.docs && c'.finals == c.finals + [Confirmation(c, app, id, now)]
  {
  }

  lemma EarlierIsOutdated(c: Core, app: Uuid, i: nat)
    requires CoreOk(c) && Ready(c, app) && !Resubmission(c, app) && i < |c.finals|
    requires !c.finals[i].superseded && (Newest(c.finals, i) ==> c.finals[i].app == app)
    ensures Outdated(c, c.finals[i].app, c.finals[i].manifest)
  {
    assert FinalOk(c, i);
    if Newest(c.finals, i) { DisplacedIsOutdated(c, app, i); }
  }

  lemma AppendedFinal(finals: seq<FinalConfirmation>, last: FinalConfirmation, i: nat)
    requires i < |finals|
    ensures Newest(finals + [last], i) <==> Newest(finals, i) && finals[i].app != last.app
  {
    var finals' := finals + [last];
    assert finals'[|finals|] == last;
    assert forall j :: 0 <= j < |finals| ==> finals'[j] == finals[j];
  }

  /** A standing confirmation that a different submission displaces can never be matched again. */
  lemma DisplacedIsOutdated(c: Core, app: Uuid, i: nat)
    requires CoreOk(c) && Ready(c, app) && !Resubmission(c, app)
    requires i < |c.finals| && Newest(c.finals, i) && c.finals[i].app == app && !c.finals[i].superseded
    ensures Outdated(c, app, c.finals[i].manifest)
  {
    assert FinalOk(c, i);
    if Active(c.finals, app).None? { ActiveNone(c.finals, app); }
    var k := ActiveIs(c.finals, app);
    ManifestUnlessOutdated(c, app, c.finals[i].manifest);
  }

  /** What reopening a section leaves alone. */
  lemma ReopenSectionChanges(c: Core, app: Uuid, section: Section, reason: string, actor: string, group: string, now: int)
    requires ReopenSectionError(c, app, section, reason, actor, group).None?
    ensures var c' := AfterReopenSection(c, app, section, reason, actor, group, now);
      && Active(c.finals, app).Some? && c'.docs == c.docs
      && c'.finals == Superseded(c.finals, Active(c.finals, app).value.id)
      && c'.drafts.drafts == c.drafts.drafts && c'.drafts.locked == c.drafts.locked
      && forall a :: a != app ==> ReopenedSections(c'.drafts, a) == ReopenedSections(c.drafts, a)
  {
  }

  lemma ReopenSectionKeepsCore(c: Core, app: Uuid, section: Section, reason: string, actor: string, group: string, now: int)
    requires CoreOk(c)
    ensures CoreOk(AfterReopenSection(c, app, section, reason, actor, group, now))
  {
    if ReopenSectionError(c, app, section, reason, actor, group).None? {
      var c' := AfterReopenSection(c, app, section, reason, actor, group, now);
      ReopenSectionChanges(c, app, section, reason, actor, group, now);
      D.StandingStill(c.docs);
      SupersedeKeepsCore(c, app, c');
    }
  }

  lemma ReopenSlotKeepsCore(s: System, e: Action)
    requires Inv(s) && e.ReopenSlot?
    ensures CoreOk(Step(s, e).core)
  {
    if ReopenSlotError(s.core, e.app, e.reason, e.actor, e.group).None? {
      DocumentsMoveOn(s, e);
      SupersedeKeepsCore(s.core, e.app, Step(s, e).core);
    }
  }

  lemma StepKeepsCore(s: System, e: Action)
    requires Inv(s)
    ensures CoreOk(Step(s, e).core)
  {
    var c, c' := s.core, Step(s, e).core;
    match e
    case SaveSection(_, _, _, _, _) => if SaveAccepted(c, e) { SaveKeepsCore(c, e); }
    case ConfirmSection(app, section, _, _) => if ConfirmAccepted(c, e) { ConfirmKeepsCore(c, app, section); }
    case Submit(app, now) => SubmitKeepsCore(c, app, s.next, now);
    case ReopenSection(app, section, reason, actor, group, now) =>
      ReopenSectionKeepsCore(c, app, section, reason, actor, group, now);
    case ReopenSlot(app, slot, reason, actor, group, now) =>
      ReopenSlotKeepsCore(s, e);
    case AddSlot(_, _) => DocumentsMoveOn(s, e); DocumentStepKeepsCore(c, c');
    case BeginUpload(_, _, _) =>
    case RegisterUpload(_, _, _) => DocumentsMoveOn(s, e); DocumentStepKeepsCore(c, c');
    case AbandonUpload(_) =>
    case Decide(_) => DocumentsMoveOn(s, e); DocumentStepKeepsCore(c, c');
  }

  lemma RegisterMovesOn(s: System, e: Action)
    requires IdsOk(s) && D.Valid(s.core.docs) && e.RegisterUpload? && e.ticket in s.tickets
    ensures D.MovesOn(s.core.docs, Step(s, e).core.docs)
  {
    D.RegisterKeepsValid(s.core.docs, s.tickets[e.ticket], e.record, e.name);
    D.RegisterForward(s.core.docs, s.tickets[e.ticket], e.record, e.name);
    assert Step(s, e).core.docs == D.AfterRegister(s.core.docs, s.tickets[e.ticket], e.record, e.name);
  }

  lemma AddMovesOn(s: System, e: Action)
    requires IdsOk(s) && D.Valid(s.core.docs) && e.AddSlot?
    ensures D.MovesOn(s.core.docs, Step(s, e).core.docs)
  {
    D.AddKeepsValid(s.core.docs, s.next, e.app, e.spec);
    D.AddForward(s.core.docs, s.next, e.app, e.spec);
  }

  lemma DecideMovesOn(s: System, e: Action)
    requires D.Valid(s.core.docs) && e.Decide?
    ensures D.MovesOn(s.core.docs, Step(s, e).core.docs)
  {
    D.DecisionKeepsValid(s.core.docs, e.decision);
    assert Step(s, e).core.docs == D.AfterDecision(s.core.docs, e.decision);
  }

  lemma ReopenSlotMovesOn(c: Core, app: Uuid, slot: Uuid, reason: string, actor: string, group: string, now: int)
    requires D.Valid(c.docs)
    ensures D.MovesOn(c.docs, AfterReopenSlot(c, app, slot, reason, actor, group, now).docs)
  {
    if ReopenSlotError(c, app, reason, actor, group).None? {
      D.OpenKeepsValid(c.docs, app, slot, D.Replacement, actor, reason);
      D.OpenForward(c.docs, app, slot, D.Replacement, actor, reason);
    } else {
      D.StandingStill(c.docs);
    }
  }

  predicate TouchesDocuments(s: System, e: Action) {
    e.AddSlot? || e.Decide? || e.ReopenSlot? || (e.RegisterUpload? && e.ticket in s.tickets)
  }

  lemma OtherStepsKeepDocuments(s: System, e: Action)
    requires !TouchesDocuments(s, e)
    ensures Step(s, e).core.docs == s.core.docs
  {
  }

  lemma DocumentsMoveOn(s: System, e: Action)
    requires IdsOk(s) && D.Valid(s.core.docs)
    ensures D.MovesOn(s.core.docs, Step(s, e).core.docs)
  {
    if e.AddSlot? {
      AddMovesOn(s, e);
    } else if e.Decide? {
      DecideMovesOn(s, e);
    } else if e.ReopenSlot? {
      ReopenSlotMovesOn(s.core, e.app, e.slot, e.reason, e.actor, e.group, e.now);
    } else if TouchesDocuments(s, e) {
      RegisterMovesOn(s, e);
    } else {
      OtherStepsKeepDocuments(s, e);
      D.StandingStill(s.core.docs);
    }
  }

  lemma StepKeepsIds(s: System, e: Action)
    requires IdsOk(s) && D.Valid(s.core.docs)
    ensures IdsOk(Step(s, e))
  {
    match e
    case Decide(decision) => DecisionKeepsIds(s, decision);
    case RegisterUpload(_, _, _) => RegisterKeepsIds(s, e);
    case BeginUpload(_, _, _) => BeginKeepsIds(s, e);
    case AddSlot(_, _) => AddKeepsIds(s, e);
    case Submit(_, _) => SubmitKeepsIds(s, e);
    case ReopenSection(_, _, _, _, _, _) => ReopenKeepsIds(s, e);
    case ReopenSlot(_, _, _, _, _, _) => ReopenKeepsIds(s, e);
    case _ =>
  }

  lemma SubmitKeepsIds(s: System, e: Action)
    requires IdsOk(s) && e.Submit?
    ensures IdsOk(Step(s, e))
  {
  }

  lemma ReopenKeepsIds(s: System, e: Action)
    requires IdsOk(s) && (e.ReopenSection? || e.ReopenSlot?)
    ensures IdsOk(Step(s, e))
  {
    var s' := Step(s, e);
    assert s'.next == s.next && s'.tickets == s.tickets;
    assert s'.core.finals == s.core.finals || s'.core.finals == Superseded(s.core.finals, Active(s.core.finals, e.app).value.id);
    SupersedingKeepsIds(s.core.finals, s'.core.finals, s.next);
    assert s'.core.docs.slots.Keys == s.core.docs.slots.Keys && s'.core.docs.versions == s.core.docs.versions;
    SameKeysKeepIds(s.core.docs, s'.core.docs, s.tickets, s.next);
  }

  lemma SupersedingKeepsIds(a: seq<FinalConfirmation>, b: seq<FinalConfirmation>, next: Uuid)
    requires FinalIdsOk(a, next) && OnlySuperseding(a, b)
    ensures FinalIdsOk(b, next)
  {
  }

  lemma SameKeysKeepIds(a: D.Registry, b: D.Registry, tickets: map<Uuid, D.Ticket>, next: Uuid)
    requires DocumentIdsOk(a, tickets, next) && b.slots.Keys == a.slots.Keys && b.versions.Keys == a.versions.Keys
    ensures DocumentIdsOk(b, tickets, next)
  {
  }

  lemma DecisionKeepsIds(s: System, decision: D.Decision)
    requires IdsOk(s) && D.Valid(s.core.docs)
    ensures IdsOk(Step(s, Decide(decision)))
  {
    var docs' := D.AfterDecision(s.core.docs, decision);
    D.DecisionKeepsKeys(s.core.docs, decision);
    SameKeysKeepIds(s.core.docs, docs', s.tickets, s.next);
  }

  lemma RegisterKeepsIds(s: System, e: Action)
    requires IdsOk(s) && D.Valid(s.core.docs) && e.RegisterUpload?
    ensures IdsOk(Step(s, e))
  {
  }

  lemma BeginKeepsIds(s: System, e: Action)
    requires IdsOk(s) && D.Valid(s.core.docs) && e.BeginUpload?
    ensures IdsOk(Step(s, e))
  {
    if D.UploadAllowed(s.core.docs, e.app, e.slot, e.row) { assert D.SlotOk(s.core.docs, e.slot); }
  }

  lemma AddKeepsIds(s: System, e: Action)
    requires IdsOk(s) && D.Valid(s.core.docs) && e.AddSlot?
    ensures IdsOk(Step(s, e))
  {
  }

  lemma StepKeepsInv(s: System, e: Action)
    requires Inv(s)
    ensures Inv(Step(s, e))
  {
    StepKeepsCore(s, e);
    StepKeepsIds(s, e);
  }

  lemma {:induction false} RunKeepsInv(s: System, events: seq<Action>)
    requires Inv(s)
    ensures Inv(RunFrom(s, events))
  {
    if events != [] {
      RunKeepsInv(s, events[..|events| - 1]);
      StepKeepsInv(RunFrom(s, events[..|events| - 1]), events[|events| - 1]);
    }
  }

  /** Every reachable state satisfies the invariant. */
  lemma Reachable(events: seq<Action>)
    ensures Inv(Run(events))
  {
    D.EmptyIsValid();
    RunKeepsInv(INITIAL, events);
  }
}
