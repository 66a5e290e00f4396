/** One reconciler pass run alone, every call succeeding: on an exact archive it always ends well,
    and on any other it is shown exactly when. */
module InboundRecovery {
  import opened InboundStore
  import opened Wrappers
  import opened InboundReconciler
  import Handoff = EmergencyHandoff

  /** A pass in progress with the handoff it may have started. `garbled` is the etag of a
      receipt object that does not parse as a valid receipt, `handed` and `sent` tell what
      the pass has put in motion. */
  datatype Solo = Solo(world: World, pc: Pc, task: Handoff.Task, garbled: Option<nat>, handed: bool, sent: bool)

  predicate Finished(s: Solo) { s.pc.RDone? || s.pc.RFailed? }

  /** A receipt object is unreadable exactly while it is the garbled one. */
  function Reading(s: Solo, probe: Probe): Probe {
    probe.(readable := s.world.receipt.Some? ==> s.garbled != Some(s.world.receipt.value.etag))
  }

  function TaskStep(s: Solo, pass: Pass, probe: Probe): Solo {
    var (w', reply) := Perform(s.world, Handoff.Call(s.task, pass.now), Reading(s, probe));
    s.(world := w', task := Handoff.Resume(s.task, reply))
  }

  function SoloStep(s: Solo, pass: Pass, probe: Probe): Solo
    requires !Finished(s)
  {
    var request := Call(pass, s.pc);
    match request
    case StartTask(kind) => s.(pc := Resume(pass, s.pc, Handle(0)), task := Handoff.Start(kind, s.world.mail))
    case JoinTask(_) =>
      if Handoff.Succeeded(s.task) then s.(pc := Resume(pass, s.pc, Done), handed := true)
      else if s.task.TFailed? then s.(pc := Resume(pass, s.pc, Failed))
      else TaskStep(s, pass, probe)
    case _ =>
      var (w', reply) := Perform(s.world, request, Reading(s, probe));
      s.(world := w', pc := Resume(pass, s.pc, reply), sent := s.sent || request.Send?)
  }

  function PcRank(pc: Pc): nat {
    match pc
    case RViewRaw => 30
    case RReceipt(_) => 29
    case RMissingDeleted(_) => 28
    case RMissingRow(_) => 27
    case RReconstruct(_, _) => 26
    case RReconstructLost(_, _) => 25
    case RProvisioned(_, _) => 24
    case RActive(_, _) => 23
    case RAdmit(_, _) => 22
    case RAdmitReread(_) => 21
    case RRepairDeleted(_, _) => 20
    case RRepairRow(_, _) => 19
    case RLedger(_, _) => 18
    case REnqueueDeleted(_, _) => 17
    case RStoredDeleted(_, _) => 17
    case RWriteDeleted(_, _) => 16
    case RWriteStored(_, _) => 16
    case RPreserve(_, _) => 15
    case REnqueue(_, _) => 14
    case RAdvance(_, _) => 13
    case RStoredRow(_) => 12
    case RDerived => 11
    case RDeletedTruth(_) => 10
    case RQuarantine(_) => 9
    case RStartHandoff(_, _, _) => 8
    case RJoinHandoff(_, _, _) => 7
    case RDone(_) => 6
    case RFailed => 6
    case KRead => 5
    case KDeleted(_) => 4
    case KRow(_) => 4
    case KViewRaw(_) => 4
    case KClear(_) => 3
    case KEnd => 0
  }

  function TaskRank(task: Handoff.Task): nat {
    match task
    case HReadMarker(_) => 12
    case HRepairReceipt(_, _) => 11
    case HRepairRaw(_, _) => 10
    case HRepairMarker(_, _) => 9
    case HCreateMarker(_) => 9
    case HRereadMarker(_) => 8
    case HReadReceipt(_, _) => 7
    case HCommitForwarded(_, _) => 6
    case HPutPending(_, _) => 6
    case HCheckForwarded(_) => 5
    case HCheckPending(_) => 5
    case HRecheckMarker(_) => 4
    case HSend => 3
    case HClearMarker => 2
    case AViewRaw => 13
    case APutAccepted => 12
    case AReadReceipt => 11
    case APutForwarded(_) => 10
    case ACheckForwarded => 9
    case AReference(_) => 8
    case AStartReference(_) => 7
    case AJoinReference(_, _) => 6
    case AClearMarker => 1
    case BMarker => 9
    case BReadReceipt => 8
    case BPutForwarded(_) => 7
    case TDone => 0
    case TFailed => 0
    case ADone => 0
  }

  lemma SoloStepDescends(s: Solo, pass: Pass, probe: Probe)
    requires !Finished(s) && PcRank(s.pc) > 6
    ensures var s' := SoloStep(s, pass, probe);
            || PcRank(s'.pc) < PcRank(s.pc)
            || (s'.pc == s.pc && TaskRank(s'.task) < TaskRank(s.task))
    ensures PcRank(SoloStep(s, pass, probe).pc) >= 6
  {
    var s' := SoloStep(s, pass, probe);
    if s.pc.RJoinHandoff? && s'.pc == s.pc {
      TaskDescends(s.task, Perform(s.world, Handoff.Call(s.task, pass.now), Reading(s, probe)).1);
    } else {
      ResumeDescends(pass, s.pc, if s.pc.RStartHandoff? then Handle(0)
                                 else if !s.pc.RJoinHandoff? then
                                   Perform(s.world, Call(pass, s.pc), Reading(s, probe)).1
                                 else if Handoff.Succeeded(s.task) then Done else Failed);
    }
  }

  lemma ResumeDescends(pass: Pass, pc: Pc, reply: Reply)
    requires PcRank(pc) > 6
    ensures 6 <= PcRank(Resume(pass, pc, reply)) < PcRank(pc)
  {
  }

  lemma TaskDescends(task: Handoff.Task, reply: Reply)
    requires !Handoff.Succeeded(task) && !task.TFailed?
    ensures TaskRank(Handoff.Resume(task, reply)) < TaskRank(task)
  {
  }

  /** The pass up to its outcome. It always has one. */
  function Finish(s: Solo, pass: Pass, probe: Probe): (r: Solo)
    requires PcRank(s.pc) >= 6
    ensures Finished(r)
    decreases PcRank(s.pc), TaskRank(s.task)
  {
    if Finished(s) then s
    else
      SoloStepDescends(s, pass, probe);
      Finish(SoloStep(s, pass, probe), pass, probe)
  }

  // ---------------------------------------------------------------- the two good ends

  /** The mailbox names a tombstone for this pointer. */
  predicate IsDeleted(w: World, p: Pointer) { w.mailbox.Tombstone? && Answers(w.mailbox.authority, Of(p)) }

  /** The receipt is one that may release the message, and it is borne out right now. */
  predicate TerminalProof(w: World) {
    && w.receipt.Some?
    && match w.receipt.value.body.state
       case Stored => w.mailbox.Live?
       case Deleted => IsDeleted(w, w.receipt.value.body.pointer)
       case Forwarded => true
       case Rejected => true
       case Quarantined => w.receipt.value.body.mismatch && w.raw.BadRaw?
       case _ => false
  }

  /** The message was handed to the Queue less than fifteen minutes ago. */
  predicate FreshHandoff(w: World, now: int) {
    && w.receipt.Some?
    && var body := w.receipt.value.body;
       && (body.state.Enqueued? || body.state.Retrying? || body.state.DeadLetterPending?)
       && now - body.at < STALE_HANDOFF_MS
  }

  predicate WellEnded(s: Solo, pass: Pass) {
    && s.pc.RDone?
    && (s.handed || s.sent || TerminalProof(s.world) || FreshHandoff(s.world, pass.now))
    && (s.pc.outcome.Skipped? ==> TerminalProof(s.world) || FreshHandoff(s.world, pass.now))
    && (s.pc.outcome.Reenqueued? ==> s.sent)
    && (s.pc.outcome.ProjectionMissing? ==> s.handed)
    && !s.pc.outcome.Invalid?
  }

  /** The pass holds the only pen: what it read is still there. */
  predicate Still(s: Solo, etag: nat, body: Body) {
    s.world.receipt == Some(Receipt(etag, body)) && body.pointer.Original? && s.garbled != Some(etag)
  }

  predicate FreshEtags(s: Solo) {
    && (s.garbled.Some? ==> s.garbled.value < s.world.nextEtag)
    && (s.world.receipt.Some? ==> s.world.receipt.value.etag < s.world.nextEtag)
  }

  predicate SoloInv(s: Solo) {
    && FreshEtags(s)
    && s.world.raw.ExactRaw? && Forwardable(s.world.mail)
    && match s.pc
       case RViewRaw => true
       case RReceipt(p) => p.Original?
       case RMissingDeleted(p) => p.Original? && s.world.receipt.None?
       case RMissingRow(p) => p.Original? && s.world.receipt.None? && !IsDeleted(s.world, Original)
       case RReconstruct(state, p) =>
         p.Original? && s.world.receipt.None?
         && ((state.Deleted? && IsDeleted(s.world, Original)) || (state.Stored? && s.world.mailbox.Live?))
       case RProvisioned(etag, body) => Still(s, etag, body) && body.state.Archived?
       case RActive(etag, body) => Still(s, etag, body) && body.state.Archived?
       case RAdmit(etag, body) => Still(s, etag, body) && body.state.Archived?
       case RAdmitReread(p) =>
         p.Original? && s.world.receipt.Some? && s.world.receipt.value.body.pointer.Original?
         && s.world.receipt.value.body.state.Admitted? && s.garbled != Some(s.world.receipt.value.etag)
       case RRepairDeleted(etag, body) => Still(s, etag, body) && NeedsTruthRepair(body.state)
       case RRepairRow(etag, body) => Still(s, etag, body) && NeedsTruthRepair(body.state)
       case RWriteDeleted(etag, body) => Still(s, etag, body) && IsDeleted(s.world, Original)
       case RWriteStored(etag, body) => Still(s, etag, body) && s.world.mailbox.Live?
       case RQuarantine(p) => p.Original?
       case RLedger(etag, body) => Still(s, etag, body) && StaleState(body.state) && !body.state.DeadLetterPending?
       case REnqueueDeleted(etag, body) => Still(s, etag, body)
       case REnqueue(etag, body) => Still(s, etag, body)
       case RAdvance(etag, body) => Still(s, etag, body) && s.sent
       case RStoredDeleted(etag, body) => Still(s, etag, body) && body.state.Stored?
       case RStoredRow(p) => p.Original? && s.world.receipt.Some? && s.world.receipt.value.body.state.Stored?
       case RDerived => s.world.receipt.Some? && s.world.receipt.value.body.state.Stored? && s.world.mailbox.Live?
       case RDeletedTruth(p) =>
         p.Original? && s.world.receipt.Some? && s.world.receipt.value.body.state.Deleted?
         && s.world.receipt.value.body.pointer.Original?
       case RStartHandoff(outcome, p, _) => p.Original? && HandoffOutcome(outcome)
       case RJoinHandoff(_, outcome, _) => HandoffOutcome(outcome) && TaskGoesWell(s.world, s.task, s.garbled, Original)
       case RDone(_) => true
       case _ => false
  }

  predicate HandoffOutcome(outcome: Outcome) {
    outcome.PendingReview? || outcome.Terminalized? || outcome.ProjectionMissing?
  }

  predicate IsMarked(w: World, p: Pointer) { w.emergency.Marker? && w.emergency.pointer == p }

  /** The receipt can be read with this pointer. */
  predicate Readable(w: World, garbled: Option<nat>, p: Pointer) {
    w.receipt.Some? && w.receipt.value.body.pointer == p && garbled != Some(w.receipt.value.etag)
  }

  /** A handoff may replace another pointer's marker: a receipt that asks for the forward, or the
      raw object itself, vouches for this one. */
  predicate MayRepair(w: World, garbled: Option<nat>, p: Pointer) {
    || IsIntact(ViewOf(w), p)
    || (Readable(w, garbled, p) && Handoff.AsksForForward(w.receipt.value.body))
  }

  predicate StartsWell(w: World, garbled: Option<nat>, p: Pointer) {
    MayForward(w.mail, p) && (w.emergency.NoEmergency? || IsMarked(w, p) || MayRepair(w, garbled, p))
  }

  /** A handoff of `p` that nobody disturbs is on its way to being done. */
  predicate TaskGoesWell(w: World, task: Handoff.Task, garbled: Option<nat>, p: Pointer) {
    match task
    case HReadMarker(q) => q == p && StartsWell(w, garbled, p)
    case HCreateMarker(q) => q == p && w.emergency.NoEmergency?
    case HRepairReceipt(q, seen) => q == p && w.emergency == seen && seen.Marker? && MayRepair(w, garbled, p)
    case HRepairRaw(q, seen) => q == p && w.emergency == seen && seen.Marker? && IsIntact(ViewOf(w), p)
    case HRepairMarker(q, seen) => q == p && w.emergency == seen && seen.Marker?
    case HRereadMarker(q) => q == p && IsMarked(w, p)
    case HReadReceipt(q, _) => q == p && IsMarked(w, p)
    case HCommitForwarded(q, basis) => q == p && WriteApplies(w, basis)
    case HCheckForwarded(q) => q == p && Readable(w, garbled, p) && w.receipt.value.body.state.Forwarded?
    case HPutPending(q, basis) => q == p && IsMarked(w, p) && WriteApplies(w, basis)
    case HRecheckMarker(q) => q == p && IsMarked(w, p)
    case HSend => true
    case HClearMarker => true
    case TDone => true
    case _ => false
  }

  /** A place the pass may come to: it holds what the place needs, and if the pass ends
      there, it ends well. */
  predicate Good(s: Solo, pass: Pass) { SoloInv(s) && (s.pc.RDone? ==> WellEnded(s, pass)) }

  predicate StepKeeps(s: Solo, pass: Pass, probe: Probe)
    requires !Finished(s)
  {
    var s' := SoloStep(s, pass, probe);
    s'.world.raw == s.world.raw && Good(s', pass)
  }

  lemma AdvanceIsGood(s: Solo, pass: Pass, etag: nat, body: Body)
    requires FreshEtags(s) && s.world.raw.ExactRaw? && Forwardable(s.world.mail)
    requires Still(s, etag, body) && !body.state.Archived?
    requires !NeedsTruthRepair(body.state) || (body.state.DeadLetterPending? && !IsStale(body, pass.now))
    ensures Good(s.(pc := Advance(pass, etag, body)), pass)
  {
  }

  lemma ReceiptIsGood(s: Solo, pass: Pass, etag: nat, body: Body)
    requires FreshEtags(s) && s.world.raw.ExactRaw? && Forwardable(s.world.mail)
    requires Still(s, etag, body) && !body.state.Archived?
    ensures Good(s.(pc := OnReceipt(pass, etag, body)), pass)
    ensures NeedsTruthRepair(body.state) ==> Good(s.(pc := Unrepaired(pass, etag, body)), pass)
  {
    if !NeedsTruthRepair(body.state) || (body.state.DeadLetterPending? && !IsStale(body, pass.now)) {
      AdvanceIsGood(s, pass, etag, body);
    }
  }

  lemma ViewingKeeps(s: Solo, pass: Pass, probe: Probe)
    requires SoloInv(s) && (s.pc.RViewRaw?)
    ensures StepKeeps(s, pass, probe)
  {
  }

  lemma ReadingKeeps(s: Solo, pass: Pass, probe: Probe)
    requires SoloInv(s) && (s.pc.RReceipt?)
    ensures StepKeeps(s, pass, probe)
  {
    var s' := SoloStep(s, pass, probe);
    if s'.world.receipt.Some? {
      var Receipt(etag, body) := s'.world.receipt.value;
      if Still(s, etag, body) && !body.state.Archived? {
        ReceiptIsGood(s, pass, etag, body);
        assert s' == s.(pc := OnReceipt(pass, etag, body));
      }
    }
  }

  lemma MissingKeeps(s: Solo, pass: Pass, probe: Probe)
    requires SoloInv(s) && (s.pc.RMissingDeleted? || s.pc.RMissingRow? || s.pc.RReconstruct?)
    ensures StepKeeps(s, pass, probe)
  {
  }

  lemma PermissionKeeps(s: Solo, pass: Pass, probe: Probe)
    requires SoloInv(s) && (s.pc.RProvisioned? || s.pc.RActive?)
    ensures StepKeeps(s, pass, probe)
  {
  }

  lemma AdmissionKeeps(s: Solo, pass: Pass, probe: Probe)
    requires SoloInv(s) && (s.pc.RAdmit?)
    ensures StepKeeps(s, pass, probe)
  {
  }

  lemma RereadKeeps(s: Solo, pass: Pass, probe: Probe)
    requires SoloInv(s) && (s.pc.RAdmitReread?)
    ensures StepKeeps(s, pass, probe)
  {
    var s' := SoloStep(s, pass, probe);
    if s'.world.receipt.Some? {
      var Receipt(etag, body) := s'.world.receipt.value;
      if Still(s, etag, body) && !body.state.Archived? {
        ReceiptIsGood(s, pass, etag, body);
        assert s' == s.(pc := OnReceipt(pass, etag, body));
      }
    }
  }

  lemma RepairKeeps(s: Solo, pass: Pass, probe: Probe)
    requires SoloInv(s) && (s.pc.RRepairDeleted?)
    ensures StepKeeps(s, pass, probe)
  {
  }

  lemma RowRepairKeeps(s: Solo, pass: Pass, probe: Probe)
    requires SoloInv(s) && (s.pc.RRepairRow?)
    ensures StepKeeps(s, pass, probe)
  {
    ReceiptIsGood(s, pass, s.pc.etag, s.pc.body);
  }

  lemma RewriteKeeps(s: Solo, pass: Pass, probe: Probe)
    requires SoloInv(s) && (s.pc.RWriteDeleted? || s.pc.RWriteStored?)
    ensures StepKeeps(s, pass, probe)
  {
  }

  lemma QuarantineKeeps(s: Solo, pass: Pass, probe: Probe)
    requires SoloInv(s) && (s.pc.RQuarantine?)
    ensures StepKeeps(s, pass, probe)
  {
  }

  lemma StaleKeeps(s: Solo, pass: Pass, probe: Probe)
    requires SoloInv(s) && (s.pc.RLedger? || s.pc.REnqueueDeleted?)
    ensures StepKeeps(s, pass, probe)
  {
  }

  lemma ResendKeeps(s: Solo, pass: Pass, probe: Probe)
    requires SoloInv(s) && (s.pc.REnqueue? || s.pc.RAdvance?)
    ensures StepKeeps(s, pass, probe)
  {
  }

  lemma StoredKeeps(s: Solo, pass: Pass, probe: Probe)
    requires SoloInv(s) && (s.pc.RStoredDeleted? || s.pc.RStoredRow?)
    ensures StepKeeps(s, pass, probe)
  {
  }

  lemma LastKeeps(s: Solo, pass: Pass, probe: Probe)
    requires SoloInv(s) && (s.pc.RDerived? || s.pc.RDeletedTruth?)
    ensures StepKeeps(s, pass, probe)
  {
  }

  lemma StartKeeps(s: Solo, pass: Pass, probe: Probe)
    requires SoloInv(s) && (s.pc.RStartHandoff?)
    ensures StepKeeps(s, pass, probe)
  {
  }

  predicate TaskStepKeeps(s: Solo, p: Pointer, pass: Pass, probe: Probe) {
    var s' := TaskStep(s, pass, probe);
    TaskGoesWell(s'.world, s'.task, s'.garbled, p) && FreshEtags(s') && s'.world.raw == s.world.raw
  }

  /** The handoff is still after its marker. */
  predicate SeeksMarker(task: Handoff.Task) {
    || task.HReadMarker? || task.HCreateMarker? || task.HRepairReceipt? || task.HRepairRaw? || task.HRepairMarker?
    || task.HRereadMarker?
  }

  lemma MarkerStepKeeps(s: Solo, p: Pointer, pass: Pass, probe: Probe)
    requires FreshEtags(s) && TaskGoesWell(s.world, s.task, s.garbled, p) && SeeksMarker(s.task)
    ensures TaskStepKeeps(s, p, pass, probe)
  {
  }

  lemma ReceiptStepKeeps(s: Solo, p: Pointer, pass: Pass, probe: Probe)
    requires FreshEtags(s) && TaskGoesWell(s.world, s.task, s.garbled, p) && !SeeksMarker(s.task) && !s.task.TDone?
    ensures TaskStepKeeps(s, p, pass, probe)
  {
  }

  lemma TaskKeeps(s: Solo, p: Pointer, pass: Pass, probe: Probe)
    requires FreshEtags(s) && TaskGoesWell(s.world, s.task, s.garbled, p) && !s.task.TDone?
    ensures TaskStepKeeps(s, p, pass, probe)
  {
    if SeeksMarker(s.task) { MarkerStepKeeps(s, p, pass, probe); } else { ReceiptStepKeeps(s, p, pass, probe); }
  }

  lemma JoinKeeps(s: Solo, pass: Pass, probe: Probe)
    requires SoloInv(s) && s.pc.RJoinHandoff?
    ensures StepKeeps(s, pass, probe)
  {
    if s.task.TDone? {
      JoinedKeeps(s, pass, probe);
    } else {
      TaskKeeps(s, Original, pass, probe);
      assert SoloStep(s, pass, probe) == TaskStep(s, pass, probe);
    }
  }

  lemma JoinedKeeps(s: Solo, pass: Pass, probe: Probe)
    requires SoloInv(s) && s.pc.RJoinHandoff? && s.task.TDone?
    ensures StepKeeps(s, pass, probe)
  {
  }

  lemma SoloStepKeeps(s: Solo, pass: Pass, probe: Probe)
    requires SoloInv(s) && !Finished(s)
    ensures StepKeeps(s, pass, probe)
  {
    if s.pc.RViewRaw? {
      ViewingKeeps(s, pass, probe);
    } else if s.pc.RReceipt? {
      ReadingKeeps(s, pass, probe);
    } else if s.pc.RMissingDeleted? || s.pc.RMissingRow? || s.pc.RReconstruct? {
      MissingKeeps(s, pass, probe);
    } else if s.pc.RProvisioned? || s.pc.RActive? {
      PermissionKeeps(s, pass, probe);
    } else if s.pc.RAdmit? {
      AdmissionKeeps(s, pass, probe);
    } else if s.pc.RAdmitReread? {
      RereadKeeps(s, pass, probe);
    } else if s.pc.RRepairDeleted? {
      RepairKeeps(s, pass, probe);
    } else if s.pc.RRepairRow? {
      RowRepairKeeps(s, pass, probe);
    } else if s.pc.RWriteDeleted? || s.pc.RWriteStored? {
      RewriteKeeps(s, pass, probe);
    } else if s.pc.RQuarantine? {
      QuarantineKeeps(s, pass, probe);
    } else if s.pc.RLedger? || s.pc.REnqueueDeleted? {
      StaleKeeps(s, pass, probe);
    } else if s.pc.REnqueue? || s.pc.RAdvance? {
      ResendKeeps(s, pass, probe);
    } else if s.pc.RStoredDeleted? || s.pc.RStoredRow? {
      StoredKeeps(s, pass, probe);
    } else if s.pc.RDerived? || s.pc.RDeletedTruth? {
      LastKeeps(s, pass, probe);
    } else if s.pc.RStartHandoff? {
      StartKeeps(s, pass, probe);
    } else {
      JoinKeeps(s, pass, probe);
    }
  }

  lemma {:induction false} FinishEndsWell(s: Solo, pass: Pass, probe: Probe)
    requires PcRank(s.pc) >= 6 && SoloInv(s) && !Finished(s)
    ensures WellEnded(Finish(s, pass, probe), pass)
    decreases PcRank(s.pc), TaskRank(s.task)
  {
    var s' := SoloStep(s, pass, probe);
    SoloStepDescends(s, pass, probe);
    SoloStepKeeps(s, pass, probe);
    if !Finished(s') {
      FinishEndsWell(s', pass, probe);
    }
  }

  /** A pass about to begin. A garbled receipt object is one that does not parse. */
  function Begin(w: World, garbled: bool): Solo {
    Solo(w, RViewRaw, Handoff.TDone, if garbled && w.receipt.Some? then Some(w.receipt.value.etag) else None,
             false, false)
  }

  /** Whatever receipt it finds (any of the twelve states, none, or a garbled object), and
      whatever the mailbox, the emergency marker, the policy and the clock say, one
      undisturbed pass on an exact archive that may be forwarded ends in a terminal proof, a handoff, a Queue
      send, or finds a handoff younger than fifteen minutes; `skipped` means one of the
      first and the last. */
  lemma NoArchiveIsStuck(w: World, garbled: bool, pass: Pass, probe: Probe)
    requires w.raw.ExactRaw? && Forwardable(w.mail)
    requires w.receipt.Some? ==> w.receipt.value.etag < w.nextEtag
    ensures WellEnded(Finish(Begin(w, garbled), pass, probe), pass)
  {
    FinishEndsWell(Begin(w, garbled), pass, probe);
  }

  // ---------------------------------------------------------------- repairing a demoted receipt

  predicate IsProjection(w: World, state: ReceiptState) {
    (state.Stored? && w.mailbox.Live?) || (state.Deleted? && IsDeleted(w, Original))
  }

  predicate Says(s: Solo, state: ReceiptState) {
    s.pc == RDone(Terminalized) && s.world.receipt.Some? && s.world.receipt.value.body.state == state
  }

  /** A receipt that a handoff took back, or that awaits one, is brought back to what the
      mailbox says by one undisturbed pass. */
  lemma TruthIsRestored(w: World, state: ReceiptState, pass: Pass, probe: Probe)
    requires w.raw.ExactRaw? && Recoverable(w.mail) && w.receipt.Some? && w.receipt.value.body.pointer.Original?
    requires NeedsTruthRepair(w.receipt.value.body.state) && IsProjection(w, state)
    ensures Says(Finish(Begin(w, false), pass, probe), state)
  {
    var Receipt(etag, body) := w.receipt.value;
    var s := Begin(w, false);
    var s1 := s.(pc := RReceipt(Original));
    FinishOneStep(s, pass, probe, s1);
    var s2 := s.(pc := RRepairDeleted(etag, body));
    FinishOneStep(s1, pass, probe, s2);
    if state.Deleted? {
      FinishOneStep(s2, pass, probe, s.(pc := RWriteDeleted(etag, body)));
      RewriteFinishes(s.(pc := RWriteDeleted(etag, body)), pass, probe);
    } else {
      FinishOneStep(s2, pass, probe, s.(pc := RRepairRow(etag, body)));
      FinishOneStep(s.(pc := RRepairRow(etag, body)), pass, probe, s.(pc := RWriteStored(etag, body)));
      RewriteFinishes(s.(pc := RWriteStored(etag, body)), pass, probe);
    }
  }

  lemma RewriteFinishes(s: Solo, pass: Pass, probe: Probe)
    requires s.pc.RWriteDeleted? || s.pc.RWriteStored?
    requires s.world.receipt == Some(Receipt(s.pc.etag, s.pc.body))
    ensures Says(Finish(s, pass, probe), if s.pc.RWriteDeleted? then Deleted else Stored)
  {
    FinishOneStep(s, pass, probe, SoloStep(s, pass, probe));
  }

  // ---------------------------------------------------------------- one step at a time

  /** What one step of an unfinished pass leads to is where the pass ends as well. */
  lemma FinishOneStep(s: Solo, pass: Pass, probe: Probe, next: Solo)
    requires PcRank(s.pc) > 6 && !Finished(s) && SoloStep(s, pass, probe) == next
    ensures PcRank(next.pc) >= 6 && Finish(s, pass, probe) == Finish(next, pass, probe)
  {
    SoloStepDescends(s, pass, probe);
  }

  /** A handoff that goes well is done in the end. */
  lemma {:induction false} HandoffFinishes(s: Solo, p: Pointer, pass: Pass, probe: Probe)
    requires s.pc.RJoinHandoff? && FreshEtags(s) && TaskGoesWell(s.world, s.task, s.garbled, p)
    ensures Finish(s, pass, probe).pc == RDone(s.pc.outcome) && Finish(s, pass, probe).handed
    decreases TaskRank(s.task)
  {
    if s.task.TDone? {
      FinishOneStep(s, pass, probe, s.(pc := RDone(s.pc.outcome), handed := true));
    } else {
      TaskKeeps(s, p, pass, probe);
      TaskDescends(s.task, Perform(s.world, Handoff.Call(s.task, pass.now), Reading(s, probe)).1);
      FinishOneStep(s, pass, probe, TaskStep(s, pass, probe));
      HandoffFinishes(TaskStep(s, pass, probe), p, pass, probe);
    }
  }

  function Joining(s: Solo, outcome: Outcome, task: Handoff.Task): Solo {
    s.(pc := RJoinHandoff(0, outcome, false), task := task)
  }

  function Refused(s: Solo, outcome: Outcome): Solo { Joining(s, outcome, Handoff.TFailed).(pc := RFailed) }

  lemma FailedHandoffFinishes(s: Solo, outcome: Outcome, pass: Pass, probe: Probe)
    ensures Finish(Joining(s, outcome, Handoff.TFailed), pass, probe) == Refused(s, outcome)
  {
    FinishOneStep(Joining(s, outcome, Handoff.TFailed), pass, probe, Refused(s, outcome));
  }

  /** A handoff of a pointer that may not be forwarded, or one that finds the marker of another pointer
      and nothing to vouch for its own, fails and changes nothing. */
  lemma HandoffFails(s: Solo, outcome: Outcome, p: Pointer, pass: Pass, probe: Probe)
    requires !StartsWell(s.world, s.garbled, p)
    ensures Finish(Starting(s, outcome, p), pass, probe) == Refused(s, outcome)
  {
    if MayForward(s.world.mail, p) {
      FinishOneStep(Starting(s, outcome, p), pass, probe,
                    Joining(s, outcome, Handoff.HRepairReceipt(p, s.world.emergency)));
      UnvouchedRepairFails(s, outcome, p, pass, probe);
    }
    FailedHandoffFinishes(s, outcome, pass, probe);
  }

  function Starting(s: Solo, outcome: Outcome, p: Pointer): Solo {
    Joining(s, outcome, Handoff.Start(HandoffTask(p), s.world.mail))
  }

  lemma UnvouchedRepairFails(s: Solo, outcome: Outcome, p: Pointer, pass: Pass, probe: Probe)
    requires !MayRepair(s.world, s.garbled, p)
    ensures Finish(Joining(s, outcome, Handoff.HRepairReceipt(p, s.world.emergency)), pass, probe)
         == Finish(Joining(s, outcome, Handoff.TFailed), pass, probe)
  {
    var receipt := Joining(s, outcome, Handoff.HRepairReceipt(p, s.world.emergency));
    var raw := Joining(s, outcome, Handoff.HRepairRaw(p, s.world.emergency));
    FinishOneStep(receipt, pass, probe, raw);
    FinishOneStep(raw, pass, probe, Joining(s, outcome, Handoff.TFailed));
  }

  /** Exactly when a handoff that is about to start is done in the end. */
  lemma HandoffEndsExactly(s: Solo, outcome: Outcome, p: Pointer, pass: Pass, probe: Probe)
    requires s.pc == HandOff(outcome, p) && FreshEtags(s)
    ensures var r := Finish(s, pass, probe);
            if StartsWell(s.world, s.garbled, p) then r.pc == RDone(outcome) && r.handed
            else r == Refused(s, outcome)
  {
    var first := Starting(s, outcome, p);
    FinishOneStep(s, pass, probe, first);
    if StartsWell(s.world, s.garbled, p) { HandoffFinishes(first, p, pass, probe); }
    else { HandoffFails(s, outcome, p, pass, probe); }
  }

  // ---------------------------------------------------------------- every archive

  /** A pass that recovers this pointer ends well in these cases: the handoff can start; there is no
      receipt, and the mailbox knows the message; or the receipt has this pointer and speaks for itself. */
  predicate ShouldEndWell(w: World, garbled: Option<nat>, p: Pointer) {
    || StartsWell(w, garbled, p)
    || (w.receipt.None? && InMailbox(w, p))
    || (Readable(w, garbled, p) && SpeaksForItself(w, w.receipt.value.body))
  }

  /** The row is live, or the mailbox knows the deletion by this pointer. */
  predicate InMailbox(w: World, p: Pointer) { w.mailbox.Live? || IsDeleted(w, p) }

  predicate SpeaksForItself(w: World, body: Body) {
    match body.state
    case Deleted => true
    case Forwarded => true
    case Rejected => true
    case Stored => InMailbox(w, body.pointer)
    case ForwardPending => InMailbox(w, body.pointer)
    case Quarantined => body.mismatch || InMailbox(w, body.pointer)
    case _ => false
  }

  /** The pass ends well or fails, and a pass that fails has changed nothing. */
  predicate EndsAs(r: Solo, w: World, pass: Pass, well: bool) {
    if well then WellEnded(r, pass) else r.pc.RFailed? && r.world == w && !r.handed && !r.sent
  }

  /** As yet the pass has done nothing, and its handoffs may be refused. */
  predicate Untouched(s: Solo, w: World, p: Pointer) {
    && WorldInv(w) && s.world == w && FreshEtags(s) && !s.handed && !s.sent
    && Recovered(ViewOf(w)) == Some(p) && (p.Original? ==> !Forwardable(w.mail))
  }

  lemma HandingOff(s: Solo, w: World, outcome: Outcome, p: Pointer, pass: Pass, probe: Probe)
    requires Untouched(s, w, p) && s.pc == HandOff(outcome, p) && HandoffOutcome(outcome)
    ensures EndsAs(Finish(s, pass, probe), w, pass, StartsWell(w, s.garbled, p))
  {
    HandoffEndsExactly(s, outcome, p, pass, probe);
  }

  lemma Reconstructing(s: Solo, state: ReceiptState, p: Pointer, pass: Pass, probe: Probe)
    requires s.pc == RReconstruct(state, p) && s.world.receipt.None?
    requires (state.Stored? && s.world.mailbox.Live?) || (state.Deleted? && IsDeleted(s.world, p))
    ensures WellEnded(Finish(s, pass, probe), pass)
  {
    FinishOneStep(s, pass, probe, SoloStep(s, pass, probe));
  }

  lemma MissingRowEnds(s: Solo, w: World, p: Pointer, pass: Pass, probe: Probe)
    requires Untouched(s, w, p) && s.pc == RMissingRow(p) && w.receipt.None?
    ensures EndsAs(Finish(s, pass, probe), w, pass, w.mailbox.Live? || StartsWell(w, s.garbled, p))
  {
    var next := s.(pc := if w.mailbox.Live? then RReconstruct(Stored, p) else HandOff(PendingReview, p));
    FinishOneStep(s, pass, probe, next);
    if w.mailbox.Live? { Reconstructing(next, Stored, p, pass, probe); }
    else { HandingOff(next, w, PendingReview, p, pass, probe); }
  }

  lemma MissingEnds(s: Solo, w: World, p: Pointer, pass: Pass, probe: Probe)
    requires Untouched(s, w, p) && s.pc == RReceipt(p) && w.receipt.None?
    ensures EndsAs(Finish(s, pass, probe), w, pass, ShouldEndWell(w, s.garbled, p))
  {
    var row := s.(pc := RMissingRow(p));
    if !HasSha(p) {
      FinishOneStep(s, pass, probe, row);
      MissingRowEnds(row, w, p, pass, probe);
    } else {
      var deleted := s.(pc := RMissingDeleted(p));
      FinishOneStep(s, pass, probe, deleted);
      if IsDeleted(w, p) {
        FinishOneStep(deleted, pass, probe, s.(pc := RReconstruct(Deleted, p)));
        Reconstructing(s.(pc := RReconstruct(Deleted, p)), Deleted, p, pass, probe);
      } else {
        FinishOneStep(deleted, pass, probe, row);
        MissingRowEnds(row, w, p, pass, probe);
      }
    }
  }

  lemma UnreadableEnds(s: Solo, w: World, p: Pointer, pass: Pass, probe: Probe)
    requires Untouched(s, w, p) && s.pc == RReceipt(p) && w.receipt.Some? && !Readable(w, s.garbled, p)
    ensures EndsAs(Finish(s, pass, probe), w, pass, ShouldEndWell(w, s.garbled, p))
  {
    var next := s.(pc := HandOff(PendingReview, p));
    FinishOneStep(s, pass, probe, next);
    HandingOff(next, w, PendingReview, p, pass, probe);
  }

  /** A receipt is about to be replaced by what the mailbox says. */
  lemma Rewriting(s: Solo, pass: Pass, probe: Probe)
    requires s.pc.RWriteDeleted? || s.pc.RWriteStored?
    requires s.world.receipt == Some(Receipt(s.pc.etag, s.pc.body))
    requires if s.pc.RWriteDeleted? then IsDeleted(s.world, s.pc.body.pointer) else s.world.mailbox.Live?
    ensures WellEnded(Finish(s, pass, probe), pass)
  {
    FinishOneStep(s, pass, probe, SoloStep(s, pass, probe));
  }

  lemma StoredRowEnds(s: Solo, w: World, p: Pointer, pass: Pass, probe: Probe)
    requires Untouched(s, w, p) && s.pc == RStoredRow(p) && w.receipt.Some? && w.receipt.value.body.state.Stored?
    ensures EndsAs(Finish(s, pass, probe), w, pass, w.mailbox.Live? || StartsWell(w, s.garbled, p))
  {
    if w.mailbox.Live? {
      FinishOneStep(s, pass, probe, s.(pc := RDerived));
      LastStepEnds(s.(pc := RDerived), pass, probe);
    } else {
      var next := s.(pc := HandOff(ProjectionMissing, p));
      FinishOneStep(s, pass, probe, next);
      HandingOff(next, w, ProjectionMissing, p, pass, probe);
    }
  }

  lemma LastStepEnds(s: Solo, pass: Pass, probe: Probe)
    requires s.pc.RDerived? && TerminalProof(s.world)
    ensures WellEnded(Finish(s, pass, probe), pass)
  {
    FinishOneStep(s, pass, probe, SoloStep(s, pass, probe));
  }

  lemma StoredEnds(s: Solo, w: World, etag: nat, body: Body, pass: Pass, probe: Probe)
    requires Untouched(s, w, body.pointer) && w.receipt == Some(Receipt(etag, body)) && body.state.Stored?
    requires s.pc == Advance(pass, etag, body)
    ensures EndsAs(Finish(s, pass, probe), w, pass,
                   InMailbox(w, body.pointer) || StartsWell(w, s.garbled, body.pointer))
  {
    var row := s.(pc := RStoredRow(body.pointer));
    if !HasSha(body.pointer) {
      StoredRowEnds(s, w, body.pointer, pass, probe);
    } else if IsDeleted(w, body.pointer) {
      FinishOneStep(s, pass, probe, s.(pc := RWriteDeleted(etag, body)));
      Rewriting(s.(pc := RWriteDeleted(etag, body)), pass, probe);
    } else {
      FinishOneStep(s, pass, probe, row);
      StoredRowEnds(row, w, body.pointer, pass, probe);
    }
  }

  /** A receipt that asks for recovery. */
  predicate Pends(w: World, etag: nat, body: Body) {
    && w.receipt == Some(Receipt(etag, body)) && HasSha(body.pointer)
    && (body.state.ForwardPending? || body.state.Quarantined?)
  }

  /** It is compared with the mailbox first. */
  lemma PendingEnds(s: Solo, w: World, etag: nat, body: Body, pass: Pass, probe: Probe)
    requires Untouched(s, w, body.pointer) && Pends(w, etag, body) && s.pc == RRepairDeleted(etag, body)
    ensures EndsAs(Finish(s, pass, probe), w, pass, SpeaksForItself(w, body) || StartsWell(w, s.garbled, body.pointer))
  {
    if IsDeleted(w, body.pointer) {
      FinishOneStep(s, pass, probe, s.(pc := RWriteDeleted(etag, body)));
      Rewriting(s.(pc := RWriteDeleted(etag, body)), pass, probe);
    } else {
      FinishOneStep(s, pass, probe, s.(pc := RRepairRow(etag, body)));
      PendingRowEnds(s.(pc := RRepairRow(etag, body)), w, etag, body, pass, probe);
    }
  }

  lemma PendingRowEnds(s: Solo, w: World, etag: nat, body: Body, pass: Pass, probe: Probe)
    requires Untouched(s, w, body.pointer) && Pends(w, etag, body) && s.pc == RRepairRow(etag, body)
    requires !IsDeleted(w, body.pointer)
    ensures EndsAs(Finish(s, pass, probe), w, pass, SpeaksForItself(w, body) || StartsWell(w, s.garbled, body.pointer))
  {
    if w.mailbox.Live? {
      FinishOneStep(s, pass, probe, s.(pc := RWriteStored(etag, body)));
      Rewriting(s.(pc := RWriteStored(etag, body)), pass, probe);
    } else {
      UnrepairedEnds(s, w, etag, body, pass, probe);
    }
  }

  lemma UnrepairedEnds(s: Solo, w: World, etag: nat, body: Body, pass: Pass, probe: Probe)
    requires Untouched(s, w, body.pointer) && Pends(w, etag, body) && !InMailbox(w, body.pointer)
    requires s.pc == RRepairRow(etag, body)
    ensures EndsAs(Finish(s, pass, probe), w, pass, SpeaksForItself(w, body) || StartsWell(w, s.garbled, body.pointer))
  {
    if body.state.Quarantined? && body.mismatch {
      assert w.raw.BadRaw?;
      FinishOneStep(s, pass, probe, s.(pc := RQuarantine(body.pointer)));
      FinishOneStep(s.(pc := RQuarantine(body.pointer)), pass, probe, s.(pc := RDone(Skipped)));
    } else {
      var outcome := if body.state.ForwardPending? then PendingReview else Terminalized;
      var next := s.(pc := HandOff(outcome, body.pointer));
      FinishOneStep(s, pass, probe, next);
      HandingOff(next, w, outcome, body.pointer, pass, probe);
    }
  }

  lemma ArchivedEnds(s: Solo, w: World, p: Pointer, pass: Pass, probe: Probe)
    requires Untouched(s, w, p) && PolicyOk(w, pass) && s.pc == RReceipt(p) && Readable(w, s.garbled, p)
    requires w.receipt.value.body.state.Archived?
    ensures EndsAs(Finish(s, pass, probe), w, pass, StartsWell(w, s.garbled, p))
  {
    assert BodyOk(w, w.receipt.value.body);
    var next := s.(pc := HandOff(PendingReview, p));
    FinishOneStep(s, pass, probe, next);
    HandingOff(next, w, PendingReview, p, pass, probe);
  }

  lemma ReadableEnds(s: Solo, w: World, p: Pointer, pass: Pass, probe: Probe)
    requires Untouched(s, w, p) && PolicyOk(w, pass) && s.pc == RReceipt(p) && Readable(w, s.garbled, p)
    ensures EndsAs(Finish(s, pass, probe), w, pass, ShouldEndWell(w, s.garbled, p))
  {
    var Receipt(etag, body) := w.receipt.value;
    assert BodyOk(w, body);
    if body.state.Archived? {
      ArchivedEnds(s, w, p, pass, probe);
    } else {
      var next := s.(pc := OnReceipt(pass, etag, body));
      FinishOneStep(s, pass, probe, next);
      ReceiptDecides(next, w, etag, body, pass, probe);
    }
  }

  lemma ReceiptDecides(s: Solo, w: World, etag: nat, body: Body, pass: Pass, probe: Probe)
    requires Untouched(s, w, body.pointer) && Readable(w, s.garbled, body.pointer)
    requires w.receipt == Some(Receipt(etag, body)) && !body.state.Archived?
    requires s.pc == OnReceipt(pass, etag, body)
    ensures EndsAs(Finish(s, pass, probe), w, pass, ShouldEndWell(w, s.garbled, body.pointer))
  {
    assert BodyOk(w, body);
    match body.state
    case Stored => StoredEnds(s, w, etag, body, pass, probe);
    case Deleted => FinishOneStep(s, pass, probe, s.(pc := RDone(Skipped)));
    case Forwarded =>
    case Rejected =>
    case _ => PendingEnds(s, w, etag, body, pass, probe);
  }

  /** Exactly when a pass ends well on an archive stored without a SHA-256, on a damaged one whose
      metadata make a pointer, or on an exact one whose pointer may not be forwarded. Otherwise it fails and
      has changed nothing. */
  lemma OtherArchiveEndsExactly(w: World, garbled: bool, p: Pointer, pass: Pass, probe: Probe)
    requires WorldInv(w) && PolicyOk(w, pass) && Recovered(ViewOf(w)) == Some(p)
    requires p.Original? ==> !Forwardable(w.mail)
    ensures EndsAs(Finish(Begin(w, garbled), pass, probe), w, pass, ShouldEndWell(w, Begin(w, garbled).garbled, p))
  {
    var s := Begin(w, garbled);
    var next := s.(pc := RReceipt(p));
    FinishOneStep(s, pass, probe, next);
    if w.receipt.None? {
      MissingEnds(next, w, p, pass, probe);
    } else if Readable(w, s.garbled, p) {
      ReadableEnds(next, w, p, pass, probe);
    } else {
      UnreadableEnds(next, w, p, pass, probe);
    }
  }

  /** The emergency handoff refuses a pointer without a SHA-256. */
  lemma WeakHandoffFails(s: Solo, outcome: Outcome, pass: Pass, probe: Probe)
    requires s.pc == HandOff(outcome, Weak) && FreshEtags(s)
    ensures Finish(s, pass, probe) == Refused(s, outcome)
  {
    HandoffEndsExactly(s, outcome, Weak, pass, probe);
  }

  predicate WeaklySettled(w: World, garbled: bool) {
    w.mailbox.Live? && (w.receipt.None? || (!garbled && w.receipt.value.body.pointer.Weak?))
  }

  /** For an archive stored without a SHA-256 that is: when the row is live and no other receipt
      stands in the way. */
  lemma WeakArchiveEndsWellOnlyByALiveRow(w: World, garbled: bool, pass: Pass, probe: Probe)
    requires WorldInv(w) && PolicyOk(w, pass) && w.raw.WeakRaw? && Recoverable(w.mail)
    ensures EndsAs(Finish(Begin(w, garbled), pass, probe), w, pass, WeaklySettled(w, garbled))
  {
    OtherArchiveEndsExactly(w, garbled, Weak, pass, probe);
  }

  /** A raw object that is missing, or from which no pointer can be rebuilt, is retained as invalid. */
  lemma NoPointerIsInvalid(w: World, garbled: bool, pass: Pass, probe: Probe)
    requires Recovered(ViewOf(w)).None?
    ensures Finish(Begin(w, garbled), pass, probe) == Begin(w, garbled).(pc := RDone(Invalid))
  {
    FinishOneStep(Begin(w, garbled), pass, probe, Begin(w, garbled).(pc := RDone(Invalid)));
  }

  /** Over every state a run can reach, and more: exactly when one undisturbed pass ends well. No pointer
      can be rebuilt from an archive of an empty or oversized message, or of one without a recipient. */
  lemma PassEndsWellExactly(w: World, garbled: bool, pass: Pass, probe: Probe)
    requires WorldInv(w) && PolicyOk(w, pass)
    ensures WellEnded(Finish(Begin(w, garbled), pass, probe), pass)
       <==> Recovered(ViewOf(w)).Some? && ShouldEndWell(w, Begin(w, garbled).garbled, Recovered(ViewOf(w)).value)
  {
    if Recovered(ViewOf(w)).None? {
      NoPointerIsInvalid(w, garbled, pass, probe);
    } else if w.raw.ExactRaw? && Forwardable(w.mail) {
      NoArchiveIsStuck(w, garbled, pass, probe);
    } else {
      OtherArchiveEndsExactly(w, garbled, Recovered(ViewOf(w)).value, pass, probe);
    }
  }
}
