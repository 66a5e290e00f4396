/** `reconcileArchive` and `clearTerminalActiveMarker` as one program that stops at every
    binding call, together with what it knows at each stop. */
module InboundReconciler {
  import opened InboundStore
  import opened Wrappers

  const STALE_HANDOFF_MS := 15 * 60 * 1000

  /** One pass over one archive: when it started, whether the archived admission policy
      admits the recipient and size, and whether the archive came from the active index. */
  datatype Pass = Pass(now: int, policyOk: bool, active: bool)

  /** The admission policy admits addresses only. */
  predicate PolicyOk(w: World, pass: Pass) { pass.policyOk ==> w.mail.recipient.Address? }

  datatype Outcome = Reenqueued | Skipped | Invalid | ProjectionMissing | PendingReview | Terminalized

  datatype Pc =
    | RViewRaw
    | RReceipt(p: Pointer)
    | RMissingDeleted(p: Pointer) | RMissingRow(p: Pointer)
    | RReconstruct(state: ReceiptState, p: Pointer)
    | RReconstructLost(state: ReceiptState, p: Pointer)
    | RProvisioned(etag: nat, body: Body) | RActive(etag: nat, body: Body)
    | RAdmit(etag: nat, body: Body) | RAdmitReread(p: Pointer)
    | RRepairDeleted(etag: nat, body: Body) | RRepairRow(etag: nat, body: Body)
    | RWriteDeleted(etag: nat, body: Body) | RWriteStored(etag: nat, body: Body)
    | RPreserve(state: ReceiptState, p: Pointer)
    | RQuarantine(p: Pointer)
    | RLedger(etag: nat, body: Body)
    | REnqueueDeleted(etag: nat, body: Body)
    | REnqueue(etag: nat, body: Body) | RAdvance(etag: nat, body: Body)
    | RStoredDeleted(etag: nat, body: Body) | RStoredRow(p: Pointer) | RDerived
    | RDeletedTruth(p: Pointer)
    | RStartHandoff(outcome: Outcome, p: Pointer, tolerant: bool)
    | RJoinHandoff(task: nat, outcome: Outcome, tolerant: bool)
    | RDone(outcome: Outcome)
    | RFailed
    | KRead | KDeleted(body: Body) | KRow(body: Body) | KViewRaw(body: Body) | KClear(body: Body) | KEnd

  function Repaired(state: ReceiptState, p: Pointer, pass: Pass): Body { Body(state, false, p, pass.now) }

  function Call(pass: Pass, pc: Pc): Request {
    match pc
    case RViewRaw => ViewRaw
    case RReceipt(p) => GetReceipt(p)
    case RMissingDeleted(p) => DeletionTruth(Of(p))
    case RMissingRow(_) => RowExists
    case RReconstruct(state, p) => PutReceipt(CreateOnly, Repaired(state, p, pass), ProjectionWriter)
    case RReconstructLost(_, p) => GetReceipt(p)
    case RProvisioned(_, _) => MailboxMarker
    case RActive(_, _) => MailboxActive
    case RAdmit(etag, body) =>
        PutReceipt(Replace(etag, Some(body)), Repaired(Admitted, body.pointer, pass), ProjectionWriter)
    case RAdmitReread(p) => GetReceipt(p)
    case RRepairDeleted(_, body) => DeletionTruth(Of(body.pointer))
    case RRepairRow(_, _) => RowExists
    case RWriteDeleted(etag, body) =>
      PutReceipt(Replace(etag, Some(body)), Repaired(Deleted, body.pointer, pass), ProjectionWriter)
    case RWriteStored(etag, body) =>
      PutReceipt(Replace(etag, Some(body)), Repaired(Stored, body.pointer, pass), ProjectionWriter)
    case RPreserve(_, p) => GetReceipt(p)
    case RQuarantine(_) => ViewRaw
    case RLedger(_, _) => TerminalLedger
    case REnqueueDeleted(_, body) => DeletionTruth(Of(body.pointer))
    case REnqueue(_, _) => Send
    case RAdvance(etag, body) =>
      PutReceipt(Replace(etag, Some(body)), Repaired(Enqueued, body.pointer, pass), ProjectionWriter)
    case RStoredDeleted(_, body) => DeletionTruth(Of(body.pointer))
    case RStoredRow(_) => RowExists
    case RDerived => InspectDerived
    case RDeletedTruth(p) => DeletionTruth(Of(p))
    case RStartHandoff(_, p, _) => StartTask(HandoffTask(p))
    case RJoinHandoff(task, _, _) => JoinTask(task)
    case KRead => GetTerminalReceipt
    case KDeleted(body) => DeletionTruth(Of(body.pointer))
    case KRow(_) => RowExists
    case KViewRaw(_) => ViewRaw
    case KClear(_) => DeleteMarker
    case RDone(_) => NoCall
    case RFailed => NoCall
    case KEnd => NoCall
  }

  function HandOff(outcome: Outcome, p: Pointer): Pc { RStartHandoff(outcome, p, false) }

  predicate IsStale(body: Body, now: int) { now - body.at >= STALE_HANDOFF_MS }

  /** Receipts that are compared with mailbox truth before anything else is tried. */
  predicate NeedsTruthRepair(state: ReceiptState) {
    state.ForwardPending? || state.DeadLettered? || state.Quarantined? || state.DeadLetterPending?
  }

  predicate ShouldEnqueue(body: Body, now: int) {
    || body.state.Archived? || body.state.Admitted?
    || ((body.state.Enqueued? || body.state.Retrying?) && IsStale(body, now))
  }

  predicate StaleHandoff(body: Body, now: int) {
    || body.state.Archived? || body.state.Admitted?
    || ((body.state.Enqueued? || body.state.Retrying? || body.state.DeadLetterPending?) && IsStale(body, now))
  }

  /** Where a valid receipt that is not `archived` leads. */
  function OnReceipt(pass: Pass, etag: nat, body: Body): Pc {
    if !NeedsTruthRepair(body.state) then Advance(pass, etag, body)
    else if HasSha(body.pointer) then RRepairDeleted(etag, body) else RRepairRow(etag, body)
  }

  /** Past the truth repair: the receipt itself decides. */
  function Unrepaired(pass: Pass, etag: nat, body: Body): Pc {
    match body.state
    case ForwardPending => HandOff(PendingReview, body.pointer)
    case DeadLetterPending =>
      if IsStale(body, pass.now) then HandOff(PendingReview, body.pointer) else Advance(pass, etag, body)
    case DeadLettered => HandOff(Terminalized, body.pointer)
    case Quarantined => if body.mismatch then RQuarantine(body.pointer) else HandOff(Terminalized, body.pointer)
    case _ => Advance(pass, etag, body)
  }

  /** The stale-handoff check and everything after it. */
  function Advance(pass: Pass, etag: nat, body: Body): Pc {
    if StaleHandoff(body, pass.now) then RLedger(etag, body)
    else if body.state.Stored? then
        (if HasSha(body.pointer) then RStoredDeleted(etag, body) else RStoredRow(body.pointer))
    else if body.state.Deleted? then
        (if HasSha(body.pointer) then RDeletedTruth(body.pointer) else HandOff(PendingReview, body.pointer))
    else RDone(Skipped)
  }

  function Resume(pass: Pass, pc: Pc, reply: Reply): Pc {
    match pc
    case RViewRaw =>
      if !reply.RawSeen? then RFailed
      else if Recovered(reply.view).None? then RDone(Invalid)
      else RReceipt(Recovered(reply.view).value)
    case RReceipt(p) =>
      if reply.Absent? then (if HasSha(p) then RMissingDeleted(p) else RMissingRow(p))
      else if !reply.Valid? then HandOff(PendingReview, p)
      else if reply.body.state.Archived? then
        if pass.policyOk then RProvisioned(reply.etag, reply.body) else HandOff(PendingReview, p)
      else OnReceipt(pass, reply.etag, reply.body)
    case RMissingDeleted(p) =>
      if reply == Flag(true) then RReconstruct(Deleted, p)
      else if reply == Flag(false) then RMissingRow(p) else HandOff(PendingReview, p)
    case RMissingRow(p) =>
      if reply == Flag(true) then RReconstruct(Stored, p) else HandOff(PendingReview, p)
    case RReconstruct(state, p) =>
      if reply.Written? then RDone(Terminalized)
      else if reply.Lost? then RReconstructLost(state, p) else RFailed
    case RReconstructLost(state, p) =>
      if reply.Valid? && reply.body.state == state then RDone(Skipped)
      else HandOff(PendingReview, p)
    case RProvisioned(etag, body) =>
        if reply == Flag(true) then RActive(etag, body) else HandOff(PendingReview, body.pointer)
    case RActive(etag, body) => if reply == Flag(true) then RAdmit(etag, body) else HandOff(PendingReview, body.pointer)
    case RAdmit(_, body) => if reply.Failed? then RFailed else RAdmitReread(body.pointer)
    case RAdmitReread(p) =>
      if !reply.Valid? || reply.body.state.Archived? then HandOff(PendingReview, p)
      else if !reply.body.state.Admitted? then RDone(Skipped)
      else OnReceipt(pass, reply.etag, reply.body)
    case RRepairDeleted(etag, body) =>
      if reply == Flag(true) then RWriteDeleted(etag, body)
      else if reply == Flag(false) then RRepairRow(etag, body) else RFailed
    case RRepairRow(etag, body) =>
      if reply == Flag(true) then RWriteStored(etag, body)
      else if reply == Flag(false) then Unrepaired(pass, etag, body) else RFailed
    case RWriteDeleted(_, body) =>
      if reply.Written? then RDone(Terminalized) else if reply.Lost? then RPreserve(Deleted, body.pointer) else RFailed
    case RWriteStored(_, body) =>
      if reply.Written? then RDone(Terminalized) else if reply.Lost? then RPreserve(Stored, body.pointer) else RFailed
    case RPreserve(state, p) =>
      if reply.Valid? && reply.body.state == state then RDone(Skipped) else HandOff(PendingReview, p)
    case RQuarantine(p) =>
      if reply.RawSeen? && !IsIntact(reply.view, p) then RDone(Skipped)
      else RStartHandoff(PendingReview, p, true)
    case RLedger(etag, body) =>
      if reply == Flag(true) then HandOff(PendingReview, body.pointer)
      else if !ShouldEnqueue(body, pass.now) then RDone(Skipped)
      else if HasSha(body.pointer) then REnqueueDeleted(etag, body) else REnqueue(etag, body)
    case REnqueueDeleted(etag, body) =>
      if reply == Flag(true) then RWriteDeleted(etag, body)
      else if reply == Flag(false) then REnqueue(etag, body) else RFailed
    case REnqueue(etag, body) => if reply.Done? then RAdvance(etag, body) else RFailed
    case RAdvance(_, _) => if reply.Failed? then RFailed else RDone(Reenqueued)
    case RStoredDeleted(etag, body) =>
      if reply == Flag(true) then RWriteDeleted(etag, body)
      else if reply == Flag(false) then RStoredRow(body.pointer) else RFailed
    case RStoredRow(p) => if reply == Flag(true) then RDerived else HandOff(ProjectionMissing, p)
    case RDerived =>
      if reply == Flag(true) then RDone(PendingReview)
      else if reply == Flag(false) then RDone(Skipped) else RFailed
    case RDeletedTruth(p) => if reply == Flag(true) then RDone(Skipped) else HandOff(PendingReview, p)
    case RStartHandoff(outcome, _, tolerant) =>
      if reply.Handle? then RJoinHandoff(reply.task, outcome, tolerant)
      else if tolerant then RDone(outcome) else RFailed
    case RJoinHandoff(_, outcome, tolerant) => if reply.Done? || tolerant then RDone(outcome) else RFailed
    case RDone(outcome) => if pass.active && Completes(outcome) then KRead else KEnd
    case RFailed => KEnd
    case KRead =>
      if !reply.Valid? then KEnd
      else match reply.body.state {
        case Deleted => KDeleted(reply.body)
        case Stored => KRow(reply.body)
        case Forwarded => KClear(reply.body)
        case Rejected => KClear(reply.body)
        case Quarantined => if reply.body.mismatch then KViewRaw(reply.body) else KEnd
        case _ => KEnd
      }
    case KDeleted(body) => if reply == Flag(true) then KClear(body) else KEnd
    case KRow(body) => if reply == Flag(true) then KClear(body) else KEnd
    case KViewRaw(body) =>
      if reply.RawSeen? && reply.view.Seen? && !IsIntact(reply.view, body.pointer) then KClear(body) else KEnd
    case KClear(_) => KEnd
    case KEnd => KEnd
  }

  /** `completed` rather than `retained`: the active marker may be examined. */
  predicate Completes(outcome: Outcome) { outcome.Reenqueued? || outcome.Skipped? || outcome.Terminalized? }

  /** What is known of a receipt that is about to be replaced. */
  predicate Holds(w: World, etag: nat, body: Body) {
    RawPinned(w) && HasSha(body.pointer) && PointerOk(w, body.pointer) && Knows(w, etag, body)
  }

  /** As above, for a receipt from before any recovery. */
  predicate HoldsOriginal(w: World, etag: nat, body: Body) {
    RawPinned(w) && body.pointer.Original? && Knows(w, etag, body) && BodyOk(w, body)
  }

  predicate ReconcilerInv(w: World, pc: Pc) {
    match pc
    case RReceipt(p) => PointerOk(w, p) && (!p.Weak? ==> RawPinned(w)) && (p.Original? ==> Recoverable(w.mail))
    case RMissingDeleted(p) => PointerOk(w, p)
    case RMissingRow(p) => PointerOk(w, p)
    case RReconstruct(state, p) => PointerOk(w, p) && BodyOk(w, Body(state, false, p, 0))
    case RReconstructLost(_, p) => PointerOk(w, p)
    case RProvisioned(etag, body) => HoldsOriginal(w, etag, body) && body.state.Archived? && MayQueue(w)
    case RActive(etag, body) => HoldsOriginal(w, etag, body) && body.state.Archived? && MayQueue(w)
    case RAdmit(etag, body) => HoldsOriginal(w, etag, body) && body.state.Archived? && MayQueue(w)
    case RAdmitReread(p) => p.Original? && RawPinned(w)
    case RRepairDeleted(etag, body) => Holds(w, etag, body) && BodyOk(w, body) && NeedsTruthRepair(body.state)
    case RRepairRow(etag, body) => Holds(w, etag, body) && BodyOk(w, body) && NeedsTruthRepair(body.state)
    case RWriteDeleted(etag, body) =>
      Holds(w, etag, body) && Advances(body.state, Deleted) && BodyOk(w, Body(Deleted, false, body.pointer, 0))
    case RWriteStored(etag, body) => Holds(w, etag, body) && !w.mailbox.Empty? && NeedsTruthRepair(body.state)
    case RPreserve(_, p) => PointerOk(w, p)
    case RQuarantine(p) => PointerOk(w, p)
    case RLedger(etag, body) => HoldsOriginal(w, etag, body) && StaleState(body.state)
    case REnqueueDeleted(etag, body) => HoldsOriginal(w, etag, body) && StaleState(body.state)
    case REnqueue(etag, body) => HoldsOriginal(w, etag, body) && StaleState(body.state)
    case RAdvance(etag, body) => HoldsOriginal(w, etag, body) && StaleState(body.state)
    case RStoredDeleted(etag, body) => Holds(w, etag, body) && body.state.Stored?
    case RStoredRow(p) => PointerOk(w, p)
    case RDeletedTruth(p) => PointerOk(w, p)
    case RStartHandoff(_, p, _) => PointerOk(w, p)
    case KDeleted(body) => MayForward(w.mail, body.pointer) && body.state.Deleted?
    case KRow(body) => MayForward(w.mail, body.pointer) && body.state.Stored?
    case KViewRaw(body) =>
      MayForward(w.mail, body.pointer) && BodyOk(w, body) && body.state.Quarantined? && body.mismatch
    case KClear(_) => Settled(w)
    case _ => true
  }

  predicate StaleState(state: ReceiptState) {
    state.Admitted? || state.Enqueued? || state.Retrying? || state.DeadLetterPending?
  }

  lemma ReconcilerIsStable(w: World, w': World, pc: Pc)
    requires Guarantee(w, w') && ReconcilerInv(w, pc)
    ensures ReconcilerInv(w', pc)
  {
  }

  lemma ReconcilerMayCall(w: World, pass: Pass, pc: Pc)
    requires ReconcilerInv(w, pc)
    ensures Justified(w, Call(pass, pc))
  {
  }

  /** A valid receipt has just been read. */
  lemma ReadingResumes(w: World, pass: Pass, pc: Pc, reply: Reply)
    requires pc.RReceipt? || pc.RAdmitReread?
    requires ReconcilerInv(w, pc) && Tells(w, Call(pass, pc), reply) && PolicyOk(w, pass)
    ensures ReconcilerInv(w, Resume(pass, pc, reply))
  {
  }

  lemma RepairResumes(w: World, pass: Pass, pc: Pc, reply: Reply)
    requires pc.RRepairDeleted? || pc.RRepairRow?
    requires ReconcilerInv(w, pc) && Tells(w, Call(pass, pc), reply) && PolicyOk(w, pass)
    ensures ReconcilerInv(w, Resume(pass, pc, reply))
  {
  }

  /** Clearing the active marker. */
  predicate IsClearing(pc: Pc) {
    pc.RDone? || pc.RFailed? || pc.KRead? || pc.KDeleted? || pc.KRow? || pc.KViewRaw? || pc.KClear? || pc.KEnd?
  }

  lemma ClearingResumes(w: World, pass: Pass, pc: Pc, reply: Reply)
    requires IsClearing(pc)
    requires ReconcilerInv(w, pc) && Tells(w, Call(pass, pc), reply) && PolicyOk(w, pass)
    ensures ReconcilerInv(w, Resume(pass, pc, reply))
  {
  }

  lemma OtherwiseResumes(w: World, pass: Pass, pc: Pc, reply: Reply)
    requires !IsClearing(pc) && !pc.RReceipt? && !pc.RAdmitReread? && !pc.RRepairDeleted? && !pc.RRepairRow?
    requires ReconcilerInv(w, pc) && Tells(w, Call(pass, pc), reply) && PolicyOk(w, pass)
    ensures ReconcilerInv(w, Resume(pass, pc, reply))
  {
  }

  lemma ReconcilerResumes(w: World, pass: Pass, pc: Pc, reply: Reply)
    requires ReconcilerInv(w, pc) && Tells(w, Call(pass, pc), reply) && PolicyOk(w, pass)
    ensures ReconcilerInv(w, Resume(pass, pc, reply))
  {
    if pc.RReceipt? || pc.RAdmitReread? {
      ReadingResumes(w, pass, pc, reply);
    } else if pc.RRepairDeleted? || pc.RRepairRow? {
      RepairResumes(w, pass, pc, reply);
    } else if IsClearing(pc) {
      ClearingResumes(w, pass, pc, reply);
    } else {
      OtherwiseResumes(w, pass, pc, reply);
    }
  }
}
