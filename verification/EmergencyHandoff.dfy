/** The emergency handoff and the ingress acceptance commit, as programs that stop at
    every binding call. `Call` is the call a program is stopped at, `Resume` is where it
    goes once that call has answered. A handoff runs on even if its caller stopped
    waiting for it. */
module EmergencyHandoff {
  import opened InboundStore
  import opened Wrappers

  /** `p` is the pointer the handoff was given. A marker of another pointer is invalid to it, and
      is replaced only if a pending receipt or the raw object vouches for `p`. */
  datatype Task =
    | HReadMarker(p: Pointer)
    | HCreateMarker(p: Pointer)
    | HRepairReceipt(p: Pointer, seen: Emergency)
    | HRepairRaw(p: Pointer, seen: Emergency)
    | HRepairMarker(p: Pointer, seen: Emergency)
    | HRereadMarker(p: Pointer)
    | HReadReceipt(p: Pointer, accepted: bool)
    | HCommitForwarded(p: Pointer, basis: Basis)
    | HCheckForwarded(p: Pointer)
    | HPutPending(p: Pointer, basis: Basis)
    | HCheckPending(p: Pointer)
    | HRecheckMarker(p: Pointer)
    | HSend
    | HClearMarker
    | TDone
    | TFailed
    | AViewRaw
    | APutAccepted
    | AReadReceipt
    | APutForwarded(basis: Basis)
    | ACheckForwarded
    | AReference(committed: bool)
    | AStartReference(committed: bool)
    | AJoinReference(task: nat, committed: bool)
    | AClearMarker
    | ADone
    | BMarker
    | BReadReceipt
    | BPutForwarded(basis: Basis)

  /** A pointer that may not be forwarded is refused at once. The last kind is the second, best-effort
      part of an acceptance commit, which adds the provider's reference to the marker and commits the
      receipt once more. */
  function Start(kind: TaskKind, mail: Mail): Task {
    match kind
    case HandoffTask(p) => if MayForward(mail, p) then HReadMarker(p) else TFailed
    case AcceptanceTask => if Forwardable(mail) then AViewRaw else TFailed
    case ReferenceTask => BMarker
  }

  /** The acceptance commit; a task is one from its start to its end. */
  predicate IsAcceptance(task: Task) {
    || task.AViewRaw? || task.APutAccepted? || task.AReadReceipt? || task.APutForwarded? || task.ACheckForwarded?
    || task.AReference? || task.AStartReference? || task.AJoinReference? || task.AClearMarker? || task.ADone?
  }

  predicate Succeeded(task: Task) { task.TDone? || task.ADone? }

  function Receipt(state: ReceiptState, p: Pointer, now: int): Body { Body(state, false, p, now) }

  function Call(task: Task, now: int): Request {
    match task
    case HReadMarker(_) => GetEmergency
    case HCreateMarker(p) => PutEmergency(p)
    case HRepairReceipt(p, _) => GetReceipt(p)
    case HRepairRaw(_, _) => ViewRaw
    case HRepairMarker(p, seen) => RepairEmergency(seen, p)
    case HRereadMarker(_) => GetEmergency
    case HReadReceipt(p, _) => GetReceipt(p)
    case HCommitForwarded(p, basis) => PutReceipt(basis, Receipt(Forwarded, p, now), AcceptanceWriter)
    case HCheckForwarded(p) => GetReceipt(p)
    case HPutPending(p, basis) => PutReceipt(basis, Receipt(ForwardPending, p, now), HandoffWriter)
    case HCheckPending(p) => GetReceipt(p)
    case HRecheckMarker(_) => GetEmergency
    case HSend => SendEmergency
    case HClearMarker => DeleteEmergency
    case AViewRaw => ViewRaw
    case APutAccepted => PutAccepted
    case AReadReceipt => GetReceipt(Original)
    case APutForwarded(basis) => PutReceipt(basis, Receipt(Forwarded, Original, now), AcceptanceWriter)
    case ACheckForwarded => GetReceipt(Original)
    case AReference(_) => FormReference
    case AStartReference(_) => StartTask(ReferenceTask)
    case AJoinReference(t, _) => JoinTask(t)
    case AClearMarker => DeleteEmergency
    case BMarker => GetEmergency
    case BReadReceipt => GetReceipt(Original)
    case BPutForwarded(basis) => PutReceipt(basis, Receipt(Forwarded, Original, now), AcceptanceWriter)
    case TDone => NoCall
    case TFailed => NoCall
    case ADone => NoCall
  }

  /** The condition a conditional receipt write uses after this read. */
  function BasisOf(reply: Reply): Basis {
    match reply
    case Valid(etag, body) => Replace(etag, Some(body))
    case Unreadable(etag) => Replace(etag, None)
    case _ => CreateOnly
  }

  /** A marker that is there and carries the pointer `p`. */
  predicate SeesMarker(reply: Reply, p: Pointer) {
    reply.EmergencySeen? && reply.emergency.Marker? && reply.emergency.pointer == p
  }

  function AfterReceipt(p: Pointer, accepted: bool, reply: Reply): Task {
    if reply.Failed? then TFailed
    else if accepted then HCommitForwarded(p, BasisOf(reply))
    else if reply.Valid? && (reply.body.state.Forwarded? || reply.body.state.Rejected?) then HClearMarker
    else if reply.Valid? && reply.body.state.ForwardPending? then HRecheckMarker(p)
    else HPutPending(p, BasisOf(reply))
  }

  /** A receipt that still asks for the emergency forward. */
  predicate AsksForForward(body: Body) { body.state.ForwardPending? || (body.state.Quarantined? && !body.mismatch) }

  /** The emergency marker goes if the first commit succeeded, however the second one ended. */
  function AfterReference(committed: bool): Task { if committed then AClearMarker else ADone }

  function Resume(task: Task, reply: Reply): Task {
    match task
    case HReadMarker(p) =>
      if reply == EmergencySeen(NoEmergency) then HCreateMarker(p)
      else if SeesMarker(reply, p) then HReadReceipt(p, reply.emergency.accepted)
      else if reply.EmergencySeen? then HRepairReceipt(p, reply.emergency) else TFailed
    case HCreateMarker(p) => if reply.Done? then HRereadMarker(p) else TFailed
    case HRepairReceipt(p, seen) =>
      if reply.Failed? then TFailed
      else if reply.Valid? && AsksForForward(reply.body) then HRepairMarker(p, seen) else HRepairRaw(p, seen)
    case HRepairRaw(p, seen) =>
      if reply.RawSeen? && IsIntact(reply.view, p) then HRepairMarker(p, seen) else TFailed
    case HRepairMarker(p, _) => if reply.Done? then HRereadMarker(p) else TFailed
    case HRereadMarker(p) => if SeesMarker(reply, p) then HReadReceipt(p, reply.emergency.accepted) else TFailed
    case HReadReceipt(p, accepted) => AfterReceipt(p, accepted, reply)
    case HCommitForwarded(p, _) => if reply.Failed? then TFailed else HCheckForwarded(p)
    case HCheckForwarded(_) => if reply.Valid? && reply.body.state.Forwarded? then HClearMarker else TFailed
    case HPutPending(p, _) =>
      if reply.Written? then HRecheckMarker(p) else if reply.Lost? then HCheckPending(p) else TFailed
    case HCheckPending(p) => if reply.Valid? && reply.body.state.ForwardPending? then HRecheckMarker(p) else TFailed
    case HRecheckMarker(p) => if SeesMarker(reply, p) then HSend else TFailed
    case HSend => if reply.Done? then TDone else TFailed
    case HClearMarker => TDone
    case AViewRaw => if reply.RawSeen? && IsIntact(reply.view, Original) then APutAccepted else TFailed
    case APutAccepted => if reply.Done? then AReadReceipt else TFailed
    case AReadReceipt => if reply.Failed? then TFailed else APutForwarded(BasisOf(reply))
    case APutForwarded(_) => if reply.Failed? then TFailed else ACheckForwarded
    case ACheckForwarded =>
      if reply.Failed? then TFailed else AReference(reply.Valid? && reply.body.state.Forwarded?)
    case AReference(committed) => if reply == Flag(true) then AStartReference(committed) else AfterReference(committed)
    case AStartReference(committed) =>
      if reply.Handle? then AJoinReference(reply.task, committed) else AfterReference(committed)
    case AJoinReference(_, committed) => AfterReference(committed)
    case AClearMarker => ADone
    case BMarker => if reply.Failed? then TFailed else BReadReceipt
    case BReadReceipt => if reply.Failed? then TFailed else BPutForwarded(BasisOf(reply))
    case BPutForwarded(_) => if reply.Failed? then TFailed else TDone
    case TDone => TDone
    case TFailed => TFailed
    case ADone => ADone
  }

  /** What a handoff may do with its pointer. */
  predicate MayUse(w: World, p: Pointer) { MayForward(w.mail, p) && PointerOk(w, p) }

  /** What a task knows where it stands. */
  predicate TaskInv(w: World, task: Task) {
    match task
    case HReadMarker(p) => MayUse(w, p)
    case HCreateMarker(p) => MayUse(w, p)
    case HRepairReceipt(p, _) => MayUse(w, p) && Durable(w)
    case HRepairRaw(p, _) => MayUse(w, p) && Durable(w)
    case HRepairMarker(p, _) => MayUse(w, p) && Durable(w)
    case HRereadMarker(p) => MayUse(w, p)
    case HReadReceipt(p, accepted) => MayUse(w, p) && Durable(w) && (accepted ==> w.providerAccepted)
    case HCommitForwarded(p, basis) => MayUse(w, p) && w.providerAccepted && BasisOk(w, basis)
    case HCheckForwarded(_) => w.providerAccepted
    case HPutPending(p, basis) =>
      MayUse(w, p) && Durable(w) && BasisOk(w, basis) && WriterMay(HandoffWriter, basis, Receipt(ForwardPending, p, 0))
    case HCheckPending(_) => Durable(w)
    case HRecheckMarker(_) => Durable(w)
    case HSend => Durable(w)
    case HClearMarker => Settled(w)
    case TDone => Durable(w)
    case TFailed => true
    case AReadReceipt => w.providerAccepted
    case APutForwarded(basis) => w.providerAccepted && BasisOk(w, basis)
    case AClearMarker => w.providerAccepted
    case ADone => w.providerAccepted
    case BPutForwarded(basis) => w.providerAccepted && BasisOk(w, basis)
    case _ => w.providerAccepted
  }

  lemma TaskIsStable(w: World, w': World, task: Task)
    requires Guarantee(w, w') && TaskInv(w, task)
    ensures TaskInv(w', task)
  {
    KnowledgeIsStable(w, w');
  }

  lemma TaskMayCall(w: World, task: Task, now: int)
    requires TaskInv(w, task)
    ensures Justified(w, Call(task, now))
  {
  }

  lemma TaskResumes(w: World, task: Task, reply: Reply, now: int)
    requires TaskInv(w, task) && Tells(w, Call(task, now), reply)
    ensures TaskInv(w, Resume(task, reply))
  {
  }
}
