/** `receiveEmail` as a program that stops at every binding call. */
module InboundIngress {
  import opened InboundStore
  import opened Wrappers

  const RAW_ATTEMPTS := 10
  const RECEIPT_ATTEMPTS := 10
  const MARKER_ATTEMPTS := 10
  const DIGEST_ATTEMPTS := 2
  const PROJECTION_ATTEMPTS := 3

  /** The facts about one delivery that do not depend on any binding: whether the recipient's domain is
      configured and the recipient allowed, and whether the declared size is the real one. */
  datatype Envelope = Envelope(mail: Mail, domainOk: bool, allowed: bool, declaredOk: bool, archivedAt: int)

  predicate Addressed(e: Envelope) { e.mail.recipient.Address? && e.domainOk && e.allowed }

  predicate Admissible(e: Envelope) { Addressed(e) && e.mail.bounded && e.declaredOk }

  datatype DirectResult = Unprovisioned | Unverified | DirectFailed

  datatype Pc =
    | IReadStream | IUnreadMarker | IUnreadActive
    | IDigest
    | IPutRaw(attempt: nat) | IViewRaw(attempt: nat)
    | IPutWeak(attempt: nat) | IViewWeak(attempt: nat)
    | IRedigest(attempt: nat) | IRedigestLost(attempt: nat)
    | IUpgrade(attempt: nat) | IViewUpgrade(attempt: nat)
    | IMarker(attempt: nat)
    | IArchived(attempt: nat)
    | IProvisioned(archived: nat) | IActive(archived: nat)
    | IAdmit(archived: nat, attempt: nat)
    | ISend(admitted: nat, body: Body)
    | IEnqueued(admitted: nat, body: Body, attempt: nat)
    | ISetReject(receipt: Option<nat>)
    | IRejected(archived: nat, attempt: nat) | IRejectReadback
    // with the receipt that was read back, or nothing after a provider acceptance
    | IClear(proof: Option<Body>)
    | IStartHandoff(afterwards: Afterwards) | IJoinHandoff(task: nat, afterwards: Afterwards)
    | IForward(pointer: bool)
    | IStartAcceptance | IJoinAcceptance(task: nat)
    | DMarker(authority: Authority) | DActive(authority: Authority)
    | DDeleted(authority: Authority) | DTombstoned(authority: Authority)
    | DExists(authority: Authority) | DExistsAuthority(authority: Authority) | DExistsDeleted(authority: Authority)
    | DRecheck(authority: Authority, attempt: nat)
    | DProject(authority: Authority, attempt: nat)
    | DErrorDeleted(authority: Authority, attempt: nat, permanent: bool)
    | DErrorExists(authority: Authority, attempt: nat, permanent: bool)
    | DErrorAuthority(authority: Authority)
    | DFinalDeleted(authority: Authority) | DFinalAuthority(authority: Authority)
    | DCatch(authority: Authority)
    | DTerminal(authority: Authority, result: DirectResult)
    | IReturned

  /** What follows a handoff that did not become durable. */
  datatype Afterwards = ThenReturn | ThenForward | ThenReject

  function ReceiptBody(state: ReceiptState, at: int): Body { Body(state, false, Original, at) }

  function ArchivedBody(e: Envelope): Body { ReceiptBody(Archived, e.archivedAt) }

  function AdmittedBody(e: Envelope): Body { ReceiptBody(Admitted, e.archivedAt) }

  /** The fallback asks with the authority it has. */
  function Asked(authority: Authority): Query { if authority.ByDirect? then Direct else Of(Original) }

  function Call(e: Envelope, pc: Pc, now: int): Request {
    match pc
    case IReadStream => ReadStream
    case IUnreadMarker => MailboxMarker
    case IUnreadActive => MailboxActive
    case IDigest => Digest
    case IPutRaw(_) => PutRaw(true)
    case IViewRaw(_) => ViewRaw
    case IPutWeak(_) => PutRaw(false)
    case IViewWeak(_) => ViewRaw
    case IRedigest(_) => Digest
    case IRedigestLost(_) => Digest
    case IUpgrade(_) => UpgradeRaw
    case IViewUpgrade(_) => ViewRaw
    case IMarker(_) => PutMarker
    case IArchived(_) => PutReceipt(CreateOnly, ArchivedBody(e), ProjectionWriter)
    case IProvisioned(_) => MailboxMarker
    case IActive(_) => MailboxActive
    case IAdmit(etag, _) => PutReceipt(Replace(etag, Some(ArchivedBody(e))), AdmittedBody(e), ProjectionWriter)
    case ISend(_, _) => Send
    case IEnqueued(etag, body, _) =>
      PutReceipt(Replace(etag, Some(body)), ReceiptBody(Enqueued, now), ProjectionWriter)
    case ISetReject(_) => SetReject
    case IRejected(etag, _) =>
      PutReceipt(Replace(etag, Some(ArchivedBody(e))), ReceiptBody(Rejected, now), ProjectionWriter)
    case IRejectReadback => GetReceipt(Original)
    case IClear(_) => DeleteMarker
    case IStartHandoff(_) => StartTask(HandoffTask(Original))
    case IJoinHandoff(task, _) => JoinTask(task)
    case IForward(_) => ProviderForward
    case IStartAcceptance => StartTask(AcceptanceTask)
    case IJoinAcceptance(task) => JoinTask(task)
    case DMarker(_) => MailboxMarker
    case DActive(_) => MailboxActive
    case DDeleted(a) => DeletionTruth(Asked(a))
    case DTombstoned(_) => RowDeleted
    case DExists(_) => RowExists
    case DExistsAuthority(a) => ProjectionTruth(Asked(a))
    case DExistsDeleted(a) => DeletionTruth(Asked(a))
    case DRecheck(_, _) => MailboxActive
    case DProject(a, _) => Project(a)
    case DErrorDeleted(a, _, _) => DeletionTruth(Asked(a))
    case DErrorExists(_, _, _) => RowExists
    case DErrorAuthority(a) => ProjectionTruth(Asked(a))
    case DFinalDeleted(a) => DeletionTruth(Asked(a))
    case DFinalAuthority(a) => ProjectionTruth(Asked(a))
    case DCatch(a) => DeletionTruth(Asked(a))
    case DTerminal(a, _) => DeletionTruth(Asked(a))
    case IReturned => NoCall
  }

  /** `recoverWithDirectMailboxOrSmtpAction`: `pointer` tells whether the archive pointer
      exists, `digest` whether a direct authority can be formed instead. */
  function Recover(e: Envelope, pointer: bool, digest: bool): Pc {
    if !Admissible(e) then
      if pointer then IStartHandoff(ThenForward) else if digest then IForward(false) else ISetReject(None)
    else if pointer then DMarker(ByArchive)
    else if digest then DMarker(ByDirect)
    else IForward(false)
  }

  function AfterDirect(authority: Authority, result: DirectResult): Pc { DTerminal(authority, result) }

  /** Retry one bounded step until its attempts are spent. */
  function Again(attempt: nat, limit: nat, again: Pc, spent: Pc): Pc {
    if attempt < limit then again else spent
  }

  /** The object under the key is exactly the one that was put. */
  predicate Found(reply: Reply, p: Pointer) { reply.RawSeen? && IsSame(reply.view, p) }

  function Resume(e: Envelope, pc: Pc, reply: Reply, now: int): Pc {
    match pc
    case IReadStream =>
      if reply.Done? then IDigest else if Addressed(e) then IUnreadMarker else ISetReject(None)
    case IUnreadMarker =>
      if reply == Flag(true) then IUnreadActive else if reply == Flag(false) then ISetReject(None) else IForward(false)
    case IUnreadActive => if reply == Flag(false) then ISetReject(None) else IForward(false)
    case IDigest => if reply.Done? then IPutRaw(1) else IPutWeak(1)
    case IPutRaw(n) =>
      if reply.Done? then IMarker(1) else if reply.Lost? then IViewRaw(n)
      else Again(n, RAW_ATTEMPTS, IPutRaw(n + 1), Recover(e, false, true))
    case IViewRaw(n) =>
      if Found(reply, Original) then IMarker(1)
      else Again(n, RAW_ATTEMPTS, IPutRaw(n + 1), Recover(e, false, true))
    case IPutWeak(n) =>
      if reply.Done? then IRedigest(1) else if reply.Lost? then IViewWeak(n)
      else Again(n, RAW_ATTEMPTS, IPutWeak(n + 1), IRedigestLost(1))
    case IViewWeak(n) =>
      if Found(reply, Weak) then IRedigest(1)
      else Again(n, RAW_ATTEMPTS, IPutWeak(n + 1), IRedigestLost(1))
    case IRedigest(n) =>
      if reply.Done? then IUpgrade(1) else Again(n, DIGEST_ATTEMPTS, IRedigest(n + 1), IForward(false))
    case IRedigestLost(n) =>
      if reply.Done? then Recover(e, false, true)
      else Again(n, DIGEST_ATTEMPTS, IRedigestLost(n + 1), Recover(e, false, false))
    case IUpgrade(n) =>
      if reply.Done? then IMarker(1) else if reply.Lost? then IViewUpgrade(n)
      else Again(n, RAW_ATTEMPTS, IUpgrade(n + 1), Recover(e, false, true))
    case IViewUpgrade(n) =>
      if Found(reply, Original) then IMarker(1)
      else Again(n, RAW_ATTEMPTS, IUpgrade(n + 1), Recover(e, false, true))
    case IMarker(n) =>
      if reply.Done? then IArchived(1) else Again(n, MARKER_ATTEMPTS, IMarker(n + 1), Recover(e, true, false))
    case IArchived(n) =>
      if reply.Written? then
        if Admissible(e) then IProvisioned(reply.etag) else ISetReject(Some(reply.etag))
      else if reply.Lost? then Recover(e, true, false)
      else Again(n, RECEIPT_ATTEMPTS, IArchived(n + 1), Recover(e, true, false))
    case IProvisioned(etag) =>
      if reply == Flag(true) then IActive(etag)
      else if reply == Flag(false) then ISetReject(Some(etag)) else Recover(e, true, false)
    case IActive(etag) =>
      if reply == Flag(true) then IAdmit(etag, 1)
      else if reply == Flag(false) then ISetReject(Some(etag)) else Recover(e, true, false)
    case IAdmit(etag, n) =>
      if reply.Written? then ISend(reply.etag, AdmittedBody(e))
      else if reply.Lost? then Recover(e, true, false)
      else Again(n, RECEIPT_ATTEMPTS, IAdmit(etag, n + 1), Recover(e, true, false))
    case ISend(etag, body) => if reply.Done? then IEnqueued(etag, body, 1) else Recover(e, true, false)
    case IEnqueued(etag, body, n) =>
      if reply.Failed? then Again(n, RECEIPT_ATTEMPTS, IEnqueued(etag, body, n + 1), IReturned) else IReturned
    case ISetReject(receipt) => if receipt.Some? then IRejected(receipt.value, 1) else IReturned
    case IRejected(etag, n) =>
      if reply.Failed? then Again(n, RECEIPT_ATTEMPTS, IRejected(etag, n + 1), IRejectReadback) else IRejectReadback
    case IRejectReadback =>
      if reply.Valid? && reply.body.state.Rejected? then IClear(Some(reply.body)) else IStartHandoff(ThenReturn)
    case IClear(_) => IReturned
    case IStartHandoff(afterwards) =>
      if reply.Handle? then IJoinHandoff(reply.task, afterwards) else AfterFailedHandoff(afterwards)
    case IJoinHandoff(_, afterwards) => if reply.Done? then IReturned else AfterFailedHandoff(afterwards)
    case IForward(pointer) =>
      if reply.Done? then (if pointer then IStartAcceptance else IReturned)
      else if pointer then IStartHandoff(ThenReject) else ISetReject(None)
    case IStartAcceptance => if reply.Handle? then IJoinAcceptance(reply.task) else IReturned
    case IJoinAcceptance(_) => if reply.Done? then IClear(None) else IReturned
    case DMarker(a) =>
      if reply == Flag(true) then DActive(a)
      else AfterDirect(a, if reply == Flag(false) then Unprovisioned else Unverified)
    case DActive(a) =>
      if reply == Flag(true) then DDeleted(a)
      else AfterDirect(a, if reply == Flag(false) then Unprovisioned else Unverified)
    case DDeleted(a) => if reply == Flag(true) then IReturned else DTombstoned(a)
    case DTombstoned(a) =>
      if reply == Flag(true) then AfterDirect(a, Unverified) else if reply == Flag(false) then DExists(a) else DCatch(a)
    case DExists(a) =>
      if reply == Flag(true) then DExistsAuthority(a) else if reply == Flag(false) then DRecheck(a, 1) else DCatch(a)
    case DExistsAuthority(a) => if reply == Flag(true) then DFinalDeleted(a) else DExistsDeleted(a)
    case DExistsDeleted(a) => if reply == Flag(true) then IReturned else AfterDirect(a, Unverified)
    case DRecheck(a, n) =>
      if reply == Flag(true) then DProject(a, n)
      else AfterDirect(a, if reply == Flag(false) then Unprovisioned else Unverified)
    case DProject(a, n) =>
      if reply.Projected? then DFinalDeleted(a) else DErrorDeleted(a, n, reply == ProjectFailed(PermanentMime))
    case DErrorDeleted(a, n, permanent) => if reply == Flag(true) then IReturned else DErrorExists(a, n, permanent)
    case DErrorExists(a, n, permanent) =>
      if reply == Flag(true) then DErrorAuthority(a)
      else if n >= PROJECTION_ATTEMPTS || permanent then DCatch(a) else DRecheck(a, n + 1)
    case DErrorAuthority(a) => if reply == Flag(true) then DFinalDeleted(a) else DExistsDeleted(a)
    case DFinalDeleted(a) => if reply == Flag(true) then IReturned else DFinalAuthority(a)
    case DFinalAuthority(a) => if reply == Flag(true) then IReturned else AfterDirect(a, Unverified)
    case DCatch(a) => if reply == Flag(true) then IReturned else AfterDirect(a, DirectFailed)
    case DTerminal(a, result) =>
      if reply == Flag(true) then IReturned
      else if result.Unprovisioned? && a.ByArchive? then IStartHandoff(ThenForward)
      else IForward(a.ByArchive?)
    case IReturned => IReturned
  }

  function AfterFailedHandoff(afterwards: Afterwards): Pc {
    match afterwards
    case ThenReturn => IReturned
    case ThenForward => IForward(true)
    case ThenReject => ISetReject(None)
  }

  // ---------------------------------------------------------------- invariant

  /** The handler has already asked for an SMTP rejection. */
  predicate HasRejected(pc: Pc) {
    || pc.IRejected? || pc.IRejectReadback?
    || (pc.IStartHandoff? && pc.afterwards.ThenReturn?)
    || (pc.IJoinHandoff? && pc.afterwards.ThenReturn?)
  }

  /** Where the rejection count alone does not tell which way the handler came. */
  predicate MayHaveRejected(pc: Pc) { pc.IClear? || pc.IReturned? }

  predicate IngressInv(e: Envelope, w: World, pc: Pc) {
    && w.mail == e.mail
    && w.rejections <= 1
    && (HasRejected(pc) ==> w.rejections == 1)
    && (!HasRejected(pc) && !MayHaveRejected(pc) ==> w.rejections == 0)
    && match pc
       case IMarker(_) => RawPinned(w)
       case IArchived(_) => RawPinned(w) && Safe(w)
       case IProvisioned(etag) => MayQueue(w) && Safe(w) && Knows(w, etag, ArchivedBody(e))
       case IActive(etag) => MayQueue(w) && Safe(w) && Knows(w, etag, ArchivedBody(e))
       case IAdmit(etag, _) => MayQueue(w) && Safe(w) && Knows(w, etag, ArchivedBody(e))
       case ISend(etag, body) => MayQueue(w) && Safe(w) && Knows(w, etag, body) && body.state.Admitted?
       case IEnqueued(etag, body, _) => MayQueue(w) && Safe(w) && Knows(w, etag, body) && body.state.Admitted?
       case ISetReject(Some(etag)) => Knows(w, etag, ArchivedBody(e))
       case IRejected(etag, _) => Knows(w, etag, ArchivedBody(e))
       case IClear(_) => Settled(w)
       case IStartAcceptance => w.providerAccepted
       case IJoinAcceptance(_) => w.providerAccepted
       case IReturned => w.rejections == 1 || Safe(w)
       case _ => true
  }

  lemma IngressIsStable(e: Envelope, w: World, w': World, pc: Pc)
    requires Guarantee(w, w') && w'.rejections == w.rejections && IngressInv(e, w, pc)
    ensures IngressInv(e, w', pc)
  {
  }

  lemma IngressMayCall(e: Envelope, w: World, pc: Pc, now: int)
    requires IngressInv(e, w, pc)
    ensures Justified(w, Call(e, pc, now))
  {
  }

  /** The direct mailbox fallback. */
  predicate IsDirect(pc: Pc) {
    || pc.DMarker? || pc.DActive? || pc.DDeleted? || pc.DTombstoned? || pc.DExists? || pc.DExistsAuthority?
    || pc.DExistsDeleted? || pc.DRecheck? || pc.DProject? || pc.DErrorDeleted? || pc.DErrorExists?
    || pc.DErrorAuthority? || pc.DFinalDeleted? || pc.DFinalAuthority? || pc.DCatch? || pc.DTerminal?
  }

  /** Reading and archiving the message, before anything depends on a pointer. */
  predicate IsArchiving(pc: Pc) {
    || pc.IReadStream? || pc.IUnreadMarker? || pc.IUnreadActive? || pc.IDigest? || pc.IPutRaw? || pc.IViewRaw?
    || pc.IPutWeak? || pc.IViewWeak? || pc.IRedigest? || pc.IRedigestLost? || pc.IUpgrade? || pc.IViewUpgrade?
  }

  lemma DirectResumes(e: Envelope, w: World, pc: Pc, reply: Reply, now: int)
    requires IngressInv(e, w, pc) && IsDirect(pc)
    requires Tells(w, Call(e, pc, now), reply)
    ensures IngressInv(e, w, Resume(e, pc, reply, now))
  {
  }

  lemma ArchivingResumes(e: Envelope, w: World, pc: Pc, reply: Reply, now: int)
    requires IngressInv(e, w, pc) && IsArchiving(pc)
    requires Tells(w, Call(e, pc, now), reply)
    ensures IngressInv(e, w, Resume(e, pc, reply, now))
  {
  }

  lemma AdmittingResumes(e: Envelope, w: World, pc: Pc, reply: Reply, now: int)
    requires IngressInv(e, w, pc) && !IsDirect(pc) && !IsArchiving(pc) && !pc.ISetReject?
    requires Tells(w, Call(e, pc, now), reply)
    ensures IngressInv(e, w, Resume(e, pc, reply, now))
  {
  }

  /** Any answer the handler can get, including none in time, takes it to a place where
      its invariant holds again. */
  lemma IngressResumes(e: Envelope, w: World, pc: Pc, reply: Reply, now: int)
    requires IngressInv(e, w, pc) && !pc.ISetReject?
    requires Tells(w, Call(e, pc, now), reply)
    ensures IngressInv(e, w, Resume(e, pc, reply, now))
  {
    if IsDirect(pc) {
      DirectResumes(e, w, pc, reply, now);
    } else if IsArchiving(pc) {
      ArchivingResumes(e, w, pc, reply, now);
    } else {
      AdmittingResumes(e, w, pc, reply, now);
    }
  }

  lemma IngressRejects(e: Envelope, w: World, pc: Pc, now: int)
    requires IngressInv(e, w, pc) && pc.ISetReject?
    ensures IngressInv(e, w.(rejections := w.rejections + 1), Resume(e, pc, Done, now))
  {
  }
}
