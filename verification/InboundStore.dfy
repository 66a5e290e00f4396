/** The durable state that one inbound message shares between the SMTP handler, the
    Queue consumers and the reconciler, and the meaning of every binding call on it.

    A binding call is a `Request`. `Perform` says what the call does when it takes
    effect. A bounded call whose caller gave up is kept in `late`: the race that
    produced the timeout does not cancel the call, so it may still take effect at any
    later moment, or never. */
module InboundStore {
  import opened Wrappers

  /** The twelve receipt states. */
  datatype ReceiptState =
    | Archived | Admitted | Enqueued | Retrying | DeadLetterPending | DeadLettered
    | ForwardPending | Forwarded | Stored | Deleted | Rejected | Quarantined

  /** The recipient is blank, is no address (an `@` in more than two characters), or is one. */
  datatype Recipient = Blank | Odd | Address

  /** What no step changes: whether the message has at least one byte and no more than the limit,
      and what its recipient is. */
  datatype Mail = Mail(bounded: bool, recipient: Recipient)

  /** A pointer can be rebuilt from the archive. */
  predicate Recoverable(m: Mail) { m.bounded && !m.recipient.Blank? }

  /** The pointer may be given to the Queues. */
  predicate Forwardable(m: Mail) { m.bounded && m.recipient.Address? }

  /** Which stored object a pointer was made from: the archive with its SHA-256, the archive
      stored without one, or what damaged the archive. A damaged object has an etag of its own;
      `sha` tells whether its metadata name a SHA-256, `alike` whether they name the recipient,
      the size, the time and the digest of the original, `address` whether they name an address. */
  datatype Pointer = Original | Weak | Damaged(copy: nat, sha: bool, alike: bool, address: bool)

  predicate HasSha(p: Pointer) { p.Original? || (p.Damaged? && p.sha) }

  /** `isEmergencyForwardPointer`. */
  predicate MayForward(m: Mail, p: Pointer) {
    match p
    case Original => Forwardable(m)
    case Weak => false
    case Damaged(_, sha, _, address) => sha && address
  }

  /** What a receipt object records. `mismatch` tells whether its error code is the
      raw-integrity mismatch, `at` is the time of its last update. */
  datatype Body = Body(state: ReceiptState, mismatch: bool, pointer: Pointer, at: int)

  datatype Receipt = Receipt(etag: nat, body: Body)

  /** Which authority row accompanies the mailbox row: the archive pointer's, the direct
      SMTP fallback's, or one that no longer matches either. */
  datatype Authority = ByArchive | ByDirect | Drifted

  datatype Mailbox = Empty | Live(authority: Authority) | Tombstone(authority: Authority)

  /** The mailbox is asked about a pointer, or about the direct authority of the message. */
  datatype Query = Of(pointer: Pointer) | Direct

  /** The row's authority is the one asked about. A direct row carries no etag, so it answers
      to every pointer that names the same message; the archive row answers to its own. */
  predicate Answers(authority: Authority, query: Query) {
    match query
    case Direct => !authority.Drifted?
    case Of(p) =>
      match authority {
        case ByArchive => p.Original?
        case ByDirect => p.Original? || (p.Damaged? && p.sha && p.alike)
        case Drifted => false
      }
  }

  /** The raw archive object: absent, stored without a SHA-256, exact, or damaged. The pointer
      of a damaged object is the one its own metadata make, if they make one. */
  datatype Raw = NoRaw | WeakRaw | ExactRaw | BadRaw(pointer: Option<Pointer>)

  datatype Emergency = NoEmergency | Marker(pointer: Pointer, accepted: bool)

  /** What a conditional receipt write relied on: nothing stored yet, or the object with
      this etag, whose body was either read or could not be read as valid. */
  datatype Basis = CreateOnly | Replace(etag: nat, seen: Option<Body>)

  datatype Writer = ProjectionWriter | HandoffWriter | AcceptanceWriter

  datatype TaskKind = HandoffTask(pointer: Pointer) | AcceptanceTask | ReferenceTask

  datatype Request =
    | ReadStream | Digest
    | PutRaw(exact: bool) | UpgradeRaw | ViewRaw
    | GetReceipt(pointer: Pointer) | GetTerminalReceipt | PutReceipt(basis: Basis, body: Body, writer: Writer)
    | PutMarker | DeleteMarker
    | Send
    | MailboxMarker | MailboxActive | TerminalLedger | InspectDerived
    | DeletionTruth(query: Query) | ProjectionTruth(query: Query) | RowExists | RowDeleted
    | Project(authority: Authority)
    | ProviderForward | SetReject
    | GetEmergency | PutEmergency(pointer: Pointer) | RepairEmergency(seen: Emergency, pointer: Pointer)
    | PutAccepted | DeleteEmergency | SendEmergency | FormReference
    | StartTask(kind: TaskKind) | JoinTask(task: nat)
    | Ack | Retry
    | NoCall

  /** A raw object that was read: what its metadata name, and whether its content bears its
      metadata out. */
  datatype RawView = Missing | Seen(pointer: Option<Pointer>, intact: bool, mail: Mail)

  /** The object is the very one the pointer was made from. */
  predicate IsSame(view: RawView, p: Pointer) { view.Seen? && view.pointer == Some(p) && view.intact }

  /** `inboundRawArchiveMatchesPointer`, which also asks for the size. */
  predicate IsIntact(view: RawView, p: Pointer) { IsSame(view, p) && view.mail.bounded }

  /** `pointerFromArchive`. */
  function Recovered(view: RawView): Option<Pointer> {
    if view.Missing? || (view.intact && !Recoverable(view.mail)) then None else view.pointer
  }

  datatype ProjectionError = TerminalLedgerWon | DeletedDuring | PermanentMime | OtherError

  datatype Reply =
    | Done | Lost | Failed
    | Written(etag: nat)
    | Flag(value: bool)
    | Absent | Unreadable(etag: nat) | Valid(etag: nat, body: Body)
    | RawSeen(view: RawView)
    | Projected | ProjectFailed(error: ProjectionError)
    | EmergencySeen(emergency: Emergency)
    | Handle(task: nat)

  /** The answers the environment is free to choose at one call. */
  datatype Probe = Probe(provisioned: bool, active: bool, ledger: bool, derived: bool,
                         readable: bool, projects: bool, failure: ProjectionError, reference: bool)

  datatype World = World(
    mail: Mail,
    raw: Raw,
    receipt: Option<Receipt>,
    nextEtag: nat,
    marker: bool,
    emergency: Emergency,
    providerAccepted: bool,
    mailbox: Mailbox,
    rejections: nat,
    normal: set<nat>,
    dead: set<nat>,
    nextDelivery: nat,
    late: set<Request>)

  function InitialWorld(mail: Mail): World {
    World(mail, NoRaw, None, 0, false, NoEmergency, false, Empty, 0, {}, {}, 0, {})
  }

  // ---------------------------------------------------------------- binding calls

  function ViewOf(w: World): RawView {
    match w.raw
    case NoRaw => Missing
    case WeakRaw => Seen(Some(Weak), true, w.mail)
    case ExactRaw => Seen(Some(Original), true, w.mail)
    case BadRaw(pointer) => Seen(pointer, false, w.mail)
  }

  predicate WriteApplies(w: World, basis: Basis) {
    match basis
    case CreateOnly => w.receipt.None?
    case Replace(etag, _) => w.receipt.Some? && w.receipt.value.etag == etag
  }

  function WithReceipt(w: World, body: Body): World {
    w.(receipt := Some(Receipt(w.nextEtag, body)), nextEtag := w.nextEtag + 1)
  }

  function ProjectInto(w: World, authority: Authority, probe: Probe): (World, Reply) {
    match w.mailbox
    case Empty =>
      if probe.projects then (w.(mailbox := Live(authority)), Projected) else (w, ProjectFailed(probe.failure))
    case Live(_) =>
      if probe.projects then (w, Projected) else (w, ProjectFailed(probe.failure))
    case Tombstone(_) => (w, ProjectFailed(DeletedDuring))
  }

  /** A receipt is valid to its reader if it parses and carries the pointer that is wanted. */
  function ReadReceipt(w: World, probe: Probe, wanted: bool): Reply {
    if w.receipt.None? then Absent
    else if !probe.readable || !wanted then Unreadable(w.receipt.value.etag)
    else Valid(w.receipt.value.etag, w.receipt.value.body)
  }

  /** The effect and the answer of a call that takes effect now. Calls on tasks and on
      Queue dispositions are answered by the scheduler, not by the shared state. */
  function Perform(w: World, request: Request, probe: Probe): (World, Reply) {
    match request
    case ReadStream => (w, Done)
    case Digest => (w, Done)
    case PutRaw(exact) =>
      if w.raw.NoRaw? then (w.(raw := if exact then ExactRaw else WeakRaw), Done) else (w, Lost)
    case UpgradeRaw =>
      if w.raw.WeakRaw? then (w.(raw := ExactRaw), Done) else (w, Lost)
    case ViewRaw => (w, RawSeen(ViewOf(w)))
    case GetReceipt(p) => (w, ReadReceipt(w, probe, w.receipt.Some? && w.receipt.value.body.pointer == p))
    case GetTerminalReceipt =>
      (w, ReadReceipt(w, probe, w.receipt.Some? && MayForward(w.mail, w.receipt.value.body.pointer)))
    case PutReceipt(basis, body, _) =>
      if WriteApplies(w, basis) then (WithReceipt(w, body), Written(w.nextEtag)) else (w, Lost)
    case PutMarker => (w.(marker := true), Done)
    case DeleteMarker => (w.(marker := false), Done)
    case Send =>
      (w.(normal := w.normal + {w.nextDelivery}, nextDelivery := w.nextDelivery + 1), Done)
    case MailboxMarker => (w, Flag(probe.provisioned))
    case MailboxActive => (w, Flag(probe.active))
    case TerminalLedger => (w, Flag(probe.ledger))
    case InspectDerived => (w, Flag(probe.derived))
    case DeletionTruth(query) => (w, Flag(w.mailbox.Tombstone? && Answers(w.mailbox.authority, query)))
    case ProjectionTruth(query) => (w, Flag(w.mailbox.Live? && Answers(w.mailbox.authority, query)))
    case RowExists => (w, Flag(w.mailbox.Live?))
    case RowDeleted => (w, Flag(w.mailbox.Tombstone?))
    case Project(authority) => ProjectInto(w, authority, probe)
    case ProviderForward => (w.(providerAccepted := true), Done)
    case SetReject => (w.(rejections := w.rejections + 1), Done)
    case GetEmergency => (w, EmergencySeen(w.emergency))
    case PutEmergency(p) =>
      (if w.emergency.NoEmergency? then w.(emergency := Marker(p, false)) else w, Done)
    case RepairEmergency(seen, p) =>
      (if w.emergency.Marker? && w.emergency == seen then w.(emergency := Marker(p, false)) else w, Done)
    case PutAccepted => (w.(emergency := Marker(Original, true)), Done)
    case DeleteEmergency => (w.(emergency := NoEmergency), Done)
    case SendEmergency => (w, Done)
    case FormReference => (w, Flag(probe.reference))
    case StartTask(_) => (w, Failed)
    case JoinTask(_) => (w, Failed)
    case Ack => (w, Failed)
    case Retry => (w, Failed)
    case NoCall => (w, Failed)
  }

  /** Calls the scheduler answers itself. */
  predicate IsScheduled(request: Request) {
    request.StartTask? || request.JoinTask? || request.Ack? || request.Retry? || request.NoCall?
  }

  /** A bounded call whose caller stopped waiting: it stays behind. */
  function Abandon(w: World, request: Request): World {
    if IsScheduled(request) || request.SetReject? then w else w.(late := w.late + {request})
  }

  // ---------------------------------------------------------------- what stays true

  /** The message has reached one of its ends. Every disjunct is permanent. */
  predicate Settled(w: World) {
    !w.mailbox.Empty? || w.providerAccepted || w.rejections > 0 || w.raw.BadRaw?
  }

  /** Somebody besides the SMTP handler is durably responsible for the message. */
  predicate Durable(w: World) { Settled(w) || !w.emergency.NoEmergency? }

  predicate Safe(w: World) { Durable(w) || w.marker }

  predicate RawPinned(w: World) { w.raw.ExactRaw? || w.raw.BadRaw? }

  /** Pointers of damaged objects exist only once there is damage. */
  predicate PointerOk(w: World, p: Pointer) { p.Damaged? ==> w.raw.BadRaw? }

  /** The receipts that recovery writes, with whatever pointer it recovered. */
  predicate IsRecovery(body: Body) {
    || body.state.ForwardPending? || body.state.Forwarded? || body.state.Stored? || body.state.Deleted?
    || (body.state.Quarantined? && body.mismatch)
  }

  /** The receipts of mail on its way through the Queue. */
  predicate IsQueued(state: ReceiptState) {
    state.Admitted? || state.Enqueued? || state.Retrying? || state.DeadLetterPending? || state.DeadLettered?
  }

  /** A receipt may say `body` only when the world already bears it out. */
  predicate BodyOk(w: World, body: Body) {
    && (HasSha(body.pointer) || body.state.Stored?)
    && PointerOk(w, body.pointer)
    && (body.pointer.Damaged? ==> IsRecovery(body))
    && (IsQueued(body.state) ==> Forwardable(w.mail))
    && match body.state
       case Stored => !w.mailbox.Empty?
       case Deleted => w.mailbox.Tombstone? && Answers(w.mailbox.authority, Of(body.pointer))
       case Forwarded => w.providerAccepted
       case Rejected => w.rejections > 0
       case Quarantined => body.mismatch ==> w.raw.BadRaw?
       case _ => true
  }

  /** The receipt with this etag, if it is still there, says `body`. */
  predicate Knows(w: World, etag: nat, body: Body) {
    && etag < w.nextEtag
    && (w.receipt.Some? && w.receipt.value.etag == etag ==> w.receipt.value.body == body)
  }

  predicate BasisOk(w: World, basis: Basis) {
    match basis
    case CreateOnly => true
    case Replace(etag, Some(body)) => Knows(w, etag, body)
    case Replace(etag, None) => etag < w.nextEtag
  }

  /** The order in which valid receipts are meant to advance. */
  predicate Advances(before: ReceiptState, after: ReceiptState) {
    match before
    case Deleted => after.Deleted?
    case Rejected => after.Rejected?
    case Forwarded => after.Forwarded?
    case Stored => after.Stored? || after.Deleted?
    case _ => true
  }

  /** The states the Queue consumer writes. */
  predicate IsFinalization(state: ReceiptState) { state.Stored? || state.Deleted? || state.Quarantined? }

  predicate WriterMay(writer: Writer, basis: Basis, body: Body) {
    match writer
    case ProjectionWriter =>
      basis.Replace? ==>
        if basis.seen.Some? then Advances(basis.seen.value.state, body.state) else IsFinalization(body.state)
    case HandoffWriter =>
      && body.state.ForwardPending?
      && (basis.Replace? && basis.seen.Some? ==>
            !basis.seen.value.state.Forwarded? && !basis.seen.value.state.Rejected?)
    case AcceptanceWriter => body.state.Forwarded?
  }

  /** What an actor must know before it may issue a call. */
  predicate Justified(w: World, request: Request) {
    match request
    case PutReceipt(basis, body, writer) =>
      BodyOk(w, body) && BasisOk(w, basis) && WriterMay(writer, basis, body)
    case DeleteMarker => Settled(w)
    case DeleteEmergency => Settled(w)
    case PutAccepted => w.providerAccepted
    case Send => MayQueue(w)
    case _ => true
  }

  /** The message may be sent to the Queue. */
  predicate MayQueue(w: World) { RawPinned(w) && Forwardable(w.mail) }

  predicate WorldInv(w: World) {
    && (w.receipt.Some? ==> w.receipt.value.etag < w.nextEtag && BodyOk(w, w.receipt.value.body))
    && (w.emergency.Marker? && w.emergency.accepted ==> w.providerAccepted)
    && (w.raw.BadRaw? && w.raw.pointer.Some? ==> w.raw.pointer.value.Damaged?)
    && (w.normal + w.dead != {} ==> MayQueue(w))
    && (forall id :: id in w.normal + w.dead ==> id < w.nextDelivery)
    && (forall request :: request in w.late ==> Justified(w, request) && !request.SetReject? && !IsScheduled(request))
  }

  /** What any step of any actor may do to the state the others rely on. */
  predicate Guarantee(w: World, w': World) {
    && w'.mail == w.mail
    && (!w.mailbox.Empty? ==> !w'.mailbox.Empty?)
    && (w.mailbox.Tombstone? ==> w'.mailbox == w.mailbox)
    && (w.providerAccepted ==> w'.providerAccepted)
    && w.rejections <= w'.rejections
    && (w.raw.BadRaw? ==> w'.raw.BadRaw?)
    && (RawPinned(w) ==> RawPinned(w'))
    && w.nextEtag <= w'.nextEtag
    && (w'.receipt == w.receipt || (w'.receipt.Some? && w'.receipt.value.etag >= w.nextEtag))
    && (Durable(w) ==> Durable(w'))
    && (Safe(w) ==> Safe(w'))
  }

  lemma GuaranteeIsTransitive(a: World, b: World, c: World)
    requires Guarantee(a, b) && Guarantee(b, c)
    requires WorldInv(a) && WorldInv(b)
    ensures Guarantee(a, c)
  {
  }

  /** What an actor knew stays known whatever the others do. */
  lemma KnowledgeIsStable(w: World, w': World)
    requires Guarantee(w, w')
    ensures forall body :: BodyOk(w, body) ==> BodyOk(w', body)
    ensures forall basis :: BasisOk(w, basis) ==> BasisOk(w', basis)
    ensures forall request :: Justified(w, request) ==> Justified(w', request)
  {
    forall basis | BasisOk(w, basis) ensures BasisOk(w', basis) {
    }
    forall request | Justified(w, request) ensures Justified(w', request) {
    }
  }

  /** An object that was seen intact is pinned, one that was not is damaged. */
  predicate ViewTells(w: World, view: RawView)
    requires view.Seen?
  {
    && view.mail == w.mail
    && (!view.intact ==> w.raw.BadRaw? && (view.pointer.Some? ==> view.pointer.value.Damaged?))
    && (view.intact ==> view.pointer.Some? && !view.pointer.value.Damaged?)
    && (view.intact && view.pointer == Some(Original) ==> RawPinned(w))
    && (view.intact && view.pointer == Some(Weak) ==> w.raw.WeakRaw?)
  }

  /** What an answer to a call teaches its caller about the world it comes back to. */
  predicate Tells(w: World, request: Request, reply: Reply) {
    match request
    case PutRaw(exact) => reply.Done? && exact ==> RawPinned(w)
    case UpgradeRaw => reply.Done? ==> RawPinned(w)
    case ViewRaw => reply.RawSeen? && reply.view.Seen? ==> ViewTells(w, reply.view)
    case PutReceipt(_, body, _) => reply.Written? ==> Knows(w, reply.etag, body)
    case GetReceipt(p) =>
      && (reply.Valid? ==> Knows(w, reply.etag, reply.body) && BodyOk(w, reply.body) && reply.body.pointer == p)
      && (reply.Unreadable? ==> reply.etag < w.nextEtag)
    case GetTerminalReceipt => reply.Valid? ==> BodyOk(w, reply.body) && MayForward(w.mail, reply.body.pointer)
    case PutMarker => reply.Done? ==> w.marker
    case DeletionTruth(query) =>
      reply == Flag(true) ==> w.mailbox.Tombstone? && Answers(w.mailbox.authority, query)
    case ProjectionTruth(_) => reply == Flag(true) ==> !w.mailbox.Empty?
    case RowExists => reply == Flag(true) ==> !w.mailbox.Empty?
    case RowDeleted => reply == Flag(true) ==> !w.mailbox.Empty?
    case Project(_) => reply.Projected? ==> !w.mailbox.Empty?
    case ProviderForward => reply.Done? ==> w.providerAccepted
    case SetReject => reply.Done? ==> w.rejections > 0
    case GetEmergency =>
      reply.EmergencySeen? && !reply.emergency.NoEmergency? ==>
        Durable(w) && (reply.emergency.accepted ==> w.providerAccepted)
    case JoinTask(_) => reply.Done? ==> Durable(w)
    case _ => true
  }

  lemma PerformTells(w: World, request: Request, probe: Probe)
    requires WorldInv(w) && !IsScheduled(request)
    ensures var (w', reply) := Perform(w, request, probe); Tells(w', request, reply)
  {
  }

  /** A justified call that takes effect keeps the invariant and the guarantee. */
  lemma PerformKeeps(w: World, request: Request, probe: Probe)
    requires WorldInv(w) && Justified(w, request)
    ensures WorldInv(Perform(w, request, probe).0)
    ensures Guarantee(w, Perform(w, request, probe).0)
    ensures Perform(w, request, probe).0.late == w.late
  {
    var w' := Perform(w, request, probe).0;
    assert Guarantee(w, w');
    KnowledgeIsStable(w, w');
  }

  lemma AbandonKeeps(w: World, request: Request)
    requires WorldInv(w) && Justified(w, request)
    ensures WorldInv(Abandon(w, request))
    ensures Guarantee(w, Abandon(w, request))
  {
    KnowledgeIsStable(w, Abandon(w, request));
  }

  /** An abandoned call takes effect once. */
  function TakeLate(w: World, request: Request, probe: Probe): World {
    var w' := Perform(w, request, probe).0;
    w'.(late := w'.late - {request})
  }

  lemma TakeLateKeeps(w: World, request: Request, probe: Probe)
    requires WorldInv(w) && request in w.late
    ensures var w' := TakeLate(w, request, probe);
            WorldInv(w') && Guarantee(w, w') && w'.rejections == w.rejections
  {
    PerformKeeps(w, request, probe);
    KnowledgeIsStable(Perform(w, request, probe).0, TakeLate(w, request, probe));
  }
}
