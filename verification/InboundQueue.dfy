/** The Queue and dead-letter consumers. `Item` is `processInboundMessage` (or the
    dead-letter item) stopped at a binding call; `Attempt` adds the deadline wrapper and
    the disposition that lets only its first open settlement reach the Queue. */
module InboundQueue {
  import opened InboundStore
  import opened EmergencyHandoff

  datatype Truth = TruthDeleted | TruthStored | TruthNone

  /** `body` is the receipt whose authority is being checked, or has been. `final` tells the
      check of a receipt this consumer finalised from the one it found on arrival. */
  datatype Item =
    | CRead
    | CAuthorityRaw(body: Body, final: bool)
    | CAuthorityDeleted(body: Body, final: bool)
    | CAuthorityProjected(body: Body, final: bool)
    | CAuthorityRow(body: Body, final: bool)
    | CClear(body: Body) | CAck(body: Body)
    | CMailboxMarker | CActive
    | CTruthDeleted | CTruthProjected | CRow(truth: Truth)
    | CViewRaw | CActiveAgain | CProject
    | CDeletedDuring | CAmbiguousDeleted | CAmbiguousProjected
    | CWriteRead(state: ReceiptState)
    | CWrite(basis: Basis, state: ReceiptState)
    | CWinner
    | CStartHandoff | CJoinHandoff(task: nat) | CRetry
    | XStart | XJoin(task: nat) | XAck
    | CEnd

  /** `writeReceipt` marks a quarantine written here as a raw-integrity mismatch. */
  function FinalBody(state: ReceiptState, now: int): Body { Body(state, state.Quarantined?, Original, now) }

  function CallOf(item: Item, now: int): Request {
    match item
    case CRead => GetReceipt(Original)
    case CAuthorityRaw(_, _) => ViewRaw
    case CAuthorityDeleted(_, _) => DeletionTruth(Of(Original))
    case CAuthorityProjected(_, _) => ProjectionTruth(Of(Original))
    case CAuthorityRow(_, _) => RowExists
    case CClear(_) => DeleteMarker
    case CAck(_) => Ack
    case CMailboxMarker => MailboxMarker
    case CActive => MailboxActive
    case CTruthDeleted => DeletionTruth(Of(Original))
    case CTruthProjected => ProjectionTruth(Of(Original))
    case CRow(_) => RowExists
    case CViewRaw => ViewRaw
    case CActiveAgain => MailboxActive
    case CProject => Project(ByArchive)
    case CDeletedDuring => DeletionTruth(Of(Original))
    case CAmbiguousDeleted => DeletionTruth(Of(Original))
    case CAmbiguousProjected => ProjectionTruth(Of(Original))
    case CWriteRead(_) => GetReceipt(Original)
    case CWrite(basis, state) => PutReceipt(basis, FinalBody(state, now), ProjectionWriter)
    case CWinner => GetReceipt(Original)
    case CStartHandoff => StartTask(HandoffTask(Original))
    case CJoinHandoff(task) => JoinTask(task)
    case CRetry => Retry
    case XStart => StartTask(HandoffTask(Original))
    case XJoin(task) => JoinTask(task)
    case XAck => Ack
    case CEnd => NoCall
  }

  /** `exactReceiptIsSuppression`. */
  predicate Suppresses(body: Body) {
    body.state.Rejected? || (body.state.Quarantined? && body.mismatch)
  }

  /** The receipts whose authority is checked before anything is released. */
  predicate ClaimsTerminal(body: Body) {
    body.state.Stored? || body.state.Deleted? || body.state.Forwarded? || Suppresses(body)
  }

  function Unproven(final: bool): Item { if final then CStartHandoff else CMailboxMarker }

  /** The first check of `exactTerminalReceiptIsAuthoritative`. */
  function CheckAuthority(body: Body, final: bool): Item {
    match body.state
    case Forwarded => CClear(body)
    case Rejected => CClear(body)
    case Quarantined => CAuthorityRaw(body, final)
    case Stored => CAuthorityDeleted(body, final)
    case Deleted => CAuthorityDeleted(body, final)
    case _ => Unproven(final)
  }

  function OnArrival(body: Body): Item {
    if ClaimsTerminal(body) then CheckAuthority(body, false)
    else match body.state
      case ForwardPending => CStartHandoff
      case DeadLettered => CStartHandoff
      case Quarantined => CStartHandoff
      case DeadLetterPending => CStartHandoff
      case _ => CMailboxMarker
  }

  /** `isTerminalReceiptState`. */
  predicate IsTerminalState(state: ReceiptState) {
    state.Stored? || state.Deleted? || state.Rejected? || state.Forwarded?
  }

  /** `writeReceipt` leaves this receipt as it is. */
  predicate Outranks(current: ReceiptState, state: ReceiptState) {
    && current != state
    && ((IsTerminalState(current) && !(current.Stored? && state.Deleted?))
        || (current.DeadLetterPending? && state.Retrying?))
  }

  function OnWinner(reply: Reply): Item {
    if reply.Valid? && ClaimsTerminal(reply.body) then CheckAuthority(reply.body, true) else CStartHandoff
  }

  function BeforeWrite(state: ReceiptState, reply: Reply): Item {
    if reply.Valid? && Outranks(reply.body.state, state) then OnWinner(reply)
    else CWrite(BasisOf(reply), state)
  }

  function ResumeItem(item: Item, reply: Reply): Item {
    match item
    case CRead => if reply.Valid? then OnArrival(reply.body) else CStartHandoff
    case CAuthorityRaw(body, final) =>
      if reply.RawSeen? && SeenDamaged(reply.view) then CClear(body) else Unproven(final)
    case CAuthorityDeleted(body, final) =>
      if body.state.Deleted? then (if reply == Flag(true) then CClear(body) else Unproven(final))
      else if reply == Flag(false) then CAuthorityProjected(body, final) else Unproven(final)
    case CAuthorityProjected(body, final) => if reply == Flag(true) then CAuthorityRow(body, final) else Unproven(final)
    case CAuthorityRow(body, final) => if reply == Flag(true) then CClear(body) else Unproven(final)
    case CClear(body) => CAck(body)
    case CAck(_) => CEnd
    case CMailboxMarker => if reply == Flag(true) then CActive else CStartHandoff
    case CActive => if reply == Flag(true) then CTruthDeleted else CStartHandoff
    case CTruthDeleted =>
      if reply == Flag(true) then CRow(TruthDeleted)
      else if reply == Flag(false) then CTruthProjected else CStartHandoff
    case CTruthProjected =>
      if reply == Flag(true) then CRow(TruthStored)
      else if reply == Flag(false) then CRow(TruthNone) else CStartHandoff
    case CRow(truth) =>
      if !reply.Flag? then CStartHandoff
      else if truth.TruthDeleted? then CWriteRead(Deleted)
      else if reply.value then (if truth.TruthStored? then CWriteRead(Stored) else CStartHandoff)
      else CViewRaw
    case CViewRaw =>
      if !reply.RawSeen? || reply.view.Missing? then CStartHandoff
      else if IsIntact(reply.view, Original) then CActiveAgain
      else CWriteRead(Quarantined)
    case CActiveAgain => if reply == Flag(true) then CProject else CStartHandoff
    case CProject =>
      if reply.Projected? then CWriteRead(Stored)
      else if reply == ProjectFailed(DeletedDuring) then CDeletedDuring
      else if reply == ProjectFailed(TerminalLedgerWon) || reply == ProjectFailed(PermanentMime) then CStartHandoff
      else CAmbiguousDeleted
    case CDeletedDuring => if reply == Flag(true) then CWriteRead(Deleted) else CStartHandoff
    case CAmbiguousDeleted =>
      if reply == Flag(true) then CWriteRead(Deleted)
      else if reply == Flag(false) then CAmbiguousProjected else CStartHandoff
    case CAmbiguousProjected => if reply == Flag(true) then CWriteRead(Stored) else CStartHandoff
    case CWriteRead(state) => BeforeWrite(state, reply)
    case CWrite(_, _) => if reply.Failed? then CStartHandoff else CWinner
    case CWinner => OnWinner(reply)
    case CStartHandoff => if reply.Handle? then CJoinHandoff(reply.task) else CRetry
    case CJoinHandoff(_) => CRetry
    case CRetry => CEnd
    case XStart => if reply.Handle? then XJoin(reply.task) else CEnd
    case XJoin(_) => if reply.Done? then XAck else CEnd
    case XAck => CEnd
    case CEnd => CEnd
  }

  /** The raw object is there and is not the archived one. */
  predicate SeenDamaged(view: RawView) { view.Seen? && !IsIntact(view, Original) }

  predicate ItemInv(w: World, item: Item) {
    && MayQueue(w)
    && match item
       case CClear(_) => Settled(w)
       case CAck(_) => Settled(w)
       case CAuthorityRaw(body, _) =>
           body.pointer.Original? && BodyOk(w, body) && body.state.Quarantined? && body.mismatch
       case CAuthorityDeleted(body, _) => body.pointer.Original? && (body.state.Stored? || body.state.Deleted?)
       case CAuthorityProjected(body, _) => body.pointer.Original? && body.state.Stored?
       case CAuthorityRow(body, _) => body.pointer.Original? && body.state.Stored?
       case CRow(truth) =>
         && (truth.TruthDeleted? ==> w.mailbox.Tombstone? && Answers(w.mailbox.authority, Of(Original)))
         && (truth.TruthStored? ==> !w.mailbox.Empty?)
       case CWriteRead(state) => IsFinalization(state) && BodyOk(w, FinalBody(state, 0))
       case CWrite(basis, state) =>
         && IsFinalization(state) && BodyOk(w, FinalBody(state, 0))
         && BasisOk(w, basis)
         && WriterMay(ProjectionWriter, basis, FinalBody(state, 0))
       case XAck => Durable(w)
       case _ => true
  }

  lemma ItemIsStable(w: World, w': World, item: Item)
    requires Guarantee(w, w') && ItemInv(w, item)
    ensures ItemInv(w', item)
  {
    KnowledgeIsStable(w, w');
  }

  lemma ItemMayCall(w: World, item: Item, now: int)
    requires ItemInv(w, item)
    ensures Justified(w, CallOf(item, now))
  {
  }

  lemma ItemResumes(w: World, item: Item, reply: Reply, now: int)
    requires ItemInv(w, item) && Tells(w, CallOf(item, now), reply)
    ensures ItemInv(w, ResumeItem(item, reply))
  {
  }

  // ---------------------------------------------------------------- the deadline wrapper

  datatype Wrapper = WWaiting | WStartHandoff | WJoin(task: nat) | WSettle(durable: bool) | WEnd

  /** One delivery of one Queue message. `open` is the scope given to the item, `settled`
      whether the disposition was already used. */
  datatype Attempt = Attempt(dead: bool, id: nat, item: Item, open: bool, settled: bool, wrapper: Wrapper)

  function NewAttempt(dead: bool, id: nat): Attempt {
    Attempt(dead, id, if dead then XStart else CRead, true, false, WWaiting)
  }

  function CallOfWrapper(a: Attempt): Request {
    match a.wrapper
    case WStartHandoff => StartTask(HandoffTask(Original))
    case WJoin(task) => JoinTask(task)
    case WSettle(durable) => if a.dead && durable then Ack else Retry
    case _ => NoCall
  }

  function ResumeWrapper(a: Attempt, reply: Reply): Wrapper {
    match a.wrapper
    case WStartHandoff => if reply.Handle? then WJoin(reply.task) else WSettle(false)
    case WJoin(_) => WSettle(reply.Done?)
    case WSettle(_) => WEnd
    case _ => a.wrapper
  }

  /** The item finished or its deadline expired: its scope closes, and an unused
      disposition is left to the wrapper. */
  function CloseScope(a: Attempt): Attempt {
    a.(open := false, wrapper := if a.settled then WEnd else WStartHandoff)
  }

  /** Does a settlement asked for by the item (or the wrapper) reach the Queue? */
  predicate Reaches(a: Attempt, byItem: bool) { !a.settled && (byItem ==> a.open) }

  predicate AttemptInv(w: World, a: Attempt) {
    && ItemInv(w, a.item)
    && (a.dead ==> a.item.XStart? || a.item.XJoin? || a.item.XAck? || a.item.CEnd?)
    && (!a.dead ==> !a.item.XStart? && !a.item.XJoin? && !a.item.XAck?)
    && (a.wrapper == WSettle(true) ==> Durable(w))
    && (!a.wrapper.WWaiting? ==> !a.open)
  }

  lemma AttemptIsStable(w: World, w': World, a: Attempt)
    requires Guarantee(w, w') && AttemptInv(w, a)
    ensures AttemptInv(w', a)
  {
    ItemIsStable(w, w', a.item);
  }

  lemma AttemptResumes(w: World, a: Attempt, settled: bool, reply: Reply, now: int)
    requires AttemptInv(w, a) && Tells(w, CallOf(a.item, now), reply)
    ensures AttemptInv(w, a.(settled := settled, item := ResumeItem(a.item, reply)))
  {
    ItemResumes(w, a.item, reply, now);
  }
}
