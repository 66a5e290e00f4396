/** The details a receipt of each state may carry, as the reconciler and the Queue consumer
    validate them independently, and the receipts the writers produce. */
module Receipts {
  import opened Wrappers
  import InboundStore

  type State = InboundStore.ReceiptState

  datatype Code =
    // of retried projections
    | IdempotencyCheckFailed | MailboxActiveCheckFailed | MailboxActiveRecheckFailed | MailboxMarkerReadFailed
    | MailboxProjectionFailed | RawArchiveReadFailed
    // of messages that cannot be projected
    | Emaxlen | MimeCharsetUnsupported | MimeHeaderSizeExceeded | MimeMultipartBoundaryInvalid
    | MimeMultipartBoundaryMissing | MimeParseFailed | MimeRootHeaderMissing
    | IngressRecoveryRequired | MailboxUnavailable | MailboxInactive | RawArchiveIntegrityMismatch | QueueRetryExhausted
    // of outcomes
    | MailboxProjectionStored | MailboxProjectionDeleted | MailboxProjectionRecovered | DlqTerminalLedgerRecovered
    // of SMTP rejections
    | AllDurabilityPathsFailed | FallbackRecipientInvalid | FallbackRecipientOrSizeInvalid | MailboxVerificationFailed
    | RawSizeInvalid | RecipientDomainInvalid | RecipientNotAllowed
    // anything else
    | OtherCode

  /** A reference is sixteen lower-case hexadecimal digits, or malformed. */
  datatype Reference = GoodReference | BadReference

  datatype TerminalFailure = TerminalFailure(queueRef: Reference, attempts: int, code: Code, canonicalTime: bool)

  /** The detail fields a receipt object may have. */
  datatype Details = Details(
    attempt: Option<int>, delaySeconds: Option<int>, errorCode: Option<Code>, queueRef: Option<Reference>,
    reconciled: Option<bool>, terminalFailure: Option<TerminalFailure>,
    providerAccepted: Option<bool>, providerRef: Option<Reference>, fromSmtpIngress: Option<bool>)

  const NONE := Details(None, None, None, None, None, None, None, None, None)

  const MAX_SAFE_INTEGER := 0x1F_FFFF_FFFF_FFFF

  predicate IsCount(value: Option<int>) { value.Some? && 0 <= value.value <= MAX_SAFE_INTEGER }

  predicate IsReference(value: Option<Reference>) { value == Some(GoodReference) }

  // ---------------------------------------------------------------- the sets of codes

  predicate IsRetryCode(code: Code) {
    code.IdempotencyCheckFailed? || code.MailboxActiveCheckFailed? || code.MailboxActiveRecheckFailed?
    || code.MailboxMarkerReadFailed? || code.MailboxProjectionFailed? || code.RawArchiveReadFailed?
  }

  predicate IsMimeCode(code: Code) {
    code.MimeCharsetUnsupported? || code.MimeHeaderSizeExceeded? || code.MimeMultipartBoundaryInvalid?
    || code.MimeMultipartBoundaryMissing? || code.MimeParseFailed? || code.MimeRootHeaderMissing?
  }

  /** The reconciler's codes of quarantined receipts. */
  predicate IsQuarantineCode(code: Code) {
    code.Emaxlen? || code.IngressRecoveryRequired? || code.MailboxUnavailable? || IsMimeCode(code)
    || code.RawArchiveIntegrityMismatch?
  }

  /** The Queue consumer's codes of receipts. */
  predicate IsReceiptCode(code: Code) {
    IsRetryCode(code) || code.Emaxlen? || code.MailboxInactive? || code.MailboxProjectionDeleted?
    || code.MailboxProjectionStored? || code.MailboxUnavailable? || IsMimeCode(code) || code.QueueRetryExhausted?
    || code.RawArchiveIntegrityMismatch?
  }

  predicate IsRejectionCode(code: Code) {
    code.AllDurabilityPathsFailed? || code.FallbackRecipientInvalid? || code.FallbackRecipientOrSizeInvalid?
    || code.MailboxInactive? || code.MailboxUnavailable? || code.MailboxVerificationFailed? || code.RawSizeInvalid?
    || code.RecipientDomainInvalid? || code.RecipientNotAllowed?
  }

  predicate HasRejectionAuthority(s: State, d: Details) {
    s.Rejected? && d.fromSmtpIngress == Some(true) && d.errorCode.Some? && IsRejectionCode(d.errorCode.value)
  }

  predicate IsTerminalFailure(f: Option<TerminalFailure>) {
    && f.Some? && f.value.queueRef.GoodReference? && 0 <= f.value.attempts <= MAX_SAFE_INTEGER
    && f.value.code.QueueRetryExhausted? && f.value.canonicalTime
  }

  predicate IsDeadLettered(d: Details) {
    && d == NONE.(attempt := d.attempt, errorCode := d.errorCode, queueRef := d.queueRef, reconciled := d.reconciled,
                  terminalFailure := d.terminalFailure)
    && if d.reconciled == Some(true) then
         d.attempt.None? && d.queueRef.None? && d.errorCode == Some(DlqTerminalLedgerRecovered)
         && IsTerminalFailure(d.terminalFailure)
       else
         && d.reconciled.None? && d.terminalFailure.None? && d.errorCode == Some(QueueRetryExhausted)
         && ((d.attempt.None? && d.queueRef.None?) || (IsCount(d.attempt) && IsReference(d.queueRef)))
  }

  predicate IsForwarded(d: Details) {
    && d == NONE.(providerAccepted := d.providerAccepted, providerRef := d.providerRef)
    && d.providerAccepted == Some(true) && (d.providerRef.None? || IsReference(d.providerRef))
  }

  predicate IsStored(d: Details) {
    && d == NONE.(errorCode := d.errorCode, reconciled := d.reconciled)
    && if d.reconciled == Some(true) then d.errorCode == Some(MailboxProjectionRecovered)
       else d.reconciled.None? && (d.errorCode.None? || d.errorCode == Some(MailboxProjectionStored))
  }

  predicate IsDeleted(d: Details) {
    && d == NONE.(errorCode := d.errorCode, reconciled := d.reconciled)
    && d.errorCode == Some(MailboxProjectionDeleted) && (d.reconciled.None? || d.reconciled == Some(true))
  }

  predicate IsReconciledOnly(d: Details) {
    d == NONE.(reconciled := d.reconciled) && (d.reconciled.None? || d.reconciled == Some(true))
  }

  predicate IsRetry(d: Details) {
    && d == NONE.(attempt := d.attempt, delaySeconds := d.delaySeconds, errorCode := d.errorCode)
    && IsCount(d.attempt) && IsCount(d.delaySeconds) && d.errorCode.Some?
  }

  predicate IsCodeOnly(d: Details) { d == NONE.(errorCode := d.errorCode) && d.errorCode.Some? }

  predicate IsRejection(s: State, d: Details) {
    d == NONE.(errorCode := d.errorCode, fromSmtpIngress := d.fromSmtpIngress) && HasRejectionAuthority(s, d)
  }

  // ---------------------------------------------------------------- the two validators

  /** The reconciler's check. */
  predicate ReconcilerAccepts(s: State, d: Details) {
    match s
    case Archived => d == NONE
    case Admitted => IsReconciledOnly(d)
    case Enqueued => IsReconciledOnly(d)
    case Stored => IsStored(d)
    case Deleted => IsDeleted(d)
    case Retrying => IsRetry(d) && IsRetryCode(d.errorCode.value)
    case DeadLetterPending => IsRetry(d) && IsRetryCode(d.errorCode.value)
    case DeadLettered => IsDeadLettered(d)
    case ForwardPending =>
      IsCodeOnly(d) && (d.errorCode.value.QueueRetryExhausted? || IsQuarantineCode(d.errorCode.value))
      && !d.errorCode.value.RawArchiveIntegrityMismatch?
    case Forwarded => IsForwarded(d)
    case Quarantined => IsCodeOnly(d) && IsQuarantineCode(d.errorCode.value)
    case Rejected => IsRejection(s, d)
  }

  /** The Queue consumer's check. */
  predicate QueueAccepts(s: State, d: Details) {
    match s
    case Archived => d == NONE
    case Admitted => IsReconciledOnly(d)
    case Enqueued => IsReconciledOnly(d)
    case Retrying => IsRetry(d) && IsReceiptCode(d.errorCode.value)
    case DeadLetterPending => IsRetry(d) && IsReceiptCode(d.errorCode.value)
    case DeadLettered => IsDeadLettered(d)
    case ForwardPending =>
      IsCodeOnly(d) && (d.errorCode.value.QueueRetryExhausted? || IsReceiptCode(d.errorCode.value))
      && !d.errorCode.value.MailboxUnavailable? && !d.errorCode.value.RawArchiveIntegrityMismatch?
    case Forwarded => IsForwarded(d)
    case Stored => IsStored(d)
    case Deleted => IsDeleted(d)
    case Rejected => IsRejection(s, d)
    case Quarantined => IsCodeOnly(d) && IsReceiptCode(d.errorCode.value)
  }

  /** Where the validators differ, they differ over the code alone. */
  predicate CodesDiffer(s: State, code: Code) {
    match s
    case Retrying => IsReceiptCode(code) && !IsRetryCode(code)
    case DeadLetterPending => IsReceiptCode(code) && !IsRetryCode(code)
    case ForwardPending =>
      || code.IngressRecoveryRequired? || code.MailboxUnavailable? || code.MailboxInactive?
      || code.MailboxProjectionStored? || code.MailboxProjectionDeleted? || IsRetryCode(code)
    case Quarantined =>
      || code.IngressRecoveryRequired? || code.MailboxInactive? || code.QueueRetryExhausted?
      || code.MailboxProjectionStored? || code.MailboxProjectionDeleted? || IsRetryCode(code)
    case _ => false
  }

  /** The shape both validators ask of the details of a state, whatever the code. */
  predicate IsShaped(s: State, d: Details) {
    match s
    case Retrying => IsRetry(d)
    case DeadLetterPending => IsRetry(d)
    case ForwardPending => IsCodeOnly(d)
    case Quarantined => IsCodeOnly(d)
    case _ => ReconcilerAccepts(s, d)
  }

  /** The two validators agree on a receipt exactly when it is misshapen or its code is not
      one of those listed for its state in only one of them. */
  lemma ValidatorsAgreeExactly(s: State, d: Details)
    ensures (ReconcilerAccepts(s, d) <==> QueueAccepts(s, d))
       <==> !(IsShaped(s, d) && d.errorCode.Some? && CodesDiffer(s, d.errorCode.value))
  {
    if IsShaped(s, d) && d.errorCode.Some? {
      match s
      case Retrying => CodesByState(s, d.errorCode.value);
      case DeadLetterPending => CodesByState(s, d.errorCode.value);
      case ForwardPending => CodesByState(s, d.errorCode.value);
      case Quarantined => CodesByState(s, d.errorCode.value);
      case _ =>
    }
  }

  lemma CodesByState(s: State, code: Code)
    ensures s.ForwardPending? ==>
              (CodesDiffer(s, code) <==>
                 ((code.QueueRetryExhausted? || IsQuarantineCode(code)) && !code.RawArchiveIntegrityMismatch?)
                 != ((code.QueueRetryExhausted? || IsReceiptCode(code)) && !code.MailboxUnavailable?
                     && !code.RawArchiveIntegrityMismatch?))
    ensures s.Quarantined? ==> (CodesDiffer(s, code) <==> IsQuarantineCode(code) != IsReceiptCode(code))
    ensures s.Retrying? || s.DeadLetterPending? ==> (CodesDiffer(s, code) <==> IsRetryCode(code) != IsReceiptCode(code))
  {
  }

  // ---------------------------------------------------------------- what is written

  /** Why a message is handed to the emergency forward. */
  predicate IsEmergencyReason(code: Code) {
    code.Emaxlen? || code.IngressRecoveryRequired? || IsMimeCode(code) || code.QueueRetryExhausted?
  }

  datatype Written =
    // by the SMTP handler
    | IngressReceipt(ingressState: State)
    | SmtpRejection(rejectionCode: Code)
    // by the Queue consumer
    | ProjectionStored | ProjectionDeleted | RawMismatch
    // by the reconciler
    | Readmitted | Reenqueued | RepairedStored | RepairedDeleted | RecoveredLedger(failure: TerminalFailure)
    // by the emergency forward
    | EmergencyPending(reason: Code)
    | ProviderAccepted(providerRef: Option<Reference>)

  /** What the callers of each writer see to. */
  predicate IsWritten(w: Written) {
    match w
    case IngressReceipt(state) => state.Archived? || state.Admitted? || state.Enqueued?
    case SmtpRejection(code) => IsRejectionCode(code)
    case RecoveredLedger(failure) => IsTerminalFailure(Some(failure))
    case EmergencyPending(reason) => IsEmergencyReason(reason)
    case ProviderAccepted(ref) => ref != Some(BadReference)
    case _ => true
  }

  function StateOf(w: Written): State {
    match w
    case IngressReceipt(state) => state
    case SmtpRejection(_) => InboundStore.Rejected
    case ProjectionStored => InboundStore.Stored
    case ProjectionDeleted => InboundStore.Deleted
    case RawMismatch => InboundStore.Quarantined
    case Readmitted => InboundStore.Admitted
    case Reenqueued => InboundStore.Enqueued
    case RepairedStored => InboundStore.Stored
    case RepairedDeleted => InboundStore.Deleted
    case RecoveredLedger(_) => InboundStore.DeadLettered
    case EmergencyPending(_) => InboundStore.ForwardPending
    case ProviderAccepted(_) => InboundStore.Forwarded
  }

  function DetailsOf(w: Written): Details {
    match w
    case IngressReceipt(_) => NONE
    case SmtpRejection(code) => NONE.(errorCode := Some(code), fromSmtpIngress := Some(true))
    case ProjectionStored => NONE
    case ProjectionDeleted => NONE.(errorCode := Some(MailboxProjectionDeleted))
    case RawMismatch => NONE.(errorCode := Some(RawArchiveIntegrityMismatch))
    case Readmitted => NONE.(reconciled := Some(true))
    case Reenqueued => NONE.(reconciled := Some(true))
    case RepairedStored => NONE.(reconciled := Some(true), errorCode := Some(MailboxProjectionRecovered))
    case RepairedDeleted => NONE.(reconciled := Some(true), errorCode := Some(MailboxProjectionDeleted))
    case RecoveredLedger(failure) =>
      NONE.(reconciled := Some(true), errorCode := Some(DlqTerminalLedgerRecovered), terminalFailure := Some(failure))
    case EmergencyPending(reason) => NONE.(errorCode := Some(reason))
    case ProviderAccepted(ref) => NONE.(providerAccepted := Some(true), providerRef := ref)
  }

  /** Every receipt that is written is valid to the reconciler, and valid to the Queue consumer
      unless it is a pending emergency forward for ingress recovery: that code is missing from
      the Queue consumer's set, so it takes its own emergency forward's receipt for invalid. */
  lemma WrittenReceiptsAreValid(w: Written)
    requires IsWritten(w)
    ensures ReconcilerAccepts(StateOf(w), DetailsOf(w))
    ensures QueueAccepts(StateOf(w), DetailsOf(w)) <==> w != EmergencyPending(IngressRecoveryRequired)
  {
    match w
    case ProviderAccepted(Some(reference)) => assert reference.GoodReference?;
    case _ =>
  }
}
