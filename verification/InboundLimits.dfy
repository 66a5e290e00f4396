/** Messages that are archived although no pointer can be rebuilt from the archive, or none may be
    forwarded: what a reconciler pass makes of them. */
module InboundLimits {
  import opened InboundStore
  import opened Wrappers
  import opened InboundProtocol
  import opened InboundOverwrite
  import opened InboundReconciler
  import opened InboundRecovery
  import Ingress = InboundIngress

  /** The SMTP handler archives a message before it looks at its size: for every message, also for one from
      whose archive no pointer can be rebuilt, a run leads to an exact archive without a receipt. A pass then
      ends well exactly if the pointer may be forwarded, and as invalid if it cannot be rebuilt. */
  lemma ArchivedMessageEndsExactly(e: Ingress.Envelope, now: int, pass: Pass, probe: Probe) returns (t: System)
    requires pass.policyOk ==> e.mail.recipient.Address?
    ensures Reaches(Initial(e), t) && t.world.raw.ExactRaw? && t.world.receipt.None? && t.world.mailbox.Empty?
    ensures WellEnded(Finish(Begin(t.world, false), pass, probe), pass) <==> Forwardable(e.mail)
    ensures Finish(Begin(t.world, false), pass, probe).pc == RDone(Invalid) <==> !Recoverable(e.mail)
  {
    ArchivingRuns(e, now);
    t := Handling(WhenArchived(e), e, Ingress.IArchived(1));
    PassEndsWellExactly(t.world, false, pass, probe);
    if !Recoverable(e.mail) {
      NoPointerIsInvalid(t.world, false, pass, probe);
    } else if !Forwardable(e.mail) {
      OtherArchiveEndsExactly(t.world, false, Original, pass, probe);
    }
  }
}
