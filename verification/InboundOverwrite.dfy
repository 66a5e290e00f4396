/** Two runs from the start. In one, mail that is stored, and recorded as stored, ends with a
    `forwarded` receipt: the Queue send of the SMTP handler times out and takes effect, a consumer
    stores the message, the handler cannot read the mailbox marker and forwards. In the other, the
    active marker goes although the receipt is not terminal: the handler's receipt write times out,
    the handler forwards, and the write takes effect in front of the acceptance commit's. */
module InboundOverwrite {
  import opened InboundStore
  import opened Wrappers
  import opened InboundProtocol
  import opened InboundSafety
  import opened InboundRelease
  import Handoff = EmergencyHandoff
  import Ingress = InboundIngress
  import Queue = InboundQueue

  /** `t` can be reached from `s`. */
  ghost predicate Reaches(s: System, t: System) { exists events :: Possible(s, events) && After(s, events) == t }

  lemma ReachesNow(s: System)
    ensures Reaches(s, s)
  {
    assert Possible(s, []) && After(s, []) == s;
  }

  lemma ReachesOneMore(s: System, t: System, event: Event)
    requires Reaches(s, t) && Enabled(t, event)
    ensures Reaches(s, Next(t, event))
  {
    var events :| Possible(s, events) && After(s, events) == t;
    OneMore(t, event, []);
    RunsAppend(s, events, [event] + []);
  }

  function Handler(now: int): Event { Step(IngressActor, true, Willing(), now) }

  function Consumer(now: int): Event { Step(ItemActor(0), true, Willing(), now) }

  /** Only the handler is about. */
  function Handling(w: World, e: Ingress.Envelope, pc: Ingress.Pc): System { System(w, e, pc, [], [], []) }

  lemma HandlerMoves(s: System, w: World, e: Ingress.Envelope, pc: Ingress.Pc, now: int)
    requires Reaches(s, Handling(w, e, pc))
    requires !IsScheduled(Ingress.Call(e, pc, now)) && !pc.ISetReject?
    ensures var (w', reply) := Perform(w, Ingress.Call(e, pc, now), Willing());
            Reaches(s, Handling(w', e, Ingress.Resume(e, pc, reply, now)))
  {
    var t := Handling(w, e, pc);
    ReachesOneMore(s, t, Handler(now));
    var (w', reply) := Perform(w, Ingress.Call(e, pc, now), Willing());
    assert Next(t, Handler(now)) == Handling(w', e, Ingress.Resume(e, pc, reply, now));
  }

  function AtFirst(e: Ingress.Envelope): World { InitialWorld(e.mail) }

  function WhenArchived(e: Ingress.Envelope): World { AtFirst(e).(raw := ExactRaw, marker := true) }

  function Received(e: Ingress.Envelope, body: Body, etag: nat): World {
    WhenArchived(e).(receipt := Some(Receipt(etag, body)), nextEtag := etag + 1)
  }

  lemma ReadingRuns(e: Ingress.Envelope, now: int)
    ensures Reaches(Initial(e), Handling(AtFirst(e), e, Ingress.IPutRaw(1)))
  {
    ReachesNow(Initial(e));
    HandlerMoves(Initial(e), AtFirst(e), e, Ingress.IReadStream, now);
    HandlerMoves(Initial(e), AtFirst(e), e, Ingress.IDigest, now);
  }

  lemma ArchivingRuns(e: Ingress.Envelope, now: int)
    ensures Reaches(Initial(e), Handling(WhenArchived(e), e, Ingress.IArchived(1)))
  {
    ReadingRuns(e, now);
    var s, w := Initial(e), AtFirst(e);
    RawIsPut(s, w, e, now);
    MarkerIsPut(s, w.(raw := ExactRaw), e, now);
  }

  lemma RawIsPut(s: System, w: World, e: Ingress.Envelope, now: int)
    requires w.raw.NoRaw? && Reaches(s, Handling(w, e, Ingress.IPutRaw(1)))
    ensures Reaches(s, Handling(w.(raw := ExactRaw), e, Ingress.IMarker(1)))
  {
    HandlerMoves(s, w, e, Ingress.IPutRaw(1), now);
  }

  lemma MarkerIsPut(s: System, w: World, e: Ingress.Envelope, now: int)
    requires Reaches(s, Handling(w, e, Ingress.IMarker(1)))
    ensures Reaches(s, Handling(w.(marker := true), e, Ingress.IArchived(1)))
  {
    HandlerMoves(s, w, e, Ingress.IMarker(1), now);
  }

  lemma VerifyingRuns(e: Ingress.Envelope, now: int)
    requires Ingress.Admissible(e)
    ensures Reaches(Initial(e), Handling(Received(e, Ingress.ArchivedBody(e), 0), e, Ingress.IActive(0)))
  {
    ArchivingRuns(e, now);
    HandlerMoves(Initial(e), WhenArchived(e), e, Ingress.IArchived(1), now);
    HandlerMoves(Initial(e), Received(e, Ingress.ArchivedBody(e), 0), e, Ingress.IProvisioned(0), now);
  }

  lemma AdmittingRuns(e: Ingress.Envelope, now: int)
    requires Ingress.Admissible(e)
    ensures Reaches(Initial(e), Handling(Received(e, Ingress.AdmittedBody(e), 1), e,
                Ingress.ISend(1, Ingress.AdmittedBody(e))))
  {
    var s, w := Initial(e), Received(e, Ingress.ArchivedBody(e), 0);
    VerifyingRuns(e, now);
    HandlerMoves(s, w, e, Ingress.IActive(0), now);
    HandlerMoves(s, w, e, Ingress.IAdmit(0, 1), now);
  }

  /** The Queue send times out, and takes effect. */
  lemma SendingRuns(e: Ingress.Envelope, now: int) returns (t: System)
    requires Ingress.Admissible(e)
    ensures t == Handling(Received(e, Ingress.AdmittedBody(e), 1).(normal := {0}, nextDelivery := 1), e,
                Ingress.DMarker(ByArchive))
    ensures Reaches(Initial(e), t)
  {
    AdmittingRuns(e, now);
    var w := Received(e, Ingress.AdmittedBody(e), 1);
    var u := Handling(w, e, Ingress.ISend(1, Ingress.AdmittedBody(e)));
    var timeout, late := Step(IngressActor, false, Willing(), now), TakeEffect(Send, Willing());
    ReachesOneMore(Initial(e), u, timeout);
    var v := Handling(w.(late := {Send}), e, Ingress.DMarker(ByArchive));
    assert {} + {Send} == {Send};
    assert Next(u, timeout) == v;
    ReachesOneMore(Initial(e), v, late);
    t := Next(v, late);
    assert {Send} - {Send} == {} && {} + {0} == {0};
  }

  function Consuming(t: System, item: Queue.Item): System {
    t.(attempts := [Queue.NewAttempt(false, 0).(item := item)])
  }

  lemma ConsumerMoves(s: System, t: System, item: Queue.Item, now: int)
    requires Reaches(s, Consuming(t, item))
    requires Queue.ResumeItem(item, Perform(t.world, Queue.CallOf(item, now), Willing()).1).CEnd? ==> false
    requires !IsScheduled(Queue.CallOf(item, now)) && !Queue.CallOf(item, now).SetReject?
    ensures var (w', reply) := Perform(t.world, Queue.CallOf(item, now), Willing());
            Reaches(s, Consuming(t.(world := w'), Queue.ResumeItem(item, reply)))
  {
    var u := Consuming(t, item);
    ReachesOneMore(s, u, Consumer(now));
    var (w', reply) := Perform(t.world, Queue.CallOf(item, now), Willing());
    assert Next(u, Consumer(now)) == Consuming(t.(world := w'), Queue.ResumeItem(item, reply));
  }

  lemma Looking(s: System, t: System, now: int)
    requires Reaches(s, Consuming(t, Queue.CMailboxMarker))
    ensures Reaches(s, Consuming(t, Queue.CTruthDeleted))
  {
    ConsumerMoves(s, t, Queue.CMailboxMarker, now);
    ConsumerMoves(s, t, Queue.CActive, now);
  }

  lemma LookingFurther(s: System, t: System, now: int)
    requires t.world.mailbox.Empty? && Reaches(s, Consuming(t, Queue.CTruthDeleted))
    ensures Reaches(s, Consuming(t, Queue.CRow(Queue.TruthNone)))
  {
    ConsumerMoves(s, t, Queue.CTruthDeleted, now);
    ConsumerMoves(s, t, Queue.CTruthProjected, now);
  }

  lemma FindingNoRow(s: System, t: System, now: int)
    requires t.world.mailbox.Empty? && Reaches(s, Consuming(t, Queue.CRow(Queue.TruthNone)))
    ensures Reaches(s, Consuming(t, Queue.CViewRaw))
  {
    ConsumerMoves(s, t, Queue.CRow(Queue.TruthNone), now);
  }

  /** A consumer finds nothing in the mailbox. */
  lemma FindingNothing(s: System, t: System, now: int)
    requires t.world.mailbox.Empty? && t.world.raw.ExactRaw? && t.world.mail.bounded
    requires Reaches(s, Consuming(t, Queue.CMailboxMarker))
    ensures Reaches(s, Consuming(t, Queue.CActiveAgain))
  {
    Looking(s, t, now);
    LookingFurther(s, t, now);
    FindingNoRow(s, t, now);
    ConsumerMoves(s, t, Queue.CViewRaw, now);
  }

  lemma Storing(s: System, t: System, now: int)
    requires t.world.mailbox.Empty? && Reaches(s, Consuming(t, Queue.CActiveAgain))
    ensures Reaches(s, Consuming(t.(world := t.world.(mailbox := Live(ByArchive))), Queue.CWriteRead(Stored)))
  {
    ConsumerMoves(s, t, Queue.CActiveAgain, now);
    ConsumerMoves(s, t, Queue.CProject, now);
  }

  lemma Recording(s: System, t: System, receipt: Receipt, now: int)
    requires Reaches(s, Consuming(t, Queue.CWriteRead(Stored)))
    requires t.world.receipt == Some(receipt) && receipt.body.state.Admitted? && receipt.body.pointer.Original?
    ensures Reaches(s, Consuming(t, Queue.CWrite(Replace(receipt.etag, Some(receipt.body)), Stored)))
  {
    ConsumerMoves(s, t, Queue.CWriteRead(Stored), now);
  }

  /** It projects the message and records it as stored. */
  lemma Projecting(s: System, t: System, receipt: Receipt, now: int) returns (u: System)
    requires t.world.mailbox.Empty? && t.world.raw.ExactRaw? && Reaches(s, Consuming(t, Queue.CActiveAgain))
    requires t.world.receipt == Some(receipt) && receipt.body.state.Admitted? && receipt.body.pointer.Original?
    ensures Reaches(s, u) && u.ingress == t.ingress && u.tasks == t.tasks && u.world.raw.ExactRaw?
    ensures u.world.mailbox == Live(ByArchive) && u.world.receipt.Some? && StateOf(u).Stored?
    ensures u.world.mail == t.world.mail
  {
    Storing(s, t, now);
    var v := t.(world := t.world.(mailbox := Live(ByArchive)));
    Recording(s, v, receipt, now);
    var write := Queue.CWrite(Replace(receipt.etag, Some(receipt.body)), Stored);
    ConsumerMoves(s, v, write, now);
    u := Consuming(v.(world := WithReceipt(v.world, Queue.FinalBody(Stored, now))), Queue.CWinner);
  }

  lemma StoringRuns(e: Ingress.Envelope, now: int) returns (t: System)
    requires Ingress.Admissible(e)
    ensures Reaches(Initial(e), t)
    ensures t.ingress == Ingress.DMarker(ByArchive) && t.tasks == [] && t.world.raw.ExactRaw?
    ensures t.world.mailbox == Live(ByArchive) && t.world.receipt.Some? && StateOf(t).Stored?
    ensures t.world.mail == e.mail
  {
    var s := Initial(e);
    var u := SendingRuns(e, now);
    ReachesOneMore(s, u, Deliver(false, 0));
    assert [] + [Queue.NewAttempt(false, 0)] == [Queue.NewAttempt(false, 0)];
    assert Next(u, Deliver(false, 0)) == Consuming(u, Queue.CRead);
    ConsumerMoves(s, u, Queue.CRead, now);
    FindingNothing(s, u, now);
    t := Projecting(s, u, u.world.receipt.value, now);
  }

  /** The handler cannot read the mailbox marker. */
  lemma Doubting(t: System, now: int) returns (u: System)
    requires t.ingress == Ingress.DMarker(ByArchive)
    ensures Reaches(t, u) && u == t.(world := u.world, ingress := Ingress.DTerminal(ByArchive, Ingress.Unverified))
    ensures u.world == t.world.(late := u.world.late)
  {
    var fails := Step(IngressActor, false, Willing(), now);
    ReachesNow(t);
    ReachesOneMore(t, t, fails);
    u := Next(t, fails);
  }

  /** It finds no deletion either, and is about to forward. */
  lemma GivingUp(t: System, now: int) returns (u: System)
    requires t.ingress == Ingress.DMarker(ByArchive) && t.world.mailbox == Live(ByArchive)
    requires t.world.raw.ExactRaw? && t.world.receipt.Some?
    ensures Reaches(t, u) && u.ingress == Ingress.IForward(true)
    ensures u.world.raw.ExactRaw? && u.world.receipt == t.world.receipt && u.world.mailbox == t.world.mailbox
    ensures u.world.mail == t.world.mail
  {
    var v := Doubting(t, now);
    u := Forwarding(t, v, now);
  }

  lemma Forwarding(t: System, v: System, now: int) returns (u: System)
    requires Reaches(t, v) && v.ingress == Ingress.DTerminal(ByArchive, Ingress.Unverified) && v.world.mailbox.Live?
    ensures Reaches(t, u) && u.ingress == Ingress.IForward(true) && u.world == v.world
  {
    HandlerFindsNone(v, now);
    ReachesOneMore(t, v, Handler(now));
    u := Next(v, Handler(now));
  }

  lemma HandlerFindsNone(v: System, now: int)
    requires v.ingress == Ingress.DTerminal(ByArchive, Ingress.Unverified) && v.world.mailbox.Live?
    ensures Next(v, Handler(now)) == v.(ingress := Ingress.IForward(true))
  {
  }

  /** Every admissible message can be stored, recorded as stored, and then recorded as
      forwarded although its row is still live. */
  lemma StoredMailMayBecomeForwarded(e: Ingress.Envelope, now: int) returns (stored: System, t: System)
    requires Ingress.Admissible(e)
    ensures Reaches(Initial(e), stored) && stored.world.receipt.Some? && StateOf(stored).Stored?
    ensures Reaches(stored, t) && t.world.receipt.Some? && StateOf(t).Forwarded? && t.world.mailbox.Live?
    ensures !Advances(StateOf(stored), StateOf(t))
  {
    stored := StoringRuns(e, now);
    var u := GivingUp(stored, now);
    var rest := ForwardMayOverwrite(u, now);
    t := After(u, rest);
    var events :| Possible(stored, events) && After(stored, events) == u;
    RunsAppend(stored, events, rest);
  }

  // ---------------------------------------------------------------- a marker that goes early

  function Writing(e: Ingress.Envelope): Request {
    PutReceipt(CreateOnly, Ingress.ArchivedBody(e), ProjectionWriter)
  }

  lemma HandlerFails(s: System, w: World, e: Ingress.Envelope, pc: Ingress.Pc, now: int)
    requires Reaches(s, Handling(w, e, pc))
    requires !IsScheduled(Ingress.Call(e, pc, now)) && !pc.ISetReject?
    ensures Reaches(s, Handling(Abandon(w, Ingress.Call(e, pc, now)), e, Ingress.Resume(e, pc, Failed, now)))
  {
    var t, fails := Handling(w, e, pc), Step(IngressActor, false, Willing(), now);
    ReachesOneMore(s, t, fails);
    assert Next(t, fails) == Handling(Abandon(w, Ingress.Call(e, pc, now)), e, Ingress.Resume(e, pc, Failed, now));
  }

  /** Every attempt to write the receipt times out. */
  lemma {:induction false} WritingFails(e: Ingress.Envelope, w: World, n: nat, now: int)
    requires Ingress.Admissible(e) && n <= Ingress.RECEIPT_ATTEMPTS
    requires w == WhenArchived(e) || w == WhenArchived(e).(late := {Writing(e)})
    requires Reaches(Initial(e), Handling(w, e, Ingress.IArchived(n)))
    ensures Reaches(Initial(e), Handling(WhenArchived(e).(late := {Writing(e)}), e, Ingress.DMarker(ByArchive)))
    decreases Ingress.RECEIPT_ATTEMPTS - n
  {
    var w' := WhenArchived(e).(late := {Writing(e)});
    HandlerFails(Initial(e), w, e, Ingress.IArchived(n), now);
    assert {} + {Writing(e)} == {Writing(e)} && {Writing(e)} + {Writing(e)} == {Writing(e)};
    assert Abandon(w, Writing(e)) == w';
    if n < Ingress.RECEIPT_ATTEMPTS { WritingFails(e, w', n + 1, now); }
  }

  /** The handler is about to forward, and its receipt write is still out. */
  lemma WritingIsOut(e: Ingress.Envelope, now: int) returns (w: World)
    requires Ingress.Admissible(e)
    ensures Reaches(Initial(e), Handling(w, e, Ingress.IForward(true)))
    ensures w == WhenArchived(e).(late := w.late) && Writing(e) in w.late
  {
    ArchivingRuns(e, now);
    WritingFails(e, WhenArchived(e), 1, now);
    w := MarkerUnread(Initial(e), WhenArchived(e).(late := {Writing(e)}), e, now);
    NoDeletionIsFound(Initial(e), w, e, now);
  }

  lemma MarkerUnread(s: System, w: World, e: Ingress.Envelope, now: int) returns (w': World)
    requires Reaches(s, Handling(w, e, Ingress.DMarker(ByArchive)))
    ensures Reaches(s, Handling(w', e, Ingress.DTerminal(ByArchive, Ingress.Unverified)))
    ensures w' == w.(late := w'.late) && w.late <= w'.late
  {
    HandlerFails(s, w, e, Ingress.DMarker(ByArchive), now);
    w' := Abandon(w, MailboxMarker);
  }

  lemma NoDeletionIsFound(s: System, w: World, e: Ingress.Envelope, now: int)
    requires w.mailbox.Empty? && Reaches(s, Handling(w, e, Ingress.DTerminal(ByArchive, Ingress.Unverified)))
    ensures Reaches(s, Handling(w, e, Ingress.IForward(true)))
  {
    HandlerMoves(s, w, e, Ingress.DTerminal(ByArchive, Ingress.Unverified), now);
  }

  lemma ForwardingStarts(s: System, w: World, e: Ingress.Envelope, now: int) returns (t: System)
    requires Reaches(s, Handling(w, e, Ingress.IForward(true))) && Forwardable(w.mail)
    ensures Reaches(s, t)
    ensures t.ingress == Ingress.IJoinAcceptance(0) && t.tasks == [Handoff.AViewRaw]
    ensures t.world == w.(providerAccepted := true)
  {
    HandlerMoves(s, w, e, Ingress.IForward(true), now);
    var u := Handling(w.(providerAccepted := true), e, Ingress.IStartAcceptance);
    ReachesOneMore(s, u, Handler(now));
    t := Next(u, Handler(now));
    assert [] + [Handoff.AViewRaw] == [Handoff.AViewRaw];
  }

  /** The acceptance commit finds no receipt, and is about to create one. */
  lemma CommitFindsNone(s: System, t: System, now: int) returns (u: System)
    requires Reaches(s, t) && t.tasks == [Handoff.AViewRaw]
    requires t.world.raw.ExactRaw? && t.world.mail.bounded && t.world.receipt.None?
    ensures Reaches(s, u) && u.ingress == t.ingress && u.tasks == [Handoff.APutForwarded(CreateOnly)]
    ensures u.world.receipt.None? && u.world.late == t.world.late && u.world.mailbox == t.world.mailbox
  {
    var t1 := CommitViews(s, t, now);
    var t2 := CommitMarks(s, t1, now);
    u := CommitReads(s, t2, now);
  }

  lemma CommitViews(s: System, t: System, now: int) returns (u: System)
    requires Reaches(s, t) && t.tasks == [Handoff.AViewRaw] && t.world.raw.ExactRaw? && t.world.mail.bounded
    ensures Reaches(s, u) && u == t.(tasks := [Handoff.APutAccepted])
  {
    u := CommitMoves(s, t, Handoff.AViewRaw, now);
  }

  lemma CommitMarks(s: System, t: System, now: int) returns (u: System)
    requires Reaches(s, t) && t.tasks == [Handoff.APutAccepted]
    ensures Reaches(s, u)
    ensures u == t.(world := t.world.(emergency := u.world.emergency), tasks := [Handoff.AReadReceipt])
  {
    u := CommitMoves(s, t, Handoff.APutAccepted, now);
  }

  lemma CommitReads(s: System, t: System, now: int) returns (u: System)
    requires Reaches(s, t) && t.tasks == [Handoff.AReadReceipt] && t.world.receipt.None?
    ensures Reaches(s, u) && u == t.(tasks := [Handoff.APutForwarded(CreateOnly)])
  {
    u := CommitMoves(s, t, Handoff.AReadReceipt, now);
  }

  lemma CommitMoves(s: System, t: System, task: Handoff.Task, now: int) returns (u: System)
    requires Reaches(s, t) && t.tasks == [task] && (task.AViewRaw? || task.APutAccepted? || task.AReadReceipt?)
    ensures var (w', reply) := Perform(t.world, Handoff.Call(task, now), Willing());
            Reaches(s, u) && u == t.(world := w', tasks := [Handoff.Resume(task, reply)])
  {
    ReachesOneMore(s, t, TaskMoves(0, now));
    u := Next(t, TaskMoves(0, now));
    assert [task][0 := u.tasks[0]] == [u.tasks[0]];
  }

  /** For every admissible message the active marker may go while the receipt says `archived` and
      the mailbox is empty: if no provider reference can be formed, and if one can be and the second
      commit is not waited for. */
  lemma MarkerMayGoEarly(e: Ingress.Envelope, reference: bool, now: int) returns (t: System)
    requires Ingress.Admissible(e)
    ensures Reaches(Initial(e), t) && !t.world.marker && t.world.mailbox.Empty?
    ensures t.world.receipt.Some? && StateOf(t).Archived?
  {
    var s := Initial(e);
    var w := WritingIsOut(e, now);
    var u := ForwardingStarts(s, w, e, now);
    var v := CommitFindsNone(s, u, now);
    ReachesOneMore(s, v, TakeEffect(Writing(e), Willing()));
    var x := Next(v, TakeEffect(Writing(e), Willing()));
    var rest := AcceptanceMayClearEarly(x, reference, now);
    t := After(x, rest);
    var events :| Possible(s, events) && After(s, events) == x;
    RunsAppend(s, events, rest);
  }
}
