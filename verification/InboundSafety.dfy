/** What holds along every run of the inbound protocol. */
module InboundSafety {
  import opened InboundStore
  import opened Wrappers
  import opened InboundProtocol
  import Handoff = EmergencyHandoff
  import Ingress = InboundIngress
  import Queue = InboundQueue
  import Reconciler = InboundReconciler

  predicate Possible(s: System, events: seq<Event>)
    decreases |events|
  {
    events == [] || (Enabled(s, events[0]) && Possible(Next(s, events[0]), events[1..]))
  }

  function After(s: System, events: seq<Event>): System
    requires Possible(s, events)
    decreases |events|
  {
    if events == [] then s else After(Next(s, events[0]), events[1..])
  }

  lemma {:induction false} RunKeeps(s: System, events: seq<Event>)
    requires SystemInv(s) && Possible(s, events)
    ensures SystemInv(After(s, events))
    ensures Safe(s.world) ==> Safe(After(s, events).world)
    decreases |events|
  {
    if events != [] {
      NextKeeps(s, events[0]);
      RunKeeps(Next(s, events[0]), events[1..]);
    }
  }

  lemma InitialHolds(envelope: Ingress.Envelope)
    ensures SystemInv(Initial(envelope))
  {
  }

  /** Once the SMTP handler has returned without asking for a rejection, in every later
      state the message is delivered, accepted by the provider, provably damaged, under
      emergency authority or still marked for recovery. It is rejected at most once. */
  lemma NoSilentLoss(envelope: Ingress.Envelope, events: seq<Event>)
    requires Possible(Initial(envelope), events)
    ensures var s := After(Initial(envelope), events);
            && s.world.rejections <= 1
            && (s.ingress.IReturned? && s.world.rejections == 0 ==>
                  || !s.world.mailbox.Empty? || s.world.providerAccepted || s.world.raw.BadRaw?
                  || !s.world.emergency.NoEmergency? || s.world.marker)
  {
    InitialHolds(envelope);
    RunKeeps(Initial(envelope), events);
    HandlerIsSafe(After(Initial(envelope), events));
  }

  lemma HandlerIsSafe(s: System)
    requires SystemInv(s)
    ensures s.world.rejections <= 1
    ensures s.ingress.IReturned? && s.world.rejections == 0 ==> Safe(s.world)
  {
  }

  // ---------------------------------------------------------------- releases

  /** Nothing is released before it may be: the active marker goes and a primary delivery
      is acknowledged only when the message is settled, a dead-letter delivery only when
      somebody is durably responsible. */
  lemma ReleaseIsJustified(envelope: Ingress.Envelope, events: seq<Event>, event: Event)
    requires Possible(Initial(envelope), events) && Enabled(After(Initial(envelope), events), event)
    ensures var s := After(Initial(envelope), events);
            var w' := Next(s, event).world;
            && (s.world.marker && !w'.marker ==> Settled(s.world))
            && (event.Step? && s.world.normal - w'.normal != {} ==> Settled(s.world))
            && (event.Step? && s.world.dead - w'.dead != {} ==> Durable(s.world))
            && (!s.world.emergency.NoEmergency? && w'.emergency.NoEmergency? ==> Settled(s.world))
  {
    var s := After(Initial(envelope), events);
    InitialHolds(envelope);
    RunKeeps(Initial(envelope), events);
    if event.Step? {
      StepReleases(s, event.actor, event.answered, event.probe, event.now);
    } else if event.TakeEffect? {
      PerformReleases(s.world, event.request, event.probe);
    }
  }

  /** The shared state gives up the marker, the emergency authority or a delivery only in
      calls that were justified. */
  lemma PerformReleases(w: World, request: Request, probe: Probe)
    requires Justified(w, request)
    ensures var w' := Perform(w, request, probe).0;
            && (w.marker && !w'.marker ==> Settled(w))
            && (!w.emergency.NoEmergency? && w'.emergency.NoEmergency? ==> Settled(w))
            && w.normal <= w'.normal && w.dead <= w'.dead
  {
  }

  lemma AnswerReleases(w: World, tasks: seq<Handoff.Task>, request: Request, answered: bool, probe: Probe)
    requires Justified(w, request)
    ensures var w' := Answer(w, tasks, request, answered, probe).0;
            && (w.marker && !w'.marker ==> Settled(w))
            && (!w.emergency.NoEmergency? && w'.emergency.NoEmergency? ==> Settled(w))
            && w.normal <= w'.normal && w.dead <= w'.dead
  {
    PerformReleases(w, request, probe);
  }

  lemma StepReleases(s: System, actor: Actor, answered: bool, probe: Probe, now: int)
    requires SystemInv(s) && ActorExists(s, actor)
    ensures var w' := Move(s, actor, answered, probe, now).world;
            && (s.world.marker && !w'.marker ==> Settled(s.world))
            && (s.world.normal - w'.normal != {} ==> Settled(s.world))
            && (s.world.dead - w'.dead != {} ==> Durable(s.world))
            && (!s.world.emergency.NoEmergency? && w'.emergency.NoEmergency? ==> Settled(s.world))
  {
    ActorMayCall(s, actor, now);
    AnswerReleases(s.world, s.tasks, PendingCall(s, actor, now), answered, probe);
    match actor {
      case ItemActor(i) => assert Queue.AttemptInv(s.world, s.attempts[i]);
      case WrapperActor(i) => assert Queue.AttemptInv(s.world, s.attempts[i]);
      case _ =>
    }
  }

  /** Past its deadline an attempt may go on running, but it no longer settles anything. */
  lemma ClosedScopeIsInert(s: System, i: nat, answered: bool, probe: Probe, now: int)
    requires SystemInv(s) && i < |s.attempts| && !s.attempts[i].open
    ensures var s' := Move(s, ItemActor(i), answered, probe, now);
            && s'.world.normal == s.world.normal && s'.world.dead == s.world.dead
            && s'.attempts[i].settled == s.attempts[i].settled && !s'.attempts[i].open
  {
    var request := PendingCall(s, ItemActor(i), now);
    ItemSendsNothing(s.world, s.tasks, s.attempts[i].item, answered, probe, now);
    assert !Queue.Reaches(s.attempts[i], true);
  }

  lemma ItemSendsNothing(w: World, tasks: seq<Handoff.Task>, item: Queue.Item, answered: bool, probe: Probe, now: int)
    ensures var w' := Answer(w, tasks, Queue.CallOf(item, now), answered, probe).0;
            w'.normal == w.normal && w'.dead == w.dead
  {
  }

  // ---------------------------------------------------------------- receipts and mailbox truth

  /** A receipt never claims what is not so: at every moment of every run. */
  lemma ReceiptTellsTruth(envelope: Ingress.Envelope, events: seq<Event>)
    requires Possible(Initial(envelope), events)
    ensures var w := After(Initial(envelope), events).world;
            w.receipt.Some? ==>
              var body := w.receipt.value.body;
              && (body.state.Stored? ==> !w.mailbox.Empty?)
              && (body.state.Deleted? ==> w.mailbox.Tombstone? && Answers(w.mailbox.authority, Of(body.pointer)))
              && (body.state.Forwarded? ==> w.providerAccepted)
              && (body.state.Rejected? ==> w.rejections == 1)
              && (body.state.Quarantined? && body.mismatch ==> w.raw.BadRaw?)
  {
    InitialHolds(envelope);
    RunKeeps(Initial(envelope), events);
  }

  /** The mailbox only moves from empty to live to deleted. */
  lemma MailboxMovesForward(s: System, event: Event)
    requires Enabled(s, event)
    ensures var m := s.world.mailbox; var m' := Next(s, event).world.mailbox;
            MovesForward(m, m')
  {
    if event.Step? {
      MoveMovesForward(s, event.actor, event.answered, event.probe, event.now);
    } else if event.TakeEffect? {
      PerformMovesForward(s.world, event.request, event.probe);
    }
  }

  lemma MoveMovesForward(s: System, actor: Actor, answered: bool, probe: Probe, now: int)
    requires ActorExists(s, actor)
    ensures MovesForward(s.world.mailbox, Move(s, actor, answered, probe, now).world.mailbox)
  {
    AnswerMovesForward(s.world, s.tasks, PendingCall(s, actor, now), answered, probe);
  }

  lemma PerformMovesForward(w: World, request: Request, probe: Probe)
    ensures MovesForward(w.mailbox, Perform(w, request, probe).0.mailbox)
  {
  }

  predicate MovesForward(m: Mailbox, m': Mailbox) {
    m == m' || (m.Empty? && m'.Live?) || (m.Live? && !m'.Empty?)
  }

  lemma AnswerMovesForward(w: World, tasks: seq<Handoff.Task>, request: Request, answered: bool, probe: Probe)
    ensures MovesForward(w.mailbox, Answer(w, tasks, request, answered, probe).0.mailbox)
  {
    PerformMovesForward(w, request, probe);
  }

  lemma OneMore(s: System, event: Event, events: seq<Event>)
    requires Enabled(s, event) && Possible(Next(s, event), events)
    ensures Possible(s, [event] + events) && After(s, [event] + events) == After(Next(s, event), events)
  {
    assert ([event] + events)[1..] == events;
  }

  lemma {:induction false} RunsAppend(s: System, events: seq<Event>, more: seq<Event>)
    requires Possible(s, events) && Possible(After(s, events), more)
    ensures Possible(s, events + more) && After(s, events + more) == After(After(s, events), more)
    decreases |events|
  {
    if events == [] {
      assert events + more == more;
    } else {
      assert (events + more)[1..] == events[1..] + more;
      RunsAppend(Next(s, events[0]), events[1..], more);
    }
  }

  /** A row that is not empty now was live at some moment of the run. */
  lemma {:induction false} RowWasLive(s: System, events: seq<Event>)
    requires Possible(s, events) && s.world.mailbox.Empty? && !After(s, events).world.mailbox.Empty?
    ensures exists k :: 0 <= k <= |events| && Possible(s, events[..k]) && After(s, events[..k]).world.mailbox.Live?
    decreases |events|
  {
    var t := Next(s, events[0]);
    MailboxMovesForward(s, events[0]);
    if t.world.mailbox.Live? {
      OneMore(s, events[0], []);
      assert events[..1] == [events[0]] + [];
    } else {
      RowWasLive(t, events[1..]);
      var k :| 0 <= k <= |events[1..]| && Possible(t, events[1..][..k])
               && After(t, events[1..][..k]).world.mailbox.Live?;
      OneMore(s, events[0], events[1..][..k]);
      assert events[..k + 1] == [events[0]] + events[1..][..k];
    }
  }

  /** So a `stored` receipt was live mail once. */
  lemma StoredWasLive(envelope: Ingress.Envelope, events: seq<Event>)
    requires Possible(Initial(envelope), events)
    requires var w := After(Initial(envelope), events).world; w.receipt.Some? && w.receipt.value.body.state.Stored?
    ensures exists k :: 0 <= k <= |events| && Possible(Initial(envelope), events[..k])
                        && After(Initial(envelope), events[..k]).world.mailbox.Live?
  {
    ReceiptTellsTruth(envelope, events);
    RowWasLive(Initial(envelope), events);
  }

  // ---------------------------------------------------------------- two tests of a terminal receipt

  /** The Queue consumer's authority test, from the first check on, against an unchanging world. */
  function QueueTest(w: World, item: Queue.Item, probe: Probe, checks: nat): Queue.Item
    decreases checks
  {
    if checks == 0 || !(item.CAuthorityRaw? || item.CAuthorityDeleted?
                     || item.CAuthorityProjected? || item.CAuthorityRow?)
    then item
    else QueueTest(w, Queue.ResumeItem(item, Perform(w, Queue.CallOf(item, 0), probe).1), probe, checks - 1)
  }

  predicate QueueProves(w: World, body: Body, probe: Probe) {
    QueueTest(w, Queue.CheckAuthority(body, true), probe, 3).CClear?
  }

  /** The reconciler's test of the same receipt, before it clears the active marker. */
  predicate ReconcilerProves(w: World, body: Body, pass: Reconciler.Pass, probe: Probe) {
    var pc := Reconciler.Resume(pass, Reconciler.KRead, Valid(0, body));
    pc.KClear? || Reconciler.Resume(pass, pc, Perform(w, Reconciler.Call(pass, pc), probe).1).KClear?
  }

  /** What the mailbox and the archive must say for a terminal receipt to be borne out. */
  predicate BornOut(w: World, body: Body, row: bool) {
    match body.state
    case Stored => row
    case Deleted => w.mailbox.Tombstone? && !w.mailbox.authority.Drifted?
    case Quarantined => w.raw.BadRaw?
    case _ => true
  }

  lemma QueueTestIs(w: World, body: Body, probe: Probe)
    requires Queue.ClaimsTerminal(body) && MayQueue(w)
    ensures QueueProves(w, body, probe) <==> BornOut(w, body, LiveWithAuthority(w))
  {
    var item := Queue.CheckAuthority(body, true);
    if body.state.Stored? {
      StoredTestIs(w, body, probe);
    } else if body.state.Deleted? || body.state.Quarantined? {
      assert QueueTest(w, item, probe, 3)
          == QueueTest(w, Queue.ResumeItem(item, Perform(w, Queue.CallOf(item, 0), probe).1), probe, 2);
    }
  }

  /** A live row whose authority is the archive's, or a direct one of the same message. */
  predicate LiveWithAuthority(w: World) { w.mailbox.Live? && !w.mailbox.authority.Drifted? }

  lemma StoredTestIs(w: World, body: Body, probe: Probe)
    requires body.state.Stored?
    ensures QueueTest(w, Queue.CAuthorityDeleted(body, true), probe, 3).CClear? <==> LiveWithAuthority(w)
  {
    var first, second := Queue.CAuthorityDeleted(body, true), Queue.CAuthorityProjected(body, true);
    if !w.mailbox.Tombstone? || w.mailbox.authority.Drifted? {
      assert QueueTest(w, first, probe, 3) == QueueTest(w, second, probe, 2);
      if LiveWithAuthority(w) {
        assert QueueTest(w, second, probe, 2) == QueueTest(w, Queue.CAuthorityRow(body, true), probe, 1);
      }
    }
  }

  lemma ReconcilerTestIs(w: World, body: Body, pass: Reconciler.Pass, probe: Probe)
    requires Queue.ClaimsTerminal(body) && body.pointer.Original? && MayQueue(w)
    ensures ReconcilerProves(w, body, pass, probe) <==> BornOut(w, body, w.mailbox.Live?)
  {
  }

  /** The Queue's test implies the reconciler's. They differ on exactly one kind of receipt:
      `stored`, with a live row whose authority has drifted. */
  lemma QueueTestIsStronger(w: World, body: Body, pass: Reconciler.Pass, probe: Probe)
    requires Queue.ClaimsTerminal(body) && body.pointer.Original? && MayQueue(w)
    ensures QueueProves(w, body, probe) ==> ReconcilerProves(w, body, pass, probe)
    ensures ReconcilerProves(w, body, pass, probe) && !QueueProves(w, body, probe)
       <==> body.state.Stored? && w.mailbox.Live? && w.mailbox.authority.Drifted?
  {
    QueueTestIs(w, body, probe);
    ReconcilerTestIs(w, body, pass, probe);
  }

  // ---------------------------------------------------------------- receipt order

  /** The conditional receipt write that takes effect in this event, if any. */
  function WriteIn(s: System, event: Event): Option<Request>
    requires Enabled(s, event)
  {
    match event
    case Step(actor, answered, _, now) =>
      if answered && PendingCall(s, actor, now).PutReceipt? then Some(PendingCall(s, actor, now)) else None
    case TakeEffect(request, _) => if request.PutReceipt? then Some(request) else None
    case _ => None
  }

  /** Whoever replaces a receipt holds its current etag, so it replaces what it read. */
  lemma ReplacementIsOrdered(s: System, event: Event)
    requires SystemInv(s) && Enabled(s, event) && s.world.receipt.Some?
    ensures Next(s, event).world.receipt.Some?
    ensures var r := s.world.receipt.value; var r' := Next(s, event).world.receipt.value;
            r != r' && !event.EmergencyWrites? ==>
              && WriteIn(s, event).Some?
              && var write := WriteIn(s, event).value;
              && write.basis.Replace? && write.basis.etag == r.etag && write.body == r'.body
              && (write.basis.seen.Some? ==> write.basis.seen.value == r.body)
              && WriterMay(write.writer, write.basis, r'.body)
  {
    if event.Step? {
      ActorMayCall(s, event.actor, event.now);
      AnswerReplaces(s.world, s.tasks, PendingCall(s, event.actor, event.now), event.answered, event.probe);
    } else if event.TakeEffect? {
      assert Justified(s.world, event.request);
      PerformReplaces(s.world, event.request, event.probe);
    }
  }

  lemma PerformReplaces(w: World, request: Request, probe: Probe)
    requires w.receipt.Some? && Justified(w, request)
    ensures var w' := Perform(w, request, probe).0;
            && w'.receipt.Some?
            && (w'.receipt != w.receipt ==>
                  && request.PutReceipt?
                  && request.basis.Replace? && request.basis.etag == w.receipt.value.etag
                  && request.body == w'.receipt.value.body
                  && (request.basis.seen.Some? ==> request.basis.seen.value == w.receipt.value.body)
                  && WriterMay(request.writer, request.basis, request.body))
  {
  }

  lemma AnswerReplaces(w: World, tasks: seq<Handoff.Task>, request: Request, answered: bool, probe: Probe)
    requires w.receipt.Some? && Justified(w, request)
    ensures var w' := Answer(w, tasks, request, answered, probe).0;
            && w'.receipt.Some?
            && (w'.receipt != w.receipt ==> answered && w'.receipt == Perform(w, request, probe).0.receipt)
            && (w'.receipt != w.receipt ==>
                  && request.PutReceipt?
                  && request.basis.Replace? && request.basis.etag == w.receipt.value.etag
                  && request.body == w'.receipt.value.body
                  && (request.basis.seen.Some? ==> request.basis.seen.value == w.receipt.value.body)
                  && WriterMay(request.writer, request.basis, request.body))
  {
    PerformReplaces(w, request, probe);
  }

  function StateOf(s: System): ReceiptState
    requires s.world.receipt.Some?
  {
    s.world.receipt.value.body.state
  }

  predicate Replaces(s: System, event: Event)
    requires Enabled(s, event)
  {
    s.world.receipt.Some? && Next(s, event).world.receipt != s.world.receipt
  }

  /** When a receipt in state `before` may be replaced by one in state `after`, by the kind of
      writer and by whether the writer could read it. */
  predicate KeepsOrder(writer: Writer, read: bool, before: ReceiptState, after: ReceiptState) {
    match writer
    case ProjectionWriter =>
      || read
      || (!before.Forwarded? && !before.Rejected? && (before.Deleted? ==> after.Deleted?)
          && (before.Stored? ==> !after.Quarantined?))
    case HandoffWriter => !before.Stored? && !before.Deleted? && !before.Forwarded? && !before.Rejected?
    case AcceptanceWriter => !before.Stored? && !before.Deleted? && !before.Rejected?
  }

  /** Exactly when the order is kept, for every write of every actor, late or not: a projection
      writer that could read what it replaces always keeps it; an emergency handoff never does
      over a projection, nor over an end it could not read; an acceptance never does over a
      projection or a rejection. */
  lemma ReplacementKeepsOrderExactly(s: System, event: Event)
    requires SystemInv(s) && Enabled(s, event) && Replaces(s, event) && !event.EmergencyWrites?
    ensures WriteIn(s, event).Some? && WriteIn(s, event).value.basis.Replace?
    ensures var write := WriteIn(s, event).value;
            Advances(StateOf(s), StateOf(Next(s, event)))
            <==> KeepsOrder(write.writer, write.basis.seen.Some?, StateOf(s), StateOf(Next(s, event)))
  {
    ReplacementIsOrdered(s, event);
  }

  /** The step keeps the order; what the emergency consumer writes is up to it. */
  predicate KeepsOrderAt(s: System, event: Event)
    requires Enabled(s, event)
  {
    Replaces(s, event) ==>
      if event.EmergencyWrites? then Advances(StateOf(s), event.body.state)
      else
        var write := WriteIn(s, event);
        && write.Some? && write.value.basis.Replace? && Next(s, event).world.receipt.Some?
        && KeepsOrder(write.value.writer, write.value.basis.seen.Some?, StateOf(s), StateOf(Next(s, event)))
  }

  predicate AllKeepOrder(s: System, events: seq<Event>)
    requires Possible(s, events)
    decreases |events|
  {
    events == [] || (KeepsOrderAt(s, events[0]) && AllKeepOrder(Next(s, events[0]), events[1..]))
  }

  /** Every receipt of the run follows from the one before. */
  predicate AllAdvance(s: System, events: seq<Event>)
    requires Possible(s, events)
    decreases |events|
  {
    || events == []
    || (&& (s.world.receipt.Some? ==>
              && Next(s, events[0]).world.receipt.Some?
              && Advances(StateOf(s), StateOf(Next(s, events[0]))))
        && AllAdvance(Next(s, events[0]), events[1..]))
  }

  lemma StepAdvancesExactly(s: System, event: Event)
    requires SystemInv(s) && Enabled(s, event) && s.world.receipt.Some?
    ensures Next(s, event).world.receipt.Some?
    ensures Advances(StateOf(s), StateOf(Next(s, event))) <==> KeepsOrderAt(s, event)
  {
    ReplacementIsOrdered(s, event);
    if Replaces(s, event) && !event.EmergencyWrites? { ReplacementKeepsOrderExactly(s, event); }
  }

  /** The receipts of a run are in order exactly when each replacement is one of those that keep it. */
  lemma {:induction false} OrderHoldsExactly(s: System, events: seq<Event>)
    requires SystemInv(s) && Possible(s, events)
    ensures AllAdvance(s, events) <==> AllKeepOrder(s, events)
    decreases |events|
  {
    if events != [] {
      if s.world.receipt.Some? { StepAdvancesExactly(s, events[0]); }
      NextKeeps(s, events[0]);
      OrderHoldsExactly(Next(s, events[0]), events[1..]);
    }
  }

  /** Then, however many writers race: `deleted`, `rejected` and `forwarded` never change,
      `stored` changes only to `deleted`. */
  lemma {:induction false} ReceiptsAdvance(s: System, events: seq<Event>)
    requires SystemInv(s) && Possible(s, events) && AllKeepOrder(s, events) && s.world.receipt.Some?
    ensures After(s, events).world.receipt.Some?
    ensures Advances(StateOf(s), StateOf(After(s, events)))
    decreases |events|
  {
    if events != [] {
      StepAdvancesExactly(s, events[0]);
      NextKeeps(s, events[0]);
      ReceiptsAdvance(Next(s, events[0]), events[1..]);
    }
  }

  /** No unread receipt is replaced, no rejected one by an acceptance, none by the emergency consumer. */
  predicate ReadsFirst(s: System, event: Event)
    requires Enabled(s, event)
  {
    && !event.EmergencyWrites?
    && (WriteIn(s, event).Some? ==>
          var write := WriteIn(s, event).value;
          && (write.basis.Replace? ==> write.basis.seen.Some?)
          && (write.writer.AcceptanceWriter? && s.world.receipt.Some? ==> !StateOf(s).Rejected?))
  }

  predicate AllReadFirst(s: System, events: seq<Event>)
    requires Possible(s, events)
    decreases |events|
  {
    events == [] || (ReadsFirst(s, events[0]) && AllReadFirst(Next(s, events[0]), events[1..]))
  }

  /** Emergency handoffs and acceptances included, the two final receipts stay. */
  lemma {:induction false} FinalReceiptsStay(s: System, events: seq<Event>)
    requires SystemInv(s) && Possible(s, events) && AllReadFirst(s, events)
    requires s.world.receipt.Some? && (StateOf(s).Forwarded? || StateOf(s).Rejected?)
    ensures After(s, events).world.receipt.Some?
    ensures StateOf(After(s, events)) == StateOf(s)
    decreases |events|
  {
    if events != [] {
      ReplacementIsOrdered(s, events[0]);
      NextKeeps(s, events[0]);
      FinalReceiptsStay(Next(s, events[0]), events[1..]);
    }
  }

  // ---------------------------------------------------------------- one writer alone

  predicate CanRead(w: World, p: Pointer, probe: Probe)
    requires w.receipt.Some?
  {
    probe.readable && w.receipt.value.body.pointer == p
  }

  /** `writeReceipt` run without interference. */
  function WriteAlone(w: World, state: ReceiptState, probe: Probe, now: int): World {
    var read := Queue.CWriteRead(state);
    var write := Queue.ResumeItem(read, Perform(w, Queue.CallOf(read, now), probe).1);
    if write.CWrite? then Perform(w, Queue.CallOf(write, now), probe).0 else w
  }

  /** Exactly when the Queue's receipt write can break the order: the stored body could not
      be read back as valid, and the new state does not follow from it. */
  lemma WriteKeepsOrderExactly(w: World, state: ReceiptState, probe: Probe, now: int)
    requires WorldInv(w) && w.receipt.Some?
    ensures var before := w.receipt.value.body.state;
            var w' := WriteAlone(w, state, probe, now);
            && w'.receipt.Some?
            && (Advances(before, w'.receipt.value.body.state)
               <==> CanRead(w, Original, probe) || Advances(before, state))
  {
  }

  /** The receipt transition of `beginEmergencyForward` run without interference; `accepted`
      tells whether the marker it found records a provider acceptance. */
  function PendAlone(w: World, p: Pointer, accepted: bool, probe: Probe, now: int): World {
    var read := Handoff.HReadReceipt(p, accepted);
    var write := Handoff.Resume(read, Perform(w, Handoff.Call(read, now), probe).1);
    Perform(w, Handoff.Call(write, now), probe).0
  }

  /** Exactly when an emergency handoff keeps the order. Without an acceptance it turns a
      projection back into `forward_pending`, and any end it cannot read; with one it turns
      everything into `forwarded`, a rejection included. */
  lemma HandoffKeepsOrderExactly(w: World, p: Pointer, accepted: bool, probe: Probe, now: int)
    requires WorldInv(w) && w.receipt.Some?
    ensures var before := w.receipt.value.body.state;
            var w' := PendAlone(w, p, accepted, probe, now);
            && w'.receipt.Some?
            && (Advances(before, w'.receipt.value.body.state) <==>
                  && !before.Stored? && !before.Deleted?
                  && if accepted then !before.Rejected?
                     else CanRead(w, p, probe) || (!before.Forwarded? && !before.Rejected?))
  {
  }

  /** The receipt transition of `commitIngressForwardAcceptance` run without interference. */
  function AcceptAlone(w: World, probe: Probe, now: int): World {
    var write := Handoff.Resume(Handoff.AReadReceipt, Perform(w, Handoff.Call(Handoff.AReadReceipt, now), probe).1);
    Perform(w, Handoff.Call(write, now), probe).0
  }

  /** Exactly when the acceptance commit keeps the order: it overwrites whatever is there. */
  lemma AcceptanceKeepsOrderExactly(w: World, probe: Probe, now: int)
    requires WorldInv(w) && w.receipt.Some?
    ensures var before := w.receipt.value.body.state;
            var w' := AcceptAlone(w, probe, now);
            && w'.receipt.Some? && w'.receipt.value.body.state.Forwarded?
            && (Advances(before, Forwarded) <==> !before.Stored? && !before.Deleted? && !before.Rejected?)
  {
  }

  // ---------------------------------------------------------------- runs that break the order

  predicate StoredUnmarked(s: System, receipt: Receipt) {
    && s.world.receipt == Some(receipt) && receipt.body.state.Stored? && receipt.body.pointer.Original?
    && s.world.emergency.NoEmergency?
  }

  function Willing(): Probe { Probe(true, true, false, false, true, true, OtherError, false) }

  function TaskMoves(task: nat, now: int): Event { Step(TaskActor(task), true, Willing(), now) }

  /** The handoff reads its new marker back, then the receipt, and replaces it. */
  lemma HandoffDemotes(s: System, task: nat, receipt: Receipt, now: int) returns (events: seq<Event>)
    requires task < |s.tasks| && s.tasks[task] == Handoff.HRereadMarker(Original)
    requires StoredUnmarked(s.(world := s.world.(emergency := NoEmergency)), receipt)
    requires s.world.emergency == Marker(Original, false)
    ensures Possible(s, events) && After(s, events).world.receipt.Some? && StateOf(After(s, events)).ForwardPending?
  {
    var e := TaskMoves(task, now);
    var s1 := Next(s, e);
    assert s1.tasks[task] == Handoff.HReadReceipt(Original, false);
    var s2 := Next(s1, e);
    assert s2.tasks[task] == Handoff.HPutPending(Original, Replace(receipt.etag, Some(receipt.body)));
    var s3 := Next(s2, e);
    OneMore(s2, e, []);
    OneMore(s1, e, [e]);
    OneMore(s, e, [e] + [e]);
    events := [e] + ([e] + [e]);
  }

  lemma HandoffMayDemote(s: System, task: nat, receipt: Receipt, now: int) returns (events: seq<Event>)
    requires task < |s.tasks| && s.tasks[task] == Handoff.HReadMarker(Original) && StoredUnmarked(s, receipt)
    ensures Possible(s, events) && After(s, events).world.receipt.Some? && StateOf(After(s, events)).ForwardPending?
  {
    var e := TaskMoves(task, now);
    var s1 := Next(s, e);
    assert s1.tasks[task] == Handoff.HCreateMarker(Original);
    var s2 := Next(s1, e);
    var rest := HandoffDemotes(s2, task, receipt, now);
    OneMore(s1, e, rest);
    OneMore(s, e, [e] + rest);
    events := [e] + ([e] + rest);
  }

  /** Whenever, in a state of the invariant, a `stored` receipt is there, no emergency marker is, and
      the deadline of an unsettled attempt is still ahead, it may expire, and a handoff can follow that takes the
      receipt back to `forward_pending`. */
  lemma DeadlineMayDemoteStored(s: System, i: nat, receipt: Receipt, now: int) returns (events: seq<Event>)
    requires SystemInv(s) && i < |s.attempts| && s.attempts[i].wrapper.WWaiting? && !s.attempts[i].settled
    requires StoredUnmarked(s, receipt)
    ensures Possible(s, events) && After(s, events).world.receipt.Some? && StateOf(After(s, events)).ForwardPending?
  {
    var start := Step(WrapperActor(i), true, Willing(), now);
    assert Queue.AttemptInv(s.world, s.attempts[i]);
    var s1 := Next(s, Deadline(i));
    assert s1.attempts[i].wrapper == Queue.WStartHandoff;
    var s2 := Next(s1, start);
    assert s2.tasks[|s.tasks|] == Handoff.HReadMarker(Original);
    var rest := HandoffMayDemote(s2, |s.tasks|, receipt, now);
    OneMore(s1, start, rest);
    OneMore(s, Deadline(i), [start] + rest);
    events := [Deadline(i)] + ([start] + rest);
  }

  lemma AcceptanceOverwrites(s: System, task: nat, now: int) returns (events: seq<Event>)
    requires task < |s.tasks| && s.tasks[task] == Handoff.AViewRaw
    requires s.world.raw.ExactRaw? && s.world.mail.bounded && s.world.receipt.Some?
    ensures Possible(s, events) && After(s, events).world.receipt.Some? && StateOf(After(s, events)).Forwarded?
    ensures After(s, events).world.mailbox == s.world.mailbox
  {
    var e := TaskMoves(task, now);
    var s1 := Next(s, e);
    assert s1.tasks[task] == Handoff.APutAccepted;
    var s2 := Next(s1, e);
    assert s2.tasks[task] == Handoff.AReadReceipt;
    var rest := AcceptanceWrites(s2, task, now);
    OneMore(s1, e, rest);
    OneMore(s, e, [e] + rest);
    events := [e] + ([e] + rest);
  }

  lemma AcceptanceWrites(s: System, task: nat, now: int) returns (events: seq<Event>)
    requires task < |s.tasks| && s.tasks[task] == Handoff.AReadReceipt && s.world.receipt.Some?
    ensures Possible(s, events) && After(s, events).world.receipt.Some? && StateOf(After(s, events)).Forwarded?
    ensures After(s, events).world.mailbox == s.world.mailbox
  {
    var e := TaskMoves(task, now);
    var s1 := Next(s, e);
    assert s1.tasks[task].APutForwarded? && WriteApplies(s1.world, s1.tasks[task].basis);
    OneMore(s1, e, []);
    OneMore(s, e, [e]);
    events := [e] + [e];
  }

  /** Whatever the receipt says, a handler that is about to forward an exact archive, with an address
      and a size that may be forwarded, may turn it into `forwarded`, and leave the mailbox as it is. */
  lemma ForwardMayOverwrite(s: System, now: int) returns (events: seq<Event>)
    requires s.ingress == Ingress.IForward(true) && s.world.raw.ExactRaw? && s.world.receipt.Some?
    requires Forwardable(s.world.mail)
    ensures Possible(s, events) && After(s, events).world.receipt.Some? && StateOf(After(s, events)).Forwarded?
    ensures After(s, events).world.mailbox == s.world.mailbox
  {
    var e := Step(IngressActor, true, Willing(), now);
    var s1 := Next(s, e);
    assert s1.ingress.IStartAcceptance?;
    var s2 := Next(s1, e);
    assert s2.tasks[|s.tasks|] == Handoff.AViewRaw;
    var rest := AcceptanceOverwrites(s2, |s.tasks|, now);
    OneMore(s1, e, rest);
    OneMore(s, e, [e] + rest);
    events := [e] + ([e] + rest);
  }
}
