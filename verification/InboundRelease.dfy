/** What was proven before anything is released, over whole runs. An acknowledgement of a primary
    delivery, and a deletion of the active marker, goes back to a terminal receipt that the same
    actor read earlier in the run and that the world bore out at that time or later; or, for the
    marker alone, to an emergency marker that records a provider acceptance. */
module InboundRelease {
  import opened InboundStore
  import opened Wrappers
  import opened InboundProtocol
  import opened InboundSafety
  import Handoff = EmergencyHandoff
  import Ingress = InboundIngress
  import Queue = InboundQueue
  import Reconciler = InboundReconciler

  // ---------------------------------------------------------------- histories

  /** The states of a run, from the first to the last. */
  ghost predicate IsRun(h: seq<System>, events: seq<Event>, e: Ingress.Envelope) {
    && |h| == |events| + 1 && h[0] == Initial(e)
    && forall k :: 0 <= k < |events| ==> Enabled(h[k], events[k]) && h[k + 1] == Next(h[k], events[k])
  }

  function Last(h: seq<System>): System
    requires h != []
  {
    h[|h| - 1]
  }

  function History(s: System, events: seq<Event>): (h: seq<System>)
    requires Possible(s, events)
    ensures |h| == |events| + 1 && h[0] == s && h[|events|] == After(s, events)
    ensures forall k :: 0 <= k < |events| ==> Enabled(h[k], events[k]) && h[k + 1] == Next(h[k], events[k])
    decreases |events|
  {
    if events == [] then [s] else [s] + History(Next(s, events[0]), events[1..])
  }

  // ---------------------------------------------------------------- evidence

  predicate Reads(request: Request) { request.GetReceipt? || request.GetTerminalReceipt? }

  /** In step `k` this actor read a receipt that says `body`. */
  ghost predicate ReadAt(h: seq<System>, events: seq<Event>, k: nat, actor: Actor, body: Body) {
    && k < |events| && k < |h| && events[k].Step? && events[k].actor == actor && events[k].answered
    && ActorExists(h[k], actor) && Reads(PendingCall(h[k], actor, events[k].now))
    && h[k].world.receipt.Some? && h[k].world.receipt.value.body == body
  }

  /** The receipt is terminal and the world bears it out: `stored` by a live row, for the Queue
      consumer by one with the right authority; `deleted` by a tombstone for its pointer;
      `forwarded` by the provider; `rejected` by SMTP; a mismatch by a damaged archive. */
  predicate BearsOut(w: World, actor: Actor, body: Body) {
    && HasSha(body.pointer)
    && match body.state
       case Stored => w.mailbox.Live? && (actor.ItemActor? ==> !w.mailbox.authority.Drifted?)
       case Deleted => w.mailbox.Tombstone? && Answers(w.mailbox.authority, Of(body.pointer))
       case Forwarded => w.providerAccepted
       case Rejected => w.rejections > 0
       case Quarantined => body.mismatch && w.raw.BadRaw?
       case _ => false
  }

  ghost predicate HasRead(h: seq<System>, events: seq<Event>, actor: Actor, body: Body) {
    exists k: nat :: ReadAt(h, events, k, actor, body)
  }

  /** The actor read the receipt, and then or later it was borne out. */
  ghost predicate ProvenAt(h: seq<System>, events: seq<Event>, k: nat, j: nat, actor: Actor, body: Body) {
    ReadAt(h, events, k, actor, body) && k <= j < |h| && BearsOut(h[j].world, actor, body)
  }

  ghost predicate ProvenBy(h: seq<System>, events: seq<Event>, actor: Actor, body: Body) {
    exists k: nat, j: nat :: ProvenAt(h, events, k, j, actor, body)
  }

  predicate Accepted(w: World) { w.emergency.Marker? && w.emergency.accepted && w.providerAccepted }

  ghost predicate AcceptanceSeen(h: seq<System>) { exists j :: 0 <= j < |h| && Accepted(h[j].world) }

  ghost predicate MarkerProof(h: seq<System>, events: seq<Event>) {
    AcceptanceSeen(h) || exists actor, body :: ProvenBy(h, events, actor, body)
  }

  lemma ReadingGrows(h: seq<System>, events: seq<Event>, s: System, event: Event, actor: Actor, body: Body)
    requires |h| == |events| + 1 && HasRead(h, events, actor, body)
    ensures HasRead(h + [s], events + [event], actor, body)
  {
    var k: nat :| ReadAt(h, events, k, actor, body);
    assert ReadAt(h + [s], events + [event], k, actor, body);
  }

  lemma ProofGrows(h: seq<System>, events: seq<Event>, s: System, event: Event, actor: Actor, body: Body)
    requires |h| == |events| + 1 && ProvenBy(h, events, actor, body)
    ensures ProvenBy(h + [s], events + [event], actor, body)
  {
    var k: nat, j: nat :| ProvenAt(h, events, k, j, actor, body);
    assert ReadAt(h + [s], events + [event], k, actor, body);
    assert ProvenAt(h + [s], events + [event], k, j, actor, body);
  }

  lemma AcceptanceGrows(h: seq<System>, s: System)
    requires AcceptanceSeen(h)
    ensures AcceptanceSeen(h + [s])
  {
    var j :| 0 <= j < |h| && Accepted(h[j].world);
    assert (h + [s])[j] == h[j];
  }

  lemma MarkerProofGrows(h: seq<System>, events: seq<Event>, s: System, event: Event)
    requires |h| == |events| + 1 && MarkerProof(h, events)
    ensures MarkerProof(h + [s], events + [event])
  {
    if AcceptanceSeen(h) {
      AcceptanceGrows(h, s);
    } else {
      var actor, body :| ProvenBy(h, events, actor, body);
      ProofGrows(h, events, s, event, actor, body);
    }
  }

  // ---------------------------------------------------------------- how far an actor has come

  /** What a program counter claims: nothing, that the receipt was read, or that it was borne out. */
  datatype Stage = Nothing | HoldsRead(body: Body) | HoldsProof(body: Body)

  function ItemStage(item: Queue.Item): Stage {
    match item
    case CAuthorityRaw(body, _) => HoldsRead(body)
    case CAuthorityDeleted(body, _) => HoldsRead(body)
    case CAuthorityProjected(body, _) => HoldsRead(body)
    case CAuthorityRow(body, _) => HoldsProof(body)
    case CClear(body) => HoldsProof(body)
    case CAck(body) => HoldsProof(body)
    case _ => Nothing
  }

  function PassStage(pc: Reconciler.Pc): Stage {
    match pc
    case KDeleted(body) => HoldsRead(body)
    case KRow(body) => HoldsRead(body)
    case KViewRaw(body) => HoldsRead(body)
    case KClear(body) => HoldsProof(body)
    case _ => Nothing
  }

  function HandlerStage(pc: Ingress.Pc): Stage {
    match pc
    case IClear(Some(body)) => HoldsProof(body)
    case _ => Nothing
  }

  ghost predicate StageOk(h: seq<System>, events: seq<Event>, actor: Actor, stage: Stage) {
    match stage
    case Nothing => true
    case HoldsRead(body) => HasRead(h, events, actor, body)
    case HoldsProof(body) => ProvenBy(h, events, actor, body)
  }

  lemma StageGrows(h: seq<System>, events: seq<Event>, s: System, event: Event, actor: Actor, stage: Stage)
    requires |h| == |events| + 1 && StageOk(h, events, actor, stage)
    ensures StageOk(h + [s], events + [event], actor, stage)
  {
    match stage
    case Nothing =>
    case HoldsRead(body) => ReadingGrows(h, events, s, event, actor, body);
    case HoldsProof(body) => ProofGrows(h, events, s, event, actor, body);
  }

  /** What an answer says of the very state in which the call took effect. */
  predicate Truthful(w: World, request: Request, reply: Reply) {
    match request
    case GetReceipt(p) =>
      reply.Valid? ==> w.receipt.Some? && w.receipt.value.body == reply.body && reply.body.pointer == p
    case GetTerminalReceipt =>
      reply.Valid? ==> w.receipt.Some? && w.receipt.value.body == reply.body && HasSha(reply.body.pointer)
    case DeletionTruth(q) => reply == Flag(true) ==> w.mailbox.Tombstone? && Answers(w.mailbox.authority, q)
    case ProjectionTruth(q) => reply == Flag(true) ==> w.mailbox.Live? && Answers(w.mailbox.authority, q)
    case RowExists => reply == Flag(true) ==> w.mailbox.Live?
    case _ => true
  }

  lemma AnswersAreTruthful(w: World, tasks: seq<Handoff.Task>, request: Request, answered: bool, probe: Probe)
    ensures var reply := Answer(w, tasks, request, answered, probe).2;
            Truthful(w, request, reply) && (reply.Valid? ==> answered && Reads(request))
  {
  }

  /** A step from one stage to another: the receipt was read just now, or it was borne out just
      now, or nothing new is claimed. */
  predicate StageStep(w: World, actor: Actor, request: Request, reply: Reply, before: Stage, after: Stage) {
    var readNow := Reads(request) && reply.Valid?;
    match after
    case Nothing => true
    case HoldsRead(body) => before == after || (readNow && reply.body == body)
    case HoldsProof(body) =>
      || before == after
      || (BearsOut(w, actor, body) && (before == HoldsRead(body) || (readNow && reply.body == body)))
  }

  lemma ItemSteps(w: World, i: nat, item: Queue.Item, reply: Reply, now: int)
    requires WorldInv(w) && Queue.ItemInv(w, item) && Truthful(w, Queue.CallOf(item, now), reply)
    requires reply.Valid? ==> Reads(Queue.CallOf(item, now))
    ensures StageStep(w, ItemActor(i), Queue.CallOf(item, now), reply,
                         ItemStage(item), ItemStage(Queue.ResumeItem(item, reply)))
  {
  }

  lemma PassSteps(w: World, i: nat, pass: Reconciler.Pass, pc: Reconciler.Pc, reply: Reply)
    requires WorldInv(w) && Reconciler.ReconcilerInv(w, pc) && Truthful(w, Reconciler.Call(pass, pc), reply)
    requires reply.Valid? ==> Reads(Reconciler.Call(pass, pc))
    ensures StageStep(w, PassActor(i), Reconciler.Call(pass, pc), reply, PassStage(pc),
                      PassStage(Reconciler.Resume(pass, pc, reply)))
  {
    if !IsCheck(pc) { OnlyChecksProve(pass, pc, reply); }
  }

  predicate IsCheck(pc: Reconciler.Pc) { pc.KRead? || pc.KDeleted? || pc.KRow? || pc.KViewRaw? || pc.KClear? }

  lemma OnlyChecksProve(pass: Reconciler.Pass, pc: Reconciler.Pc, reply: Reply)
    requires !IsCheck(pc)
    ensures PassStage(Reconciler.Resume(pass, pc, reply)).Nothing?
  {
  }

  lemma HandlerSteps(e: Ingress.Envelope, w: World, pc: Ingress.Pc, reply: Reply, now: int)
    requires WorldInv(w) && Ingress.IngressInv(e, w, pc) && Truthful(w, Ingress.Call(e, pc, now), reply)
    requires reply.Valid? ==> Reads(Ingress.Call(e, pc, now))
    ensures StageStep(w, IngressActor, Ingress.Call(e, pc, now), reply, HandlerStage(pc),
                      HandlerStage(Ingress.Resume(e, pc, reply, now)))
  {
    if !pc.IRejectReadback? { OnlyReadbackProves(e, pc, reply, now); }
  }

  lemma OnlyReadbackProves(e: Ingress.Envelope, pc: Ingress.Pc, reply: Reply, now: int)
    requires !pc.IRejectReadback?
    ensures HandlerStage(Ingress.Resume(e, pc, reply, now)).Nothing?
  {
  }

  /** The evidence of the history carries a step from one stage to another. */
  lemma StageFollows(h: seq<System>, events: seq<Event>, s': System, event: Event, actor: Actor,
                     reply: Reply, before: Stage, after: Stage)
    requires |h| == |events| + 1 && StageOk(h, events, actor, before)
    requires event.Step? && event.actor == actor && ActorExists(Last(h), actor)
    requires var request := PendingCall(Last(h), actor, event.now);
             && StageStep(Last(h).world, actor, request, reply, before, after)
             && (reply.Valid? ==> event.answered) && Truthful(Last(h).world, request, reply)
    ensures StageOk(h + [s'], events + [event], actor, after)
  {
    var h', events', n := h + [s'], events + [event], |events|;
    if before == after {
      StageGrows(h, events, s', event, actor, before);
    } else if after.HoldsRead? {
      assert ReadAt(h', events', n, actor, after.body);
    } else if after.HoldsProof? {
      if before == HoldsRead(after.body) {
        var k: nat :| ReadAt(h, events, k, actor, after.body);
        assert ReadAt(h', events', k, actor, after.body);
        assert ProvenAt(h', events', k, n, actor, after.body);
      } else {
        assert ReadAt(h', events', n, actor, after.body);
        assert ProvenAt(h', events', n, n, actor, after.body);
      }
    }
  }

  // ---------------------------------------------------------------- the acceptance commit

  /** Past the accepted marker. */
  predicate HasAccepted(task: Handoff.Task) {
    || task.AReadReceipt? || task.APutForwarded? || task.ACheckForwarded? || task.AReference? || task.AStartReference?
    || task.AJoinReference? || task.AClearMarker? || task.ADone?
  }

  /** The task a handler waits for is an acceptance commit, or one that failed. */
  predicate AwaitsAcceptance(pc: Ingress.Pc, tasks: seq<Handoff.Task>) {
    pc.IJoinAcceptance? ==>
      pc.task < |tasks| && (Handoff.IsAcceptance(tasks[pc.task]) || tasks[pc.task].TFailed?)
  }

  ghost predicate AcceptanceOk(h: seq<System>, pc: Ingress.Pc, tasks: seq<Handoff.Task>) {
    && AwaitsAcceptance(pc, tasks)
    && (forall t :: 0 <= t < |tasks| && HasAccepted(tasks[t]) ==> AcceptanceSeen(h))
    && (pc == Ingress.IClear(None) ==> AcceptanceSeen(h))
  }

  // ---------------------------------------------------------------- the invariant

  ghost predicate ReleaseInv(h: seq<System>, events: seq<Event>)
    requires h != []
  {
    var s := Last(h);
    && StageOk(h, events, IngressActor, HandlerStage(s.ingress))
    && (forall i :: 0 <= i < |s.attempts| ==> StageOk(h, events, ItemActor(i), ItemStage(s.attempts[i].item)))
    && (forall i :: 0 <= i < |s.passes| ==> StageOk(h, events, PassActor(i), PassStage(s.passes[i].pc)))
    && AcceptanceOk(h, s.ingress, s.tasks)
    && (DeleteMarker in s.world.late ==> MarkerProof(h, events))
  }

  /** The proof of the one who deletes: its own, or for the handler an acceptance. */
  ghost predicate DeleterProof(h: seq<System>, events: seq<Event>, actor: Actor) {
    (actor.IngressActor? && AcceptanceSeen(h)) || exists body :: ProvenBy(h, events, actor, body)
  }

  /** An actor that may delete the marker has the proof. */
  lemma DeletersHaveProof(h: seq<System>, events: seq<Event>, actor: Actor, now: int)
    requires h != [] && ReleaseInv(h, events) && ActorExists(Last(h), actor)
    requires PendingCall(Last(h), actor, now).DeleteMarker?
    ensures DeleterProof(h, events, actor) && MarkerProof(h, events)
  {
    var s := Last(h);
    DeletersStand(s, actor, now);
    match actor
    case IngressActor =>
      if s.ingress.proof.Some? { assert StageOk(h, events, actor, HoldsProof(s.ingress.proof.value)); }
    case ItemActor(i) => assert StageOk(h, events, actor, ItemStage(s.attempts[i].item));
    case PassActor(i) => assert StageOk(h, events, actor, PassStage(s.passes[i].pc));
  }

  lemma DeletersStand(s: System, actor: Actor, now: int)
    requires ActorExists(s, actor) && PendingCall(s, actor, now).DeleteMarker?
    ensures match actor
            case IngressActor => s.ingress.IClear?
            case ItemActor(i) => s.attempts[i].item.CClear?
            case PassActor(i) => s.passes[i].pc.KClear?
            case _ => false
  {
  }

  /** Whoever does not move keeps its evidence. */
  lemma OthersKeep(h: seq<System>, events: seq<Event>, s': System, event: Event)
    requires |h| == |events| + 1 && ReleaseInv(h, events)
    ensures var s, h', events' := Last(h), h + [s'], events + [event];
            && StageOk(h', events', IngressActor, HandlerStage(s.ingress))
            && (forall i :: 0 <= i < |s.attempts| ==> StageOk(h', events', ItemActor(i), ItemStage(s.attempts[i].item)))
            && (forall i :: 0 <= i < |s.passes| ==> StageOk(h', events', PassActor(i), PassStage(s.passes[i].pc)))
            && (MarkerProof(h, events) ==> MarkerProof(h', events'))
            && (AcceptanceSeen(h) ==> AcceptanceSeen(h'))
  {
    var s, h', events' := Last(h), h + [s'], events + [event];
    StageGrows(h, events, s', event, IngressActor, HandlerStage(s.ingress));
    forall i | 0 <= i < |s.attempts| ensures StageOk(h', events', ItemActor(i), ItemStage(s.attempts[i].item)) {
      StageGrows(h, events, s', event, ItemActor(i), ItemStage(s.attempts[i].item));
    }
    forall i | 0 <= i < |s.passes| ensures StageOk(h', events', PassActor(i), PassStage(s.passes[i].pc)) {
      StageGrows(h, events, s', event, PassActor(i), PassStage(s.passes[i].pc));
    }
    if MarkerProof(h, events) { MarkerProofGrows(h, events, s', event); }
    if AcceptanceSeen(h) { AcceptanceGrows(h, s'); }
  }

  /** A call leaves the marker's deletion behind only if it is that deletion. */
  lemma LateDeletions(w: World, tasks: seq<Handoff.Task>, request: Request, answered: bool, probe: Probe)
    ensures DeleteMarker in Answer(w, tasks, request, answered, probe).0.late ==>
              DeleteMarker in w.late || request.DeleteMarker?
  {
  }

  // ---------------------------------------------------------------- every step keeps it

  /** What the handler claims about acceptances after a step of its own. */
  lemma HandlerAwaits(e: Ingress.Envelope, h: seq<System>, pc: Ingress.Pc, tasks: seq<Handoff.Task>,
                      answered: bool, probe: Probe, now: int)
    requires h != [] && AcceptanceOk(h, pc, tasks)
    ensures var (_, tasks', reply) := Answer(Last(h).world, tasks, Ingress.Call(e, pc, now), answered, probe);
            var pc' := Ingress.Resume(e, pc, reply, now);
            AwaitsAcceptance(pc', tasks') && (pc' == Ingress.IClear(None) ==> AcceptanceSeen(h))
  {
    if !pc.IStartAcceptance? && !pc.IJoinAcceptance? {
      var reply := Answer(Last(h).world, tasks, Ingress.Call(e, pc, now), answered, probe).2;
      OnlyAcceptanceAwaits(e, pc, reply, now);
    }
  }

  lemma OnlyAcceptanceAwaits(e: Ingress.Envelope, pc: Ingress.Pc, reply: Reply, now: int)
    requires !pc.IStartAcceptance? && !pc.IJoinAcceptance?
    ensures !Ingress.Resume(e, pc, reply, now).IJoinAcceptance?
               && Ingress.Resume(e, pc, reply, now) != Ingress.IClear(None)
  {
  }

  /** A call adds at most a task that has not begun. */
  lemma NewTasksAreFresh(w: World, tasks: seq<Handoff.Task>, request: Request, answered: bool, probe: Probe)
    ensures var tasks' := Answer(w, tasks, request, answered, probe).1;
            && |tasks| <= |tasks'|
            && (forall t :: 0 <= t < |tasks| ==> tasks'[t] == tasks[t])
            && (forall t :: |tasks| <= t < |tasks'| ==> !HasAccepted(tasks'[t]))
  {
  }

  /** A task comes past the accepted marker only by writing it. */
  lemma TaskAccepts(w: World, tasks: seq<Handoff.Task>, task: Handoff.Task, answered: bool, probe: Probe, now: int)
    requires WorldInv(w) && Handoff.TaskInv(w, task)
    ensures var (w', _, reply) := Answer(w, tasks, Handoff.Call(task, now), answered, probe);
            var task' := Handoff.Resume(task, reply);
            && (HasAccepted(task') ==> HasAccepted(task) || Accepted(w'))
            && (Handoff.IsAcceptance(task) ==> Handoff.IsAcceptance(task') || task'.TFailed?)
  {
  }

  /** A step of an actor leaves a state in which the actor's own evidence and everybody else's
      still stand. */
  ghost predicate StepKeepsProof(h: seq<System>, events: seq<Event>, event: Event)
    requires h != [] && Enabled(Last(h), event)
  {
    ReleaseInv(h + [Next(Last(h), event)], events + [event])
  }

  lemma HandlerStepKeepsProof(h: seq<System>, events: seq<Event>, event: Event)
    requires |h| == |events| + 1 && SystemInv(Last(h)) && ReleaseInv(h, events)
    requires event.Step? && event.actor.IngressActor?
    ensures StepKeepsProof(h, events, event)
  {
    var s, s' := Last(h), Next(Last(h), event);
    var request := PendingCall(s, event.actor, event.now);
    var reply := Answer(s.world, s.tasks, request, event.answered, event.probe).2;
    OthersKeep(h, events, s', event);
    AnswersAreTruthful(s.world, s.tasks, request, event.answered, event.probe);
    HandlerSteps(s.envelope, s.world, s.ingress, reply, event.now);
    StageFollows(h, events, s', event, event.actor, reply, HandlerStage(s.ingress), HandlerStage(s'.ingress));
    HandlerAwaits(s.envelope, h, s.ingress, s.tasks, event.answered, event.probe, event.now);
    NewTasksAreFresh(s.world, s.tasks, request, event.answered, event.probe);
    LateStays(h, events, event);
  }

  /** The marker's deletion is left behind only with proof. */
  lemma LateStays(h: seq<System>, events: seq<Event>, event: Event)
    requires |h| == |events| + 1 && ReleaseInv(h, events)
    requires event.Step? && ActorExists(Last(h), event.actor)
    ensures var s' := Next(Last(h), event);
            DeleteMarker in s'.world.late ==> MarkerProof(h + [s'], events + [event])
  {
    var s, s' := Last(h), Next(Last(h), event);
    var request := PendingCall(s, event.actor, event.now);
    LateDeletions(s.world, s.tasks, request, event.answered, event.probe);
    if request.DeleteMarker? { DeletersHaveProof(h, events, event.actor, event.now); }
    if MarkerProof(h, events) { MarkerProofGrows(h, events, s', event); }
  }

  lemma ItemStepKeepsProof(h: seq<System>, events: seq<Event>, event: Event)
    requires |h| == |events| + 1 && SystemInv(Last(h)) && ReleaseInv(h, events)
    requires event.Step? && event.actor.ItemActor? && event.actor.index < |Last(h).attempts|
    ensures StepKeepsProof(h, events, event)
  {
    var s, s' := Last(h), Next(Last(h), event);
    var request, i := PendingCall(s, event.actor, event.now), event.actor.index;
    var reply := Answer(s.world, s.tasks, request, event.answered, event.probe).2;
    OthersKeep(h, events, s', event);
    AnswersAreTruthful(s.world, s.tasks, request, event.answered, event.probe);
    assert Queue.AttemptInv(s.world, s.attempts[i]);
    ItemSteps(s.world, i, s.attempts[i].item, reply, event.now);
    StageFollows(h, events, s', event, event.actor, reply,
                   ItemStage(s.attempts[i].item), ItemStage(s'.attempts[i].item));
    NewTasksAreFresh(s.world, s.tasks, request, event.answered, event.probe);
    LateStays(h, events, event);
  }

  lemma WrapperStepKeepsProof(h: seq<System>, events: seq<Event>, event: Event)
    requires |h| == |events| + 1 && SystemInv(Last(h)) && ReleaseInv(h, events)
    requires event.Step? && event.actor.WrapperActor? && event.actor.index < |Last(h).attempts|
    ensures StepKeepsProof(h, events, event)
  {
    var s, s' := Last(h), Next(Last(h), event);
    var request := PendingCall(s, event.actor, event.now);
    OthersKeep(h, events, s', event);
    NewTasksAreFresh(s.world, s.tasks, request, event.answered, event.probe);
    LateStays(h, events, event);
  }

  lemma PassStepKeepsProof(h: seq<System>, events: seq<Event>, event: Event)
    requires |h| == |events| + 1 && SystemInv(Last(h)) && ReleaseInv(h, events)
    requires event.Step? && event.actor.PassActor? && event.actor.index < |Last(h).passes|
    ensures StepKeepsProof(h, events, event)
  {
    var s, s' := Last(h), Next(Last(h), event);
    var request, i := PendingCall(s, event.actor, event.now), event.actor.index;
    var reply := Answer(s.world, s.tasks, request, event.answered, event.probe).2;
    OthersKeep(h, events, s', event);
    AnswersAreTruthful(s.world, s.tasks, request, event.answered, event.probe);
    PassSteps(s.world, i, s.passes[i].pass, s.passes[i].pc, reply);
    StageFollows(h, events, s', event, event.actor, reply, PassStage(s.passes[i].pc), PassStage(s'.passes[i].pc));
    NewTasksAreFresh(s.world, s.tasks, request, event.answered, event.probe);
    LateStays(h, events, event);
  }

  lemma TaskStepKeepsProof(h: seq<System>, events: seq<Event>, event: Event)
    requires |h| == |events| + 1 && SystemInv(Last(h)) && ReleaseInv(h, events)
    requires event.Step? && event.actor.TaskActor? && event.actor.index < |Last(h).tasks|
    ensures StepKeepsProof(h, events, event)
  {
    var s, s' := Last(h), Next(Last(h), event);
    var i := event.actor.index;
    OthersKeep(h, events, s', event);
    LateStays(h, events, event);
    assert Handoff.TaskInv(s.world, s.tasks[i]);
    TaskAccepts(s.world, s.tasks, s.tasks[i], event.answered, event.probe, event.now);
    NewTasksAreFresh(s.world, s.tasks, PendingCall(s, event.actor, event.now), event.answered, event.probe);
    if Accepted(s'.world) {
      assert (h + [s'])[|h|] == s';
      assert AcceptanceSeen(h + [s']);
    }
  }

  lemma EnvironmentKeepsProof(h: seq<System>, events: seq<Event>, event: Event)
    requires |h| == |events| + 1 && ReleaseInv(h, events) && Enabled(Last(h), event) && !event.Step?
    ensures StepKeepsProof(h, events, event)
  {
    OthersKeep(h, events, Next(Last(h), event), event);
  }

  lemma NextKeepsProof(h: seq<System>, events: seq<Event>, event: Event)
    requires |h| == |events| + 1 && SystemInv(Last(h)) && ReleaseInv(h, events) && Enabled(Last(h), event)
    ensures StepKeepsProof(h, events, event)
  {
    if !event.Step? {
      EnvironmentKeepsProof(h, events, event);
    } else {
      match event.actor
      case IngressActor => HandlerStepKeepsProof(h, events, event);
      case ItemActor(_) => ItemStepKeepsProof(h, events, event);
      case WrapperActor(_) => WrapperStepKeepsProof(h, events, event);
      case PassActor(_) => PassStepKeepsProof(h, events, event);
      case TaskActor(_) => TaskStepKeepsProof(h, events, event);
    }
  }

  lemma {:induction false} RunsKeepProof(h: seq<System>, events: seq<Event>, e: Ingress.Envelope)
    requires IsRun(h, events, e)
    ensures SystemInv(Last(h)) && ReleaseInv(h, events)
    decreases |events|
  {
    if events == [] {
      InitialHolds(e);
      NothingIsClaimed(h, events, e);
    } else {
      var n := |events| - 1;
      RunShortens(h, events, e);
      RunsKeepProof(h[..n + 1], events[..n], e);
      LastStepKeepsProof(h[..n + 1], events[..n], events[n]);
    }
  }

  lemma NothingIsClaimed(h: seq<System>, events: seq<Event>, e: Ingress.Envelope)
    requires h == [Initial(e)]
    ensures ReleaseInv(h, events)
  {
  }

  lemma RunShortens(h: seq<System>, events: seq<Event>, e: Ingress.Envelope)
    requires IsRun(h, events, e) && events != []
    ensures var n := |events| - 1;
            var h0, events0 := h[..n + 1], events[..n];
            && IsRun(h0, events0, e) && Enabled(Last(h0), events[n])
            && h == h0 + [Next(Last(h0), events[n])] && events == events0 + [events[n]]
  {
  }

  lemma LastStepKeepsProof(h: seq<System>, events: seq<Event>, event: Event)
    requires |h| == |events| + 1 && SystemInv(Last(h)) && ReleaseInv(h, events) && Enabled(Last(h), event)
    ensures var s' := Next(Last(h), event); SystemInv(s') && ReleaseInv(h + [s'], events + [event])
  {
    NextKeeps(Last(h), event);
    NextKeepsProof(h, events, event);
  }

  // ---------------------------------------------------------------- the theorem

  /** An actor's step removes a primary delivery only as the acknowledgement of a consumer that has
      read a terminal receipt in this run, and that receipt has been borne out since. */
  lemma AcknowledgementIsProven(h: seq<System>, events: seq<Event>, e: Ingress.Envelope, event: Event)
    requires IsRun(h, events, e) && Enabled(Last(h), event) && event.Step?
    requires Last(h).world.normal - Next(Last(h), event).world.normal != {}
    ensures event.actor.ItemActor?
    ensures var item := Last(h).attempts[event.actor.index].item;
            item.CAck? && ProvenBy(h, events, event.actor, item.body)
  {
    var s := Last(h);
    RunsKeepProof(h, events, e);
    StepReleases(s, event.actor, event.answered, event.probe, event.now);
    OnlyItemsAcknowledge(s, event);
    assert StageOk(h, events, event.actor, ItemStage(s.attempts[event.actor.index].item));
  }

  lemma AnswersOnlyAdd(w: World, tasks: seq<Handoff.Task>, request: Request, answered: bool, probe: Probe)
    ensures w.normal <= Answer(w, tasks, request, answered, probe).0.normal
  {
  }

  lemma OnlyItemsAcknowledge(s: System, event: Event)
    requires SystemInv(s) && Enabled(s, event) && event.Step?
    ensures s.world.normal - Next(s, event).world.normal != {} ==>
              event.actor.ItemActor? && s.attempts[event.actor.index].item.CAck?
  {
    AnswersOnlyAdd(s.world, s.tasks, PendingCall(s, event.actor, event.now), event.answered, event.probe);
    match event.actor {
      case ItemActor(i) => assert Queue.AttemptInv(s.world, s.attempts[i]);
      case WrapperActor(i) => assert Queue.AttemptInv(s.world, s.attempts[i]);
      case _ =>
    }
  }

  /** An actor's step deletes the active marker only if this actor has read a terminal receipt in this
      run that has been borne out since, or, for the SMTP handler, an emergency marker recorded a
      provider acceptance. A deletion that takes effect late was issued by such an actor. */
  lemma MarkerReleaseIsProven(h: seq<System>, events: seq<Event>, e: Ingress.Envelope, event: Event)
    requires IsRun(h, events, e) && Enabled(Last(h), event)
    requires Last(h).world.marker && !Next(Last(h), event).world.marker
    ensures MarkerProof(h, events)
    ensures event.Step? ==> DeleterProof(h, events, event.actor)
  {
    RunsKeepProof(h, events, e);
    MarkerGoes(Last(h), event);
    if event.Step? { DeletersHaveProof(h, events, event.actor, event.now); }
  }

  lemma MarkerGoes(s: System, event: Event)
    requires Enabled(s, event) && s.world.marker && !Next(s, event).world.marker
    ensures if event.Step? then PendingCall(s, event.actor, event.now).DeleteMarker? else DeleteMarker in s.world.late
  {
    if event.Step? {
      OnlyDeletionsClear(s.world, s.tasks, PendingCall(s, event.actor, event.now), event.answered, event.probe);
    }
  }

  lemma OnlyDeletionsClear(w: World, tasks: seq<Handoff.Task>, request: Request, answered: bool, probe: Probe)
    ensures w.marker && !Answer(w, tasks, request, answered, probe).0.marker ==> request.DeleteMarker?
  {
  }

  /** Every run has a history. */
  lemma RunHasHistory(e: Ingress.Envelope, events: seq<Event>)
    requires Possible(Initial(e), events)
    ensures var h := History(Initial(e), events); IsRun(h, events, e) && Last(h) == After(Initial(e), events)
  {
  }

  // ---------------------------------------------------------------- the exception

  /** The receipt says that the original was forwarded. */
  predicate IsForwarded(w: World) {
    w.receipt.Some? && w.receipt.value.body.state.Forwarded? && w.receipt.value.body.pointer.Original?
  }

  function CommitStep(task: nat, reference: bool, now: int): Event {
    Step(TaskActor(task), true, Willing().(reference := reference), now)
  }

  function HandlerStep(now: int): Event { Step(IngressActor, true, Willing(), now) }

  /** The commit is about to write the receipt, and the handler waits for it. */
  predicate IsCommitting(s: System) {
    s.ingress.IJoinAcceptance? && s.ingress.task < |s.tasks| && s.tasks[s.ingress.task].APutForwarded?
  }

  function BasisAt(s: System): Basis
    requires IsCommitting(s)
  {
    s.tasks[s.ingress.task].basis
  }

  /** The first commit succeeds, or finds that it already has. */
  predicate Commits(s: System)
    requires IsCommitting(s)
  {
    WriteApplies(s.world, BasisAt(s)) || IsForwarded(s.world)
  }

  function Commit(task: nat, reference: bool, now: int): seq<Event> {
    var e := CommitStep(task, reference, now);
    [e, e, e]
  }

  lemma ThreeMore(s: System, a: Event, b: Event, c: Event)
    requires Enabled(s, a) && Enabled(Next(s, a), b) && Enabled(Next(Next(s, a), b), c)
    ensures Possible(s, [a, b, c]) && After(s, [a, b, c]) == Next(Next(Next(s, a), b), c)
  {
    OneMore(Next(Next(s, a), b), c, []);
    OneMore(Next(s, a), b, [c] + []);
    OneMore(s, a, [b] + ([c] + []));
    assert [a] + ([b] + ([c] + [])) == [a, b, c];
  }

  function Committed(reference: bool, committed: bool): Handoff.Task {
    if reference then Handoff.AStartReference(committed) else Handoff.AfterReference(committed)
  }

  /** A step of a task that calls the shared state. */
  lemma TaskSteps(s: System, i: nat, reference: bool, now: int)
    requires i < |s.tasks| && !IsScheduled(Handoff.Call(s.tasks[i], now)) && !Handoff.Call(s.tasks[i], now).SetReject?
    ensures var (w', reply) := Perform(s.world, Handoff.Call(s.tasks[i], now), Willing().(reference := reference));
            Next(s, CommitStep(i, reference, now))
            == s.(world := w', tasks := s.tasks[i := Handoff.Resume(s.tasks[i], reply)])
  {
  }

  function Written(w: World, basis: Basis, now: int): World {
    if WriteApplies(w, basis) then WithReceipt(w, Handoff.Receipt(Forwarded, Original, now)) else w
  }

  lemma WriteSteps(s: System, i: nat, reference: bool, now: int)
    requires i < |s.tasks| && s.tasks[i].APutForwarded?
    ensures Next(s, CommitStep(i, reference, now))
         == s.(world := Written(s.world, s.tasks[i].basis, now), tasks := s.tasks[i := Handoff.ACheckForwarded])
  {
    TaskSteps(s, i, reference, now);
  }

  lemma CheckSteps(s: System, i: nat, reference: bool, now: int)
    requires i < |s.tasks| && s.tasks[i].ACheckForwarded?
    ensures Next(s, CommitStep(i, reference, now))
         == s.(tasks := s.tasks[i := Handoff.AReference(IsForwarded(s.world))])
  {
    TaskSteps(s, i, reference, now);
  }

  lemma AskSteps(s: System, i: nat, reference: bool, committed: bool, now: int)
    requires i < |s.tasks| && s.tasks[i] == Handoff.AReference(committed)
    ensures Next(s, CommitStep(i, reference, now)) == s.(tasks := s.tasks[i := Committed(reference, committed)])
  {
    TaskSteps(s, i, reference, now);
  }

  lemma UpdatedTwice(tasks: seq<Handoff.Task>, i: nat, a: Handoff.Task, b: Handoff.Task)
    requires i < |tasks|
    ensures tasks[i := a][i := b] == tasks[i := b]
  {
  }

  /** It writes, reads back, and asks for a reference. */
  lemma CommitWrites(s: System, reference: bool, now: int)
    requires IsCommitting(s)
    ensures var task, events := s.ingress.task, Commit(s.ingress.task, reference, now);
            && Possible(s, events)
            && After(s, events) == s.(world := Written(s.world, BasisAt(s), now),
                                      tasks := s.tasks[task := Committed(reference, Commits(s))])
    ensures IsForwarded(Written(s.world, BasisAt(s), now)) <==> Commits(s)
  {
    var task, e := s.ingress.task, CommitStep(s.ingress.task, reference, now);
    var w := Written(s.world, BasisAt(s), now);
    var s1 := s.(world := w, tasks := s.tasks[task := Handoff.ACheckForwarded]);
    WriteSteps(s, task, reference, now);
    CheckSteps(s1, task, reference, now);
    UpdatedTwice(s.tasks, task, Handoff.ACheckForwarded, Handoff.AReference(Commits(s)));
    var s2 := s.(world := w, tasks := s.tasks[task := Handoff.AReference(Commits(s))]);
    AskSteps(s2, task, reference, Commits(s), now);
    UpdatedTwice(s.tasks, task, Handoff.AReference(Commits(s)), Committed(reference, Commits(s)));
    ThreeMore(s, e, e, e);
  }

  lemma BlockBegins(s: System, i: nat, now: int)
    requires i < |s.tasks| && s.tasks[i].BMarker?
    ensures Next(s, CommitStep(i, true, now)) == s.(tasks := s.tasks[i := Handoff.BReadReceipt])
  {
    TaskSteps(s, i, true, now);
  }

  /** What a reading finds may be replaced. */
  function Current(w: World): Basis {
    match w.receipt
    case None => CreateOnly
    case Some(Receipt(etag, body)) => Replace(etag, if body.pointer.Original? then Some(body) else None)
  }

  lemma BlockReads(s: System, i: nat, now: int)
    requires i < |s.tasks| && s.tasks[i].BReadReceipt?
    ensures Next(s, CommitStep(i, true, now)) == s.(tasks := s.tasks[i := Handoff.BPutForwarded(Current(s.world))])
  {
    TaskSteps(s, i, true, now);
  }

  lemma BlockWrites(s: System, i: nat, now: int)
    requires i < |s.tasks| && s.tasks[i] == Handoff.BPutForwarded(Current(s.world))
    ensures Next(s, CommitStep(i, true, now))
         == s.(world := Written(s.world, Current(s.world), now), tasks := s.tasks[i := Handoff.TDone])
    ensures IsForwarded(Written(s.world, Current(s.world), now))
  {
    TaskSteps(s, i, true, now);
  }

  /** The second commit reads the receipt anew, and so replaces it. */
  lemma ReferenceCommits(s: System, block: nat, now: int)
    requires block < |s.tasks| && s.tasks[block] == Handoff.BMarker
    ensures var events, w := Commit(block, true, now), Written(s.world, Current(s.world), now);
            && Possible(s, events)
            && After(s, events) == s.(world := w, tasks := s.tasks[block := Handoff.TDone])
            && IsForwarded(w)
  {
    var e, put := CommitStep(block, true, now), Handoff.BPutForwarded(Current(s.world));
    BlockBegins(s, block, now);
    BlockReads(s.(tasks := s.tasks[block := Handoff.BReadReceipt]), block, now);
    UpdatedTwice(s.tasks, block, Handoff.BReadReceipt, put);
    BlockWrites(s.(tasks := s.tasks[block := put]), block, now);
    UpdatedTwice(s.tasks, block, put, Handoff.TDone);
    ThreeMore(s, e, e, e);
  }

  lemma BlockStarts(s: System, task: nat, committed: bool, now: int)
    requires task < |s.tasks| && s.tasks[task] == Handoff.AStartReference(committed)
    ensures var s' := Next(s, CommitStep(task, true, now));
            && s' == s.(tasks := s'.tasks) && |s'.tasks| == |s.tasks| + 1
            && s'.tasks[task] == Handoff.AJoinReference(|s.tasks|, committed)
            && s'.tasks[|s.tasks|] == Handoff.BMarker
  {
  }

  lemma BlockIsJoined(s: System, task: nat, committed: bool, now: int)
    requires task < |s.tasks| && s.tasks[task].AJoinReference? && s.tasks[task].committed == committed
    ensures Next(s, CommitStep(task, true, now)) == s.(tasks := s.tasks[task := Handoff.AfterReference(committed)])
    ensures Next(s, Step(TaskActor(task), false, Willing(), now))
         == s.(tasks := s.tasks[task := Handoff.AfterReference(committed)])
  {
  }

  /** The whole second commit, from its start until the first one goes on. */
  lemma BlockRuns(s: System, task: nat, committed: bool, now: int) returns (events: seq<Event>)
    requires task < |s.tasks| && s.tasks[task] == Handoff.AStartReference(committed)
    ensures events == [CommitStep(task, true, now)] + (Commit(|s.tasks|, true, now) + [CommitStep(task, true, now)])
    ensures Possible(s, events)
    ensures var s' := After(s, events);
            && s'.ingress == s.ingress && task < |s'.tasks| && s'.tasks[task] == Handoff.AfterReference(committed)
            && IsForwarded(s'.world)
  {
    var e, block := CommitStep(task, true, now), |s.tasks|;
    var s1 := Next(s, e);
    BlockStarts(s, task, committed, now);
    ReferenceCommits(s1, block, now);
    var s2 := After(s1, Commit(block, true, now));
    BlockIsJoined(s2, task, committed, now);
    OneMore(s2, e, []);
    assert [e] + [] == [e];
    RunsAppend(s1, Commit(block, true, now), [e]);
    OneMore(s, e, Commit(block, true, now) + [e]);
    events := [e] + (Commit(block, true, now) + [e]);
  }

  /** The emergency marker goes, if it may, and then the active marker. */
  function Clearing(task: nat, committed: bool, now: int): seq<Event> {
    (if committed then [CommitStep(task, false, now)] else []) + [HandlerStep(now), HandlerStep(now)]
  }

  lemma HandlerJoins(s: System, now: int)
    requires s.ingress.IJoinAcceptance? && s.ingress.task < |s.tasks| && s.tasks[s.ingress.task].ADone?
    ensures Next(s, HandlerStep(now)) == s.(ingress := Ingress.IClear(None))
  {
  }

  lemma HandlerDeletes(s: System, now: int)
    requires s.ingress.IClear?
    ensures Next(s, HandlerStep(now)) == s.(ingress := Ingress.IReturned, world := s.world.(marker := false))
  {
  }

  lemma HandlerClears(s: System, now: int)
    requires s.ingress.IJoinAcceptance? && s.ingress.task < |s.tasks| && s.tasks[s.ingress.task].ADone?
    ensures var events := [HandlerStep(now), HandlerStep(now)];
            && Possible(s, events)
            && After(s, events).world == s.world.(marker := false)
  {
    var e := HandlerStep(now);
    var s1 := s.(ingress := Ingress.IClear(None));
    HandlerJoins(s, now);
    HandlerDeletes(s1, now);
    OneMore(s1, e, []);
    OneMore(s, e, [e] + []);
    assert [e] + ([e] + []) == [e, e];
  }

  lemma CommitEnds(s: System, committed: bool, now: int)
    requires s.ingress.IJoinAcceptance? && s.ingress.task < |s.tasks|
    requires s.tasks[s.ingress.task] == Handoff.AfterReference(committed)
    ensures var events := Clearing(s.ingress.task, committed, now);
            && Possible(s, events)
            && !After(s, events).world.marker && After(s, events).world.receipt == s.world.receipt
            && After(s, events).world.mailbox == s.world.mailbox
            && (!committed ==> After(s, events).world.emergency == s.world.emergency)
  {
    var e, rest := CommitStep(s.ingress.task, false, now), [HandlerStep(now), HandlerStep(now)];
    if committed {
      var s1 := Next(s, e);
      assert s1.tasks[s.ingress.task].ADone?;
      HandlerClears(s1, now);
      OneMore(s, e, rest);
    } else {
      HandlerClears(s, now);
      assert [] + rest == rest;
    }
  }

  /** The undisturbed rest of an acceptance commit, and of the handler. */
  function Undisturbed(task: nat, block: nat, reference: bool, committed: bool, now: int): seq<Event> {
    Commit(task, reference, now)
    + ((if reference then [CommitStep(task, true, now)] + (Commit(block, true, now) + [CommitStep(task, true, now)])
        else [])
       + Clearing(task, committed, now))
  }

  /** Exactly when the handler's deletion of the active marker after an acceptance is backed by a
      `forwarded` receipt, if nobody else moves: the receipt write applies, or it was `forwarded` already,
      or the provider's reference can be formed, so that the receipt is read and written once more. */
  lemma AcceptanceClearsExactly(s: System, reference: bool, now: int)
    requires IsCommitting(s)
    ensures var events := Undisturbed(s.ingress.task, |s.tasks|, reference, Commits(s), now);
            && Possible(s, events)
            && !After(s, events).world.marker
            && (IsForwarded(After(s, events).world)
                <==> WriteApplies(s.world, BasisAt(s)) || IsForwarded(s.world) || reference)
  {
    var task, committed := s.ingress.task, Commits(s);
    var first, last := Commit(task, reference, now), Clearing(task, committed, now);
    CommitWrites(s, reference, now);
    var s1 := After(s, first);
    if reference {
      var block := BlockRuns(s1, task, committed, now);
      CommitEnds(After(s1, block), committed, now);
      RunsAppend(s1, block, last);
      RunsAppend(s, first, block + last);
    } else {
      CommitEnds(s1, committed, now);
      assert [] + last == last;
      RunsAppend(s, first, last);
    }
  }

  /** In particular: the commit reports success although its receipt write lost, and no reference can be
      formed, or the second commit does not come to an end in time. Then the handler clears the marker: the
      receipt is as it was, and need not be terminal. The emergency marker stays. */
  lemma AcceptanceMayClearEarly(s: System, reference: bool, now: int) returns (events: seq<Event>)
    requires IsCommitting(s) && !Commits(s)
    ensures Possible(s, events) && !After(s, events).world.marker
    ensures After(s, events).world.receipt == s.world.receipt
    ensures After(s, events).world.emergency == s.world.emergency && After(s, events).world.mailbox == s.world.mailbox
  {
    var task := s.ingress.task;
    var first, last := Commit(task, reference, now), Clearing(task, false, now);
    CommitWrites(s, reference, now);
    var s1 := After(s, first);
    var middle: seq<Event> := [];
    if reference { middle := BlockIsLeft(s1, task, now); }
    var s2 := After(s1, middle);
    CommitEnds(s2, false, now);
    RunsAppend(s1, middle, last);
    RunsAppend(s, first, middle + last);
    events := first + (middle + last);
  }

  /** The second commit is started, and not waited for. */
  lemma BlockIsLeft(s: System, task: nat, now: int) returns (events: seq<Event>)
    requires task < |s.tasks| && s.tasks[task] == Handoff.AStartReference(false)
    ensures Possible(s, events)
    ensures var s' := After(s, events);
            s'.world == s.world && s'.ingress == s.ingress && task < |s'.tasks| && s'.tasks[task] == Handoff.ADone
  {
    var e, timeout := CommitStep(task, true, now), Step(TaskActor(task), false, Willing(), now);
    var s1 := Next(s, e);
    BlockStarts(s, task, false, now);
    BlockIsJoined(s1, task, false, now);
    OneMore(s1, timeout, []);
    OneMore(s, e, [timeout] + []);
    events := [e] + ([timeout] + []);
  }
}
