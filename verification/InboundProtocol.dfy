/** The SMTP handler, any number of Queue attempts, reconciler passes and background
    handoffs, interleaved at single binding calls over one message. */
module InboundProtocol {
  import opened InboundStore
  import opened Wrappers
  import Handoff = EmergencyHandoff
  import Ingress = InboundIngress
  import Queue = InboundQueue
  import Reconciler = InboundReconciler

  datatype PassState = PassState(pass: Reconciler.Pass, pc: Reconciler.Pc)

  datatype System = System(
    world: World,
    envelope: Ingress.Envelope,
    ingress: Ingress.Pc,
    attempts: seq<Queue.Attempt>,
    passes: seq<PassState>,
    tasks: seq<Handoff.Task>)

  datatype Actor =
    | IngressActor | ItemActor(index: nat) | WrapperActor(index: nat) | PassActor(index: nat) | TaskActor(index: nat)

  /** `Step`: an actor's pending call is answered, or its caller gives up on it.
      `TakeEffect`: an abandoned call happens after all.
      The last events belong to the Queue service, the sweep, the mailbox owner, the
      storage and the emergency consumer. */
  datatype Event =
    | Step(actor: Actor, answered: bool, probe: Probe, now: int)
    | TakeEffect(request: Request, probe: Probe)
    | Deliver(dead: bool, id: nat)
    | Deadline(index: nat)
    | StartPass(pass: Reconciler.Pass)
    | MoveToDead(id: nat)
    | Expire(id: nat)
    | Discover
    | DriftRow
    | DeleteRow
    | DamageRaw(pointer: Option<Pointer>)
    | ProviderAccepts
    | EmergencyWrites(body: Body)
    | EmergencyEnds

  function Initial(envelope: Ingress.Envelope): System {
    System(InitialWorld(envelope.mail), envelope, Ingress.IReadStream, [], [], [])
  }

  predicate Enabled(s: System, event: Event) {
    match event
    case Step(actor, _, _, _) => ActorExists(s, actor)
    case TakeEffect(request, _) => request in s.world.late
    case Deliver(dead, id) => id in (if dead then s.world.dead else s.world.normal)
    case Deadline(i) => i < |s.attempts| && s.attempts[i].wrapper.WWaiting?
    case StartPass(pass) => Reconciler.PolicyOk(s.world, pass)
    case MoveToDead(id) => id in s.world.normal
    case Expire(id) => id in s.world.dead
    case Discover => !s.world.raw.NoRaw?
    case DriftRow => s.world.mailbox.Live?
    case DeleteRow => s.world.mailbox.Live?
    case DamageRaw(pointer) => RawPinned(s.world) && (pointer.Some? ==> pointer.value.Damaged?)
    case ProviderAccepts => !s.world.emergency.NoEmergency?
    case EmergencyWrites(body) =>
      !s.world.emergency.NoEmergency? && BodyOk(s.world, body) && IsRecovery(body)
    case EmergencyEnds => Settled(s.world)
  }

  predicate ActorExists(s: System, actor: Actor) {
    match actor
    case IngressActor => true
    case ItemActor(i) => i < |s.attempts|
    case WrapperActor(i) => i < |s.attempts|
    case PassActor(i) => i < |s.passes|
    case TaskActor(i) => i < |s.tasks|
  }

  /** The call an actor is stopped at. */
  function PendingCall(s: System, actor: Actor, now: int): Request
    requires ActorExists(s, actor)
  {
    match actor
    case IngressActor => Ingress.Call(s.envelope, s.ingress, now)
    case ItemActor(i) => Queue.CallOf(s.attempts[i].item, now)
    case WrapperActor(i) => Queue.CallOfWrapper(s.attempts[i])
    case PassActor(i) => Reconciler.Call(s.passes[i].pass, s.passes[i].pc)
    case TaskActor(i) => Handoff.Call(s.tasks[i], now)
  }

  /** A call on the shared state: it takes effect, or its caller gives up. */
  function Shared(w: World, request: Request, answered: bool, probe: Probe): (World, Reply) {
    if answered then Perform(w, request, probe) else (Abandon(w, request), Failed)
  }

  /** What one call does to the shared state and the background tasks, and its answer. */
  function Answer(world: World, tasks: seq<Handoff.Task>, request: Request, answered: bool, probe: Probe)
    : (World, seq<Handoff.Task>, Reply)
  {
    match request
    case StartTask(kind) =>
      if answered then (world, tasks + [Handoff.Start(kind, world.mail)], Handle(|tasks|)) else (world, tasks, Failed)
    case JoinTask(task) =>
      (world, tasks, if answered && task < |tasks| && Handoff.Succeeded(tasks[task]) then Done else Failed)
    case Ack => (world, tasks, Done)
    case Retry => (world, tasks, Done)
    case NoCall => (world, tasks, Done)
    case SetReject => (world.(rejections := world.rejections + 1), tasks, Done)
    case _ =>
      (Shared(world, request, answered, probe).0, tasks, Shared(world, request, answered, probe).1)
  }

  /** An acknowledgement or retry that reaches the Queue settles the delivery once. */
  function SettleWorld(world: World, a: Queue.Attempt, request: Request, byItem: bool): World {
    if !request.Ack? || !Queue.Reaches(a, byItem) then world
    else if a.dead then world.(dead := world.dead - {a.id})
    else world.(normal := world.normal - {a.id})
  }

  function SettleAttempt(a: Queue.Attempt, request: Request, byItem: bool): Queue.Attempt {
    if (request.Ack? || request.Retry?) && Queue.Reaches(a, byItem) then a.(settled := true) else a
  }

  function Move(s: System, actor: Actor, answered: bool, probe: Probe, now: int): System
    requires ActorExists(s, actor)
  {
    var request := PendingCall(s, actor, now);
    var (world, tasks, reply) := Answer(s.world, s.tasks, request, answered, probe);
    match actor
    case IngressActor =>
      s.(world := world, tasks := tasks, ingress := Ingress.Resume(s.envelope, s.ingress, reply, now))
    case ItemActor(i) =>
      var a := s.attempts[i];
      s.(world := SettleWorld(world, a, request, true), tasks := tasks,
         attempts := s.attempts[i := SettleAttempt(a, request, true).(item := Queue.ResumeItem(a.item, reply))])
    case WrapperActor(i) =>
      var a := s.attempts[i];
      s.(world := SettleWorld(world, a, request, false), tasks := tasks,
         attempts := s.attempts[i := SettleAttempt(a, request, false).(wrapper := Queue.ResumeWrapper(a, reply))])
    case PassActor(i) =>
      var p := s.passes[i];
      s.(world := world, tasks := tasks,
         passes := s.passes[i := p.(pc := Reconciler.Resume(p.pass, p.pc, reply))])
    case TaskActor(i) =>
      s.(world := world, tasks := tasks[i := Handoff.Resume(s.tasks[i], reply)])
  }

  function Next(s: System, event: Event): System
    requires Enabled(s, event)
  {
    var w := s.world;
    match event
    case Step(actor, answered, probe, now) => Move(s, actor, answered, probe, now)
    case TakeEffect(request, probe) =>
      s.(world := TakeLate(w, request, probe))
    case Deliver(dead, id) => s.(attempts := s.attempts + [Queue.NewAttempt(dead, id)])
    case Deadline(i) => s.(attempts := s.attempts[i := Queue.CloseScope(s.attempts[i])])
    case StartPass(pass) => s.(passes := s.passes + [PassState(pass, Reconciler.RViewRaw)])
    case MoveToDead(id) => s.(world := w.(normal := w.normal - {id}, dead := w.dead + {id}))
    case Expire(id) => s.(world := w.(dead := w.dead - {id}))
    case Discover => s.(world := w.(marker := true))
    case DriftRow => s.(world := w.(mailbox := Live(Drifted)))
    case DeleteRow => s.(world := w.(mailbox := Tombstone(w.mailbox.authority)))
    case DamageRaw(pointer) => s.(world := w.(raw := BadRaw(pointer)))
    case ProviderAccepts =>
      s.(world := w.(providerAccepted := true, emergency := Marker(w.emergency.pointer, true)))
    case EmergencyWrites(body) => s.(world := WithReceipt(w, body))
    case EmergencyEnds => s.(world := w.(emergency := NoEmergency))
  }

  // ---------------------------------------------------------------- the inductive invariant

  predicate SystemInv(s: System) {
    && WorldInv(s.world)
    && Ingress.IngressInv(s.envelope, s.world, s.ingress)
    && (forall i :: 0 <= i < |s.attempts| ==> Queue.AttemptInv(s.world, s.attempts[i]))
    && (forall i :: 0 <= i < |s.passes| ==> PassInv(s.world, s.passes[i]))
    && (forall i :: 0 <= i < |s.tasks| ==> Handoff.TaskInv(s.world, s.tasks[i]))
  }

  predicate PassInv(w: World, p: PassState) { Reconciler.ReconcilerInv(w, p.pc) && Reconciler.PolicyOk(w, p.pass) }

  /** Everybody who only watches a step keeps what he knew. */
  lemma WatchersKeep(s: System, w': World)
    requires SystemInv(s) && Guarantee(s.world, w')
    ensures w'.rejections == s.world.rejections ==> Ingress.IngressInv(s.envelope, w', s.ingress)
    ensures forall i :: 0 <= i < |s.attempts| ==> Queue.AttemptInv(w', s.attempts[i])
    ensures forall i :: 0 <= i < |s.passes| ==> PassInv(w', s.passes[i])
    ensures forall i :: 0 <= i < |s.tasks| ==> Handoff.TaskInv(w', s.tasks[i])
  {
    if w'.rejections == s.world.rejections {
      Ingress.IngressIsStable(s.envelope, s.world, w', s.ingress);
    }
    forall i | 0 <= i < |s.attempts| ensures Queue.AttemptInv(w', s.attempts[i]) {
      Queue.AttemptIsStable(s.world, w', s.attempts[i]);
    }
    forall i | 0 <= i < |s.passes| ensures PassInv(w', s.passes[i]) {
      Reconciler.ReconcilerIsStable(s.world, w', s.passes[i].pc);
    }
    forall i | 0 <= i < |s.tasks| ensures Handoff.TaskInv(w', s.tasks[i]) {
      Handoff.TaskIsStable(s.world, w', s.tasks[i]);
    }
  }

  /** A task an actor may start begins with its invariant. */
  predicate MayStart(w: World, request: Request) {
    request.StartTask? ==>
      if request.kind.HandoffTask? then PointerOk(w, request.kind.pointer) else w.providerAccepted
  }

  lemma SharedAnswerKeeps(w: World, request: Request, answered: bool, probe: Probe)
    requires WorldInv(w) && Justified(w, request) && !IsScheduled(request) && !request.SetReject?
    ensures var (w', reply) := Shared(w, request, answered, probe);
            && WorldInv(w') && Guarantee(w, w') && Tells(w', request, reply) && w'.rejections == w.rejections
  {
    if answered {
      PerformKeeps(w, request, probe);
      PerformTells(w, request, probe);
    } else {
      AbandonKeeps(w, request);
    }
  }

  /** What a call of one actor keeps. */
  predicate AnswerIsGood(s: System, request: Request, answered: bool, probe: Probe) {
    var (w', tasks', reply) := Answer(s.world, s.tasks, request, answered, probe);
    && WorldInv(w') && Guarantee(s.world, w')
    && Tells(w', request, reply)
    && (!request.SetReject? ==> w'.rejections == s.world.rejections)
    && |tasks'| >= |s.tasks|
    && (forall i :: 0 <= i < |s.tasks| ==> tasks'[i] == s.tasks[i])
    && (forall i :: 0 <= i < |tasks'| ==> Handoff.TaskInv(w', tasks'[i]))
  }

  lemma ScheduledAnswerKeeps(s: System, request: Request, answered: bool, probe: Probe)
    requires SystemInv(s) && IsScheduled(request) && MayStart(s.world, request)
    ensures AnswerIsGood(s, request, answered, probe)
  {
    if request.JoinTask? && request.task < |s.tasks| {
      assert Handoff.TaskInv(s.world, s.tasks[request.task]);
    }
  }

  lemma RejectionKeeps(s: System, request: Request, answered: bool, probe: Probe)
    requires SystemInv(s) && request.SetReject?
    ensures AnswerIsGood(s, request, answered, probe)
  {
    var w' := Perform(s.world, request, probe).0;
    PerformKeeps(s.world, request, probe);
    WatchersKeep(s, w');
  }

  lemma OrdinaryAnswerKeeps(s: System, request: Request, answered: bool, probe: Probe)
    requires SystemInv(s) && Justified(s.world, request) && !IsScheduled(request) && !request.SetReject?
    ensures AnswerIsGood(s, request, answered, probe)
  {
    var (w', reply) := Shared(s.world, request, answered, probe);
    SharedAnswerKeeps(s.world, request, answered, probe);
    WatchersKeep(s, w');
    assert Answer(s.world, s.tasks, request, answered, probe) == (w', s.tasks, reply);
  }

  /** One call of one actor, whether it is answered or abandoned. */
  lemma AnswerKeeps(s: System, request: Request, answered: bool, probe: Probe)
    requires SystemInv(s) && Justified(s.world, request) && MayStart(s.world, request)
    ensures AnswerIsGood(s, request, answered, probe)
  {
    if IsScheduled(request) {
      ScheduledAnswerKeeps(s, request, answered, probe);
    } else if request.SetReject? {
      RejectionKeeps(s, request, answered, probe);
    } else {
      OrdinaryAnswerKeeps(s, request, answered, probe);
    }
  }

  /** What the actor about to move may call. */
  lemma ActorMayCall(s: System, actor: Actor, now: int)
    requires SystemInv(s) && ActorExists(s, actor)
    ensures Justified(s.world, PendingCall(s, actor, now))
    ensures MayStart(s.world, PendingCall(s, actor, now))
    ensures PendingCall(s, actor, now).SetReject? <==> actor.IngressActor? && s.ingress.ISetReject?
  {
    match actor
    case IngressActor => Ingress.IngressMayCall(s.envelope, s.world, s.ingress, now);
    case ItemActor(i) => Queue.ItemMayCall(s.world, s.attempts[i].item, now);
    case WrapperActor(i) =>
    case PassActor(i) => Reconciler.ReconcilerMayCall(s.world, s.passes[i].pass, s.passes[i].pc);
    case TaskActor(i) => Handoff.TaskMayCall(s.world, s.tasks[i], now);
  }

  lemma SettlingKeeps(s: System, a: Queue.Attempt, request: Request, byItem: bool)
    requires WorldInv(s.world)
    ensures var w' := SettleWorld(s.world, a, request, byItem);
            WorldInv(w') && Guarantee(s.world, w') && w'.rejections == s.world.rejections
  {
    KnowledgeIsStable(s.world, SettleWorld(s.world, a, request, byItem));
  }

  /** The move of one actor keeps the invariant of the whole system. */
  predicate MoveIsGood(s: System, actor: Actor, answered: bool, probe: Probe, now: int)
    requires ActorExists(s, actor)
  {
    var s' := Move(s, actor, answered, probe, now);
    SystemInv(s') && Guarantee(s.world, s'.world)
  }

  /** What every actor's move has in common: the call itself. */
  lemma CallKeeps(s: System, actor: Actor, answered: bool, probe: Probe, now: int)
        returns (called: System, reply: Reply)
    requires SystemInv(s) && ActorExists(s, actor)
    ensures var request := PendingCall(s, actor, now);
            && (called.world, called.tasks, reply) == Answer(s.world, s.tasks, request, answered, probe)
            && called == s.(world := called.world, tasks := called.tasks)
            && Guarantee(s.world, called.world)
            && Tells(called.world, request, reply)
            && (!(actor.IngressActor? && s.ingress.ISetReject?) ==> SystemInv(called))
            && WorldInv(called.world)
            && (forall i :: 0 <= i < |s.attempts| ==> Queue.AttemptInv(called.world, s.attempts[i]))
            && (forall i :: 0 <= i < |s.passes| ==> PassInv(called.world, s.passes[i]))
            && (forall i :: 0 <= i < |called.tasks| ==> Handoff.TaskInv(called.world, called.tasks[i]))
            && |called.tasks| >= |s.tasks|
            && (forall i :: 0 <= i < |s.tasks| ==> called.tasks[i] == s.tasks[i])
  {
    var request := PendingCall(s, actor, now);
    var answer := Answer(s.world, s.tasks, request, answered, probe);
    called, reply := s.(world := answer.0, tasks := answer.1), answer.2;
    ActorMayCall(s, actor, now);
    AnswerKeeps(s, request, answered, probe);
    WatchersKeep(s, called.world);
  }

  lemma IngressMoveKeeps(s: System, answered: bool, probe: Probe, now: int)
    requires SystemInv(s)
    ensures MoveIsGood(s, IngressActor, answered, probe, now)
  {
    var called, reply := CallKeeps(s, IngressActor, answered, probe, now);
    if s.ingress.ISetReject? {
      Ingress.IngressRejects(s.envelope, s.world, s.ingress, now);
    } else {
      Ingress.IngressResumes(s.envelope, called.world, s.ingress, reply, now);
    }
  }

  lemma ItemMoveKeeps(s: System, i: nat, answered: bool, probe: Probe, now: int)
    requires SystemInv(s) && i < |s.attempts|
    ensures MoveIsGood(s, ItemActor(i), answered, probe, now)
  {
    var called, reply := CallKeeps(s, ItemActor(i), answered, probe, now);
    var request := PendingCall(s, ItemActor(i), now);
    var a := s.attempts[i];
    var w' := SettleWorld(called.world, a, request, true);
    var a' := SettleAttempt(a, request, true).(item := Queue.ResumeItem(a.item, reply));
    Queue.AttemptResumes(called.world, a, a'.settled, reply, now);
    SettlingKeeps(called, a, request, true);
    WatchersKeep(called, w');
    Queue.AttemptIsStable(called.world, w', a');
    GuaranteeIsTransitive(s.world, called.world, w');
  }

  lemma WrapperMoveKeeps(s: System, i: nat, answered: bool, probe: Probe, now: int)
    requires SystemInv(s) && i < |s.attempts|
    ensures MoveIsGood(s, WrapperActor(i), answered, probe, now)
  {
    var called, reply := CallKeeps(s, WrapperActor(i), answered, probe, now);
    var request := PendingCall(s, WrapperActor(i), now);
    var a := s.attempts[i];
    var w' := SettleWorld(called.world, a, request, false);
    SettlingKeeps(called, a, request, false);
    WatchersKeep(called, w');
    GuaranteeIsTransitive(s.world, called.world, w');
    assert Queue.AttemptInv(w', SettleAttempt(a, request, false).(wrapper := Queue.ResumeWrapper(a, reply)));
  }

  lemma PassMoveKeeps(s: System, i: nat, answered: bool, probe: Probe, now: int)
    requires SystemInv(s) && i < |s.passes|
    ensures MoveIsGood(s, PassActor(i), answered, probe, now)
  {
    var called, reply := CallKeeps(s, PassActor(i), answered, probe, now);
    Reconciler.ReconcilerResumes(called.world, s.passes[i].pass, s.passes[i].pc, reply);
  }

  lemma TaskMoveKeeps(s: System, i: nat, answered: bool, probe: Probe, now: int)
    requires SystemInv(s) && i < |s.tasks|
    ensures MoveIsGood(s, TaskActor(i), answered, probe, now)
  {
    var called, reply := CallKeeps(s, TaskActor(i), answered, probe, now);
    Handoff.TaskResumes(called.world, s.tasks[i], reply, now);
  }

  lemma MoveKeeps(s: System, actor: Actor, answered: bool, probe: Probe, now: int)
    requires SystemInv(s) && ActorExists(s, actor)
    ensures MoveIsGood(s, actor, answered, probe, now)
  {
    match actor
    case IngressActor => IngressMoveKeeps(s, answered, probe, now);
    case ItemActor(i) => ItemMoveKeeps(s, i, answered, probe, now);
    case WrapperActor(i) => WrapperMoveKeeps(s, i, answered, probe, now);
    case PassActor(i) => PassMoveKeeps(s, i, answered, probe, now);
    case TaskActor(i) => TaskMoveKeeps(s, i, answered, probe, now);
  }

  predicate NextIsGood(s: System, event: Event)
    requires Enabled(s, event)
  {
    SystemInv(Next(s, event)) && Guarantee(s.world, Next(s, event).world)
  }

  lemma LateEffectKeeps(s: System, request: Request, probe: Probe)
    requires SystemInv(s) && request in s.world.late
    ensures NextIsGood(s, TakeEffect(request, probe))
  {
    TakeLateKeeps(s.world, request, probe);
    WatchersKeep(s, TakeLate(s.world, request, probe));
  }

  /** A delivery, a deadline or a new pass. */
  predicate Begins(event: Event) { event.Deliver? || event.Deadline? || event.StartPass? }

  lemma BeginningKeeps(s: System, event: Event)
    requires SystemInv(s) && Enabled(s, event) && Begins(event)
    ensures NextIsGood(s, event)
  {
    match event
    case Deliver(dead, id) => assert id in s.world.normal + s.world.dead;
    case Deadline(i) => assert Queue.AttemptInv(s.world, s.attempts[i]);
    case StartPass(_) =>
  }

  lemma EnvironmentKeeps(s: System, event: Event)
    requires SystemInv(s) && Enabled(s, event) && !event.Step? && !event.TakeEffect? && !Begins(event)
    ensures NextIsGood(s, event)
  {
    var w' := Next(s, event).world;
    KnowledgeIsStable(s.world, w');
    WatchersKeep(s, w');
  }

  /** Every step of every actor and of the environment keeps the invariant. */
  lemma NextKeeps(s: System, event: Event)
    requires SystemInv(s) && Enabled(s, event)
    ensures NextIsGood(s, event)
  {
    match event
    case Step(actor, answered, probe, now) => MoveKeeps(s, actor, answered, probe, now);
    case TakeEffect(request, probe) => LateEffectKeeps(s, request, probe);
    case _ => if Begins(event) { BeginningKeeps(s, event); } else { EnvironmentKeeps(s, event); }
  }
}
