/** The sleep and wake protocol between the senders of a shard and its one worker
    (websocket/task_parse.go), on top of the ring.

    A shard is a ring, the `waiting` counter and the one-slot `notify` channel. Any
    number of senders run `send`; the worker runs `run`. Each load of `waiting`,
    `head` or `tail`, each counter update and each channel operation is one step. */
module TaskParse {
  import opened Bytes
  import opened TaskRing

  /** Where a sender is inside `send` (websocket/task_parse.go:147-170). */
  datatype Sender = Returned | Pushing | Checking | Waking

  /** Where the worker is inside `run` (websocket/task_parse.go:209-256). */
  datatype Worker =
    | Start                 // about to call pop
    | Popping
    | HopTail(task: Task)   // popped a task: len() for the hop-by-hop wakeup
    | HopHead(task: Task, tail: nat)
    | HopCheck(task: Task)
    | HopWake(task: Task)
    | Process(task: Task)   // about to call processOne with it
    | Announce              // ring answered "nothing": about to add to waiting
    | LookTail
    | LookHead(tail: nat)
    | Retract               // about to subtract from waiting
    | Receive               // blocked on notify until it holds a signal

  /** `sent` and `processed` are history: what every `send` was called with, and what
      processOne was called with. No step reads them. */
  datatype Shard = Shard(
    ring: Ring, senders: map<Tid, Sender>, worker: Worker, waiting: nat, signal: bool,
    sent: seq<Claim>, processed: seq<Task>)

  const WORKER: Tid := 0

  /** `len()` as the two loads saw it. */
  function Len(tail: nat, head: nat): nat {
    if head > tail then 0 else tail - head
  }

  datatype Event = Send(tid: Tid, task: Task) | SenderStep(tid: Tid) | WorkerStep

  function SenderNext(s: Shard, t: Tid): Shard
    requires Shaped(s.ring.m) && t in s.senders && t in s.ring.pcs
  {
    match s.senders[t]
    case Returned => s
    case Pushing =>
      var pc := s.ring.pcs[t];
      if PushPc(pc) then s.(ring := Apply(s.ring, Run(t)))
      else if pc.PushDone? && pc.claimed.Some? then s.(senders := s.senders[t := Checking])
      else if pc.PushDone? then s.(ring := Apply(s.ring, CallPush(t, pc.task)))   // full: try again
      else s
    case Checking => s.(senders := s.senders[t := if s.waiting > 0 then Waking else Returned])
    case Waking => s.(senders := s.senders[t := Returned], signal := true)
  }

  function WorkerNext(s: Shard): Shard
    requires Shaped(s.ring.m) && WORKER in s.ring.pcs
  {
    match s.worker
    case Start => s.(ring := Apply(s.ring, CallPop(WORKER)), worker := Popping)
    case Popping =>
      var pc := s.ring.pcs[WORKER];
      if !AtRest(pc) then s.(ring := Apply(s.ring, Run(WORKER)))
      else if pc.PopDone? && pc.got.Some? then s.(worker := HopTail(pc.got.value.1))
      else s.(worker := Announce)
    case HopTail(x) => s.(worker := HopHead(x, s.ring.m.tail))
    case HopHead(x, t) => s.(worker := if Len(t, s.ring.m.head) > 0 then HopCheck(x) else Process(x))
    case HopCheck(x) => s.(worker := if s.waiting > 0 then HopWake(x) else Process(x))
    case HopWake(x) => s.(worker := Process(x), signal := true)
    case Process(x) => s.(worker := Start, processed := s.processed + [x])
    case Announce => s.(waiting := s.waiting + 1, worker := LookTail)
    case LookTail => s.(worker := LookHead(s.ring.m.tail))
    case LookHead(t) => s.(worker := if Len(t, s.ring.m.head) > 0 then Retract else Receive)
    case Retract => s.(waiting := if s.waiting > 0 then s.waiting - 1 else 0, worker := Start)
    case Receive => if s.signal then s.(signal := false, worker := Retract) else s
  }

  /** An event that its thread is not ready for changes nothing. */
  function Happen(s: Shard, e: Event): Shard
    requires Shaped(s.ring.m) && WORKER in s.ring.pcs && s.senders.Keys <= s.ring.pcs.Keys
  {
    match e
    case Send(t, x) =>
      if t in s.senders && s.senders[t].Returned?
      then
        s.(ring := Apply(s.ring, CallPush(t, x)), senders := s.senders[t := Pushing], sent := s.sent + [Claim(t, x)])
      else s
    case SenderStep(t) => if t in s.senders then SenderNext(s, t) else s
    case WorkerStep => WorkerNext(s)
  }

  // ---- the invariant ------------------------------------------------------

  /** The `send` that claimed position `p` has not yet done its check and wake. */
  predicate Unfinished(s: Shard, p: nat)
    requires p < |s.ring.m.pushed|
  {
    var t := s.ring.m.pushed[p].who;
    t in s.senders && t in s.ring.pcs &&
    var pc := s.ring.pcs[t];
    match s.senders[t]
    case Returned => false
    case Pushing => ((pc.PushWrite? || pc.PushPublish?) && pc.pos == p) || (pc.PushDone? && pc.claimed == Some(p))
    case Checking => pc.PushDone? && pc.claimed == Some(p)
    case Waking => pc.PushDone? && pc.claimed == Some(p)
  }

  ghost predicate Roles(s: Shard) {
    && WORKER in s.ring.pcs && WORKER !in s.senders && s.senders.Keys <= s.ring.pcs.Keys
    && (forall t :: t in s.ring.pcs && t != WORKER ==> t in s.senders)
    && (forall t :: t in s.senders ==>
          var pc := s.ring.pcs[t];
          match s.senders[t]
          case Returned => AtRest(pc)
          case Pushing => PushPc(pc) || pc.PushDone?
          case Checking => pc.PushDone? && pc.claimed.Some?
          case Waking => pc.PushDone? && pc.claimed.Some?)
    && (var pc := s.ring.pcs[WORKER]; !PushPc(pc) && (s.worker.Popping? || AtRest(pc)))
  }

  predicate Waits(w: Worker) {
    w.LookTail? || w.LookHead? || w.Retract? || w.Receive?
  }

  /** No claim from `lo` on is left to a worker that will not look again. */
  ghost predicate Covered(s: Shard, lo: nat) {
    s.signal || forall p: nat :: lo <= p < |s.ring.m.pushed| ==> Unfinished(s, p)
  }

  ghost predicate SysInv(s: Shard) {
    Inv(s.ring) && WakeInv(s)
  }

  ghost predicate WakeInv(s: Shard) {
    && Roles(s)
    && s.waiting == (if Waits(s.worker) then 1 else 0)
    && (s.worker.LookHead? ==> s.ring.m.head <= s.worker.tail <= s.ring.m.tail && Covered(s, s.worker.tail))
    && (s.worker.Receive? ==> Covered(s, s.ring.m.head))
  }

  /** The ring under a thread that pushes: the worker's side stands still. */
  lemma PusherMoves(r: Ring, a: Action)
    requires Inv(r) && a.tid in r.pcs && !a.CallPop? && (a.Run? ==> PushPc(r.pcs[a.tid]))
    ensures Inv(Apply(r, a)) && Apply(r, a).pcs == r.pcs[a.tid := Apply(r, a).pcs[a.tid]]
    ensures Apply(r, a).m.head == r.m.head && r.m.pushed <= Apply(r, a).m.pushed
    ensures |Apply(r, a).m.pushed| <= r.m.tail + 1
    ensures Apply(r, a).m.pushed != r.m.pushed ==>
              Apply(r, a).m.pushed[r.m.tail].who == a.tid
              && Apply(r, a).pcs[a.tid].PushWrite? && Apply(r, a).pcs[a.tid].pos == r.m.tail
  {
    ApplyKeepsInv(r, a);
    assert r.pcs[a.tid := r.pcs[a.tid]] == r.pcs;
  }

  lemma PopStepAddsNoClaim(m: Mem, t: Tid, pc: Pc)
    requires Shaped(m) && !PushPc(pc)
    ensures PopStep(m, t, pc).0.pushed == m.pushed && !PushPc(PopStep(m, t, pc).1)
  {
  }

  /** The ring under the worker's pop: no claim is added. */
  lemma PopperMoves(r: Ring, a: Action)
    requires Inv(r) && a.tid in r.pcs && !a.CallPush? && !PushPc(r.pcs[a.tid])
    ensures Inv(Apply(r, a)) && Apply(r, a).pcs == r.pcs[a.tid := Apply(r, a).pcs[a.tid]]
    ensures Apply(r, a).m.pushed == r.m.pushed && !PushPc(Apply(r, a).pcs[a.tid])
  {
    ApplyKeepsInv(r, a);
    PopStepAddsNoClaim(r.m, a.tid, r.pcs[a.tid]);
    assert r.pcs[a.tid := r.pcs[a.tid]] == r.pcs;
  }

  /** A sender that keeps its own claim unfinished keeps every claim covered. */
  lemma CoverKept(s: Shard, s': Shard, t: Tid, lo: nat)
    requires Shaped(s.ring.m) && Shaped(s'.ring.m) && Covered(s, lo) && (s.signal ==> s'.signal)
    requires s.ring.m.pushed <= s'.ring.m.pushed
    requires t in s.senders && t in s.ring.pcs && t in s'.senders && t in s'.ring.pcs
    requires s'.senders == s.senders[t := s'.senders[t]] && s'.ring.pcs == s.ring.pcs[t := s'.ring.pcs[t]]
    requires forall p: nat :: p < s.ring.m.tail && s.ring.m.pushed[p].who == t && Unfinished(s, p) ==>
               s'.signal || Unfinished(s', p)
    requires forall p: nat :: s.ring.m.tail <= p < s'.ring.m.tail ==> Unfinished(s', p)
    ensures Covered(s', lo)
  {
  }

  /** Steps of a sender that leave the ring's shared memory or its own claims alone. */
  ghost predicate SenderMove(s: Shard, s': Shard, t: Tid) {
    && t in s.senders && t in s'.senders && s'.senders == s.senders[t := s'.senders[t]]
    && t in s.ring.pcs && t in s'.ring.pcs && s'.ring.pcs == s.ring.pcs[t := s'.ring.pcs[t]]
    && s'.worker == s.worker && s'.waiting == s.waiting && (s.signal ==> s'.signal)
    && s'.ring.m.head == s.ring.m.head && s.ring.m.pushed <= s'.ring.m.pushed
  }

  lemma SenderMoveKeepsInv(s: Shard, s': Shard, t: Tid)
    requires SysInv(s) && SenderMove(s, s', t) && Inv(s'.ring) && Roles(s')
    requires Waits(s.worker) ==>
      forall p: nat :: p < s.ring.m.tail && s.ring.m.pushed[p].who == t && Unfinished(s, p) ==>
          s'.signal || Unfinished(s', p)
    requires forall p: nat :: s.ring.m.tail <= p < s'.ring.m.tail ==> Unfinished(s', p)
    ensures SysInv(s')
  {
    if s.worker.LookHead? { CoverKept(s, s', t, s.worker.tail); }
    if s.worker.Receive? { CoverKept(s, s', t, s.ring.m.head); }
  }

  lemma OwnClaimKept(s: Shard, s': Shard, t: Tid)
    requires Inv(s.ring) && t in s.senders && s.senders[t].Pushing? && t in s.ring.pcs && PushPc(s.ring.pcs[t])
    requires s' == s.(ring := Apply(s.ring, Run(t))) && Shaped(s'.ring.m)
    ensures forall p: nat :: p < s.ring.m.tail && s.ring.m.pushed[p].who == t && Unfinished(s, p) ==> Unfinished(s', p)
    ensures forall p: nat :: s.ring.m.tail <= p < s'.ring.m.tail ==> Unfinished(s', p)
  {
    assert PcInv(s.ring.m, t, s.ring.pcs[t]);
  }

  lemma RolesKept(s: Shard, s': Shard, t: Tid)
    requires Roles(s) && t in s'.ring.pcs && t in s.ring.pcs && s'.ring.pcs == s.ring.pcs[t := s'.ring.pcs[t]]
    requires s'.senders == s.senders
    requires t == WORKER ==> !PushPc(s'.ring.pcs[t]) && (s'.worker.Popping? || AtRest(s'.ring.pcs[t]))
    requires t != WORKER ==>
               && s'.worker == s.worker && s.senders[t].Pushing?
               && (PushPc(s'.ring.pcs[t]) || s'.ring.pcs[t].PushDone?)
    ensures Roles(s')
  {
  }

  lemma PushStepKeepsInv(s: Shard, t: Tid)
    requires SysInv(s) && t in s.senders && s.senders[t].Pushing? && PushPc(s.ring.pcs[t])
    ensures SysInv(SenderNext(s, t))
  {
    var s' := SenderNext(s, t);
    assert s.senders[t := s.senders[t]] == s.senders;
    PusherMoves(s.ring, Run(t));
    RolesKept(s, s', t);
    OwnClaimKept(s, s', t);
    SenderMoveKeepsInv(s, s', t);
  }

  lemma CallKeepsInv(s: Shard, t: Tid, x: Task, s': Shard)
    requires SysInv(s) && t in s.senders && (s.senders[t].Returned? || s.senders[t].Pushing?)
    requires AtRest(s.ring.pcs[t]) && (s.senders[t].Pushing? ==> s.ring.pcs[t].claimed.None?)
    requires s' == s.(ring := Apply(s.ring, CallPush(t, x)), senders := s.senders[t := Pushing], sent := s'.sent)
    ensures SysInv(s')
  {
    PusherMoves(s.ring, CallPush(t, x));
    SenderMoveKeepsInv(s, s', t);
  }

  lemma SenderKeepsInv(s: Shard, t: Tid)
    requires SysInv(s) && t in s.senders
    ensures SysInv(SenderNext(s, t))
  {
    var s' := SenderNext(s, t);
    var pc := s.ring.pcs[t];
    if s.senders[t].Pushing? && PushPc(pc) {
      PushStepKeepsInv(s, t);
    } else if s.senders[t].Pushing? && pc.claimed.None? {
      assert s.senders[t := Pushing] == s.senders;
      CallKeepsInv(s, t, pc.task, s');
    } else if !s.senders[t].Returned? {
      assert s.ring.pcs[t := pc] == s.ring.pcs;
      SenderMoveKeepsInv(s, s', t);
    }
  }

  lemma WorkerRingStep(s: Shard, a: Action)
    requires SysInv(s) && a.tid == WORKER && (s.worker.Start? || s.worker.Popping?)
    requires if s.worker.Start? then a.CallPop? else a.Run? && !AtRest(s.ring.pcs[WORKER])
    ensures SysInv(s.(ring := Apply(s.ring, a), worker := Popping))
  {
    PopperMoves(s.ring, a);
    RolesKept(s, s.(ring := Apply(s.ring, a), worker := Popping), WORKER);
  }

  lemma WorkerPauseKeepsWake(s: Shard)
    requires Shaped(s.ring.m) && s.ring.m.head <= s.ring.m.tail && WakeInv(s)
    requires !s.worker.Start? && (s.worker.Popping? ==> AtRest(s.ring.pcs[WORKER]))
    ensures WakeInv(WorkerNext(s)) && WorkerNext(s).ring == s.ring
  {
    var s' := WorkerNext(s);
    assert forall p: nat :: p < s.ring.m.tail ==> Unfinished(s', p) == Unfinished(s, p);
  }

  lemma WorkerKeepsInv(s: Shard)
    requires SysInv(s)
    ensures SysInv(WorkerNext(s))
  {
    if s.worker.Start? {
      WorkerRingStep(s, CallPop(WORKER));
    } else if s.worker.Popping? && !AtRest(s.ring.pcs[WORKER]) {
      WorkerRingStep(s, Run(WORKER));
    } else {
      WorkerPauseKeepsWake(s);
    }
  }

  lemma EventKeepsInv(s: Shard, e: Event)
    requires SysInv(s)
    ensures SysInv(Happen(s, e))
  {
    match e
    case Send(t, x) => if t in s.senders && s.senders[t].Returned? { CallKeepsInv(s, t, x, Happen(s, e)); }
    case SenderStep(t) => if t in s.senders { SenderKeepsInv(s, t); }
    case WorkerStep => WorkerKeepsInv(s);
  }

  ghost function Play(s: Shard, run: seq<Event>): (s': Shard)
    requires SysInv(s)
    ensures SysInv(s')
    decreases |run|
  {
    if run == [] then s
    else
      EventKeepsInv(s, run[0]);
      Play(Happen(s, run[0]), run[1..])
  }

  // ---- what it means --------------------------------------------------------

  /** A shard just started: an unused ring, nobody sending, the worker about to look. */
  ghost predicate Started(s: Shard) {
    && TaskRing.Fresh(s.ring) && WORKER in s.ring.pcs
    && s.senders == (map t | t in s.ring.pcs.Keys - {WORKER} :: Returned)
    && (forall t :: t in s.ring.pcs ==> s.ring.pcs[t] == Idle)
    && s.worker == Start && s.waiting == 0 && !s.signal && s.sent == [] && s.processed == []
  }

  predicate Asleep(s: Shard) {
    s.worker.Receive? && !s.signal
  }

  /** No lost wakeup: whenever the worker sleeps, every claimed position belongs to a
      `send` that is still on its way to the wake. */
  lemma NoLostWakeup(s: Shard, run: seq<Event>)
    requires Started(s)
    ensures SysInv(s)
    ensures var s' := Play(s, run);
            Asleep(s') ==> forall p: nat :: s'.ring.m.head <= p < s'.ring.m.tail ==> Unfinished(s', p)
  {
  }

  /** When every `send` has returned and the worker sleeps, it has taken and finished
      every task ever pushed, each with the task that was sent. */
  lemma SleepMeansDone(s: Shard, run: seq<Event>)
    requires Started(s)
    ensures SysInv(s)
    ensures var s' := Play(s, run);
            Asleep(s') && (forall t :: t in s'.senders ==> s'.senders[t].Returned?) ==>
              && s'.ring.m.head == s'.ring.m.tail
              && forall p: nat :: p < s'.ring.m.tail ==>
                   p in s'.ring.m.delivered && s'.ring.m.delivered[p] == s'.ring.m.pushed[p].task
  {
    NoLostWakeup(s, run);
    var s' := Play(s, run);
    var h := s'.ring.m.head;
    assert Asleep(s') && h < s'.ring.m.tail ==> Unfinished(s', h);
    if Asleep(s') && (forall t :: t in s'.senders ==> s'.senders[t].Returned?) {
      assert forall t :: t in s'.ring.pcs ==> AtRest(s'.ring.pcs[t]);
      assert forall p: nat :: p < h ==> !BeingRead(s'.ring, p);
    }
  }
}
