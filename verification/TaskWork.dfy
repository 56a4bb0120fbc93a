/** What becomes of the tasks that are sent to a shard (websocket/task_parse.go): the worker calls
    processOne with each of them once, in the order in which they were claimed. */
module TaskWork {
  import opened Bytes
  import opened TaskRing
  import opened TaskParse

  // ---- what has been processed ------------------------------------------------------------

  /** The task that the worker has taken off the ring and not processed yet. */
  function InHand(s: Shard): seq<Task>
    requires WORKER in s.ring.pcs
  {
    match s.worker
    case Popping => Taking(s.ring.m, s.ring.pcs[WORKER])
    case HopTail(x) => [x]
    case HopHead(x, _) => [x]
    case HopCheck(x) => [x]
    case HopWake(x) => [x]
    case Process(x) => [x]
    case _ => []
  }

  /** The task that a `pop` under way, or just returned, has taken. */
  function Taking(m: Mem, pc: Pc): seq<Task> {
    match pc
    case PopRead(h) => if h < |m.pushed| then [m.pushed[h].task] else []
    case PopClear(_, x) => [x]
    case PopReturn(_, x) => [x]
    case PopDone(Some(got)) => [got.1]
    case _ => []
  }

  /** Only the newest position can be in hand. */
  predicate Newest(m: Mem, pc: Pc) {
    && (Reading(pc) ==> pc.pos + 1 == m.head)
    && (pc.PopDone? && pc.got.Some? ==> pc.got.value.0 + 1 == m.head)
  }

  /** Processed tasks and the one in hand are those of the taken positions, in order. */
  ghost predicate WorkInv(s: Shard) {
    && SysInv(s) && s.ring.m.head <= |s.ring.m.pushed|
    && s.processed + InHand(s) == Taken(s.ring)
    && (s.worker.Popping? ==> Newest(s.ring.m, s.ring.pcs[WORKER]))
  }

  /** A step of `pop`: either it takes the task at the head, or nothing of this changes. */
  lemma PopStepWorks(m: Mem, pc: Pc)
    requires Bounded(m) && PcInv(m, WORKER, pc) && Newest(m, pc) && !PushPc(pc) && !AtRest(pc)
    ensures var (m', pc') := PopStep(m, WORKER, pc);
            && Newest(m', pc') && m'.head <= |m'.pushed| && m.head <= |m.pushed|
            && Tasks(m'.pushed[..m'.head]) ==
               Tasks(m.pushed[..m.head]) + (if m'.head == m.head then [] else Taking(m', pc'))
            && Taking(m, pc) == if m'.head == m.head then Taking(m', pc') else []
  {
    var (m', pc') := PopStep(m, WORKER, pc);
    if m'.head != m.head {
      assert m'.pushed[..m'.head] == m.pushed[..m.head] + [m.pushed[m.head]];
    }
  }

  lemma PoppingKeepsWork(s: Shard)
    requires WorkInv(s) && s.worker.Popping? && !AtRest(s.ring.pcs[WORKER]) && SysInv(WorkerNext(s))
    ensures WorkInv(WorkerNext(s))
  {
    var s', m, pc := WorkerNext(s), s.ring.m, s.ring.pcs[WORKER];
    assert PcInv(m, WORKER, pc) && !PushPc(pc) && Bounded(m);
    var (m', pc') := PopStep(m, WORKER, pc);
    assert s' == s.(ring := Ring(m', s.ring.pcs[WORKER := pc']));
    hide SysInv, PopStep, PcInv, Bounded, Taking;
    PopStepWorks(m, pc);
    assert s.processed + [] == s.processed;
  }

  /** A step of the worker beside the ring keeps the task it holds, or processes it. */
  lemma PauseHolds(s: Shard)
    requires Shaped(s.ring.m) && WORKER in s.ring.pcs
    requires !s.worker.Start? && (s.worker.Popping? ==> AtRest(s.ring.pcs[WORKER]))
    ensures var s' := WorkerNext(s);
            && s'.ring == s.ring && s'.senders == s.senders && s'.sent == s.sent && !s'.worker.Popping?
            && s'.processed + InHand(s') == s.processed + InHand(s)
  {
    if s.worker.Process? { assert WorkerNext(s).processed + [] == s.processed + InHand(s); }
  }

  lemma PauseKeepsWork(s: Shard)
    requires WorkInv(s) && !s.worker.Start? && (s.worker.Popping? ==> AtRest(s.ring.pcs[WORKER]))
    requires SysInv(WorkerNext(s))
    ensures WorkInv(WorkerNext(s))
  {
    PauseHolds(s);
    hide SysInv, WorkerNext, InHand;
  }

  lemma WorkerKeepsWork(s: Shard)
    requires WorkInv(s)
    ensures WorkInv(WorkerNext(s))
  {
    WorkerKeepsInv(s);
    if s.worker.Popping? && !AtRest(s.ring.pcs[WORKER]) {
      PoppingKeepsWork(s);
    } else if s.worker.Start? {
      assert AtRest(s.ring.pcs[WORKER]);
      hide SysInv;
      assert WorkerNext(s).ring.pcs[WORKER] == PopLoadHead;
    } else {
      PauseKeepsWork(s);
    }
  }

  // ---- what has been sent ------------------------------------------------------------------

  /** The tasks of one thread in a list of claims. */
  function By(t: Tid, cs: seq<Claim>): seq<Task> {
    if cs == [] then [] else (if cs[0].who == t then [cs[0].task] else []) + By(t, cs[1..])
  }

  lemma {:induction false} BySnoc(t: Tid, cs: seq<Claim>, c: Claim)
    ensures By(t, cs + [c]) == By(t, cs) + (if c.who == t then [c.task] else [])
  {
    if cs == [] {
      assert cs + [c] == [c] && [c][1..] == [];
    } else {
      BySnoc(t, cs[1..], c);
      assert (cs + [c])[0] == cs[0] && (cs + [c])[1..] == cs[1..] + [c];
    }
  }

  /** The task of a `push` that has no position for it yet. */
  function Waiting(pc: Pc): seq<Task> {
    if pc.PushLoadTail? || pc.PushLoadHead? || pc.PushLoadTurn? || pc.PushCas? then [pc.task]
    else if pc.PushDone? && pc.claimed.None? then [pc.task]
    else []
  }

  function Unclaimed(s: Shard, t: Tid): seq<Task>
    requires t in s.senders && t in s.ring.pcs
  {
    if s.senders[t].Pushing? then Waiting(s.ring.pcs[t]) else []
  }

  /** What a thread has sent is what it has claimed, but for a `send` under way. */
  ghost predicate SentInv(s: Shard)
  {
    && s.senders.Keys <= s.ring.pcs.Keys && WORKER !in s.senders
    && (forall c :: c in s.ring.m.pushed ==> c.who in s.senders)
    && (forall c :: c in s.sent ==> c.who in s.senders)
    && forall t :: t in s.senders ==> By(t, s.sent) == By(t, s.ring.m.pushed) + Unclaimed(s, t)
  }

  lemma ShapeOf(s: Shard)
    requires SysInv(s)
    ensures Shaped(s.ring.m) && WORKER in s.ring.pcs && WORKER !in s.senders && s.senders.Keys <= s.ring.pcs.Keys
    ensures !PushPc(s.ring.pcs[WORKER])
    ensures forall t :: t in s.senders && s.senders[t].Returned? ==> AtRest(s.ring.pcs[t])
    ensures forall t :: t in s.senders && s.senders[t].Pushing? ==> PushPc(s.ring.pcs[t]) || s.ring.pcs[t].PushDone?
  {
  }

  /** A step of `push`: either it claims a position for its task, or nothing of this changes. */
  lemma PushClaims(m: Mem, t: Tid, pc: Pc)
    requires Shaped(m) && PushPc(pc)
    ensures var (m', pc') := PushStep(m, t, pc);
            && m'.head == m.head
            && (m'.pushed == m.pushed || m'.pushed == m.pushed + [Claim(t, pc.task)])
            && (m'.pushed == m.pushed ==> Waiting(pc') == Waiting(pc))
            && (m'.pushed != m.pushed ==> Waiting(pc) == [pc.task] && Waiting(pc') == [])
  {
  }

  lemma PushStepClaims(s: Shard, t: Tid)
    requires Shaped(s.ring.m) && SentInv(s) && t in s.senders && s.senders[t].Pushing? && PushPc(s.ring.pcs[t])
    ensures SentInv(SenderNext(s, t))
  {
    var s', m, pc := SenderNext(s, t), s.ring.m, s.ring.pcs[t];
    PushClaims(m, t, pc);
    var (m', pc') := PushStep(m, t, pc);
    assert s' == s.(ring := Ring(m', s.ring.pcs[t := pc']));
    hide By, PushStep, Waiting, SenderNext;
    forall u | u in s'.senders ensures By(u, s'.sent) == By(u, m'.pushed) + Unclaimed(s', u) {
      BySnoc(u, m.pushed, Claim(t, pc.task));
      assert By(u, m.pushed) + [] == By(u, m.pushed);
      if u == t && m'.pushed != m.pushed {
        assert By(u, m'.pushed) + [] == By(u, m.pushed) + [pc.task];
      }
    }
  }

  /** Outside the steps of `push` a sender claims nothing and gives nothing up. */
  lemma SenderRests(s: Shard, t: Tid)
    requires Shaped(s.ring.m) && t in s.senders && s.senders.Keys <= s.ring.pcs.Keys
    requires !(s.senders[t].Pushing? && PushPc(s.ring.pcs[t]))
    requires s.senders[t].Pushing? ==> s.ring.pcs[t].PushDone?
    ensures var s' := SenderNext(s, t);
            && s'.ring.m.pushed == s.ring.m.pushed && s'.sent == s.sent
            && s'.senders.Keys == s.senders.Keys && s'.ring.pcs.Keys == s.ring.pcs.Keys
            && forall u :: u in s.senders ==> Unclaimed(s', u) == Unclaimed(s, u)
  {
  }

  lemma SenderKeepsSent(s: Shard, t: Tid)
    requires SysInv(s) && SentInv(s) && t in s.senders
    ensures SentInv(SenderNext(s, t))
  {
    ShapeOf(s);
    hide SysInv, By;
    if s.senders[t].Pushing? && PushPc(s.ring.pcs[t]) {
      PushStepClaims(s, t);
    } else {
      SenderRests(s, t);
      hide SenderNext, Unclaimed;
    }
  }

  lemma SendKeepsSent(s: Shard, t: Tid, x: Task)
    requires SysInv(s) && SentInv(s) && t in s.senders && s.senders[t].Returned?
    ensures SentInv(Happen(s, Send(t, x)))
  {
    ShapeOf(s);
    var s' := Happen(s, Send(t, x));
    hide SysInv, By;
    assert s'.ring.m == s.ring.m && s'.ring.pcs == s.ring.pcs[t := PushLoadTail(x)];
    hide Happen;
    forall u | u in s'.senders ensures By(u, s'.sent) == By(u, s'.ring.m.pushed) + Unclaimed(s', u) {
      BySnoc(u, s.sent, Claim(t, x));
      assert By(u, s.sent) + [] == By(u, s.sent);
    }
  }

  lemma WorkerLeaves(s: Shard)
    requires SysInv(s)
    ensures var s' := WorkerNext(s);
            && s'.ring.m.pushed == s.ring.m.pushed && s'.senders == s.senders && s'.sent == s.sent
            && WORKER in s.ring.pcs && WORKER in s'.ring.pcs && s'.ring.pcs == s.ring.pcs[WORKER := s'.ring.pcs[WORKER]]
  {
    ShapeOf(s);
    hide SysInv;
    var m, pc := s.ring.m, s.ring.pcs[WORKER];
    if s.worker.Popping? && !AtRest(pc) {
      PopStepAddsNoClaim(m, WORKER, pc);
      var (m', pc') := PopStep(m, WORKER, pc);
      assert WorkerNext(s) == s.(ring := Ring(m', s.ring.pcs[WORKER := pc']));
      hide PopStep, WorkerNext;
    } else if s.worker.Start? {
      assert s.ring.pcs[WORKER := pc] == s.ring.pcs;
      hide PopStep, PushStep;
    } else {
      assert s.ring.pcs[WORKER := pc] == s.ring.pcs;
      PauseHolds(s);
      hide WorkerNext;
    }
  }

  lemma WorkerKeepsSent(s: Shard)
    requires SysInv(s) && SentInv(s)
    ensures SentInv(WorkerNext(s))
  {
    ShapeOf(s);
    WorkerLeaves(s);
    hide SysInv, By, WorkerNext;
    var s' := WorkerNext(s);
    forall t | t in s.senders ensures Unclaimed(s', t) == Unclaimed(s, t) { assert t != WORKER; }
  }

  // ---- every run ------------------------------------------------------------------------------

  /** A sender's step, or a new `send`, moves nothing that the worker holds. */
  lemma OtherKeepsWork(s: Shard, e: Event)
    requires WorkInv(s) && !e.WorkerStep?
    ensures WorkInv(Happen(s, e))
  {
    EventKeepsInv(s, e);
    var s' := Happen(s, e);
    OtherMoves(s, e);
    hide SysInv, Happen;
    assert s'.ring.m.pushed[..s.ring.m.head] == s.ring.m.pushed[..s.ring.m.head];
    assert InHand(s') == InHand(s);
  }

  lemma OtherMoves(s: Shard, e: Event)
    requires SysInv(s) && !e.WorkerStep?
    ensures var s' := Happen(s, e);
            && WORKER in s'.ring.pcs && WORKER in s.ring.pcs && s'.ring.pcs[WORKER] == s.ring.pcs[WORKER]
            && s'.worker == s.worker && s'.processed == s.processed
            && s'.ring.m.head == s.ring.m.head && s.ring.m.pushed <= s'.ring.m.pushed
  {
    ShapeOf(s);
    hide SysInv;
    if e.SenderStep? && e.tid in s.senders {
      SenderMoves(s, e.tid);
      hide SenderNext;
    }
  }

  lemma SenderMoves(s: Shard, t: Tid)
    requires Shaped(s.ring.m) && t in s.senders && WORKER !in s.senders && WORKER in s.ring.pcs
    requires s.senders.Keys <= s.ring.pcs.Keys
    ensures var s' := SenderNext(s, t);
            && WORKER in s'.ring.pcs && s'.ring.pcs[WORKER] == s.ring.pcs[WORKER]
            && s'.worker == s.worker && s'.processed == s.processed
            && s'.ring.m.head == s.ring.m.head && s.ring.m.pushed <= s'.ring.m.pushed
  {
    if PushPc(s.ring.pcs[t]) { PushClaims(s.ring.m, t, s.ring.pcs[t]); }
    hide PushStep, PopStep;
  }

  lemma EventKeepsAll(s: Shard, e: Event)
    requires WorkInv(s) && SentInv(s)
    ensures SysInv(s) && WorkInv(Happen(s, e)) && SentInv(Happen(s, e))
  {
    assert SysInv(s);
    hide WorkInv, SentInv, Happen, SysInv;
    match e {
      case Send(t, x) => OtherKeepsWork(s, e); SendOrNot(s, t, x);
      case SenderStep(t) => OtherKeepsWork(s, e); StepOrNot(s, t);
      case WorkerStep => WorkerKeepsWork(s); WorkerKeepsSent(s); WorkerIsEvent(s);
    }
  }

  lemma SendOrNot(s: Shard, t: Tid, x: Task)
    requires SysInv(s) && SentInv(s)
    ensures SentInv(Happen(s, Send(t, x)))
  {
    if t in s.senders && s.senders[t].Returned? { SendKeepsSent(s, t, x); } else { hide SentInv; }
  }

  lemma StepOrNot(s: Shard, t: Tid)
    requires SysInv(s) && SentInv(s)
    ensures SentInv(Happen(s, SenderStep(t)))
  {
    if t in s.senders { SenderKeepsSent(s, t); } else { hide SentInv; }
  }

  lemma WorkerIsEvent(s: Shard)
    requires SysInv(s)
    ensures Happen(s, WorkerStep) == WorkerNext(s)
  {
  }

  lemma {:induction false} RunKeepsAll(s: Shard, run: seq<Event>)
    requires WorkInv(s) && SentInv(s)
    ensures WorkInv(Play(s, run)) && SentInv(Play(s, run))
    decreases |run|
  {
    if run != [] {
      EventKeepsAll(s, run[0]);
      hide WorkInv, SentInv, Happen;
      RunKeepsAll(Happen(s, run[0]), run[1..]);
    }
  }

  lemma StartedKeeps(s: Shard)
    requires Started(s)
    ensures WorkInv(s) && SentInv(s)
  {
    assert s.ring.m.pushed == [];
  }

  /** In every run, what has been processed, followed by at most one task in hand, are the tasks
      of the positions taken off the ring, each once and in the order of the claims. */
  lemma ProcessedInOrder(s: Shard, run: seq<Event>)
    requires Started(s)
    ensures SysInv(s)
    ensures var s' := Play(s, run);
            && WORKER in s'.ring.pcs && s'.ring.m.head <= |s'.ring.m.pushed| && |InHand(s')| <= 1
            && |s'.processed| + |InHand(s')| == s'.ring.m.head
            && forall k :: 0 <= k < s'.ring.m.head ==> (s'.processed + InHand(s'))[k] == s'.ring.m.pushed[k].task
  {
    StartedKeeps(s);
    RunKeepsAll(s, run);
  }

  /** `done` is `sent` in some order in which the tasks of each thread keep theirs. */
  ghost predicate Interleaved(done: seq<Task>, sent: seq<Claim>) {
    exists order: seq<Claim> :: Tasks(order) == done && |order| == |sent| && forall t :: By(t, order) == By(t, sent)
  }

  lemma {:induction false} NoneBy(t: Tid, cs: seq<Claim>)
    requires forall c :: c in cs ==> c.who != t
    ensures By(t, cs) == []
  {
    if cs != [] { NoneBy(t, cs[1..]); }
  }

  lemma {:induction false} Without(t: Tid, cs: seq<Claim>) returns (rest: seq<Claim>)
    requires By(t, cs) != []
    ensures |rest| == |cs| - 1
    ensures forall u :: By(u, cs) == (if u == t then [By(t, cs)[0]] else []) + By(u, rest)
  {
    if cs[0].who == t {
      rest := cs[1..];
    } else {
      var more := Without(t, cs[1..]);
      rest := [cs[0]] + more;
      assert rest[1..] == more;
    }
  }

  /** Lists with the same tasks for every thread are as long as each other. */
  lemma {:induction false} SameLength(a: seq<Claim>, b: seq<Claim>)
    requires forall t :: By(t, a) == By(t, b)
    ensures |a| == |b|
  {
    if a == [] {
      var u := if b == [] then 0 else b[0].who;
      assert By(u, a) == By(u, b);
    } else {
      var t := a[0].who;
      assert By(t, a) == By(t, b);
      var rest := Without(t, b);
      forall u ensures By(u, a[1..]) == By(u, rest) {
        assert By(u, a) == By(u, b);
        assert By(u, a[1..]) == By(u, a)[if u == t then 1 else 0..];
        assert By(u, rest) == By(u, b)[if u == t then 1 else 0..];
      }
      SameLength(a[1..], rest);
    }
  }

  /** When every `send` has returned and the worker sleeps, it has called processOne with every
      task that `send` was ever called with, each once, those of each thread in their order. */
  lemma AllSentIsProcessed(s: Shard, run: seq<Event>)
    requires Started(s)
    ensures SysInv(s)
    ensures var s' := Play(s, run);
            Asleep(s') && (forall t :: t in s'.senders ==> s'.senders[t].Returned?) ==>
              Interleaved(s'.processed, s'.sent)
  {
    StartedKeeps(s);
    RunKeepsAll(s, run);
    SleepMeansDone(s, run);
    var s' := Play(s, run);
    if Asleep(s') && (forall t :: t in s'.senders ==> s'.senders[t].Returned?) {
      var order := s'.ring.m.pushed;
      assert order[..s'.ring.m.head] == order && s'.processed + [] == s'.processed;
      assert Tasks(order) == s'.processed;
      forall t ensures By(t, order) == By(t, s'.sent) {
        if t in s'.senders {
          assert By(t, order) + [] == By(t, order);
        } else {
          NoneBy(t, order);
          NoneBy(t, s'.sent);
        }
      }
      SameLength(order, s'.sent);
    }
  }
}
