/** That nobody waits for ever: what a thread comes to that runs while the others stand still
    (websocket/task_ring.go, websocket/task_parse.go). */
module TaskAlone {
  import opened Bytes
  import opened TaskRing
  import opened TaskParse
  import opened TaskWork

  // ---- push and pop ----------------------------------------------------------------------

  /** A thread takes `n` steps in a row. */
  ghost function Alone(s: Ring, t: Tid, n: nat): (s': Ring)
    requires Inv(s)
    ensures Inv(s')
    decreases n
  {
    if n == 0 then s
    else
      ApplyKeepsInv(s, Run(t));
      Alone(Apply(s, Run(t)), t, n - 1)
  }

  lemma AloneStep(s: Ring, t: Tid, s': Ring, n: nat)
    requires Inv(s) && s' == Apply(s, Run(t))
    ensures Inv(s') && Alone(s, t, n + 1) == Alone(s', t, n)
  {
    ApplyKeepsInv(s, Run(t));
    hide Inv, Apply;
  }

  function In(s: Ring, m: Mem, t: Tid, pc: Pc): Ring {
    Ring(m, s.pcs[t := pc])
  }

  function StepOf(m: Mem, t: Tid, pc: Pc): (Mem, Pc)
    requires Shaped(m)
  {
    if PushPc(pc) then PushStep(m, t, pc) else PopStep(m, t, pc)
  }

  lemma AloneIn(s: Ring, m: Mem, t: Tid, pc: Pc, m': Mem, pc': Pc, n: nat)
    requires Inv(In(s, m, t, pc)) && Shaped(m) && StepOf(m, t, pc) == (m', pc')
    ensures Inv(In(s, m', t, pc')) && Alone(In(s, m, t, pc), t, n + 1) == Alone(In(s, m', t, pc'), t, n)
  {
    hide Inv, PushStep, PopStep;
    RunIn(s, m, t, pc, m', pc');
    AloneStep(In(s, m, t, pc), t, In(s, m', t, pc'), n);
  }

  lemma RunIn(s: Ring, m: Mem, t: Tid, pc: Pc, m': Mem, pc': Pc)
    requires Shaped(m) && StepOf(m, t, pc) == (m', pc')
    ensures Apply(In(s, m, t, pc), Run(t)) == In(s, m', t, pc')
  {
    hide PushStep, PopStep;
    assert s.pcs[t := pc][t := pc'] == s.pcs[t := pc'];
  }

  lemma AloneDone(s: Ring, m: Mem, t: Tid, pc: Pc, n: nat)
    requires Inv(In(s, m, t, pc)) && AtRest(pc)
    ensures Alone(In(s, m, t, pc), t, n) == In(s, m, t, pc)
  {
    AloneAtRest(In(s, m, t, pc), t, n);
  }

  /** A finished call stays as it is. */
  lemma {:induction false} AloneAtRest(s: Ring, t: Tid, n: nat)
    requires Inv(s) && t in s.pcs && AtRest(s.pcs[t])
    ensures Alone(s, t, n) == s
    decreases n
  {
    if n > 0 {
      assert Apply(s, Run(t)) == s by { assert s.pcs[t := s.pcs[t]] == s.pcs; }
      hide Inv;
      AloneAtRest(s, t, n - 1);
    }
  }

  // ---- push ------------------------------------------------------------------------------------

  /** A push that runs alone is done within six steps. It answers false, and has changed nothing,
      exactly when the queue is full or a pop has not handed the cell back; else its task is
      published at the end of the queue. */
  lemma PushAlone(s: Ring, t: Tid, x: Task)
    requires Inv(s) && t in s.pcs && AtRest(s.pcs[t])
    ensures Inv(Apply(s, CallPush(t, x)))
    ensures var m, r := s.m, Alone(Apply(s, CallPush(t, x)), t, 6);
            if m.tail - m.head >= m.limit || At(m, m.tail).turn != m.tail
            then r == Ring(m, s.pcs[t := PushDone(x, None)])
            else r == Ring(Pushed(m, t, x), s.pcs[t := PushDone(x, Some(m.tail))])
  {
    ApplyKeepsInv(s, CallPush(t, x));
    var m := s.m;
    assert Apply(s, CallPush(t, x)) == In(s, m, t, PushLoadTail(x));
    assert Shaped(m) && m.head <= m.tail;
    if m.tail - m.head < m.limit { NextCell(s); }
    FirstPushes(m, t, x);
    hide Inv, PushStep, PopStep, Apply, Alone, StepOf, Pushed, At;
    AloneIn(s, m, t, PushLoadTail(x), m, PushLoadHead(x, m.tail), 5);
    if m.tail - m.head >= m.limit {
      AloneIn(s, m, t, PushLoadHead(x, m.tail), m, PushDone(x, None), 4);
      AloneDone(s, m, t, PushDone(x, None), 4);
    } else {
      AloneIn(s, m, t, PushLoadHead(x, m.tail), m, PushLoadTurn(x, m.tail), 4);
      if At(m, m.tail).turn != m.tail {
        AloneIn(s, m, t, PushLoadTurn(x, m.tail), m, PushDone(x, None), 3);
        AloneDone(s, m, t, PushDone(x, None), 3);
      } else {
        PushClaimed(s, t, x);
      }
    }
  }

  /** The queue with one more task, claimed and published. */
  function Pushed(m: Mem, t: Tid, x: Task): Mem
    requires Shaped(m)
  {
    m.(tail := m.tail + 1, pushed := m.pushed + [Claim(t, x)],
       cells := m.cells[Slot(m.tail, m.size) := Cell(m.tail + 1, Some(x))])
  }

  /** The cell that the next push needs is free, or its popper has it still. */
  lemma NextCell(s: Ring)
    requires Inv(s) && s.m.tail < s.m.head + s.m.limit
    ensures At(s.m, s.m.tail).turn <= s.m.tail
  {
  }

  lemma FirstPushes(m: Mem, t: Tid, x: Task)
    requires Shaped(m) && m.head <= m.tail
    ensures StepOf(m, t, PushLoadTail(x)) == (m, PushLoadHead(x, m.tail))
    ensures StepOf(m, t, PushLoadHead(x, m.tail)) ==
            (m, if m.tail - m.head >= m.limit then PushDone(x, None) else PushLoadTurn(x, m.tail))
    ensures At(m, m.tail).turn <= m.tail ==>
              StepOf(m, t, PushLoadTurn(x, m.tail)) ==
              (m, if At(m, m.tail).turn == m.tail then PushCas(x, m.tail) else PushDone(x, None))
  {
  }

  lemma PushClaimed(s: Ring, t: Tid, x: Task)
    requires Shaped(s.m) && t in s.pcs && Inv(In(s, s.m, t, PushLoadTurn(x, s.m.tail)))
    requires At(s.m, s.m.tail).turn == s.m.tail
    ensures Alone(In(s, s.m, t, PushLoadTurn(x, s.m.tail)), t, 4)
              == In(s, Pushed(s.m, t, x), t, PushDone(x, Some(s.m.tail)))
  {
    var m, n := s.m, s.m.tail;
    var claimed := m.(tail := n + 1, pushed := m.pushed + [Claim(t, x)]);
    var written := Put(claimed, n, Cell(n, Some(x)));
    LastPushes(m, t, x);
    hide Inv, PushStep, PopStep, Apply, StepOf, Pushed, At, Put;
    AloneIn(s, m, t, PushLoadTurn(x, n), m, PushCas(x, n), 3);
    AloneIn(s, m, t, PushCas(x, n), claimed, PushWrite(x, n), 2);
    AloneIn(s, claimed, t, PushWrite(x, n), written, PushPublish(x, n), 1);
    AloneIn(s, written, t, PushPublish(x, n), Pushed(m, t, x), PushDone(x, Some(n)), 0);
  }

  lemma LastPushes(m: Mem, t: Tid, x: Task)
    requires Shaped(m) && At(m, m.tail).turn == m.tail
    ensures var n := m.tail;
            var claimed := m.(tail := n + 1, pushed := m.pushed + [Claim(t, x)]);
            var written := Put(claimed, n, Cell(n, Some(x)));
            && StepOf(m, t, PushLoadTurn(x, n)) == (m, PushCas(x, n))
            && StepOf(m, t, PushCas(x, n)) == (claimed, PushWrite(x, n))
            && StepOf(claimed, t, PushWrite(x, n)) == (written, PushPublish(x, n))
            && StepOf(written, t, PushPublish(x, n)) == (Pushed(m, t, x), PushDone(x, Some(n)))
  {
    hide Slot;
    var n, i, full := m.tail, Slot(m.tail, m.size), Cell(m.tail + 1, Some(x));
    assert m.cells[i := Cell(n, Some(x))][i := full] == m.cells[i := full];
  }

  // ---- pop -------------------------------------------------------------------------------------

  /** A pop that runs alone is done within six steps when the cell at the head is of this lap. It
      takes the oldest task exactly when that is published, and hands its cell to the next lap.
      But when the queue is empty and another pop has not handed that cell back, it tries again
      and again; a shard has one worker, so this cannot happen there. */
  lemma PopAlone(s: Ring, t: Tid)
    requires Inv(s) && t in s.pcs && AtRest(s.pcs[t])
    ensures Inv(Apply(s, CallPop(t)))
    ensures var m, r := s.m, Alone(Apply(s, CallPop(t)), t, 6);
            if At(m, m.head).turn == m.head then r == Ring(m, s.pcs[t := PopDone(None)])
            else if m.head < m.tail then
              && At(m, m.head) == Cell(m.head + 1, Some(m.pushed[m.head].task))
              && r == Ring(Popped(m, t), s.pcs[t := PopDone(Some((m.head, m.pushed[m.head].task)))])
            else
              && r == Ring(m, s.pcs[t := PopLoadHead])
              && m.size <= m.head && BeingRead(s, m.head - m.size)
  {
    ApplyKeepsInv(s, CallPop(t));
    var m := s.m;
    HeadCell(s);
    assert Apply(s, CallPop(t)) == In(s, m, t, PopLoadHead) && Shaped(m);
    assert m.head <= m.tail;
    FirstPops(m, t);
    hide Inv, PushStep, PopStep, Apply, Alone, StepOf, Popped, At, BeingRead, BeingWritten;
    AloneIn(s, m, t, PopLoadHead, m, PopLoadTurn(m.head), 5);
    if At(m, m.head).turn == m.head {
      AloneIn(s, m, t, PopLoadTurn(m.head), m, PopDone(None), 4);
      AloneDone(s, m, t, PopDone(None), 4);
    } else if m.head < m.tail {
      PopTaken(s, t);
    } else {
      AloneIn(s, m, t, PopLoadTurn(m.head), m, PopLoadHead, 4);
      AloneIn(s, m, t, PopLoadHead, m, PopLoadTurn(m.head), 3);
      AloneIn(s, m, t, PopLoadTurn(m.head), m, PopLoadHead, 2);
      AloneIn(s, m, t, PopLoadHead, m, PopLoadTurn(m.head), 1);
      AloneIn(s, m, t, PopLoadTurn(m.head), m, PopLoadHead, 0);
      NoSteps(In(s, m, t, PopLoadHead), t);
    }
  }

  lemma NoSteps(s: Ring, t: Tid)
    requires Inv(s)
    ensures Alone(s, t, 0) == s
  {
  }

  /** The queue without its oldest task, whose cell waits for the next lap. */
  function Popped(m: Mem, t: Tid): Mem
    requires Shaped(m) && m.head < m.tail
  {
    m.(head := m.head + 1, poppedBy := m.poppedBy + [t],
       delivered := m.delivered[m.head := m.pushed[m.head].task],
       cells := m.cells[Slot(m.head, m.size) := Cell(m.head + m.size, None)])
  }

  /** The oldest position is published or still being written; when there is none, its cell is
      free or with the pop of the lap before. */
  lemma HeadCell(s: Ring)
    requires Inv(s)
    ensures s.m.head < s.m.tail ==>
              Published(s.m, s.m.head) || (At(s.m, s.m.head).turn == s.m.head && BeingWritten(s, s.m.head))
    ensures s.m.head == s.m.tail ==>
              || At(s.m, s.m.head).turn == s.m.head
              || (At(s.m, s.m.head).turn < s.m.head && s.m.size <= s.m.head && BeingRead(s, s.m.head - s.m.size))
  {
  }

  lemma FirstPops(m: Mem, t: Tid)
    requires Shaped(m)
    ensures StepOf(m, t, PopLoadHead) == (m, PopLoadTurn(m.head))
    ensures var turn := At(m, m.head).turn;
            StepOf(m, t, PopLoadTurn(m.head)) ==
            (m, if turn == m.head + 1 then PopCas(m.head) else if turn == m.head then PopDone(None) else PopLoadHead)
  {
  }

  lemma PopTaken(s: Ring, t: Tid)
    requires Shaped(s.m) && t in s.pcs && Inv(In(s, s.m, t, PopLoadTurn(s.m.head)))
    requires s.m.head < s.m.tail && Published(s.m, s.m.head)
    ensures Alone(In(s, s.m, t, PopLoadTurn(s.m.head)), t, 5) ==
            In(s, Popped(s.m, t), t, PopDone(Some((s.m.head, s.m.pushed[s.m.head].task))))
  {
    var m, h, x := s.m, s.m.head, s.m.pushed[s.m.head].task;
    var taken := m.(head := h + 1, poppedBy := m.poppedBy + [t]);
    var cleared := Put(taken, h, Cell(h + 1, None));
    LastPops(m, t);
    hide Inv, PushStep, PopStep, Apply, StepOf, Popped, At, Put;
    AloneIn(s, m, t, PopLoadTurn(h), m, PopCas(h), 4);
    AloneIn(s, m, t, PopCas(h), taken, PopRead(h), 3);
    AloneIn(s, taken, t, PopRead(h), taken, PopClear(h, x), 2);
    AloneIn(s, taken, t, PopClear(h, x), cleared, PopReturn(h, x), 1);
    AloneIn(s, cleared, t, PopReturn(h, x), Popped(m, t), PopDone(Some((h, x))), 0);
  }

  lemma LastPops(m: Mem, t: Tid)
    requires Shaped(m) && m.head < m.tail && Published(m, m.head)
    ensures var h, x := m.head, m.pushed[m.head].task;
            var taken := m.(head := h + 1, poppedBy := m.poppedBy + [t]);
            var cleared := Put(taken, h, Cell(h + 1, None));
            && StepOf(m, t, PopLoadTurn(h)) == (m, PopCas(h))
            && StepOf(m, t, PopCas(h)) == (taken, PopRead(h))
            && StepOf(taken, t, PopRead(h)) == (taken, PopClear(h, x))
            && StepOf(taken, t, PopClear(h, x)) == (cleared, PopReturn(h, x))
            && StepOf(cleared, t, PopReturn(h, x)) == (Popped(m, t), PopDone(Some((h, x))))
  {
    hide Slot;
    var h, i, free := m.head, Slot(m.head, m.size), Cell(m.head + m.size, None);
    assert m.cells[i := Cell(h + 1, None)][i := free] == m.cells[i := free];
  }

  // ---- a sender --------------------------------------------------------------------------------

  /** A sender takes `n` steps in a row. */
  ghost function SenderAlone(s: Shard, t: Tid, n: nat): (s': Shard)
    requires SysInv(s) && t in s.senders
    ensures SysInv(s') && t in s'.senders
    decreases n
  {
    if n == 0 then s
    else
      SenderStays(s, t);
      SenderAlone(SenderNext(s, t), t, n - 1)
  }

  lemma SenderStays(s: Shard, t: Tid)
    requires SysInv(s) && t in s.senders
    ensures Shaped(s.ring.m) && t in s.ring.pcs && SysInv(SenderNext(s, t)) && t in SenderNext(s, t).senders
  {
    ShapeOf(s);
    hide SysInv, SenderNext;
    SenderKeepsInv(s, t);
    NextSender(s, t);
  }

  /** The shard with the sender inside `push`. */
  function Sends(s: Shard, m: Mem, t: Tid, pc: Pc): Shard {
    s.(ring := In(s.ring, m, t, pc), senders := s.senders[t := Pushing])
  }

  lemma SenderIn(s: Shard, m: Mem, t: Tid, pc: Pc, m': Mem, pc': Pc, n: nat)
    requires t in s.senders && SysInv(Sends(s, m, t, pc)) && Shaped(m) && PushPc(pc) && PushStep(m, t, pc) == (m', pc')
    ensures SysInv(Sends(s, m', t, pc'))
    ensures SenderAlone(Sends(s, m, t, pc), t, n + 1) == SenderAlone(Sends(s, m', t, pc'), t, n)
  {
    hide SysInv, PushStep;
    PushingStep(s, m, t, pc, m', pc');
    SenderOnce(Sends(s, m, t, pc), t, n);
  }

  lemma PushingStep(s: Shard, m: Mem, t: Tid, pc: Pc, m': Mem, pc': Pc)
    requires t in s.senders && Shaped(m) && PushPc(pc) && PushStep(m, t, pc) == (m', pc')
    ensures SenderNext(Sends(s, m, t, pc), t) == Sends(s, m', t, pc')
  {
    hide PushStep;
    assert s.ring.pcs[t := pc][t := pc'] == s.ring.pcs[t := pc'];
  }

  lemma SenderOnce(s: Shard, t: Tid, n: nat)
    requires SysInv(s) && t in s.senders
    ensures Shaped(s.ring.m) && t in s.ring.pcs && SysInv(SenderNext(s, t)) && t in SenderNext(s, t).senders
    ensures SenderAlone(s, t, n + 1) == SenderAlone(SenderNext(s, t), t, n) && SenderAlone(s, t, 0) == s
  {
    SenderStays(s, t);
    hide SysInv, SenderNext;
  }

  lemma NextSender(s: Shard, t: Tid)
    requires Shaped(s.ring.m) && t in s.senders && t in s.ring.pcs
    ensures t in SenderNext(s, t).senders
  {
    hide PushStep, PopStep;
  }

  /** A `send` that runs alone either finds room, and then returns within nine steps with its task
      published and a sleeping worker signalled, or it is back where it began and tries again. */
  lemma SendAlone(s: Shard, t: Tid, x: Task)
    requires SysInv(s) && t in s.senders && s.senders[t].Returned?
    ensures SysInv(Happen(s, Send(t, x))) && t in Happen(s, Send(t, x)).senders && Shaped(s.ring.m)
    ensures var m, s0 := s.ring.m, Happen(s, Send(t, x));
            if m.tail - m.head >= m.limit then SenderAlone(s0, t, 3) == s0
            else if At(m, m.tail).turn != m.tail then SenderAlone(s0, t, 4) == s0
            else
              SenderAlone(s0, t, if s.waiting > 0 then 9 else 8) ==
              s.(ring := Ring(Pushed(m, t, x), s.ring.pcs[t := PushDone(x, Some(m.tail))]),
                 signal := s.signal || s.waiting > 0, sent := s.sent + [Claim(t, x)])
  {
    EventKeepsInv(s, Send(t, x));
    ShapeOf(s);
    assert s.senders[t := Returned] == s.senders;
    var m, s0, c := s.ring.m, Happen(s, Send(t, x)), s.(sent := s.sent + [Claim(t, x)]);
    assert s0 == Sends(c, m, t, PushLoadTail(x));
    assert m.head <= m.tail;
    if m.tail - m.head < m.limit { NextCell(s.ring); }
    FirstPushes(m, t, x);
    StepIsPush(m, t, PushLoadTail(x));
    StepIsPush(m, t, PushLoadHead(x, m.tail));
    StepIsPush(m, t, PushLoadTurn(x, m.tail));
    hide SysInv, PushStep, PopStep, StepOf, Happen, SenderNext, SenderAlone, Pushed, At;
    SenderIn(c, m, t, PushLoadTail(x), m, PushLoadHead(x, m.tail), 2);
    SenderIn(c, m, t, PushLoadTail(x), m, PushLoadHead(x, m.tail), 3);
    SenderIn(c, m, t, PushLoadTail(x), m, PushLoadHead(x, m.tail), if s.waiting > 0 then 8 else 7);
    if m.tail - m.head >= m.limit {
      SenderIn(c, m, t, PushLoadHead(x, m.tail), m, PushDone(x, None), 1);
      TryAgain(c, m, t, x);
    } else {
      SenderIn(c, m, t, PushLoadHead(x, m.tail), m, PushLoadTurn(x, m.tail), 2);
      if At(m, m.tail).turn != m.tail {
        SenderIn(c, m, t, PushLoadTurn(x, m.tail), m, PushDone(x, None), 1);
        TryAgain(c, m, t, x);
      } else {
        SenderIn(c, m, t, PushLoadHead(x, m.tail), m, PushLoadTurn(x, m.tail), if s.waiting > 0 then 7 else 6);
        SendClaimed(c, m, t, x, if s.waiting > 0 then 3 else 2);
        SendReturns(c, t, Pushed(m, t, x), x, m.tail);
      }
    }
  }

  lemma StepIsPush(m: Mem, t: Tid, pc: Pc)
    requires Shaped(m) && PushPc(pc)
    ensures StepOf(m, t, pc) == PushStep(m, t, pc)
  {
  }

  lemma TryAgain(c: Shard, m: Mem, t: Tid, x: Task)
    requires SysInv(Sends(c, m, t, PushDone(x, None))) && t in c.senders && Shaped(m)
    ensures SenderAlone(Sends(c, m, t, PushDone(x, None)), t, 1) == Sends(c, m, t, PushLoadTail(x))
  {
    hide SysInv;
    RetryStep(c, m, t, x);
    SenderOnce(Sends(c, m, t, PushDone(x, None)), t, 0);
    SenderOnce(Sends(c, m, t, PushLoadTail(x)), t, 0);
  }

  lemma RetryStep(c: Shard, m: Mem, t: Tid, x: Task)
    requires t in c.senders && Shaped(m)
    ensures SenderNext(Sends(c, m, t, PushDone(x, None)), t) == Sends(c, m, t, PushLoadTail(x))
  {
    assert c.ring.pcs[t := PushDone(x, None)][t := PushLoadTail(x)] == c.ring.pcs[t := PushLoadTail(x)];
  }

  lemma SendClaimed(c: Shard, m: Mem, t: Tid, x: Task, n: nat)
    requires Shaped(m) && t in c.senders && SysInv(Sends(c, m, t, PushLoadTurn(x, m.tail)))
    requires At(m, m.tail).turn == m.tail
    ensures SysInv(Sends(c, Pushed(m, t, x), t, PushDone(x, Some(m.tail))))
    ensures SenderAlone(Sends(c, m, t, PushLoadTurn(x, m.tail)), t, n + 4) ==
            SenderAlone(Sends(c, Pushed(m, t, x), t, PushDone(x, Some(m.tail))), t, n)
  {
    var h := m.tail;
    var claimed := m.(tail := h + 1, pushed := m.pushed + [Claim(t, x)]);
    var written := Put(claimed, h, Cell(h, Some(x)));
    LastPushes(m, t, x);
    hide SysInv, PushStep, PopStep, Pushed, At, Put;
    SenderIn(c, m, t, PushLoadTurn(x, h), m, PushCas(x, h), n + 3);
    SenderIn(c, m, t, PushCas(x, h), claimed, PushWrite(x, h), n + 2);
    SenderIn(c, claimed, t, PushWrite(x, h), written, PushPublish(x, h), n + 1);
    SenderIn(c, written, t, PushPublish(x, h), Pushed(m, t, x), PushDone(x, Some(h)), n);
  }

  lemma SendReturns(c: Shard, t: Tid, m': Mem, x: Task, p: nat)
    requires SysInv(Sends(c, m', t, PushDone(x, Some(p)))) && t in c.senders && Shaped(m')
    ensures SenderAlone(Sends(c, m', t, PushDone(x, Some(p))), t, if c.waiting > 0 then 3 else 2) ==
            c.(ring := In(c.ring, m', t, PushDone(x, Some(p))), senders := c.senders[t := Returned],
               signal := c.signal || c.waiting > 0)
  {
    hide SysInv, SenderNext, SenderAlone, Sends;
    var s1 := Sends(c, m', t, PushDone(x, Some(p)));
    ReturnSteps(c, t, m', x, p);
    SenderOnce(s1, t, if c.waiting > 0 then 2 else 1);
    var s2 := SenderNext(s1, t);
    SenderOnce(s2, t, if c.waiting > 0 then 1 else 0);
    var s3 := SenderNext(s2, t);
    SenderOnce(s3, t, 0);
    if c.waiting > 0 { SenderOnce(SenderNext(s3, t), t, 0); }
  }

  lemma ReturnSteps(c: Shard, t: Tid, m': Mem, x: Task, p: nat)
    requires t in c.senders && Shaped(m')
    ensures var s1 := Sends(c, m', t, PushDone(x, Some(p)));
            var s2 := s1.(senders := c.senders[t := Checking]);
            var s3 := s1.(senders := c.senders[t := Waking]);
            var s4 := s1.(senders := c.senders[t := Returned], signal := c.signal || c.waiting > 0);
            && s4 == c.(ring := In(c.ring, m', t, PushDone(x, Some(p))), senders := c.senders[t := Returned],
                        signal := c.signal || c.waiting > 0)
            && t in s1.ring.pcs && Shaped(s1.ring.m) && t in s1.senders
            && SenderNext(s1, t) == s2
            && SenderNext(s2, t) == (if c.waiting > 0 then s3 else s4)
            && SenderNext(s3, t) == s1.(senders := c.senders[t := Returned], signal := true)
  {
    assert c.senders[t := Pushing][t := Checking] == c.senders[t := Checking];
    assert c.senders[t := Checking][t := Waking] == c.senders[t := Waking];
    assert c.senders[t := Waking][t := Returned] == c.senders[t := Returned];
    assert c.senders[t := Checking][t := Returned] == c.senders[t := Returned];
  }

  // ---- the worker ------------------------------------------------------------------------------

  /** The worker takes `n` steps in a row. */
  ghost function WorkerAlone(s: Shard, n: nat): (s': Shard)
    requires SysInv(s)
    ensures SysInv(s')
    decreases n
  {
    if n == 0 then s
    else
      WorkerKeepsInv(s);
      WorkerAlone(WorkerNext(s), n - 1)
  }

  /** The worker has a task in hand. */
  predicate Working(s: Shard)
    requires WORKER in s.ring.pcs
  {
    var pc := s.ring.pcs[WORKER];
    || s.worker.HopTail? || s.worker.HopHead? || s.worker.HopCheck? || s.worker.HopWake? || s.worker.Process?
    || (s.worker.Popping? && (Reading(pc) || (pc.PopDone? && pc.got.Some?)))
  }

  /** How many steps it may still take until it has processed that, has taken another, or sleeps. */
  function Rank(s: Shard): nat
    requires WORKER in s.ring.pcs
  {
    var pc, empty := s.ring.pcs[WORKER], s.ring.m.head == s.ring.m.tail;
    if Working(s) then WorkingRank(s.worker, pc)
    else if s.worker.Popping? && !AtRest(pc) then PoppingRank(s.ring.m, pc) + Again(s)
    else (match s.worker
          case Start => 20
          case Retract => 22
          case Receive => if empty then 10 else 24
          case LookHead(_) => if empty then 11 else 25
          case LookTail => if empty then 12 else 26
          case Announce => if empty then 13 else 27
          case _ => if empty then 14 else 28) + Again(s)
  }

  /** A signal in the channel makes it look once more. */
  function Again(s: Shard): nat {
    if s.ring.m.head == s.ring.m.tail && s.signal then 20 else 0
  }

  function WorkingRank(w: Worker, pc: Pc): nat {
    match w
    case Process(_) => 0
    case HopWake(_) => 1
    case HopCheck(_) => 2
    case HopHead(_, _) => 3
    case HopTail(_) => 4
    case _ => if pc.PopRead? then 8 else if pc.PopClear? then 7 else if pc.PopReturn? then 6 else 5
  }

  function PoppingRank(m: Mem, pc: Pc): nat {
    match pc
    case PopCas(h) => if h == m.head then 15 else 18
    case PopLoadTurn(h) => if h == m.head then 16 else 19
    case _ => 17
  }

  /** A claim at the head that its `send` has not published yet. */
  predicate HeadUnfinished(s: Shard) {
    s.ring.m.head < |s.ring.m.pushed| && BeingWritten(s.ring, s.ring.m.head)
  }

  /** The worker's steps outside the ring, and those of `pop`. */
  lemma HopMoves(s: Shard)
    requires Shaped(s.ring.m) && WORKER in s.ring.pcs && Working(s) && !s.worker.Popping?
    ensures if s.worker.Process? then WorkerNext(s).processed == s.processed + [s.worker.task]
            else
              && WorkerNext(s).ring == s.ring && WorkerNext(s).processed == s.processed
              && Working(WorkerNext(s)) && Rank(WorkerNext(s)) < Rank(s)
  {
  }

  lemma TakenMoves(m: Mem, pc: Pc)
    requires Shaped(m) && PcInv(m, WORKER, pc) && Reading(pc)
    ensures var (m', pc') := PopStep(m, WORKER, pc);
            && (Reading(pc') || (pc'.PopDone? && pc'.got.Some?)) && WorkingRank(Popping, pc') < WorkingRank(Popping, pc)
  {
  }

  lemma WorkingMoves(s: Shard)
    requires SysInv(s) && Working(s)
    ensures if s.worker.Process? then WorkerNext(s).processed == s.processed + [s.worker.task]
            else
              && WORKER in WorkerNext(s).ring.pcs && WorkerNext(s).processed == s.processed
              && Working(WorkerNext(s)) && Rank(WorkerNext(s)) < Rank(s)
  {
    var m, pc := s.ring.m, s.ring.pcs[WORKER];
    assert PcInv(m, WORKER, pc) && Shaped(m);
    hide SysInv, PcInv;
    if !s.worker.Popping? {
      HopMoves(s);
    } else if Reading(pc) {
      TakenMoves(m, pc);
      var (m', pc') := PopStep(m, WORKER, pc);
      assert WorkerNext(s) == s.(ring := Ring(m', s.ring.pcs[WORKER := pc']));
      hide PopStep, WorkerNext;
    } else {
      assert WorkerNext(s) == s.(worker := HopTail(pc.got.value.1));
      hide WorkerNext;
    }
  }

  lemma PoppingMoves(s: Shard)
    requires SysInv(s) && !Working(s) && !HeadUnfinished(s) && s.worker.Popping? && !AtRest(s.ring.pcs[WORKER])
    ensures WORKER in WorkerNext(s).ring.pcs && WorkerNext(s).processed == s.processed && Rank(WorkerNext(s)) < Rank(s)
    ensures !Working(WorkerNext(s)) ==> !HeadUnfinished(WorkerNext(s))
  {
    var m, pc := s.ring.m, s.ring.pcs[WORKER];
    assert PcInv(m, WORKER, pc) && Bounded(m) && !PushPc(pc);
    HeadCell(s.ring);
    OnlyWorkerReads(s);
    if pc.PopLoadTurn? && pc.pos < m.head { TakenTurn(s.ring, pc.pos); }
    hide SysInv, Slot, BeingWritten;
    var (m', pc') := PopStep(m, WORKER, pc);
    assert WorkerNext(s) == s.(ring := Ring(m', s.ring.pcs[WORKER := pc']));
    assert m'.head == m.head ==> m' == m;
    StillUnfinished(s, pc');
  }

  lemma StillUnfinished(s: Shard, pc': Pc)
    requires SysInv(s) && !PushPc(pc')
    ensures HeadUnfinished(s.(ring := Ring(s.ring.m, s.ring.pcs[WORKER := pc']))) ==> HeadUnfinished(s)
  {
  }

  lemma OnlyWorkerReads(s: Shard)
    requires SysInv(s) && !Working(s) && s.worker.Popping?
    ensures forall p: nat :: p < s.ring.m.head ==> !BeingRead(s.ring, p)
  {
  }

  /** Outside the ring, without a task in hand. */
  lemma LookMoves(s: Shard)
    requires Shaped(s.ring.m) && WORKER in s.ring.pcs && s.ring.m.head <= s.ring.m.tail
    requires !Working(s) && !Asleep(s) && !s.worker.Start? && (s.worker.Popping? ==> AtRest(s.ring.pcs[WORKER]))
    requires s.worker.LookHead? ==> s.ring.m.head <= s.worker.tail <= s.ring.m.tail
    ensures var s' := WorkerNext(s);
            && s'.ring == s.ring && s'.processed == s.processed
            && !Working(s') && (Asleep(s') || Rank(s') < Rank(s))
  {
  }

  lemma StartMoves(s: Shard)
    requires Shaped(s.ring.m) && WORKER in s.ring.pcs && s.worker.Start? && AtRest(s.ring.pcs[WORKER])
    ensures var s' := WorkerNext(s);
            && s' == s.(ring := Ring(s.ring.m, s.ring.pcs[WORKER := PopLoadHead]), worker := Popping)
            && WORKER in s'.ring.pcs && !Working(s') && Rank(s') < Rank(s)
  {
  }

  lemma WaitingMoves(s: Shard)
    requires SysInv(s) && !Working(s) && !HeadUnfinished(s) && !Asleep(s)
    requires !(s.worker.Popping? && !AtRest(s.ring.pcs[WORKER]))
    ensures var s' := WorkerNext(s);
            && WORKER in s'.ring.pcs && s'.processed == s.processed
            && !Working(s') && !HeadUnfinished(s') && (Asleep(s') || Rank(s') < Rank(s))
  {
    assert Bounded(s.ring.m) && AtRest(s.ring.pcs[WORKER]);
    assert s.worker.LookHead? ==> s.ring.m.head <= s.worker.tail <= s.ring.m.tail;
    if s.worker.Start? {
      StillUnfinished(s, PopLoadHead);
      hide SysInv, Bounded;
      StartMoves(s);
      hide WorkerNext, Rank, Working, BeingWritten;
    } else {
      hide SysInv;
      LookMoves(s);
      hide WorkerNext, Rank, Working, BeingWritten;
    }
  }

  lemma RankIsSmall(s: Shard)
    requires WORKER in s.ring.pcs
    ensures Rank(s) < 50
  {
  }

  /** A worker that runs while the senders stand still processes a task or falls asleep within 50
      steps, unless the oldest claim waits for its own `send`. */
  lemma WorkerGetsOn(s: Shard) returns (n: nat)
    requires SysInv(s)
    ensures n <= 50
    ensures var s' := WorkerAlone(s, n);
            || |s'.processed| > |s.processed| || Asleep(s')
            || (WORKER in s'.ring.pcs && !Working(s') && HeadUnfinished(s'))
  {
    ShapeOf(s);
    hide *;
    RankIsSmall(s);
    n := GetsOn(s);
  }

  /** One step on the way. */
  lemma GetsOneOn(s: Shard)
    requires SysInv(s) && WORKER in s.ring.pcs && !Asleep(s) && (Working(s) || !HeadUnfinished(s))
    ensures var s' := WorkerNext(s);
            && SysInv(s') && WORKER in s'.ring.pcs && |s'.processed| >= |s.processed|
            && (|s'.processed| > |s.processed| || Asleep(s') || Rank(s') < Rank(s))
  {
    WorkerKeepsInv(s);
    ShapeOf(s);
    hide SysInv, WorkerNext, Rank, Working, HeadUnfinished;
    if Working(s) {
      WorkingMoves(s);
      ShapeOf(WorkerNext(s));
    } else if s.worker.Popping? && !AtRest(s.ring.pcs[WORKER]) {
      PoppingMoves(s);
    } else {
      WaitingMoves(s);
    }
  }

  lemma {:induction false} GetsOn(s: Shard) returns (n: nat)
    requires SysInv(s) && WORKER in s.ring.pcs
    ensures n <= Rank(s) + 1
    ensures var s' := WorkerAlone(s, n);
            || |s'.processed| > |s.processed| || Asleep(s')
            || (WORKER in s'.ring.pcs && !Working(s') && HeadUnfinished(s'))
    decreases Rank(s), 1
  {
    NoMoreSteps(s);
    if !Asleep(s) && (Working(s) || !HeadUnfinished(s)) {
      GetsOneOn(s);
      ShapeOf(s);
      n := GetsOnFrom(s, WorkerNext(s));
    } else {
      hide *;
      n := 0;
    }
  }

  lemma {:induction false} GetsOnFrom(s: Shard, s1: Shard) returns (n: nat)
    requires SysInv(s) && SysInv(s1) && WORKER in s.ring.pcs && WORKER in s1.ring.pcs
    requires Shaped(s.ring.m) && s1 == WorkerNext(s) && |s1.processed| >= |s.processed|
    requires |s1.processed| > |s.processed| || Asleep(s1) || Rank(s1) < Rank(s)
    ensures n <= Rank(s) + 1
    ensures var s' := WorkerAlone(s, n);
            || |s'.processed| > |s.processed| || Asleep(s')
            || (WORKER in s'.ring.pcs && !Working(s') && HeadUnfinished(s'))
    decreases Rank(s), 0
  {
    hide *;
    var more := 0;
    NoMoreSteps(s1);
    if |s1.processed| <= |s.processed| && !Asleep(s1) {
      more := GetsOn(s1);
    }
    OneMoreStep(s, more);
    n := more + 1;
  }

  lemma OneMoreStep(s: Shard, n: nat)
    requires SysInv(s) && Shaped(s.ring.m) && WORKER in s.ring.pcs && SysInv(WorkerNext(s))
    ensures WorkerAlone(s, n + 1) == WorkerAlone(WorkerNext(s), n)
  {
    hide SysInv, WorkerNext;
  }

  lemma NoMoreSteps(s: Shard)
    requires SysInv(s)
    ensures WorkerAlone(s, 0) == s
  {
  }
}
