/** The bounded multi-producer multi-consumer ring of websocket/task_ring.go.

    Every atomic load, store and compare-and-swap of `push` and `pop`, and the
    two plain accesses to a cell's task, is one step of a transition system with
    any number of threads. Three history variables are kept beside the shared
    memory and read by no step: who claimed each position with which task, who
    popped each position, and what each finished `pop` returned. */
module TaskRing {
  import opened Bytes

  type Tid = nat

  /** One ready connection (websocket/task_parse.go:27-34). */
  datatype Task = Task(conn: nat, isRead: bool, isWrite: bool, ts: int)

  datatype Cell = Cell(turn: nat, task: Option<Task>)

  /** The program counter of one thread, with the locals it holds. */
  datatype Pc =
    | Idle
    // push
    | PushLoadTail(task: Task)
    | PushLoadHead(task: Task, pos: nat)
    | PushLoadTurn(task: Task, pos: nat)
    | PushCas(task: Task, pos: nat)
    | PushWrite(task: Task, pos: nat)
    | PushPublish(task: Task, pos: nat)
    | PushDone(task: Task, claimed: Option<nat>)
    // pop
    | PopLoadHead
    | PopLoadTurn(pos: nat)
    | PopCas(pos: nat)
    | PopRead(pos: nat)
    | PopClear(pos: nat, task: Task)
    | PopReturn(pos: nat, task: Task)
    | PopDone(got: Option<(nat, Task)>)

  datatype Claim = Claim(who: Tid, task: Task)

  datatype Mem = Mem(
    size: nat,
    limit: nat,
    head: nat,
    tail: nat,
    cells: seq<Cell>,
    // history
    pushed: seq<Claim>,
    poppedBy: seq<Tid>,
    delivered: map<nat, Task>)

  datatype Ring = Ring(m: Mem, pcs: map<Tid, Pc>)

  /** One scheduled event: a thread calls `push` or `pop`, or takes its next atomic step. */
  datatype Action = CallPush(tid: Tid, task: Task) | CallPop(tid: Tid) | Run(tid: Tid)

  /** A position's cell. `SlotIsMask` shows that this is the `pos & mask` of the source. */
  function Slot(pos: nat, size: nat): (i: nat)
    requires size > 0
    ensures i < size
  {
    if pos < size then pos else Slot(pos - size, size)
  }

  predicate Shaped(m: Mem) {
    m.size > 0 && |m.cells| == m.size && |m.pushed| == m.tail && |m.poppedBy| == m.head
  }

  function At(m: Mem, pos: nat): Cell
    requires Shaped(m)
  {
    m.cells[Slot(pos, m.size)]
  }

  function Put(m: Mem, pos: nat, c: Cell): (m': Mem)
    requires Shaped(m)
    ensures Shaped(m')
  {
    m.(cells := m.cells[Slot(pos, m.size) := c])
  }

  /** The next atomic step of `push` (websocket/task_ring.go:71-99). */
  function PushStep(m: Mem, tid: Tid, pc: Pc): (r: (Mem, Pc))
    requires Shaped(m)
  {
    match pc
    case PushLoadTail(x) => (m, PushLoadHead(x, m.tail))
    case PushLoadHead(x, t) =>
      if m.head > t then (m, PushLoadTail(x))
      else if t - m.head >= m.limit then (m, PushDone(x, None))
      else (m, PushLoadTurn(x, t))
    case PushLoadTurn(x, t) =>
      if At(m, t).turn == t then (m, PushCas(x, t))
      else if At(m, t).turn < t then (m, PushDone(x, None))
      else (m, PushLoadTail(x))
    case PushCas(x, t) =>
      if m.tail != t then (m, PushLoadTail(x))
      else (m.(tail := t + 1, pushed := m.pushed + [Claim(tid, x)]), PushWrite(x, t))
    case PushWrite(x, t) => (Put(m, t, At(m, t).(task := Some(x))), PushPublish(x, t))
    case PushPublish(x, t) => (Put(m, t, At(m, t).(turn := t + 1)), PushDone(x, Some(t)))
    case _ => (m, pc)
  }

  /** The next atomic step of `pop` (websocket/task_ring.go:104-125). Reading an
      empty cell cannot happen; it is given the outcome "no task" here. */
  function PopStep(m: Mem, tid: Tid, pc: Pc): (r: (Mem, Pc))
    requires Shaped(m)
  {
    match pc
    case PopLoadHead => (m, PopLoadTurn(m.head))
    case PopLoadTurn(h) =>
      if At(m, h).turn == h + 1 then (m, PopCas(h))
      else if At(m, h).turn == h then (m, PopDone(None))
      else (m, PopLoadHead)
    case PopCas(h) =>
      if m.head != h then (m, PopLoadHead)
      else (m.(head := h + 1, poppedBy := m.poppedBy + [tid]), PopRead(h))
    case PopRead(h) =>
      if At(m, h).task.None? then (m, PopDone(None)) else (m, PopClear(h, At(m, h).task.value))
    case PopClear(h, x) => (Put(m, h, At(m, h).(task := None)), PopReturn(h, x))
    case PopReturn(h, x) =>
      (Put(m, h, At(m, h).(turn := h + m.size)).(delivered := m.delivered[h := x]), PopDone(Some((h, x))))
    case _ => (m, pc)
  }

  predicate AtRest(pc: Pc) {
    pc.Idle? || pc.PushDone? || pc.PopDone?
  }

  predicate PushPc(pc: Pc) {
    pc.PushLoadTail? || pc.PushLoadHead? || pc.PushLoadTurn? || pc.PushCas? || pc.PushWrite? || pc.PushPublish?
  }

  /** An action of a thread that is not there, or a call by a busy thread, changes nothing. */
  function Apply(s: Ring, a: Action): Ring
    requires Shaped(s.m)
  {
    if a.tid !in s.pcs then s
    else
      var pc := s.pcs[a.tid];
      match a
      case CallPush(tid, x) => if AtRest(pc) then s.(pcs := s.pcs[tid := PushLoadTail(x)]) else s
      case CallPop(tid) => if AtRest(pc) then s.(pcs := s.pcs[tid := PopLoadHead]) else s
      case Run(tid) =>
        var (m', pc') := if PushPc(pc) then PushStep(s.m, tid, pc) else PopStep(s.m, tid, pc);
        Ring(m', s.pcs[tid := pc'])
  }

  // ---- the invariant ------------------------------------------------------

  /** Position `p` is claimed and its claimant has not published it yet. */
  predicate BeingWritten(s: Ring, p: nat)
    requires p < |s.m.pushed|
  {
    var c := s.m.pushed[p];
    c.who in s.pcs && (s.pcs[c.who] == PushWrite(c.task, p) || s.pcs[c.who] == PushPublish(c.task, p))
  }

  /** Position `p` is taken and its popper has not handed the cell back yet. */
  predicate BeingRead(s: Ring, p: nat)
    requires p < |s.m.poppedBy|
  {
    var t := s.m.poppedBy[p];
    t in s.pcs && Reading(s.pcs[t]) && s.pcs[t].pos == p
  }

  predicate Reading(pc: Pc) {
    pc.PopRead? || pc.PopClear? || pc.PopReturn?
  }

  predicate Published(m: Mem, p: nat)
    requires Shaped(m) && p < m.tail
  {
    At(m, p) == Cell(p + 1, Some(m.pushed[p].task))
  }

  ghost predicate ClaimedCells(s: Ring)
    requires Shaped(s.m)
  {
    forall p: nat :: s.m.head <= p < s.m.tail ==>
      (At(s.m, p).turn == p && BeingWritten(s, p)) || Published(s.m, p)
  }

  ghost predicate FreeCells(s: Ring)
    requires Shaped(s.m)
  {
    forall p: nat :: s.m.tail <= p < s.m.head + s.m.size ==>
      || At(s.m, p).turn == p
      || (s.m.size <= p && At(s.m, p).turn == p - s.m.size + 1 && BeingRead(s, p - s.m.size))
  }

  /** What a thread in the middle of `push` or `pop` may rely on. */
  predicate PcInv(m: Mem, tid: Tid, pc: Pc)
    requires Shaped(m)
  {
    match pc
    case PushLoadHead(x, t) => t <= m.tail
    case PushLoadTurn(x, t) => t <= m.tail && t < m.head + m.limit
    case PushCas(x, t) => t <= m.tail && t < m.head + m.limit && (t == m.tail ==> At(m, t).turn == t)
    case PushWrite(x, t) => m.head <= t < m.tail && m.pushed[t] == Claim(tid, x) && At(m, t).turn == t
    case PushPublish(x, t) => m.head <= t < m.tail && m.pushed[t] == Claim(tid, x) && At(m, t) == Cell(t, Some(x))
    case PushDone(x, c) => c.Some? ==> c.value < m.tail && m.pushed[c.value] == Claim(tid, x)
    case PopLoadTurn(h) => h <= m.head
    case PopCas(h) => h <= m.head && (h == m.head ==> h < m.tail && At(m, h).turn == h + 1)
    case PopRead(h) => Holds(m, tid, h) && Published(m, h)
    case PopClear(h, x) => Holds(m, tid, h) && x == m.pushed[h].task
    case PopReturn(h, x) => Holds(m, tid, h) && x == m.pushed[h].task
    case PopDone(got) =>
      got.Some? ==> got.value.0 < m.head && m.poppedBy[got.value.0] == tid
                    && got.value.0 in m.delivered && m.delivered[got.value.0] == got.value.1
    case _ => true
  }

  /** Thread `tid` has taken position `h` and its cell is still on that lap. */
  predicate Holds(m: Mem, tid: Tid, h: nat)
    requires Shaped(m)
  {
    h < m.head && h < m.tail <= h + m.size && m.poppedBy[h] == tid && h !in m.delivered && At(m, h).turn == h + 1
  }

  ghost predicate Delivery(s: Ring)
    requires Shaped(s.m)
  {
    && (forall p :: p in s.m.delivered ==> p < s.m.head && p < s.m.tail && s.m.delivered[p] == s.m.pushed[p].task)
    && (forall p: nat :: p < s.m.head ==> p in s.m.delivered || BeingRead(s, p))
  }

  ghost predicate Threads(s: Ring)
    requires Shaped(s.m)
  {
    forall t :: t in s.pcs ==> PcInv(s.m, t, s.pcs[t])
  }

  predicate Bounded(m: Mem) {
    m.size >= 2 && 1 <= m.limit <= m.size && Shaped(m) && m.head <= m.tail <= m.head + m.limit
  }

  ghost predicate Inv(s: Ring) {
    Bounded(s.m) && ClaimedCells(s) && FreeCells(s) && Threads(s) && Delivery(s)
  }

  // ---- cells --------------------------------------------------------------

  /** Positions less than a lap apart use different cells. */
  lemma {:induction false} SlotsDiffer(a: nat, b: nat, size: nat)
    requires a < b < a + size
    ensures Slot(a, size) != Slot(b, size)
  {
    if a >= size {
      SlotsDiffer(a - size, b - size, size);
    } else if b >= size {
      assert Slot(b, size) == b - size;
    }
  }

  lemma SlotsDifferAll(size: nat)
    requires size > 0
    ensures forall a: nat, b: nat {:trigger Slot(a, size), Slot(b, size)} :: a < b < a + size ==>
              Slot(a, size) != Slot(b, size)
  {
    forall a: nat, b: nat {:trigger Slot(a, size), Slot(b, size)} | a < b < a + size
      ensures Slot(a, size) != Slot(b, size)
    {
      SlotsDiffer(a, b, size);
    }
  }

  // ---- one step keeps the invariant ---------------------------------------

  predicate OwnsNothing(pc: Pc) {
    !(pc.PushWrite? || pc.PushPublish? || Reading(pc))
  }

  /** A step that touches only a program counter outside the critical sections. */
  lemma MoveKeepsInv(s: Ring, tid: Tid, pc': Pc)
    requires Inv(s) && tid in s.pcs && OwnsNothing(s.pcs[tid]) && PcInv(s.m, tid, pc')
    ensures Inv(s.(pcs := s.pcs[tid := pc']))
  {
    var s' := s.(pcs := s.pcs[tid := pc']);
    assert forall p: nat | p < s.m.tail :: BeingWritten(s, p) ==> BeingWritten(s', p);
    assert forall p: nat | p < s.m.head :: BeingRead(s, p) ==> BeingRead(s', p);
  }

  function Next(s: Ring, tid: Tid): Ring
    requires Shaped(s.m) && tid in s.pcs
  {
    Apply(s, Run(tid))
  }

  // -- a claim or a take moves one counter and no cell --

  lemma OwnersKept(s: Ring, s': Ring, tid: Tid)
    requires Shaped(s.m) && Shaped(s'.m) && s.m.pushed <= s'.m.pushed && s.m.poppedBy <= s'.m.poppedBy
    requires tid in s.pcs && tid in s'.pcs && s'.pcs == s.pcs[tid := s'.pcs[tid]]
    ensures forall p: nat | p < s.m.tail && BeingWritten(s, p) :: s.m.pushed[p].who != tid || OwnsNothing(s.pcs[tid])
              ==> BeingWritten(s', p)
    ensures forall p: nat | p < s.m.head && BeingRead(s, p) :: s.m.poppedBy[p] != tid || OwnsNothing(s.pcs[tid]) ==>
              BeingRead(s', p)
  {
  }

  lemma ClaimKeepsOthers(m: Mem, m': Mem, tid: Tid, t: Tid, pc: Pc)
    requires Bounded(m) && PcInv(m, t, pc)
    requires m.tail < m.head + m.limit && At(m, m.tail).turn == m.tail
    requires exists x :: m' == m.(tail := m.tail + 1, pushed := m.pushed + [Claim(tid, x)])
    ensures PcInv(m', t, pc)
  {
    SlotsDifferAll(m.size);
  }

  lemma ClaimKeepsCells(s: Ring, s': Ring, tid: Tid)
    requires Bounded(s.m) && ClaimedCells(s) && FreeCells(s) && tid in s.pcs
    requires s.pcs[tid].PushCas? && s.pcs[tid].pos == s.m.tail && PcInv(s.m, tid, s.pcs[tid]) && s' == Next(s, tid)
    ensures ClaimedCells(s') && FreeCells(s')
  {
    OwnersKept(s, s', tid);
    assert BeingWritten(s', s.m.tail) && At(s'.m, s.m.tail).turn == s.m.tail;
    forall p: nat | s'.m.head <= p < s'.m.tail
      ensures (At(s'.m, p).turn == p && BeingWritten(s', p)) || Published(s'.m, p)
    {
      assert At(s'.m, p) == At(s.m, p);
    }
    forall p: nat | s'.m.tail <= p < s'.m.head + s'.m.size
      ensures At(s'.m, p).turn == p
                || (s.m.size <= p && At(s'.m, p).turn == p - s.m.size + 1 && BeingRead(s', p - s.m.size))
    {
      assert At(s'.m, p) == At(s.m, p);
    }
  }

  lemma ClaimKeepsInv(s: Ring, tid: Tid)
    requires Inv(s) && tid in s.pcs && s.pcs[tid].PushCas? && s.pcs[tid].pos == s.m.tail
    ensures Inv(Next(s, tid))
  {
    var s' := Next(s, tid);
    assert PcInv(s.m, tid, s.pcs[tid]);
    ClaimKeepsCells(s, s', tid);
    OwnersKept(s, s', tid);
    forall t | t in s'.pcs ensures PcInv(s'.m, t, s'.pcs[t]) {
      ClaimKeepsOthers(s.m, s'.m, tid, t, s.pcs[t]);
    }
  }

  lemma TakeKeepsOthers(m: Mem, m': Mem, tid: Tid, t: Tid, pc: Pc)
    requires Bounded(m) && m.head < m.tail && PcInv(m, t, pc) && At(m, m.head).turn == m.head + 1
    requires m' == m.(head := m.head + 1, poppedBy := m.poppedBy + [tid])
    ensures PcInv(m', t, pc)
  {
    SlotsDifferAll(m.size);
  }

  lemma TakeKeepsCells(s: Ring, s': Ring, tid: Tid)
    requires Bounded(s.m) && ClaimedCells(s) && FreeCells(s) && tid in s.pcs
    requires s.pcs[tid].PopCas? && s.pcs[tid].pos == s.m.head && PcInv(s.m, tid, s.pcs[tid]) && s' == Next(s, tid)
    ensures ClaimedCells(s') && FreeCells(s')
  {
    OwnersKept(s, s', tid);
    assert BeingRead(s', s.m.head);
    assert Slot(s.m.head + s.m.size, s.m.size) == Slot(s.m.head, s.m.size);
    forall p: nat | s'.m.head <= p < s'.m.tail
      ensures (At(s'.m, p).turn == p && BeingWritten(s', p)) || Published(s'.m, p)
    {
      assert At(s'.m, p) == At(s.m, p);
    }
    forall p: nat | s'.m.tail <= p < s'.m.head + s'.m.size
      ensures At(s'.m, p).turn == p
                || (s.m.size <= p && At(s'.m, p).turn == p - s.m.size + 1 && BeingRead(s', p - s.m.size))
    {
      assert At(s'.m, p) == At(s.m, p);
    }
  }

  lemma TakeKeepsInv(s: Ring, tid: Tid)
    requires Inv(s) && tid in s.pcs && s.pcs[tid].PopCas? && s.pcs[tid].pos == s.m.head
    ensures Inv(Next(s, tid))
  {
    var s' := Next(s, tid);
    assert PcInv(s.m, tid, s.pcs[tid]);
    TakeKeepsCells(s, s', tid);
    OwnersKept(s, s', tid);
    forall t | t in s'.pcs ensures PcInv(s'.m, t, s'.pcs[t]) {
      TakeKeepsOthers(s.m, s'.m, tid, t, s.pcs[t]);
    }
    assert BeingRead(s', s.m.head);
  }

  // -- the other owning steps move no counter and change one cell --

  /** Only position `pos`'s cell changes, by the thread that owns it. */
  predicate OneCell(m: Mem, m': Mem, pos: nat) {
    && Shaped(m) && Shaped(m') && pos < m.tail <= pos + m.size
    && m' == m.(cells := m'.cells, delivered := m'.delivered)
    && m'.cells == m.cells[Slot(pos, m.size) := At(m', pos)]
    && (m'.delivered == m.delivered || (pos < m.head && m'.delivered == m.delivered[pos := m.pushed[pos].task]))
  }

  predicate Owner(m: Mem, tid: Tid, pc: Pc, pos: nat)
    requires Shaped(m)
  {
    && PcInv(m, tid, pc)
    && (pc.PushWrite? || pc.PushPublish? || Reading(pc)) && pc.pos == pos
  }

  lemma OneCellKeepsOthers(m: Mem, m': Mem, tid: Tid, own: Pc, t: Tid, pc: Pc, pos: nat)
    requires Bounded(m) && OneCell(m, m', pos) && Owner(m, tid, own, pos)
    requires PcInv(m, t, pc) && t != tid
    ensures PcInv(m', t, pc)
  {
    SlotsDifferAll(m.size);
    assert Slot(pos + m.size, m.size) == Slot(pos, m.size);
  }

  lemma OneCellKeepsCells(s: Ring, s': Ring, tid: Tid, pos: nat)
    requires Bounded(s.m) && OneCell(s.m, s'.m, pos) && tid in s.pcs && Owner(s.m, tid, s.pcs[tid], pos)
    requires tid in s'.pcs && s'.pcs == s.pcs[tid := s'.pcs[tid]]
    requires ClaimedCells(s) && FreeCells(s)
    ensures forall p: nat | s.m.head <= p < s.m.tail && p != pos ::
              (At(s'.m, p).turn == p && BeingWritten(s', p)) || Published(s'.m, p)
    ensures forall p: nat | s.m.tail <= p < s.m.head + s.m.size && p != pos + s.m.size ::
              At(s'.m, p).turn == p || (s.m.size <= p && At(s'.m, p).turn == p - s.m.size + 1
                  && BeingRead(s', p - s.m.size))
  {
    SlotsDifferAll(s.m.size);
    OwnersKept(s, s', tid);
    assert Slot(pos + s.m.size, s.m.size) == Slot(pos, s.m.size);
    forall p: nat | s.m.head <= p < s.m.tail && p != pos
      ensures (At(s'.m, p).turn == p && BeingWritten(s', p)) || Published(s'.m, p)
    {
      assert At(s'.m, p) == At(s.m, p);
      if p < pos { assert pos < p + s.m.size; }
    }
    forall p: nat | s.m.tail <= p < s.m.head + s.m.size && p != pos + s.m.size
      ensures At(s'.m, p).turn == p
                || (s.m.size <= p && At(s'.m, p).turn == p - s.m.size + 1 && BeingRead(s', p - s.m.size))
    {
      assert p < pos + s.m.size || pos < s.m.head;
      assert At(s'.m, p) == At(s.m, p);
    }
  }

  /** What the owning steps leave in their own cell. */
  predicate OwnCell(s: Ring, s': Ring, pos: nat)
    requires Shaped(s.m) && Shaped(s'.m) && pos < s.m.tail == s'.m.tail && s.m.head == s'.m.head
  {
    if s.m.head <= pos then
      s'.m.delivered == s.m.delivered && ((At(s'.m, pos).turn == pos && BeingWritten(s', pos)) || Published(s'.m, pos))
    else
      || (At(s'.m, pos).turn == pos + 1 && BeingRead(s', pos) && s'.m.delivered == s.m.delivered)
      || (At(s'.m, pos).turn == pos + s.m.size && s'.m.delivered == s.m.delivered[pos := s.m.pushed[pos].task])
  }

  lemma OneCellKeepsRing(s: Ring, s': Ring, tid: Tid, pos: nat)
    requires Bounded(s.m) && ClaimedCells(s) && FreeCells(s) && OneCell(s.m, s'.m, pos)
    requires tid in s.pcs && tid in s'.pcs && s'.pcs == s.pcs[tid := s'.pcs[tid]]
    requires Owner(s.m, tid, s.pcs[tid], pos) && OwnCell(s, s', pos)
    ensures ClaimedCells(s') && FreeCells(s')
  {
    OneCellKeepsCells(s, s', tid, pos);
    assert Slot(pos + s.m.size, s.m.size) == Slot(pos, s.m.size);
    assert At(s'.m, pos + s.m.size) == At(s'.m, pos);
  }

  lemma OneCellKeepsDelivery(s: Ring, s': Ring, tid: Tid, pos: nat)
    requires Bounded(s.m) && Delivery(s) && OneCell(s.m, s'.m, pos)
    requires tid in s.pcs && tid in s'.pcs && s'.pcs == s.pcs[tid := s'.pcs[tid]]
    requires Owner(s.m, tid, s.pcs[tid], pos) && OwnCell(s, s', pos)
    ensures Delivery(s')
  {
    OwnersKept(s, s', tid);
  }

  /** Write, publish, read, clear and hand back: the owner's own obligations remain. */
  lemma OneCellKeepsInv(s: Ring, s': Ring, tid: Tid, pos: nat)
    requires Inv(s) && tid in s.pcs && tid in s'.pcs && s'.pcs == s.pcs[tid := s'.pcs[tid]]
    requires OneCell(s.m, s'.m, pos) && Owner(s.m, tid, s.pcs[tid], pos) && PcInv(s'.m, tid, s'.pcs[tid])
    requires OwnCell(s, s', pos)
    ensures Inv(s')
  {
    OneCellKeepsRing(s, s', tid, pos);
    OneCellKeepsDelivery(s, s', tid, pos);
    forall t | t in s'.pcs ensures PcInv(s'.m, t, s'.pcs[t]) {
      if t != tid { OneCellKeepsOthers(s.m, s'.m, tid, s.pcs[tid], t, s.pcs[t], pos); }
    }
  }

  lemma WriteKeepsInv(s: Ring, tid: Tid)
    requires Inv(s) && tid in s.pcs && (s.pcs[tid].PushWrite? || s.pcs[tid].PushPublish?)
    ensures Inv(Next(s, tid))
  {
    assert PcInv(s.m, tid, s.pcs[tid]);
    OneCellKeepsInv(s, Next(s, tid), tid, s.pcs[tid].pos);
  }

  lemma ReadKeepsInv(s: Ring, tid: Tid)
    requires Inv(s) && tid in s.pcs && Reading(s.pcs[tid])
    ensures Inv(Next(s, tid))
  {
    assert PcInv(s.m, tid, s.pcs[tid]);
    OneCellKeepsInv(s, Next(s, tid), tid, s.pcs[tid].pos);
  }

  /** The loads, the failed swaps and the returns leave the memory alone. */
  lemma QuietStep(s: Ring, m: Mem, tid: Tid, pc: Pc)
    requires m == s.m && Bounded(m) && FreeCells(s) && PcInv(m, tid, pc) && OwnsNothing(pc)
    requires !(pc.PushCas? && pc.pos == m.tail) && !(pc.PopCas? && pc.pos == m.head)
    ensures var (m', pc') := if PushPc(pc) then PushStep(m, tid, pc) else PopStep(m, tid, pc);
            m' == m && PcInv(m, tid, pc')
  {
  }

  /** Every action of every thread keeps the invariant. */
  lemma ApplyKeepsInv(s: Ring, a: Action)
    requires Inv(s)
    ensures Inv(Apply(s, a))
  {
    if a.tid in s.pcs {
      var pc := s.pcs[a.tid];
      assert PcInv(s.m, a.tid, pc);
      if !a.Run? {
        if AtRest(pc) {
          MoveKeepsInv(s, a.tid, if a.CallPush? then PushLoadTail(a.task) else PopLoadHead);
        }
      } else if pc.PushCas? && pc.pos == s.m.tail {
        ClaimKeepsInv(s, a.tid);
      } else if pc.PopCas? && pc.pos == s.m.head {
        TakeKeepsInv(s, a.tid);
      } else if pc.PushWrite? || pc.PushPublish? {
        WriteKeepsInv(s, a.tid);
      } else if Reading(pc) {
        ReadKeepsInv(s, a.tid);
      } else {
        QuietStep(s, s.m, a.tid, pc);
        MoveKeepsInv(s, a.tid, Next(s, a.tid).pcs[a.tid]);
      }
    }
  }

  // ---- creation -----------------------------------------------------------

  /** Bitwise and of two naturals. */
  function And(a: nat, b: nat): nat {
    if a == 0 || b == 0 then 0 else 2 * And(a / 2, b / 2) + (if a % 2 == 1 && b % 2 == 1 then 1 else 0)
  }

  lemma {:induction false} SlotOfHalf(pos: nat, n: nat)
    requires n > 0
    ensures Slot(pos, 2 * n) == 2 * Slot(pos / 2, n) + pos % 2
  {
    if pos >= 2 * n {
      SlotOfHalf(pos - 2 * n, n);
      assert (pos - 2 * n) / 2 == pos / 2 - n && (pos - 2 * n) % 2 == pos % 2;
    }
  }

  /** For a ring of 2^k cells the slot of a position is `pos & (size - 1)`. */
  lemma {:induction false} SlotIsMask(pos: nat, k: nat)
    ensures Slot(pos, Pow2(k)) == And(pos, Pow2(k) - 1)
  {
    if k == 0 {
      SlotOfOne(pos);
    } else {
      var n := Pow2(k - 1);
      SlotIsMask(pos / 2, k - 1);
      SlotOfHalf(pos, n);
      assert (2 * n - 1) / 2 == n - 1 && (2 * n - 1) % 2 == 1;
      assert And(0, n - 1) == 0;
    }
  }

  lemma {:induction false} SlotOfOne(pos: nat)
    ensures Slot(pos, 1) == 0
  {
    if pos > 0 { SlotOfOne(pos - 1); }
  }

  /** `newTaskRing`: at least two cells, a power of two, and room for `limit` tasks. */
  method NewTaskRing(limit: int, threads: set<Tid>) returns (s: Ring, ghost k: nat)
    ensures Inv(s) && s.m.size == Pow2(k) && k >= 1
    ensures s.m.limit == (if limit < 1 then 1 else limit)
    ensures s.m.size > 2 ==> s.m.size < 2 * s.m.limit
    ensures s.m.head == s.m.tail == 0 && s.m.delivered == map[]
    ensures s.pcs == map t | t in threads :: Idle
  {
    var lim := if limit < 1 then 1 else limit;
    var size: nat := 2;
    k := 1;
    assert Pow2(1) == 2 * Pow2(0);
    while size < lim
      invariant size == Pow2(k) && k >= 1 && (size > 2 ==> size < 2 * lim)
      decreases lim - size
    {
      size := size * 2;
      k := k + 1;
    }
    var cells := seq(size, i requires 0 <= i < size => Cell(i, None));
    s := Ring(Mem(size, lim, 0, 0, cells, [], [], map[]), map t | t in threads :: Idle);
    assert forall p: nat | p < size :: Slot(p, size) == p;
  }

  // ---- the ring is a bounded FIFO, linearised at the two compare-and-swaps ----

  /** What an action does to the abstract queue. */
  datatype Effect = Silent | Enqueued(task: Task) | Dequeued(task: Task)

  /** One step of the specification: a FIFO of at most `limit` tasks. */
  predicate FifoStep(q: seq<Task>, e: Effect, q': seq<Task>, limit: nat) {
    match e
    case Silent => q' == q
    case Enqueued(x) => |q| < limit && q' == q + [x]
    case Dequeued(x) => q == [x] + q'
  }

  ghost predicate FifoRun(q: seq<Task>, es: seq<Effect>, q': seq<Task>, limit: nat)
    decreases |es|
  {
    if es == [] then q' == q
    else exists mid :: FifoStep(q, es[0], mid, limit) && FifoRun(mid, es[1..], q', limit)
  }

  function Tasks(cs: seq<Claim>): (ts: seq<Task>)
    ensures |ts| == |cs| && forall i :: 0 <= i < |cs| ==> ts[i] == cs[i].task
  {
    seq(|cs|, i requires 0 <= i < |cs| => cs[i].task)
  }

  function Queue(s: Ring): seq<Task>
    requires Bounded(s.m)
  {
    Tasks(s.m.pushed[s.m.head..])
  }

  function RunEffect(m: Mem, pc: Pc): Effect
    requires Bounded(m)
  {
    if pc.PushCas? && pc.pos == m.tail then Enqueued(pc.task)
    else if pc.PopCas? && pc.pos == m.head && m.head < m.tail then Dequeued(m.pushed[m.head].task)
    else Silent
  }

  function EffectOf(s: Ring, a: Action): Effect
    requires Bounded(s.m)
  {
    if !a.Run? || a.tid !in s.pcs then Silent else RunEffect(s.m, s.pcs[a.tid])
  }

  /** How an action moves the counters and the claims. */
  ghost predicate Moved(m: Mem, e: Effect, m': Mem)
    requires Bounded(m) && Bounded(m')
  {
    && m'.limit == m.limit && m'.size == m.size
    && match e
       case Silent => m'.head == m.head && m'.pushed == m.pushed
       case Enqueued(x) =>
         m'.head == m.head && m.tail < m.head + m.limit && exists t :: m'.pushed == m.pushed + [Claim(t, x)]
       case Dequeued(x) =>
         m.head < m.tail && m'.head == m.head + 1 && m'.pushed == m.pushed && x == m.pushed[m.head].task
  }

  lemma RunMoves(m: Mem, tid: Tid, pc: Pc, m': Mem, e: Effect)
    requires Bounded(m) && PcInv(m, tid, pc) && Bounded(m')
    requires m' == (if PushPc(pc) then PushStep(m, tid, pc) else PopStep(m, tid, pc)).0
    requires e == RunEffect(m, pc)
    ensures Moved(m, e, m')
  {
    if pc.PushCas? && pc.pos == m.tail {
      assert m'.pushed == m.pushed + [Claim(tid, pc.task)];
    }
  }

  lemma StepMoves(s: Ring, a: Action)
    requires Inv(s)
    ensures Inv(Apply(s, a)) && Apply(s, a).pcs.Keys == s.pcs.Keys
    ensures Moved(s.m, EffectOf(s, a), Apply(s, a).m)
  {
    ApplyKeepsInv(s, a);
    if a.tid in s.pcs && a.Run? {
      RunMoves(s.m, a.tid, s.pcs[a.tid], Apply(s, a).m, EffectOf(s, a));
    }
  }

  lemma MovedIsFifo(m: Mem, e: Effect, m': Mem)
    requires Bounded(m) && Bounded(m') && Moved(m, e, m')
    ensures FifoStep(Tasks(m.pushed[m.head..]), e, Tasks(m'.pushed[m'.head..]), m.limit)
  {
    match e
    case Silent =>
    case Enqueued(x) =>
      var t :| m'.pushed == m.pushed + [Claim(t, x)];
      assert m'.pushed[m'.head..] == m.pushed[m.head..] + [Claim(t, x)];
    case Dequeued(x) =>
      assert m.pushed[m.head..] == [m.pushed[m.head]] + m'.pushed[m'.head..];
  }

  lemma MovedIsLogged(m: Mem, e: Effect, m': Mem)
    requires Bounded(m) && Bounded(m') && Moved(m, e, m')
    ensures Tasks(m'.pushed) == Tasks(m.pushed) + (if e.Enqueued? then [e.task] else [])
    ensures Tasks(m'.pushed[..m'.head]) == Tasks(m.pushed[..m.head]) + (if e.Dequeued? then [e.task] else [])
  {
    match e
    case Silent =>
    case Enqueued(x) =>
      var t :| m'.pushed == m.pushed + [Claim(t, x)];
      assert m'.pushed[..m'.head] == m.pushed[..m.head];
    case Dequeued(x) =>
      assert m'.pushed[..m'.head] == m.pushed[..m.head] + [m.pushed[m.head]];
  }

  /** Every atomic step of every thread is one step of the FIFO. */
  lemma StepRefinesFifo(s: Ring, a: Action)
    requires Inv(s)
    ensures Inv(Apply(s, a)) && Apply(s, a).m.limit == s.m.limit && Apply(s, a).pcs.Keys == s.pcs.Keys
    ensures FifoStep(Queue(s), EffectOf(s, a), Queue(Apply(s, a)), s.m.limit)
  {
    StepMoves(s, a);
    MovedIsFifo(s.m, EffectOf(s, a), Apply(s, a).m);
  }

  ghost function Exec(s: Ring, run: seq<Action>): (s': Ring)
    requires Inv(s)
    ensures Inv(s') && s'.m.limit == s.m.limit && s'.pcs.Keys == s.pcs.Keys
    decreases |run|
  {
    if run == [] then s
    else
      StepRefinesFifo(s, run[0]);
      Exec(Apply(s, run[0]), run[1..])
  }

  ghost function Trace(s: Ring, run: seq<Action>): (es: seq<Effect>)
    requires Inv(s)
    ensures |es| == |run|
    decreases |run|
  {
    if run == [] then []
    else
      ApplyKeepsInv(s, run[0]);
      [EffectOf(s, run[0])] + Trace(Apply(s, run[0]), run[1..])
  }

  /** Every interleaving of any number of pushes and pops refines the bounded FIFO. */
  lemma {:induction false} RunRefinesFifo(s: Ring, run: seq<Action>)
    requires Inv(s)
    ensures FifoRun(Queue(s), Trace(s, run), Queue(Exec(s, run)), s.m.limit)
    decreases |run|
  {
    if run != [] {
      StepRefinesFifo(s, run[0]);
      var s' := Apply(s, run[0]);
      RunRefinesFifo(s', run[1..]);
      assert Trace(s, run)[1..] == Trace(s', run[1..]);
      assert FifoStep(Queue(s), Trace(s, run)[0], Queue(s'), s.m.limit);
    }
  }

  function Enqueues(es: seq<Effect>): seq<Task> {
    if es == [] then [] else (if es[0].Enqueued? then [es[0].task] else []) + Enqueues(es[1..])
  }

  function Dequeues(es: seq<Effect>): seq<Task> {
    if es == [] then [] else (if es[0].Dequeued? then [es[0].task] else []) + Dequeues(es[1..])
  }

  /** The tasks claimed so far, and those of them already taken, in position order. */
  function Claimed(s: Ring): seq<Task> { Tasks(s.m.pushed) }

  function Taken(s: Ring): seq<Task>
    requires s.m.head <= |s.m.pushed|
  {
    Tasks(s.m.pushed[..s.m.head])
  }

  lemma StepHistory(s: Ring, a: Action)
    requires Inv(s)
    ensures Inv(Apply(s, a))
    ensures Claimed(Apply(s, a)) == Claimed(s) + Enqueues([EffectOf(s, a)])
    ensures Taken(Apply(s, a)) == Taken(s) + Dequeues([EffectOf(s, a)])
  {
    StepMoves(s, a);
    MovedIsLogged(s.m, EffectOf(s, a), Apply(s, a).m);
  }

  lemma EffectsSplit(e: Effect, es: seq<Effect>)
    ensures Enqueues([e] + es) == Enqueues([e]) + Enqueues(es)
    ensures Dequeues([e] + es) == Dequeues([e]) + Dequeues(es)
  {
    assert ([e] + es)[1..] == es && [e][1..] == [];
  }

  /** The history variables record exactly the trace. */
  lemma {:induction false} HistoryIsTrace(s: Ring, run: seq<Action>)
    requires Inv(s)
    ensures Claimed(Exec(s, run)) == Claimed(s) + Enqueues(Trace(s, run))
    ensures Taken(Exec(s, run)) == Taken(s) + Dequeues(Trace(s, run))
    decreases |run|
  {
    if run == [] {
      assert Claimed(s) + [] == Claimed(s) && Taken(s) + [] == Taken(s);
    } else {
      StepHistory(s, run[0]);
      var e, es := EffectOf(s, run[0]), Trace(Apply(s, run[0]), run[1..]);
      HistoryIsTrace(Apply(s, run[0]), run[1..]);
      EffectsSplit(e, es);
      Assoc(Claimed(s), Enqueues([e]), Enqueues(es));
      Assoc(Taken(s), Dequeues([e]), Dequeues(es));
    }
  }

  /** What a returned call knows, over a log of enqueued and a log of dequeued tasks. */
  predicate Agrees(pc: Pc, enqueued: seq<Task>, dequeued: seq<Task>) {
    match pc
    case PushDone(x, Some(t)) => t < |enqueued| && enqueued[t] == x
    case PopDone(Some(got)) => got.0 < |dequeued| && dequeued[got.0] == got.1
    case _ => true
  }

  lemma ReturnedAgrees(s: Ring, tid: Tid)
    requires Inv(s) && tid in s.pcs
    ensures Agrees(s.pcs[tid], Claimed(s), Taken(s)) && Taken(s) <= Claimed(s)
  {
    assert PcInv(s.m, tid, s.pcs[tid]);
  }

  /** A ring nobody has used yet. */
  ghost predicate Fresh(s: Ring) {
    Inv(s) && s.m.head == 0 && s.m.tail == 0 && s.m.delivered == map[]
  }

  lemma FreshHistory(s: Ring, run: seq<Action>)
    requires Fresh(s)
    ensures Enqueues(Trace(s, run)) == Claimed(Exec(s, run))
    ensures Dequeues(Trace(s, run)) == Taken(Exec(s, run))
  {
    HistoryIsTrace(s, run);
    assert Claimed(s) == [] && Taken(s) == [];
  }

  /** Calls that have returned agree with the FIFO: the `t`-th claim enqueued what its
      `push` was given, and a `pop` that took position `h` returned the `h`-th task
      dequeued, which is the `h`-th task enqueued. */
  lemma ReturnsMatchFifo(s: Ring, run: seq<Action>, tid: Tid)
    requires Fresh(s) && tid in s.pcs
    ensures Dequeues(Trace(s, run)) <= Enqueues(Trace(s, run))
    ensures Agrees(Exec(s, run).pcs[tid], Enqueues(Trace(s, run)), Dequeues(Trace(s, run)))
  {
    FreshHistory(s, run);
    ReturnedAgrees(Exec(s, run), tid);
  }

  /** A finished `pop` delivers its position for the first time: no action ever
      overwrites or drops a delivery. */
  lemma DeliveredOnce(s: Ring, a: Action)
    requires Inv(s)
    ensures var d, d' := s.m.delivered, Apply(s, a).m.delivered;
            || d' == d
            || exists h, x :: h !in d && d' == d[h := x] && a.tid in s.pcs
                 && Apply(s, a).pcs[a.tid] == PopDone(Some((h, x)))
  {
    if a.tid in s.pcs {
      var pc := s.pcs[a.tid];
      assert PcInv(s.m, a.tid, pc);
      if a.Run? && pc.PopReturn? {
        assert Apply(s, a).pcs[a.tid] == PopDone(Some((pc.pos, pc.task)));
      }
    }
  }

  /** Nothing is lost, duplicated or overwritten before it is read: once every call has
      returned, the positions below `head` were each delivered with the task enqueued
      there, and each position from `head` to `tail` holds its task for the next pop. */
  lemma NothingLost(s: Ring, run: seq<Action>)
    requires Fresh(s)
    ensures var m, pcs, sent := Exec(s, run).m, Exec(s, run).pcs, Enqueues(Trace(s, run));
            (forall t :: t in pcs ==> AtRest(pcs[t])) ==>
              && |sent| == m.tail
              && (forall p: nat :: p in m.delivered <==> p < m.head)
              && (forall p: nat :: p < m.head ==> m.delivered[p] == sent[p])
              && (forall p: nat :: m.head <= p < m.tail ==> At(m, p) == Cell(p + 1, Some(sent[p])))
  {
    FreshHistory(s, run);
  }

  /** A position's cell, found again in the lap that starts at `lo`. */
  lemma {:induction false} SameCellLater(pos: nat, lo: nat, size: nat) returns (p: nat)
    requires size > 0 && pos < lo
    ensures lo <= p < lo + size && pos + size <= p && Slot(p, size) == Slot(pos, size)
    decreases lo - pos
  {
    assert Slot(pos + size, size) == Slot(pos, size);
    if pos + size < lo { p := SameCellLater(pos + size, lo, size); } else { p := pos + size; }
  }

  lemma TakenTurn(s: Ring, pos: nat)
    requires Inv(s) && pos < s.m.head
    ensures At(s.m, pos).turn > pos
  {
    var p := SameCellLater(pos, s.m.head, s.m.size);
    assert At(s.m, p) == At(s.m, pos);
  }

  /** `pop` answers "nothing" only at an instant when the oldest position is
      unpublished: the ring is empty, or the claimant of `head` is still writing. */
  lemma EmptyAnswer(s: Ring, tid: Tid)
    requires Inv(s) && tid in s.pcs && s.pcs[tid].PopLoadTurn?
    requires Next(s, tid).pcs[tid] == PopDone(None)
    ensures s.pcs[tid].pos == s.m.head
    ensures s.m.head == s.m.tail || BeingWritten(s, s.m.head)
  {
    assert PcInv(s.m, tid, s.pcs[tid]);
    var h := s.pcs[tid].pos;
    if h < s.m.head { TakenTurn(s, h); }
  }

  /** `push` answers "full" only at an instant when the queue holds `limit` tasks, or when
      the popper of the position one lap earlier has not handed its cell back. */
  lemma FullAnswer(s: Ring, tid: Tid)
    requires Inv(s) && tid in s.pcs && (s.pcs[tid].PushLoadHead? || s.pcs[tid].PushLoadTurn?)
    requires Next(s, tid).pcs[tid].PushDone?
    ensures |Queue(s)| == s.m.limit
              || (s.m.size <= s.m.tail && s.m.tail - s.m.size < s.m.head && BeingRead(s, s.m.tail - s.m.size))
  {
    assert PcInv(s.m, tid, s.pcs[tid]);
    var t := s.pcs[tid].pos;
    if s.pcs[tid].PushLoadTurn? {
      if t < s.m.head { TakenTurn(s, t); }
      assert t == s.m.tail;
    }
  }
}
