/** The process table and the scheduler: slots, states and the running process. */
module ProcTable {

  datatype State = Unused | Runnable | Running | Waiting | Zombie

  /** What a PCB says about the address space; frame 0 stands for a null pointer. */
  datatype Space = Space(pageTable: int, heapEnd: int, userStackTop: int, image: int, imagePages: int)

  const NO_SPACE := Space(0, 0, 0, 0, 0)
  const NOBODY := -1

  /** A process control block; parent is the slot the parent pointer refers to, or NOBODY. */
  datatype Pcb = Pcb(pid: int, state: State, parent: int, exitCode: int, space: Space)

  const EMPTY_PCB := Pcb(0, Unused, NOBODY, 0, NO_SPACE)

  /** The scheduling state. Slot 0 is the idle process. */
  datatype Table = Table(procs: seq<Pcb>, current: int, count: int)

  const IDLE := 0

  // ---------------------------------------------------------------- invariant

  function Used(procs: seq<Pcb>): nat {
    if procs == [] then 0 else Used(procs[..|procs| - 1]) + (if procs[|procs| - 1].state == Unused then 0 else 1)
  }

  lemma UsedUpdate(procs: seq<Pcb>, i: int, p: Pcb)
    requires 0 <= i < |procs|
    ensures Used(procs[i := p]) == Used(procs) - (if procs[i].state == Unused then 0 else 1) + (if p.state == Unused then 0 else 1)
  {
    var n := |procs| - 1;
    if i == n {
      assert procs[i := p][..n] == procs[..n];
    } else {
      UsedUpdate(procs[..n], i, p);
      assert procs[i := p][..n] == procs[..n][i := p];
    }
  }

  lemma UsedPositive(procs: seq<Pcb>, i: int)
    requires 0 <= i < |procs| && procs[i].state != Unused
    ensures Used(procs) >= 1
  {
  }

  lemma UsedTwo(procs: seq<Pcb>, i: int, j: int)
    requires 0 <= i < j < |procs| && procs[i].state != Unused && procs[j].state != Unused
    ensures Used(procs) >= 2
  {
    UsedUpdate(procs, i, EMPTY_PCB);
    UsedPositive(procs[i := EMPTY_PCB], j);
  }

  ghost predicate Slot(t: Table, i: int) { 0 <= i < |t.procs| }

  ghost predicate InUse(t: Table, i: int) { Slot(t, i) && t.procs[i].state != Unused }

  /** At every step boundary: the counter is exact, only the current process can be RUNNING, a slot has pid slot + 1
      exactly when it is in use (idle has pid 0), and nobody is its own parent. */
  ghost predicate TableInv(t: Table) {
    && InUse(t, IDLE) && InUse(t, t.current)
    && t.count == Used(t.procs)
    && (forall i :: Slot(t, i) && t.procs[i].state == Running ==> i == t.current)
    && (forall i :: Slot(t, i) ==> t.procs[i].pid == if i == IDLE || t.procs[i].state == Unused then 0 else i + 1)
    && (forall i :: Slot(t, i) ==> t.procs[i].parent != i)
    && t.procs[IDLE].parent == NOBODY
  }

  lemma PidsDistinct(t: Table, i: int, j: int)
    requires TableInv(t) && InUse(t, i) && InUse(t, j) && i != j
    ensures t.procs[i].pid != t.procs[j].pid
  {
  }

  // ---------------------------------------------------------------- steps

  /** The first unused slot at or after i, or NOBODY. */
  function FreeSlot(procs: seq<Pcb>, i: nat): (r: int)
    requires i <= |procs|
    ensures r == NOBODY || (i <= r < |procs| && procs[r].state == Unused)
    ensures forall j :: i <= j < |procs| && (r == NOBODY || j < r) ==> procs[j].state != Unused
    decreases |procs| - i
  {
    if i == |procs| then NOBODY else if procs[i].state == Unused then i else FreeSlot(procs, i + 1)
  }

  /** fork, exec, exit, wait and yield, as they act on the table. */
  datatype Op = Fork(space: Space) | Exec(space: Space) | Exit(code: int) | Wait | Yield

  function ForkTable(t: Table, space: Space): Table {
    var i := FreeSlot(t.procs, 0);
    if i == NOBODY then t
    else t.(procs := t.procs[i := Pcb(i + 1, Runnable, t.current, 0, space)], count := t.count + 1)
  }

  /** The slot the scan of yield stops at: the first one at or after i that is runnable and not the current
      process; with two processes in all, the current one counts too. NOBODY when there is none. */
  function Candidate(procs: seq<Pcb>, current: int, count: int, i: nat): (r: int)
    requires i <= |procs|
    ensures r == NOBODY || (i <= r < |procs| && Eligible(procs, current, count, r))
    ensures forall j :: i <= j < |procs| && (r == NOBODY || j < r) ==> !Eligible(procs, current, count, j)
    decreases |procs| - i
  {
    if i == |procs| then NOBODY
    else if Eligible(procs, current, count, i) then i
    else Candidate(procs, current, count, i + 1)
  }

  predicate Eligible(procs: seq<Pcb>, current: int, count: int, i: int)
    requires 0 <= i < |procs|
  {
    procs[i].pid != 0 && procs[i].state == Runnable && (count == 2 || i != current)
  }

  function SetState(procs: seq<Pcb>, i: int, s: State): seq<Pcb>
    requires 0 <= i < |procs|
  {
    procs[i := procs[i].(state := s)]
  }

  /** A RUNNING current process becomes RUNNABLE. */
  function Demoted(t: Table): Table
    requires 0 <= t.current < |t.procs|
  {
    if t.procs[t.current].state == Running then t.(procs := SetState(t.procs, t.current, Runnable)) else t
  }

  /** The process that runs next: the scan starts at slot 1, and idle runs when nobody else can. */
  function Chosen(t: Table): (next: int)
    requires 1 <= |t.procs|
    ensures 0 <= next < |t.procs|
  {
    var c := Candidate(t.procs, t.current, t.count, 1);
    if c == NOBODY then IDLE else c
  }

  function Switched(t: Table, next: int): Table
    requires 0 <= next < |t.procs|
  {
    t.(procs := if t.procs[next].state == Runnable then SetState(t.procs, next, Running) else t.procs, current := next)
  }

  /** yield. When the choice falls on the current process nothing more happens, so it stays RUNNABLE. */
  function YieldTable(t: Table): Table
    requires 1 <= |t.procs| && 0 <= t.current < |t.procs|
  {
    var d := Demoted(t);
    if Chosen(d) == d.current then d else Switched(d, Chosen(d))
  }

  /** The first zombie child of the given process at or after slot i, or NOBODY. */
  function ZombieChild(procs: seq<Pcb>, parent: int, i: nat): (r: int)
    requires i <= |procs|
    ensures r == NOBODY || (i <= r < |procs| && procs[r].state == Zombie && procs[r].parent == parent)
    ensures forall j :: i <= j < |procs| && (r == NOBODY || j < r) ==> !(procs[j].state == Zombie && procs[j].parent == parent)
    decreases |procs| - i
  {
    if i == |procs| then NOBODY
    else if procs[i].state == Zombie && procs[i].parent == parent then i
    else ZombieChild(procs, parent, i + 1)
  }

  /** free_proc, as far as the table is concerned. */
  function Reap(t: Table, i: int): Table
    requires 0 <= i < |t.procs|
  {
    t.(procs := t.procs[i := t.procs[i].(pid := 0, state := Unused, parent := NOBODY, space := NO_SPACE)], count := t.count - 1)
  }

  /** One turn of the loop in sys_wait: reap the first zombie child, or yield and try again later. */
  function WaitTable(t: Table): Table
    requires 1 <= |t.procs| && 0 <= t.current < |t.procs|
  {
    var z := ZombieChild(t.procs, t.current, 0);
    if z != NOBODY then Reap(t, z) else YieldTable(t)
  }

  /** sys_exec after the program was found: the current process is RUNNING in its new space, and yields. */
  function ExecTable(t: Table, space: Space): Table
    requires 1 <= |t.procs| && 0 <= t.current < |t.procs|
  {
    YieldTable(t.(procs := t.procs[t.current := t.procs[t.current].(state := Running, space := space)]))
  }

  function ExitTable(t: Table, code: int): Table
    requires 0 <= t.current < |t.procs|
  {
    t.(procs := t.procs[t.current := t.procs[t.current].(state := Zombie, exitCode := code)])
  }

  function Apply(t: Table, op: Op): Table
    requires 1 <= |t.procs| && 0 <= t.current < |t.procs|
  {
    match op
    case Fork(space) => ForkTable(t, space)
    case Exec(space) => ExecTable(t, space)
    case Exit(code) => ExitTable(t, code)
    case Wait => WaitTable(t)
    case Yield => YieldTable(t)
  }

  lemma DemotedInv(t: Table)
    requires TableInv(t)
    ensures TableInv(Demoted(t)) && |Demoted(t).procs| == |t.procs| && Demoted(t).current == t.current
    ensures forall i :: Slot(t, i) ==> Demoted(t).procs[i].state != Running
  {
    UsedUpdate(t.procs, t.current, Demoted(t).procs[t.current]);
  }

  lemma SwitchedInv(t: Table, next: int)
    requires TableInv(t) && InUse(t, next) && forall i :: Slot(t, i) ==> t.procs[i].state != Running
    ensures TableInv(Switched(t, next)) && |Switched(t, next).procs| == |t.procs|
  {
    UsedUpdate(t.procs, next, t.procs[next].(state := Running));
  }

  lemma YieldInv(t: Table)
    requires TableInv(t)
    ensures TableInv(YieldTable(t)) && |YieldTable(t).procs| == |t.procs|
  {
    DemotedInv(t);
    var d := Demoted(t);
    if Chosen(d) != d.current { SwitchedInv(d, Chosen(d)); }
  }

  lemma ReapInv(t: Table, i: int)
    requires TableInv(t) && InUse(t, i) && i != t.current && i != IDLE
    ensures TableInv(Reap(t, i))
  {
    UsedUpdate(t.procs, i, Reap(t, i).procs[i]);
  }

  /** yield moves states only: a running caller becomes runnable, and if another process is chosen, that one becomes
      running when it was runnable. Nothing else in any slot changes. */
  lemma YieldMoves(t: Table)
    requires TableInv(t)
    ensures var t' := YieldTable(t);
            && |t'.procs| == |t.procs| && t'.count == t.count && Slot(t', t'.current)
            && forall i :: Slot(t, i) ==>
                 t'.procs[i] == t.procs[i].(state :=
                   if i == t.current && t.procs[i].state == Running then Runnable
                   else if i == t'.current && i != t.current && t.procs[i].state == Runnable then Running
                   else t.procs[i].state)
  {
  }

  /** exec gives the caller its new space and leaves it runnable, whatever it was; the rest is yield. Nobody's pid, parent or exit code
      changes, and nobody else's space. */
  lemma ExecMoves(t: Table, space: Space)
    requires TableInv(t)
    ensures var t' := ExecTable(t, space);
            && |t'.procs| == |t.procs| && t'.count == t.count
            && forall i :: Slot(t, i) ==>
                 && t'.procs[i].space == (if i == t.current then space else t.procs[i].space)
                 && t'.procs[i].pid == t.procs[i].pid && t'.procs[i].parent == t.procs[i].parent && t'.procs[i].exitCode == t.procs[i].exitCode
                 && (i == t.current ==> t'.procs[i].state == Runnable)
  {
    hide YieldTable;
    UsedUpdate(t.procs, t.current, t.procs[t.current].(state := Running, space := space));
    YieldMoves(t.(procs := t.procs[t.current := t.procs[t.current].(state := Running, space := space)]));
  }

  /** Every step keeps the invariant. */
  lemma ForkTableInv(t: Table, space: Space)
    requires TableInv(t)
    ensures TableInv(ForkTable(t, space)) && |ForkTable(t, space).procs| == |t.procs|
  {
    var i := FreeSlot(t.procs, 0);
    if i != NOBODY { UsedUpdate(t.procs, i, Pcb(i + 1, Runnable, t.current, 0, space)); }
  }

  lemma ExecTableInv(t: Table, space: Space)
    requires TableInv(t)
    ensures TableInv(ExecTable(t, space)) && |ExecTable(t, space).procs| == |t.procs|
  {
    hide YieldTable;
    var p := t.procs[t.current].(state := Running, space := space);
    UsedUpdate(t.procs, t.current, p);
    YieldInv(t.(procs := t.procs[t.current := p]));
  }

  lemma ApplyInv(t: Table, op: Op)
    requires TableInv(t)
    ensures TableInv(Apply(t, op)) && |Apply(t, op).procs| == |t.procs|
  {
    hide YieldTable, ForkTable, ExecTable;
    match op
    case Fork(space) => ForkTableInv(t, space);
    case Exec(space) => ExecTableInv(t, space);
    case Exit(code) => UsedUpdate(t.procs, t.current, t.procs[t.current].(state := Zombie, exitCode := code));
    case Wait =>
      var z := ZombieChild(t.procs, t.current, 0);
      if z != NOBODY { ReapInv(t, z); } else { YieldInv(t); }
    case Yield => YieldInv(t);
  }

  function Run(t: Table, ops: seq<Op>): (r: Table)
    requires TableInv(t)
    decreases |ops|
  {
    if ops == [] then t else
      ApplyInv(t, ops[0]);
      Run(Apply(t, ops[0]), ops[1..])
  }

  /** Over every run, of any length and over any number of slots, the invariant holds. */
  lemma {:induction false} RunInv(t: Table, ops: seq<Op>)
    requires TableInv(t)
    ensures TableInv(Run(t, ops)) && |Run(t, ops).procs| == |t.procs|
    decreases |ops|
  {
    if ops != [] {
      ApplyInv(t, ops[0]);
      RunInv(Apply(t, ops[0]), ops[1..]);
    }
  }

  // ---------------------------------------------------------------- zombies

  /** A zombie stays one through every step, save for two, after which it never is one: its parent's wait reaps it, when
      it is the first zombie child in the table, or the process itself goes on and execs. Its parent and its exit code stay
      what they are, unless it exits again. No step schedules it, unless it is idle. */
  lemma ZombieStep(t: Table, op: Op, i: int)
    requires TableInv(t) && Slot(t, i) && t.procs[i].state == Zombie
    ensures var t' := Apply(t, op);
            && (t'.current == i ==> t.current == i || i == IDLE)
            && (if op == Wait && i == ZombieChild(t.procs, t.current, 0)
                then t.procs[i].parent == t.current && t'.procs[i].state == Unused && t'.count == t.count - 1
                else t'.procs[i].pid == t.procs[i].pid && t'.procs[i].parent == t.procs[i].parent
                     && t'.procs[i].exitCode == (if op.Exit? && i == t.current then op.code else t.procs[i].exitCode)
                     && if op.Exec? && i == t.current then t'.procs[i].state == Runnable || t'.procs[i].state == Running
                        else t'.procs[i].state == Zombie)
  {
  }

  /** In the run, process i neither execs nor is reaped. */
  ghost predicate StaysDead(t: Table, ops: seq<Op>, i: int)
    requires TableInv(t)
    decreases |ops|
  {
    ops == [] ||
    (&& !(ops[0].Exec? && t.current == i)
     && !(ops[0] == Wait && ZombieChild(t.procs, t.current, 0) == i)
     && (ApplyInv(t, ops[0]); StaysDead(Apply(t, ops[0]), ops[1..], i)))
  }

  /** A process that takes no step after exit is never scheduled again, however long the run, and its exit code stays. */
  lemma {:induction false} DeadStayDead(t: Table, ops: seq<Op>, i: int)
    requires TableInv(t) && Slot(t, i) && t.procs[i].state == Zombie && StaysDead(t, ops, i)
    ensures Slot(Run(t, ops), i) && Run(t, ops).procs[i].state == Zombie && Run(t, ops).procs[i].pid == t.procs[i].pid
    ensures t.current != i && i != IDLE ==> Run(t, ops).current != i && Run(t, ops).procs[i].exitCode == t.procs[i].exitCode
    decreases |ops|
  {
    if ops != [] {
      ApplyInv(t, ops[0]);
      ZombieStep(t, ops[0], i);
      DeadStayDead(Apply(t, ops[0]), ops[1..], i);
    }
  }

  // ---------------------------------------------------------------- who gets to run

  /** A process other than idle that can run. */
  ghost predicate Ready(t: Table, i: int) {
    1 <= i < |t.procs| && t.procs[i].pid != 0 && (t.procs[i].state == Runnable || t.procs[i].state == Running)
  }

  /** n yields in a row. */
  function Yields(t: Table, n: nat): Table
    requires TableInv(t)
    decreases n
  {
    if n == 0 then t else
      YieldInv(t);
      Yields(YieldTable(t), n - 1)
  }

  lemma YieldKeepsReady(t: Table)
    requires TableInv(t)
    ensures forall i :: Ready(YieldTable(t), i) <==> Ready(t, i)
    ensures YieldTable(t).count == t.count
  {
  }

  /** yield runs the first ready process other than the current one. */
  lemma NextIs(t: Table, m: int)
    requires TableInv(t) && Ready(t, m) && m != t.current
    requires forall j :: 1 <= j < m && Ready(t, j) ==> j == t.current && t.count != 2
    ensures YieldTable(t).current == m
  {
    var d := Demoted(t);
    DemotedInv(t);
    assert Eligible(d.procs, d.current, d.count, m);
    var c := Candidate(d.procs, d.current, d.count, 1);
    if c < m {
      assert Ready(t, c);
      assert false;
    }
  }

  /** Idle is chosen only when no process other than the current one can run. */
  lemma IdleOnlyWhenAlone(t: Table, i: int)
    requires TableInv(t) && YieldTable(t).current == IDLE && Ready(t, i)
    ensures i == t.current
  {
    DemotedInv(t);
    assert i != t.current ==> Eligible(Demoted(t).procs, t.current, t.count, i);
  }

  lemma CountWithReady(t: Table, a: int, b: int)
    requires TableInv(t) && Ready(t, a) && Ready(t, b) && a < b
    ensures t.count != 2
  {
    UsedUpdate(t.procs, IDLE, EMPTY_PCB);
    UsedTwo(t.procs[IDLE := EMPTY_PCB], a, b);
  }

  lemma SwitchesToOther(t: Table, a: int, b: int)
    requires TableInv(t) && a != b && t.current == a
    requires forall i :: Ready(t, i) <==> i == a || i == b
    ensures YieldTable(t).current == b && forall i :: Ready(YieldTable(t), i) <==> i == a || i == b
  {
    if a < b { CountWithReady(t, a, b); } else { CountWithReady(t, b, a); }
    NextIs(t, b);
    YieldKeepsReady(t);
  }

  /** With exactly two processes besides idle that can run, yields alternate them strictly. */
  lemma {:induction false} Alternates(t: Table, a: int, b: int, n: nat)
    requires TableInv(t) && a != b && t.current == a
    requires forall i :: Ready(t, i) <==> i == a || i == b
    ensures Yields(t, n).current == if n % 2 == 0 then a else b
    decreases n
  {
    hide YieldTable, Ready;
    if n > 0 {
      SwitchesToOther(t, a, b);
      YieldInv(t);
      Alternates(YieldTable(t), b, a, n - 1);
      assert n % 2 == 0 <==> (n - 1) % 2 != 0;
    }
  }

  /** While two lower slots can run, only slots up to the second of them are ever chosen. */
  lemma {:induction false} LowSlotsWin(t: Table, a: int, b: int, n: nat)
    requires TableInv(t) && Ready(t, a) && Ready(t, b) && a < b && n > 0
    ensures Yields(t, n).current <= b
    decreases n
  {
    CountWithReady(t, a, b);
    DemotedInv(t);
    var d := Demoted(t);
    assert Eligible(d.procs, d.current, d.count, if a == t.current then b else a);
    assert YieldTable(t).current <= b;
    YieldKeepsReady(t);
    YieldInv(t);
    if n > 1 {
      LowSlotsWin(YieldTable(t), a, b, n - 1);
    }
  }

  ghost predicate TwoReadyBelow(t: Table, c: int) {
    exists a, b :: a < b < c && Ready(t, a) && Ready(t, b)
  }

  /** Who starves: among processes that only ever yield, one that can run gets to run again if and only if fewer
      than two processes in lower slots can run. */
  lemma RunsAgainIff(t: Table, c: int)
    requires TableInv(t) && Ready(t, c)
    ensures (exists n: nat :: n > 0 && Yields(t, n).current == c) <==> !TwoReadyBelow(t, c)
  {
    if TwoReadyBelow(t, c) {
      var a, b :| a < b < c && Ready(t, a) && Ready(t, b);
      forall n: nat | n > 0 ensures Yields(t, n).current != c {
        LowSlotsWin(t, a, b, n);
      }
    } else {
      var n := RunsSoon(t, c);
    }
  }

  /** Idle, the shell in slot 1, and two commands it started; all of them only ever yield. */
  const BUSY := Table([Pcb(0, Runnable, NOBODY, 0, NO_SPACE), Pcb(2, Running, IDLE, 0, NO_SPACE),
                       Pcb(3, Runnable, 1, 0, NO_SPACE), Pcb(4, Runnable, 1, 0, NO_SPACE)], 1, 4)

  /** The shell exits and then calls exec: it can run again. */
  lemma ShellRevives(space: Space)
    ensures var dead := ExitTable(BUSY, 0);
            dead.procs[1].state == Zombie && Ready(ExecTable(dead, space), 1)
  {
    SecondCommandStarves();
    ApplyInv(BUSY, Op.Exit(0));
    ZombieStep(ExitTable(BUSY, 0), Op.Exec(space), 1);
  }

  /** The second command can run in that table, and never does. */
  lemma SecondCommandStarves()
    ensures TableInv(BUSY) && Ready(BUSY, 3) && forall n: nat :: n > 0 ==> Yields(BUSY, n).current != 3
  {
    var procs := BUSY.procs;
    assert procs[..3][..2] == procs[..2] && procs[..2][..1] == procs[..1];
    assert Used(procs) == Used(procs[..3]) + 1 == Used(procs[..2]) + 2 == Used(procs[..1]) + 3;
    assert Ready(BUSY, 1) && Ready(BUSY, 2);
    RunsAgainIff(BUSY, 3);
  }

  /** At most two yields are needed. */
  lemma RunsSoon(t: Table, c: int) returns (n: nat)
    requires TableInv(t) && Ready(t, c) && !TwoReadyBelow(t, c)
    ensures 0 < n <= 2 && Yields(t, n).current == c
  {
    YieldInv(t);
    YieldKeepsReady(t);
    var t1 := YieldTable(t);
    assert Yields(t, 1) == Yields(t1, 0) == t1;
    if t1.current == c {
      return 1;
    }
    assert Yields(t, 2) == Yields(t1, 1);
    YieldInv(t1);
    assert Yields(t1, 1) == Yields(YieldTable(t1), 0) == YieldTable(t1);
    FirstMissed(t, c);
    forall j | 1 <= j < c && Ready(t1, j) ensures j == t1.current && t1.count != 2 {
      assert Ready(t, j);
      CountWithReady(t, j, c);
    }
    NextIs(t1, c);
    return 2;
  }

  /** When a yield passes over the ready process c, the only lower process that can run is the one it chose. */
  lemma FirstMissed(t: Table, c: int)
    requires TableInv(t) && Ready(t, c) && !TwoReadyBelow(t, c) && YieldTable(t).current != c
    ensures forall j :: 1 <= j < c && Ready(t, j) ==> j == YieldTable(t).current
  {
    forall j | 1 <= j < c && Ready(t, j) ensures j == YieldTable(t).current {
      CountWithReady(t, j, c);
      forall i | 1 <= i < c && Ready(t, i) ensures i == j {
        assert !(i < j) && !(j < i);
      }
      if j == t.current {
        NextIs(t, c);
      } else {
        NextIs(t, j);
      }
    }
  }

  // ---------------------------------------------------------------- the table in memory

  class ProcessTable {
    const procs: array<Pcb>
    var current: int
    var processCount: int

    ghost function View(): Table
      reads this, procs
    {
      Table(procs[..], current, processCount)
    }

    ghost predicate Valid()
      reads this, procs
    {
      TableInv(View())
    }

    /** The table as kernel_main leaves it before the first yield: idle, renumbered to pid 0, has created the shell. */
    constructor (size: nat, idleSpace: Space, shellSpace: Space)
      requires size >= 2
      ensures Valid() && fresh(procs) && procs.Length == size
      ensures View() == Table(procs[..], IDLE, 2)
      ensures procs[0] == Pcb(0, Runnable, NOBODY, 0, idleSpace) && procs[1] == Pcb(2, Runnable, IDLE, 0, shellSpace)
      ensures forall i :: 2 <= i < size ==> procs[i] == EMPTY_PCB
    {
      procs := new Pcb[size](i => if i == 0 then Pcb(0, Runnable, NOBODY, 0, idleSpace)
                                  else if i == 1 then Pcb(2, Runnable, IDLE, 0, shellSpace) else EMPTY_PCB);
      current, processCount := IDLE, 2;
      new;
      UsedUnused(procs[..], 2);
      ghost var p := procs[..][..2];
      assert p[0] == procs[0] && p[1] == procs[1];
      assert Used(p[..1][..0]) == 0;
      assert Used(p[..1]) == 1;
      assert p[..|p| - 1] == p[..1];
      assert Used(p) == 2;
    }

    /** alloc_free_proc: the first unused slot, its fields reset and its pid set to slot + 1; NOBODY if there is none. */
    method AllocFreeProc() returns (slot: int)
      modifies procs
      ensures slot == FreeSlot(old(procs[..]), 0)
      ensures procs[..] == if slot == NOBODY then old(procs[..]) else old(procs[..])[slot := EMPTY_PCB.(pid := slot + 1)]
    {
      for i := 0 to procs.Length
        invariant procs[..] == old(procs[..]) && FreeSlot(procs[..], 0) == FreeSlot(procs[..], i)
      {
        if procs[i].state == Unused {
          procs[i] := EMPTY_PCB.(pid := i + 1);
          return i;
        }
      }
      return NOBODY;
    }

    /** The last part of sys_fork: the slot taken by AllocFreeProc from table t becomes a runnable child of the
        current process. The result is its pid. */
    method StartChild(slot: int, space: Space, ghost t: Table) returns (pid: int)
      requires TableInv(t) && current == t.current && processCount == t.count
      requires slot == FreeSlot(t.procs, 0) != NOBODY && procs[..] == t.procs[slot := EMPTY_PCB.(pid := slot + 1)]
      modifies this, procs
      ensures Valid() && View() == ForkTable(t, space) && pid == slot + 1
    {
      ApplyInv(t, Op.Fork(space));
      processCount := processCount + 1;
      procs[slot] := procs[slot].(state := Runnable, space := space, parent := current);
      assert procs[..] == t.procs[slot := Pcb(slot + 1, Runnable, t.current, 0, space)];
      return procs[slot].pid;
    }

    /** yield */
    method Yield()
      requires Valid()
      modifies this, procs
      ensures Valid() && View() == YieldTable(old(View()))
    {
      ghost var t := View();
      YieldInv(t);
      if procs[current].state == Running {
        procs[current] := procs[current].(state := Runnable);
      }
      ghost var d := Demoted(t);
      assert procs[..] == d.procs;
      DemotedInv(t);
      var next := FindNext();
      if next == NOBODY {
        next := IDLE;
      }
      if next == current {
        return;
      }
      if procs[next].state == Runnable {
        procs[next] := procs[next].(state := Running);
      }
      current := next;
      assert procs[..] == Switched(d, next).procs;
    }

    /** The scan in yield, from slot 1. */
    method FindNext() returns (next: int)
      requires 1 <= procs.Length
      ensures next == Candidate(procs[..], current, processCount, 1)
    {
      for i := 1 to procs.Length
        invariant Candidate(procs[..], current, processCount, 1) == Candidate(procs[..], current, processCount, i)
      {
        var p := procs[i];
        if p.pid != 0 {
          if p.state == Runnable && processCount == 2 {
            return i;
          }
          if p.state == Runnable && i != current {
            return i;
          }
        }
      }
      return NOBODY;
    }

    /** sys_exit */
    method Exit(code: int)
      requires Valid()
      modifies procs
      ensures Valid() && View() == ExitTable(old(View()), code)
      ensures procs[..] == old(procs[..])[current := old(procs[current]).(state := Zombie, exitCode := code)]
    {
      ApplyInv(View(), Op.Exit(code));
      ghost var t := View();
      procs[current] := procs[current].(state := Zombie, exitCode := code);
      assert procs[..] == ExitTable(t, code).procs;
    }

    /** The table part of sys_exec, once the new address space is built. */
    method Exec(space: Space)
      requires Valid()
      modifies this, procs
      ensures Valid() && View() == ExecTable(old(View()), space)
    {
      ghost var t := View();
      UsedUpdate(t.procs, t.current, t.procs[t.current].(state := Running, space := space));
      procs[current] := procs[current].(state := Running, space := space);
      assert procs[..] == t.procs[t.current := t.procs[t.current].(state := Running, space := space)];
      Yield();
    }

    /** The scan in sys_wait for a zombie whose parent is the current process. */
    method FindZombieChild() returns (slot: int)
      ensures slot == ZombieChild(procs[..], current, 0)
    {
      for i := 0 to procs.Length
        invariant ZombieChild(procs[..], current, 0) == ZombieChild(procs[..], current, i)
      {
        if procs[i].state == Zombie && procs[i].parent == current {
          return i;
        }
      }
      return NOBODY;
    }

    /** The last part of free_proc: the slot becomes unused. */
    method Free(slot: int)
      requires Valid() && InUse(View(), slot) && slot != current && slot != IDLE
      modifies this, procs
      ensures Valid() && View() == Reap(old(View()), slot)
      ensures procs[..] == old(procs[..])[slot := Pcb(0, Unused, NOBODY, old(procs[slot].exitCode), Space(0, 0, 0, 0, 0))]
      ensures current == old(current) && processCount == old(processCount) - 1
    {
      ghost var t := View();
      ReapInv(t, slot);
      procs[slot] := procs[slot].(pid := 0, state := Unused, parent := NOBODY, space := NO_SPACE);
      processCount := processCount - 1;
      assert procs[..] == Reap(t, slot).procs;
    }
  }

  lemma {:induction false} UsedUnused(procs: seq<Pcb>, n: int)
    requires 0 <= n <= |procs| && forall i :: n <= i < |procs| ==> procs[i].state == Unused
    ensures Used(procs) == Used(procs[..n])
    decreases |procs|
  {
    if n < |procs| {
      var m := |procs| - 1;
      UsedUnused(procs[..m], n);
      assert procs[..m][..n] == procs[..n];
    } else {
      assert procs[..n] == procs;
    }
  }
}
