/** The run list of src/process.c: a circular list of processes with insertion at the tail,
    stepped by the timer (src/trap.c:100-103), and the fairness of the steps. */
module Scheduler {

  /** The fields of struct process_t that scheduling uses; memory and context are the subject
      of module ContextSwitch. */
  class Process {
    var pid: nat
    var next: Process?

    constructor (pid: nat)
      ensures this.pid == pid && next == null
    {
      this.pid, next := pid, null;
    }
  }

  /** Process `i` of the ring has pid `i` and points to the next one, the last to the first. */
  ghost predicate Linked(ring: seq<Process>, i: nat)
    requires i < |ring|
    reads ring
  {
    ring[i].next == ring[if i + 1 < |ring| then i + 1 else 0] && ring[i].pid == i
  }

  class RunList {
    var cur_proc: Process?
    var run_head: Process?
    var cur_pid: nat
    /** The processes in the order of creation, and the position of the running one. */
    ghost var ring: seq<Process>
    ghost var at: nat

    /** How many processes there are, and which one runs. */
    ghost function ClockNow(): Clock
      reads this
    {
      Clock(|ring|, at)
    }

    /** The ring runs from run_head through the pids 0, 1, 2 .. back to run_head. */
    ghost predicate Valid()
      reads this, ring
    {
      && cur_pid == |ring|
      && (ring == [] ==> cur_proc == null && run_head == null)
      && (ring != [] ==> at < |ring| && cur_proc == ring[at] && run_head == ring[0])
      && (forall i, j :: 0 <= i < j < |ring| ==> ring[i] != ring[j])
      && (forall i: nat :: i < |ring| ==> Linked(ring, i))
    }

    constructor ()
      ensures Valid() && ring == []
    {
      cur_proc, run_head, cur_pid, ring, at := null, null, 0, [], 0;
    }

    /** `init_proc_schedule`, src/process.c:12-21: the boot stack becomes process 0. */
    method InitProcSchedule(boot: Process)
      requires Valid() && ring == []
      modifies this, boot
      ensures Valid() && ring == [boot] && at == 0
    {
      cur_proc := boot;
      boot.pid := cur_pid;
      cur_pid := cur_pid + 1;
      boot.next := cur_proc;
      run_head := cur_proc;
      ring, at := [boot], 0;
    }

    /** `schedule`, src/process.c:23-27. */
    method Schedule()
      requires Valid()
      modifies this`cur_proc, this`at
      ensures Valid() && (ring != [] ==> ClockNow() == Tick(old(ClockNow())))
      ensures ring != [] ==> cur_proc == ring[(old(at) + 1) % |ring|]
    {
      hide Tick;
      if cur_proc != null {
        assert Linked(ring, at);
        NextPosition(ClockNow());
        ChangeProc(cur_proc.next, if at + 1 < |ring| then at + 1 else 0);
      }
    }

    /** `change_proc`, src/process.c:58-64, up to the switch of contexts. */
    method ChangeProc(proc: Process?, ghost to: nat)
      requires Valid() && to < |ring| && proc == ring[to]
      modifies this`cur_proc, this`at
      ensures Valid() && at == to
    {
      if cur_proc != proc {
        cur_proc := proc;
      }
      at := to;
    }

    /** `init_thread`, src/process.c:29-56, as far as the list is concerned. */
    method InitThread() returns (pid: nat)
      requires Valid() && ring != []
      modifies this`cur_pid, this`ring, ring
      ensures Valid() && pid == |old(ring)| && |ring| == pid + 1 && ring[..pid] == old(ring) && fresh(ring[pid])
      ensures ClockNow() == Insert(old(ClockNow()))
    {
      var new_proc := new Process(cur_pid);
      cur_pid := cur_pid + 1;
      new_proc.next := run_head;
      var proc := FindTail();
      proc.next := new_proc;
      ghost var n := |ring|;
      ring := ring + [new_proc];
      forall i: nat | i < |ring| ensures Linked(ring, i) {
        if i < n {
          assert old(Linked(ring, i));
        }
      }
      pid := new_proc.pid;
    }

    /** The walk at src/process.c:49-52. It ends at the last process. */
    method FindTail() returns (proc: Process)
      requires ring != [] && run_head == ring[0]
      requires forall i, j :: 0 <= i < j < |ring| ==> ring[i] != ring[j]
      requires forall i: nat :: i < |ring| ==> Linked(ring, i)
      ensures proc == ring[|ring| - 1]
    {
      proc := run_head;
      ghost var i: nat := 0;
      assert Linked(ring, 0);
      while proc.next != run_head
        invariant i < |ring| && proc == ring[i]
        decreases |ring| - i
      {
        assert Linked(ring, i);
        proc := proc.next;
        i := i + 1;
        assert Linked(ring, i);
      }
      assert Linked(ring, i);
    }
  }

  // ---------------------------------------------------------------- Fairness

  /** What the scheduler does to the number of processes and to the position of the running
      one. RunList.Schedule and RunList.InitThread are proved to follow Tick and Insert, and
      module Interleaving shows it for every interleaving of their statements. */
  datatype Clock = Clock(n: nat, at: nat)

  ghost predicate ValidClock(c: Clock) {
    c.at < c.n
  }

  function Tick(c: Clock): Clock
    requires c.n > 0
  {
    c.(at := (c.at + 1) % c.n)
  }

  function Insert(c: Clock): Clock {
    c.(n := c.n + 1)
  }

  function Ticks(c: Clock, k: nat): (r: Clock)
    requires c.n > 0
    ensures r.n == c.n
    decreases k
  {
    if k == 0 then c else Tick(Ticks(c, k - 1))
  }

  lemma ModStep(a: nat, n: nat)
    requires n > 0
    ensures (a % n + 1) % n == (a + 1) % n
  {
    var q, r := a / n, a % n;
    assert a == n * q + r;
    if r + 1 == n {
      assert a + 1 == n * (q + 1);
      ModIs(a + 1, n, q + 1, 0);
      ModIs(n, n, 1, 0);
    } else {
      ModIs(a + 1, n, q, r + 1);
      ModIs(r + 1, n, 0, r + 1);
    }
  }

  lemma ModIs(a: nat, n: nat, q: nat, r: nat)
    requires a == n * q + r && r < n
    ensures a % n == r
  {
    var q1 := a / n;
    assert a == n * q1 + a % n;
    if q1 < q {
      assert n * (q1 + 1) <= n * q by { MulOrder(n, q1 + 1, q); }
    } else if q < q1 {
      assert n * (q + 1) <= n * q1 by { MulOrder(n, q + 1, q1); }
    }
  }

  lemma MulOrder(n: nat, a: nat, b: nat)
    requires a <= b
    ensures n * a <= n * b
  {}

  /** The position that a tick moves to. */
  lemma NextPosition(c: Clock)
    requires ValidClock(c)
    ensures (c.at + 1) % c.n == if c.at + 1 < c.n then c.at + 1 else 0
    ensures Tick(c) == Clock(c.n, (c.at + 1) % c.n)
  {
    if c.at + 1 < c.n {
      ModIs(c.at + 1, c.n, 0, c.at + 1);
    } else {
      ModIs(c.at + 1, c.n, 1, 0);
    }
  }

  /** `k` ticks advance the running process by k modulo the number of processes. */
  lemma {:induction false} TicksAdvance(c: Clock, k: nat)
    requires ValidClock(c)
    ensures Ticks(c, k) == c.(at := (c.at + k) % c.n)
    decreases k
  {
    if k == 0 {
      ModIs(c.at, c.n, 0, c.at);
    } else {
      TicksAdvance(c, k - 1);
      ModStep(c.at + k - 1, c.n);
    }
  }

  lemma {:induction false} TickFirst(c: Clock, k: nat)
    requires c.n > 0
    ensures Ticks(Tick(c), k) == Ticks(c, k + 1)
    decreases k
  {
    if k > 0 {
      TickFirst(c, k - 1);
    }
  }

  /** How many ticks it takes until `p` runs, 0 while it runs. */
  function Wait(c: Clock, p: nat): int {
    if p >= c.at then p - c.at else p + c.n - c.at
  }

  datatype Happening = Timer | Creation

  function Next(c: Clock, h: Happening): Clock
    requires c.n > 0
  {
    if h == Timer then Tick(c) else Insert(c)
  }

  function After(c: Clock, hs: seq<Happening>): Clock
    requires c.n > 0
    decreases |hs|
  {
    if hs == [] then c else After(Next(c, hs[0]), hs[1..])
  }

  function Count(hs: seq<Happening>, h: Happening): nat {
    if hs == [] then 0 else (if hs[0] == h then 1 else 0) + Count(hs[1..], h)
  }

  /** After some tick of the run, `p` is the running process. */
  ghost predicate RunsIn(c: Clock, hs: seq<Happening>, p: nat)
    requires c.n > 0
    decreases |hs|
  {
    hs != [] && ((hs[0] == Timer && Tick(c).at == p) || RunsIn(Next(c, hs[0]), hs[1..], p))
  }

  /** A tick shortens the wait by one; an insertion lengthens it by one at most. */
  lemma WaitSteps(c: Clock, p: nat)
    requires ValidClock(c) && p < c.n
    ensures ValidClock(Tick(c)) && ValidClock(Insert(c))
    ensures Tick(c).at != p ==> Wait(Tick(c), p) == (if Wait(c, p) == 0 then c.n else Wait(c, p)) - 1
    ensures Wait(c, p) <= Wait(Insert(c), p) <= Wait(c, p) + 1
  {
    if c.at + 1 < c.n {
      ModIs(c.at + 1, c.n, 0, c.at + 1);
    } else {
      ModIs(c.at + 1, c.n, 1, 0);
    }
  }

  /** Bounded waiting over every run: a waiting process runs before more ticks have passed
      than its wait and the number of insertions together. */
  lemma {:induction false} WaitIsBounded(c: Clock, hs: seq<Happening>, p: nat)
    requires ValidClock(c) && p < c.n && p != c.at
    requires Count(hs, Timer) >= Wait(c, p) + Count(hs, Creation)
    ensures RunsIn(c, hs, p)
    decreases |hs|
  {
    if hs != [] {
      WaitSteps(c, p);
      if !(hs[0] == Timer && Tick(c).at == p) {
        WaitIsBounded(Next(c, hs[0]), hs[1..], p);
      }
    }
  }

  /** A run without a creation is a number of ticks. */
  lemma {:induction false} OnlyTicks(c: Clock, hs: seq<Happening>)
    requires c.n > 0 && Count(hs, Creation) == 0
    ensures Count(hs, Timer) == |hs| && After(c, hs) == Ticks(c, |hs|)
    decreases |hs|
  {
    if hs != [] {
      OnlyTicks(Tick(c), hs[1..]);
      TickFirst(c, |hs| - 1);
    }
  }

  /** How many ticks of the run let `p` run. */
  function Turns(c: Clock, hs: seq<Happening>, p: nat): nat
    requires c.n > 0
    decreases |hs|
  {
    if hs == [] then 0
    else (if hs[0] == Timer && Tick(c).at == p then 1 else 0) + Turns(Next(c, hs[0]), hs[1..], p)
  }

  lemma {:induction false} RunsInIff(c: Clock, hs: seq<Happening>, p: nat)
    requires c.n > 0
    ensures RunsIn(c, hs, p) <==> Turns(c, hs, p) > 0
    decreases |hs|
  {
    if hs != [] {
      RunsInIff(Next(c, hs[0]), hs[1..], p);
    }
  }

  /** How many ticks it takes until `p` runs again, n while it runs. */
  function NextTurn(c: Clock, p: nat): int {
    if p > c.at then p - c.at else p + c.n - c.at
  }

  lemma NextTurnSteps(c: Clock, p: nat)
    requires ValidClock(c) && p < c.n
    ensures ValidClock(Tick(c)) && 1 <= NextTurn(c, p) <= c.n
    ensures Tick(c).at == p <==> NextTurn(c, p) == 1
    ensures NextTurn(Tick(c), p) == if NextTurn(c, p) == 1 then c.n else NextTurn(c, p) - 1
  {
    if c.at + 1 < c.n {
      ModIs(c.at + 1, c.n, 0, c.at + 1);
    } else {
      ModIs(c.at + 1, c.n, 1, 0);
    }
  }

  /** Of at most n ticks without a creation, at most one lets `p` run. */
  lemma {:induction false} TurnsOfTicks(c: Clock, hs: seq<Happening>, p: nat)
    requires ValidClock(c) && p < c.n && Count(hs, Creation) == 0 && |hs| <= c.n
    ensures Turns(c, hs, p) == if NextTurn(c, p) <= |hs| then 1 else 0
    decreases |hs|
  {
    NextTurnSteps(c, p);
    if hs != [] {
      TurnsOfTicks(Tick(c), hs[1..], p);
    }
  }
}
