/** `init_thread` (src/process.c:29-56) statement by statement, with the timer interrupt
    (src/trap.c:100-103, src/process.c:23-27) free to come between any two of them. */
module Interleaving {
  import S = Scheduler

  /** The fields of struct process_t that the run list uses; 0 is the null pointer. */
  datatype Proc = Proc(pid: nat, next: nat)

  /** The statement of init_thread that comes next; Idle outside of it. */
  datatype Pc =
    | Idle
    | Clear      // line 32
    | TakePid    // line 36
    | SetNext    // line 47
    | StartWalk  // line 49
    | Test       // line 50
    | Advance    // line 51
    | Publish    // line 53
    | Return     // line 55

  datatype State = State(procs: map<nat, Proc>, run_head: nat, cur_proc: nat, cur_pid: nat,
                         pc: Pc, new_proc: nat, proc: nat)

  /** What `init_proc_schedule` leaves behind (src/process.c:12-21), before any init_thread. */
  function AfterInit(boot: nat, new_proc: nat, proc: nat): State {
    State(map[boot := Proc(0, boot)], boot, boot, 1, Idle, new_proc, proc)
  }

  /** A timer tick, or the next statement; the first statement gets the address that
      `kmalloc` returns. */
  datatype Event = Timer | Code(block: nat)

  /** The published processes form one ring from run_head on, in the order of their pids. */
  ghost predicate LinkAt(procs: map<nat, Proc>, ring: seq<nat>, i: nat)
    requires i < |ring|
  {
    && ring[i] in procs
    && procs[ring[i]] == Proc(i, ring[if i + 1 < |ring| then i + 1 else 0])
  }

  ghost predicate IsRing(procs: map<nat, Proc>, head: nat, ring: seq<nat>) {
    && ring != [] && ring[0] == head
    && (forall i, j :: 0 <= i < j < |ring| ==> ring[i] != ring[j])
    && (forall i: nat :: i < |ring| ==> LinkAt(procs, ring, i))
  }

  /** What holds between any two statements: the ring contains the running process, and the
      new process stays outside of it until line 53. */
  ghost predicate Inv(s: State, ring: seq<nat>) {
    && IsRing(s.procs, s.run_head, ring)
    && s.cur_proc in ring
    && s.cur_pid == |ring| + (if s.pc in {SetNext, StartWalk, Test, Advance, Publish} then 1 else 0)
    && (s.pc !in {Idle, Return} ==> s.new_proc !in ring)
    && (s.pc !in {Idle, Return, Clear} ==> s.new_proc in s.procs)
    && (s.pc == SetNext ==> s.procs[s.new_proc].pid == |ring|)
    && (s.pc in {StartWalk, Test, Advance, Publish} ==> s.procs[s.new_proc] == Proc(|ring|, s.run_head))
    && (s.pc in {Test, Advance, Publish} ==> s.proc in ring)
    && (s.pc == Advance ==> s.proc != ring[|ring| - 1])
    && (s.pc == Publish ==> s.proc == ring[|ring| - 1])
    && (s.pc == Return ==> s.new_proc == ring[|ring| - 1])
  }

  /** The invariant holds when scheduling starts. */
  lemma InitKeepsInv(boot: nat, new_proc: nat, proc: nat)
    ensures Inv(AfterInit(boot, new_proc, proc), [boot])
  {
    assert LinkAt(map[boot := Proc(0, boot)], [boot], 0);
  }

  ghost predicate Enabled(s: State, e: Event) {
    e.Code? && s.pc == Idle ==> e.block !in s.procs
  }

  /** One event. */
  function Step(s: State, e: Event): State
    requires s.cur_proc in s.procs
    requires s.pc !in {Idle, Return, Clear} ==> s.new_proc in s.procs
    requires s.pc in {Test, Advance, Publish} ==> s.proc in s.procs
  {
    if e == Timer then s.(cur_proc := s.procs[s.cur_proc].next)
    else match s.pc
      case Idle => s.(new_proc := e.block, pc := Clear)
      case Clear => s.(procs := s.procs[s.new_proc := Proc(0, 0)], pc := TakePid)
      case TakePid =>
        s.(procs := s.procs[s.new_proc := s.procs[s.new_proc].(pid := s.cur_pid)],
           cur_pid := s.cur_pid + 1, pc := SetNext)
      case SetNext => s.(procs := s.procs[s.new_proc := s.procs[s.new_proc].(next := s.run_head)], pc := StartWalk)
      case StartWalk => s.(proc := s.run_head, pc := Test)
      case Test => s.(pc := if s.procs[s.proc].next != s.run_head then Advance else Publish)
      case Advance => s.(proc := s.procs[s.proc].next, pc := Test)
      case Publish => s.(procs := s.procs[s.proc := s.procs[s.proc].(next := s.new_proc)], pc := Return)
      case Return => s.(pc := Idle)
  }

  /** The ring after an event: it grows in the single store of line 53. */
  function RingAfter(s: State, ring: seq<nat>, e: Event): seq<nat> {
    if e.Code? && s.pc == Publish then ring + [s.new_proc] else ring
  }

  lemma RingMember(s: State, ring: seq<nat>, p: nat) returns (i: nat)
    requires IsRing(s.procs, s.run_head, ring) && p in ring
    ensures i < |ring| && ring[i] == p && p in s.procs
    ensures s.procs[p].next == ring[if i + 1 < |ring| then i + 1 else 0]
    ensures s.procs[p].next == s.run_head <==> i == |ring| - 1
  {
    i :| i < |ring| && ring[i] == p;
    assert LinkAt(s.procs, ring, i);
  }

  lemma OtherEntryKeepsRing(procs: map<nat, Proc>, head: nat, ring: seq<nat>, a: nat, p: Proc)
    requires IsRing(procs, head, ring) && a !in ring
    ensures IsRing(procs[a := p], head, ring)
  {
    var procs1 := procs[a := p];
    forall i: nat | i < |ring| ensures LinkAt(procs1, ring, i) {
      assert LinkAt(procs, ring, i);
    }
  }

  lemma PublishExtendsRing(procs: map<nat, Proc>, head: nat, ring: seq<nat>, a: nat, last: nat)
    requires IsRing(procs, head, ring) && a !in ring && a in procs && procs[a] == Proc(|ring|, head)
    requires last == ring[|ring| - 1]
    ensures last in procs && IsRing(procs[last := procs[last].(next := a)], head, ring + [a])
  {
    var n := |ring| - 1;
    assert LinkAt(procs, ring, n);
    var procs1 := procs[last := procs[last].(next := a)];
    forall i: nat | i < |ring| + 1 ensures LinkAt(procs1, ring + [a], i) {
      if i < |ring| {
        assert LinkAt(procs, ring, i);
      }
    }
  }

  lemma EnabledSteps(s: State, ring: seq<nat>)
    requires Inv(s, ring)
    ensures s.cur_proc in s.procs
    ensures s.pc !in {Idle, Return, Clear} ==> s.new_proc in s.procs
    ensures s.pc in {Test, Advance, Publish} ==> s.proc in s.procs
  {
    var i := RingMember(s, ring, s.cur_proc);
    if s.pc in {Test, Advance, Publish} {
      var j := RingMember(s, ring, s.proc);
    }
  }

  /** Every event, wherever it comes, keeps the invariant. */
  lemma StepKeepsInv(s: State, ring: seq<nat>, e: Event)
    requires Inv(s, ring) && Enabled(s, e)
    ensures s.cur_proc in s.procs
    ensures s.pc !in {Idle, Return, Clear} ==> s.new_proc in s.procs
    ensures s.pc in {Test, Advance, Publish} ==> s.proc in s.procs
    ensures Inv(Step(s, e), RingAfter(s, ring, e))
  {
    EnabledSteps(s, ring);
    var i := RingMember(s, ring, s.cur_proc);
    if e.Code? {
      match s.pc
      case Idle =>
        forall k: nat | k < |ring| ensures ring[k] != e.block {
          assert LinkAt(s.procs, ring, k);
        }
      case Clear => OtherEntryKeepsRing(s.procs, s.run_head, ring, s.new_proc, Proc(0, 0));
      case TakePid =>
        OtherEntryKeepsRing(s.procs, s.run_head, ring, s.new_proc, s.procs[s.new_proc].(pid := s.cur_pid));
      case SetNext =>
        OtherEntryKeepsRing(s.procs, s.run_head, ring, s.new_proc, s.procs[s.new_proc].(next := s.run_head));
      case StartWalk =>
      case Test => var j := RingMember(s, ring, s.proc);
      case Advance => var j := RingMember(s, ring, s.proc);
      case Publish => PublishExtendsRing(s.procs, s.run_head, ring, s.new_proc, s.proc);
      case Return =>
    }
  }

  // -------------------------------------------------------------------- Runs

  ghost predicate IsRun(s: State, ring: seq<nat>, es: seq<Event>)
    requires Inv(s, ring)
    decreases |es|
  {
    es != [] ==>
      && Enabled(s, es[0])
      && (StepKeepsInv(s, ring, es[0]);
          IsRun(Step(s, es[0]), RingAfter(s, ring, es[0]), es[1..]))
  }

  ghost function RunEnd(s: State, ring: seq<nat>, es: seq<Event>): (r: (State, seq<nat>))
    requires Inv(s, ring) && IsRun(s, ring, es)
    decreases |es|
  {
    if es == [] then (s, ring)
    else
      StepKeepsInv(s, ring, es[0]);
      RunEnd(Step(s, es[0]), RingAfter(s, ring, es[0]), es[1..])
  }

  /** Over every run of statements and ticks, in any order: the published processes form one
      ring that contains the running one, and processes only ever join it at its end. */
  lemma {:induction false} RunKeepsRing(s: State, ring: seq<nat>, es: seq<Event>)
    requires Inv(s, ring) && IsRun(s, ring, es)
    ensures Inv(RunEnd(s, ring, es).0, RunEnd(s, ring, es).1)
    ensures ring <= RunEnd(s, ring, es).1
    decreases |es|
  {
    if es != [] {
      StepKeepsInv(s, ring, es[0]);
      RunKeepsRing(Step(s, es[0]), RingAfter(s, ring, es[0]), es[1..]);
    }
  }

  function IndexOf(ring: seq<nat>, p: nat): (i: nat)
    ensures i <= |ring| && (p in ring ==> i < |ring| && ring[i] == p)
  {
    if ring == [] then 0 else if ring[0] == p then 0 else 1 + IndexOf(ring[1..], p)
  }

  /** How many statements of init_thread are still to come: the walk is as long as the part of
      the ring behind it. */
  function Left(s: State, ring: seq<nat>): int {
    var n := |ring| - 1;
    match s.pc
    case Idle => 0
    case Return => 1
    case Publish => 2
    case Test => 2 * (n - IndexOf(ring, s.proc)) + 3
    case Advance => 2 * (n - IndexOf(ring, s.proc)) + 2
    case StartWalk => 2 * n + 4
    case SetNext => 2 * n + 5
    case TakePid => 2 * n + 6
    case Clear => 2 * n + 7
  }

  lemma IndexIs(s: State, ring: seq<nat>, p: nat, i: nat)
    requires IsRing(s.procs, s.run_head, ring) && i < |ring| && ring[i] == p
    ensures IndexOf(ring, p) == i
  {
    var j := IndexOf(ring, p);
    assert ring[j] == p;
  }

  /** Each statement brings the end one step nearer, and no tick moves it away. */
  lemma StepsCount(s: State, ring: seq<nat>, e: Event)
    requires Inv(s, ring) && Enabled(s, e) && s.pc != Idle
    ensures s.cur_proc in s.procs
    ensures s.pc !in {Idle, Return, Clear} ==> s.new_proc in s.procs
    ensures s.pc in {Test, Advance, Publish} ==> s.proc in s.procs
    ensures Left(Step(s, e), RingAfter(s, ring, e)) == Left(s, ring) - (if e == Timer then 0 else 1)
  {
    EnabledSteps(s, ring);
    if s.pc in {Test, Advance} {
      var j := RingMember(s, ring, s.proc);
      IndexIs(s, ring, s.proc, j);
      if j + 1 < |ring| {
        IndexIs(s, ring, ring[j + 1], j + 1);
      }
    } else if s.pc == StartWalk {
      IndexIs(s, ring, s.run_head, 0);
    }
  }

  function CodeCount(es: seq<Event>): nat {
    if es == [] then 0 else (if es[0].Code? then 1 else 0) + CodeCount(es[1..])
  }

  ghost predicate ReachesIdle(s: State, ring: seq<nat>, es: seq<Event>)
    requires Inv(s, ring) && IsRun(s, ring, es)
    decreases |es|
  {
    || s.pc == Idle
    || (es != [] && (StepKeepsInv(s, ring, es[0]);
                     ReachesIdle(Step(s, es[0]), RingAfter(s, ring, es[0]), es[1..])))
  }

  /** The walk terminates whatever the ticks do: init_thread returns after as many of its own
      statements as `Left` says. */
  lemma {:induction false} InsertionTerminates(s: State, ring: seq<nat>, es: seq<Event>)
    requires Inv(s, ring) && IsRun(s, ring, es) && CodeCount(es) >= Left(s, ring)
    ensures ReachesIdle(s, ring, es)
    decreases |es|
  {
    if s.pc != Idle {
      LeftIsPositive(s, ring);
      StepKeepsInv(s, ring, es[0]);
      StepsCount(s, ring, es[0]);
      InsertionTerminates(Step(s, es[0]), RingAfter(s, ring, es[0]), es[1..]);
    }
  }

  lemma LeftIsPositive(s: State, ring: seq<nat>)
    requires Inv(s, ring) && s.pc != Idle
    ensures Left(s, ring) >= 1
  {}

  // ---------------------------------------------------------------- Fairness

  /** The number of processes in the ring and the position of the running one. */
  ghost function ClockOf(s: State, ring: seq<nat>): S.Clock {
    S.Clock(|ring|, IndexOf(ring, s.cur_proc))
  }

  lemma IndexBelow(ring: seq<nat>, p: nat, q: nat)
    requires p in ring
    ensures IndexOf(ring, p) < |ring| && IndexOf(ring + [q], p) == IndexOf(ring, p)
  {
    if ring[0] != p {
      assert (ring + [q])[1..] == ring[1..] + [q];
      IndexBelow(ring[1..], p, q);
    }
  }

  /** A tick moves the clock on, wherever in init_thread it comes; the store of line 53 adds a
      process; no other statement changes it. */
  lemma StepIsClock(s: State, ring: seq<nat>, e: Event)
    requires Inv(s, ring) && Enabled(s, e)
    ensures s.cur_proc in s.procs
    ensures s.pc !in {Idle, Return, Clear} ==> s.new_proc in s.procs
    ensures s.pc in {Test, Advance, Publish} ==> s.proc in s.procs
    ensures S.ValidClock(ClockOf(s, ring))
    ensures ClockOf(Step(s, e), RingAfter(s, ring, e))
         == if e == Timer then S.Tick(ClockOf(s, ring))
            else if s.pc == Publish then S.Insert(ClockOf(s, ring))
            else ClockOf(s, ring)
  {
    EnabledSteps(s, ring);
    IndexBelow(ring, s.cur_proc, s.new_proc);
    var i := RingMember(s, ring, s.cur_proc);
    IndexIs(s, ring, s.cur_proc, i);
    if e == Timer {
      var j := if i + 1 < |ring| then i + 1 else 0;
      IndexIs(s, ring, ring[j], j);
      if j > 0 {
        S.ModIs(i + 1, |ring|, 0, i + 1);
      } else {
        S.ModIs(i + 1, |ring|, 1, 0);
      }
    }
  }

  /** The ticks and the insertions of a run, in order. */
  ghost function Happenings(s: State, ring: seq<nat>, es: seq<Event>): seq<S.Happening>
    requires Inv(s, ring) && IsRun(s, ring, es)
    decreases |es|
  {
    if es == [] then []
    else
      StepKeepsInv(s, ring, es[0]);
      (if es[0] == Timer then [S.Timer] else if s.pc == Publish then [S.Creation] else [])
        + Happenings(Step(s, es[0]), RingAfter(s, ring, es[0]), es[1..])
  }

  /** How many ticks of the run make `p` the running process. */
  ghost function TurnsOf(s: State, ring: seq<nat>, es: seq<Event>, p: nat): nat
    requires Inv(s, ring) && IsRun(s, ring, es)
    decreases |es|
  {
    if es == [] then 0
    else
      StepKeepsInv(s, ring, es[0]);
      (if es[0] == Timer && Step(s, es[0]).cur_proc == p then 1 else 0)
        + TurnsOf(Step(s, es[0]), RingAfter(s, ring, es[0]), es[1..], p)
  }

  lemma ConsHappening(c: S.Clock, c1: S.Clock, h: S.Happening, hs: seq<S.Happening>, p: nat)
    requires c.n > 0 && c1 == S.Next(c, h)
    ensures S.After(c, [h] + hs) == S.After(c1, hs)
    ensures S.Turns(c, [h] + hs, p) == (if h == S.Timer && c1.at == p then 1 else 0) + S.Turns(c1, hs, p)
  {
    assert ([h] + hs)[1..] == hs;
  }

  /** Every interleaved run is a run of the clock, with the same turns for every process. */
  lemma {:induction false} RunIsClockRun(s: State, ring: seq<nat>, es: seq<Event>, p: nat)
    requires Inv(s, ring) && IsRun(s, ring, es) && p in ring
    ensures S.ValidClock(ClockOf(s, ring))
    ensures ClockOf(RunEnd(s, ring, es).0, RunEnd(s, ring, es).1) == S.After(ClockOf(s, ring), Happenings(s, ring, es))
    ensures TurnsOf(s, ring, es, p) == S.Turns(ClockOf(s, ring), Happenings(s, ring, es), IndexOf(ring, p))
    decreases |es|
  {
    EnabledSteps(s, ring);
    IndexBelow(ring, s.cur_proc, s.new_proc);
    if es != [] {
      var e := es[0];
      StepKeepsInv(s, ring, e);
      StepIsClock(s, ring, e);
      var s1, ring1 := Step(s, e), RingAfter(s, ring, e);
      IndexBelow(ring, p, s.new_proc);
      RunIsClockRun(s1, ring1, es[1..], p);
      TurnIsIndex(s1, ring1, p);
      hide Inv, Step, IndexOf;
      var hs := Happenings(s1, ring1, es[1..]);
      if e == Timer {
        ConsHappening(ClockOf(s, ring), ClockOf(s1, ring1), S.Timer, hs, IndexOf(ring, p));
      } else if s.pc == Publish {
        ConsHappening(ClockOf(s, ring), ClockOf(s1, ring1), S.Creation, hs, IndexOf(ring, p));
      } else {
        assert [] + hs == hs;
      }
    }
  }

  lemma TurnIsIndex(s: State, ring: seq<nat>, p: nat)
    requires Inv(s, ring) && p in ring
    ensures s.cur_proc == p <==> ClockOf(s, ring).at == IndexOf(ring, p)
  {
    assert ring[IndexOf(ring, p)] == p;
  }

  /** Over every interleaved run without an insertion, k ticks advance the running process by
      k modulo n in the ring. */
  lemma TicksAdvanceRing(s: State, ring: seq<nat>, es: seq<Event>)
    requires Inv(s, ring) && IsRun(s, ring, es) && S.Count(Happenings(s, ring, es), S.Creation) == 0
    ensures var k := S.Count(Happenings(s, ring, es), S.Timer);
            RunEnd(s, ring, es).0.cur_proc == ring[(IndexOf(ring, s.cur_proc) + k) % |ring|]
  {
    EndsInRing(s, ring, es);
    CurIsInRing(s, ring);
    hide Inv, IsRun, RunEnd, Happenings, IndexOf;
    var hs, c := Happenings(s, ring, es), ClockOf(s, ring);
    RunIsClockRun(s, ring, es, s.cur_proc);
    S.OnlyTicks(c, hs);
    S.TicksAdvance(c, |hs|);
  }

  lemma CurIsInRing(s: State, ring: seq<nat>)
    requires Inv(s, ring)
    ensures s.cur_proc in ring && |ring| > 0
  {}

  lemma EndsInRing(s: State, ring: seq<nat>, es: seq<Event>)
    requires Inv(s, ring) && IsRun(s, ring, es)
    ensures var (t, ring1) := RunEnd(s, ring, es);
            t.cur_proc in ring1 && ring1[IndexOf(ring1, t.cur_proc)] == t.cur_proc && ring <= ring1
  {
    RunKeepsRing(s, ring, es);
  }

  /** ... and n ticks make every process of the ring the running one exactly once, whatever
      statements of init_thread run in between. */
  lemma EachProcessRunsOnce(s: State, ring: seq<nat>, es: seq<Event>, p: nat)
    requires Inv(s, ring) && IsRun(s, ring, es) && p in ring
    requires S.Count(Happenings(s, ring, es), S.Creation) == 0
    requires S.Count(Happenings(s, ring, es), S.Timer) == |ring|
    ensures TurnsOf(s, ring, es, p) == 1
  {
    var hs, c := Happenings(s, ring, es), ClockOf(s, ring);
    RunIsClockRun(s, ring, es, p);
    IndexBelow(ring, p, 0);
    S.OnlyTicks(c, hs);
    S.TurnsOfTicks(c, hs, IndexOf(ring, p));
    S.NextTurnSteps(c, IndexOf(ring, p));
  }

  /** Bounded waiting over every interleaved run: a process runs before more ticks have passed
      than its distance from the running one and the number of insertions together. */
  lemma WaitIsBounded(s: State, ring: seq<nat>, es: seq<Event>, p: nat)
    requires Inv(s, ring) && IsRun(s, ring, es) && p in ring && p != s.cur_proc
    requires S.Count(Happenings(s, ring, es), S.Timer)
          >= S.Wait(ClockOf(s, ring), IndexOf(ring, p)) + S.Count(Happenings(s, ring, es), S.Creation)
    ensures TurnsOf(s, ring, es, p) >= 1
  {
    var hs, c := Happenings(s, ring, es), ClockOf(s, ring);
    RunIsClockRun(s, ring, es, p);
    IndexBelow(ring, p, 0);
    TurnIsIndex(s, ring, p);
    S.WaitIsBounded(c, hs, IndexOf(ring, p));
    S.RunsInIff(c, hs, IndexOf(ring, p));
  }
}
