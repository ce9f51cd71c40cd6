/** `switch_to` of src/proc_s.s, the stack that `init_thread` prepares (src/process.c:32-46),
    and what a process finds when it runs again. */
module ContextSwitch {
  import opened Numerals

  // -------------------------------------------------------- Machine and code

  datatype Regs = Regs(esp: nat, ebp: uint32, ebx: uint32, esi: uint32, edi: uint32, eflags: uint32,
                       eax: uint32, ecx: uint32, eip: uint32)

  /** Memory as words by address, and the registers. Words that were never written are 0. */
  datatype Machine = Machine(mem: map<int, uint32>, regs: Regs)

  function Load(mem: map<int, uint32>, a: int): uint32 {
    if a in mem then mem[a] else 0
  }

  const STACK_SIZE := 8192
  /** The offset of `context` in struct process_t, and the size of the struct. */
  const CONTEXT := 16
  const STRUCT_SIZE := 44

  /** The registers of a processor and the memory it works on. */
  class Cpu {
    var esp: nat
    var ebp: uint32
    var ebx: uint32
    var esi: uint32
    var edi: uint32
    var eflags: uint32
    var eax: uint32
    var ecx: uint32
    var eip: uint32
    var mem: map<int, uint32>

    ghost function View(): Machine
      reads this
    {
      Machine(mem, Regs(esp, ebp, ebx, esi, edi, eflags, eax, ecx, eip))
    }

    method Push(w: uint32)
      requires esp >= 4
      modifies this`esp, this`mem
      ensures esp == old(esp) - 4 && mem == old(mem)[esp := w] && Load(mem, esp) == w
    {
      esp := esp - 4;
      mem := mem[esp := w];
    }

    method Pop() returns (w: uint32)
      modifies this`esp
      ensures w == Load(mem, old(esp)) && esp == old(esp) + 4
    {
      w := Load(mem, esp);
      esp := esp + 4;
    }

    /** src/proc_s.s:4-13: stores the context of the process that is left. */
    method SaveContext()
      requires 4 <= esp < TWO_TO_THE_32
      modifies this`eax, this`ecx, this`mem, this`esp
      ensures mem == Stored(old(View())) && esp == old(esp) && ecx == eflags
    {
      eax := Load(mem, esp + 4);
      ghost var m0, prev := mem, eax;
      mem := mem[eax := esp];
      mem := mem[eax + 4 := ebp];
      mem := mem[eax + 8 := ebx];
      mem := mem[eax + 12 := esi];
      mem := mem[eax + 16 := edi];
      assert mem == SavedFive(m0, prev, esp, ebp, ebx, esi, edi);
      Push(eflags);
      ecx := Pop();
      mem := mem[eax + 20 := ecx];
    }

    /** src/proc_s.s:15-26: loads the context of the process that is entered, and returns. */
    method LoadContext()
      requires 4 <= Load(mem, Load(mem, esp + 8))
      modifies this
      ensures View() == Entered(old(mem), Load(old(mem), old(esp) + 8), old(ecx))
    {
      hide Load;
      eax := Load(mem, esp + 8);
      esp := Load(mem, eax);
      ebp := Load(mem, eax + 4);
      ebx := Load(mem, eax + 8);
      esi := Load(mem, eax + 12);
      edi := Load(mem, eax + 16);
      eax := Load(mem, eax + 20);
      Push(eax);
      eflags := Pop();
      eip := Pop();
    }

    /** src/proc_s.s:3-26; on entry [esp] is the return address and the two words above it
        are the arguments. */
    method SwitchTo()
      requires 4 <= esp < TWO_TO_THE_32 && 4 <= TargetEsp(View())
      modifies this
      ensures View() == Switched(old(View()))
    {
      SaveContext();
      LoadContext();
    }

    /** `memset(new_proc, 0, sizeof(struct process_t))`. */
    method ClearStruct(p: nat)
      modifies this`mem
      ensures forall k :: 0 <= k < 11 ==> Load(mem, p + 4 * k) == 0
      ensures forall a :: !(p <= a < p + STRUCT_SIZE) ==> Load(mem, a) == Load(old(mem), a)
    {
      for i := 0 to 11
        invariant forall k :: 0 <= k < i ==> Load(mem, p + 4 * k) == 0
        invariant forall a :: !(p <= a < p + STRUCT_SIZE) ==> Load(mem, a) == Load(old(mem), a)
      {
        mem := mem[p + 4 * i := 0];
      }
    }

    /** src/process.c:32-47 on the block `p` that `kmalloc` has returned: fills in the struct
        and the three words on top of the stack. */
    method PrepareThread(p: nat, fn: uint32, exit: uint32, arg: uint32, cur: uint32, pid: uint32, head: uint32)
      requires p + STACK_SIZE <= TWO_TO_THE_32
      modifies this`mem
      ensures IsNewThread(mem, p, fn, exit, arg)
      ensures Load(mem, p + 4) == pid && Load(mem, p + 8) == cur && Load(mem, p + 40) == head
      ensures forall a :: !(p <= a < p + STACK_SIZE) ==> Load(mem, a) == Load(old(mem), a)
    {
      ClearStruct(p);
      assert forall k :: 0 <= k < 11 ==> Load(mem, p + 4 * k) == 0;
      assert Load(mem, p + 4 * 5) == 0 && Load(mem, p + 4 * 6) == 0;
      assert Load(mem, p + 4 * 7) == 0 && Load(mem, p + 4 * 8) == 0;
      FillStruct(p, cur, pid, head);
      PushArguments(p, fn, exit, arg);
    }

    /** src/process.c:34-37 and 44-47. */
    method FillStruct(p: nat, cur: uint32, pid: uint32, head: uint32)
      requires p + STACK_SIZE <= TWO_TO_THE_32
      modifies this`mem
      ensures Load(mem, p + 4) == pid && Load(mem, p + 8) == cur && Load(mem, p + 40) == head
      ensures Load(mem, p + CONTEXT) == p + STACK_SIZE - 12 && Load(mem, p + CONTEXT + 20) == 0x200
      ensures forall a :: (p + CONTEXT < a < p + CONTEXT + 20 || !(p <= a < p + STRUCT_SIZE)) ==>
                Load(mem, a) == Load(old(mem), a)
    {
      var RUNNABLE := 2;
      mem := mem[p := RUNNABLE][p + 8 := cur][p + 4 := pid][p + 12 := 0];
      mem := mem[p + CONTEXT := p + STACK_SIZE - 12][p + CONTEXT + 20 := 0x200][p + 40 := head];
    }

    /** src/process.c:40-43. */
    method PushArguments(p: nat, fn: uint32, exit: uint32, arg: uint32)
      modifies this`mem
      ensures Load(mem, p + STACK_SIZE - 12) == fn && Load(mem, p + STACK_SIZE - 8) == exit
      ensures Load(mem, p + STACK_SIZE - 4) == arg
      ensures forall a :: !(p + STACK_SIZE - 12 <= a < p + STACK_SIZE) ==> Load(mem, a) == Load(old(mem), a)
    {
      var stack_top := p + STACK_SIZE;
      stack_top := stack_top - 4;
      mem := mem[stack_top := arg];
      stack_top := stack_top - 4;
      mem := mem[stack_top := exit];
      stack_top := stack_top - 4;
      mem := mem[stack_top := fn];
    }
  }

  function SavedFive(mem: map<int, uint32>, ctx: nat, esp: uint32, ebp: uint32, ebx: uint32, esi: uint32, edi: uint32)
    : map<int, uint32>
  {
    mem[ctx := esp][ctx + 4 := ebp][ctx + 8 := ebx][ctx + 12 := esi][ctx + 16 := edi]
  }

  /** Memory once the context that is left is stored; the flags go through the stack. */
  function Stored(m: Machine): map<int, uint32>
    requires 4 <= m.regs.esp < TWO_TO_THE_32
  {
    var r, prev := m.regs, Load(m.mem, m.regs.esp + 4);
    SavedFive(m.mem, prev, r.esp, r.ebp, r.ebx, r.esi, r.edi)[r.esp - 4 := r.eflags][prev + 20 := r.eflags]
  }

  /** The machine that runs on from the context at `ctx`. */
  function Entered(mem: map<int, uint32>, ctx: nat, ecx: uint32): Machine
    requires 4 <= Load(mem, ctx)
  {
    var esp, flags := Load(mem, ctx), Load(mem, ctx + 20);
    var mem1 := mem[esp - 4 := flags];
    Machine(mem1, Regs(esp + 4, Load(mem, ctx + 4), Load(mem, ctx + 8), Load(mem, ctx + 12),
                       Load(mem, ctx + 16), flags, flags, ecx, Load(mem1, esp)))
  }

  function TargetEsp(m: Machine): nat
    requires 4 <= m.regs.esp < TWO_TO_THE_32
  {
    Load(Stored(m), Load(Stored(m), m.regs.esp + 8))
  }

  /** The whole of `switch_to`. */
  function Switched(m: Machine): Machine
    requires 4 <= m.regs.esp < TWO_TO_THE_32 && 4 <= TargetEsp(m)
  {
    Entered(Stored(m), Load(Stored(m), m.regs.esp + 8), m.regs.eflags)
  }

  // ------------------------------------------------------------ Processes

  /** The machine, the process that runs, and all processes by the base of their 8 KB block:
      struct process_t at the bottom, the stack growing down from the top. */
  datatype System = System(m: Machine, cur: nat, procs: set<nat>)

  predicate Apart(p: nat, q: nat) {
    p + STACK_SIZE <= q || q + STACK_SIZE <= p
  }

  /** A stack pointer with room for a push below it and `words` words above it. */
  predicate InStack(p: nat, esp: nat, words: nat) {
    p + STRUCT_SIZE + 4 <= esp && esp + 4 * words <= p + STACK_SIZE
  }

  ghost predicate SameBlock(p: nat, mem: map<int, uint32>, mem1: map<int, uint32>) {
    forall a :: p <= a < p + STACK_SIZE ==> Load(mem1, a) == Load(mem, a)
  }

  /** The blocks are disjoint and every process that does not run has a stack to return to. */
  ghost predicate Valid(s: System) {
    && s.cur in s.procs
    && (forall p :: p in s.procs ==> 4 <= p && p + STACK_SIZE <= TWO_TO_THE_32)
    && (forall p, q :: p in s.procs && q in s.procs && p != q ==> Apart(p, q))
    && (forall p :: p in s.procs && p != s.cur ==> InStack(p, Load(s.m.mem, p + CONTEXT), 1))
  }

  /** The context record of `p` holds `r`, and its stack from r.esp up is as in `frame`. */
  ghost predicate Holds(mem: map<int, uint32>, p: nat, r: Regs, frame: map<int, uint32>) {
    && Load(mem, p + CONTEXT) == r.esp
    && Load(mem, p + CONTEXT + 4) == r.ebp
    && Load(mem, p + CONTEXT + 8) == r.ebx
    && Load(mem, p + CONTEXT + 12) == r.esi
    && Load(mem, p + CONTEXT + 16) == r.edi
    && Load(mem, p + CONTEXT + 20) == r.eflags
    && InStack(p, r.esp, 1)
    && forall a :: r.esp <= a < p + STACK_SIZE ==> Load(mem, a) == Load(frame, a)
  }

  /** Process `p` is not running, and its block holds `r` and `frame`. */
  ghost predicate Parked(s: System, p: nat, r: Regs, frame: map<int, uint32>) {
    p in s.procs && p != s.cur && Holds(s.m.mem, p, r, frame)
  }

  /** What happens next: the running process, or an interrupt on its stack, does anything
      that leaves the blocks of the others alone; it creates a process; or it calls
      `switch_to` for another one. */
  datatype Event = Work | Create(p: nat, fn: uint32, exit: uint32, arg: uint32) | Enter(q: nat)

  /** The registers with which `init_thread` lets a thread start (src/process.c:32, 44, 46). */
  function InitialRegs(p: nat): Regs {
    Regs(p + STACK_SIZE - 12, 0, 0, 0, 0, 0x200, 0, 0, 0)
  }

  /** The call of `switch_to` in `change_proc`, src/process.c:62. */
  ghost predicate CallsSwitch(s: System, q: nat) {
    && q in s.procs && q != s.cur
    && InStack(s.cur, s.m.regs.esp, 3)
    && Load(s.m.mem, s.m.regs.esp + 4) == s.cur + CONTEXT
    && Load(s.m.mem, s.m.regs.esp + 8) == q + CONTEXT
  }

  /** A block that lines 32-46 of src/process.c have filled in. */
  ghost predicate IsNewThread(mem: map<int, uint32>, p: nat, fn: uint32, exit: uint32, arg: uint32) {
    var r := InitialRegs(p);
    && Load(mem, p + CONTEXT) == r.esp && Load(mem, p + CONTEXT + 4) == 0
    && Load(mem, p + CONTEXT + 8) == 0 && Load(mem, p + CONTEXT + 12) == 0
    && Load(mem, p + CONTEXT + 16) == 0 && Load(mem, p + CONTEXT + 20) == r.eflags
    && Load(mem, r.esp) == fn && Load(mem, r.esp + 4) == exit && Load(mem, r.esp + 8) == arg
  }

  ghost predicate Step(s: System, t: System, e: Event) {
    match e
    case Work =>
      && t.cur == s.cur && t.procs == s.procs
      && forall p :: p in s.procs && p != s.cur ==> SameBlock(p, s.m.mem, t.m.mem)
    case Create(p, fn, exit, arg) =>
      && t.cur == s.cur && t.procs == s.procs + {p}
      && 4 <= p && p + STACK_SIZE <= TWO_TO_THE_32
      && (forall q :: q in s.procs ==> q != p && Apart(p, q))
      && (forall q :: q in s.procs && q != s.cur ==> SameBlock(q, s.m.mem, t.m.mem))
      && IsNewThread(t.m.mem, p, fn, exit, arg)
    case Enter(q) =>
      && CallsSwitch(s, q) && t.cur == q && t.procs == s.procs
      && s.m.regs.esp < TWO_TO_THE_32 && 4 <= TargetEsp(s.m)
      && t.m == Switched(s.m)
  }

  // ---------------------------------------------------------- One switch

  /** What saving the context stores, word by word. */
  lemma StoredWords(m: Machine, prev: nat)
    requires 4 <= m.regs.esp < TWO_TO_THE_32 && prev == Load(m.mem, m.regs.esp + 4)
    requires prev + 24 <= m.regs.esp - 4
    ensures var mem, r := Stored(m), m.regs;
            && Load(mem, prev) == r.esp && Load(mem, prev + 4) == r.ebp && Load(mem, prev + 8) == r.ebx
            && Load(mem, prev + 12) == r.esi && Load(mem, prev + 16) == r.edi && Load(mem, prev + 20) == r.eflags
            && forall a :: !(prev <= a < prev + 24) && a != r.esp - 4 ==> Load(mem, a) == Load(m.mem, a)
  {}

  /** Saving a context touches the block of the process that is left only, and there only its
      context record and the word below its stack pointer. */
  lemma StoredInBlock(s: System, q: nat)
    requires Valid(s) && CallsSwitch(s, q)
    ensures s.m.regs.esp < TWO_TO_THE_32
    ensures Load(Stored(s.m), s.m.regs.esp + 8) == q + CONTEXT
    ensures forall a :: !(s.cur <= a < s.cur + STACK_SIZE) ==> Load(Stored(s.m), a) == Load(s.m.mem, a)
    ensures forall a :: s.m.regs.esp <= a < s.cur + STACK_SIZE ==> Load(Stored(s.m), a) == Load(s.m.mem, a)
  {
    StoredWords(s.m, s.cur + CONTEXT);
  }

  /** The memory after a switch: what saving the old context left, and one word more. */
  lemma SwitchedMemory(s: System, t: System, q: nat)
    requires Valid(s) && Step(s, t, Enter(q))
    ensures forall a :: a != Load(s.m.mem, q + CONTEXT) - 4 ==> Load(t.m.mem, a) == Load(Stored(s.m), a)
    ensures q + STRUCT_SIZE <= Load(s.m.mem, q + CONTEXT) - 4 < q + STACK_SIZE
  {
    StoredInBlock(s, q);
    assert Apart(s.cur, q);
  }

  /** A switch writes into the blocks of the two processes only, and into the one that is
      entered only below its stack pointer. */
  lemma SwitchWrites(s: System, t: System, q: nat)
    requires Valid(s) && Step(s, t, Enter(q))
    ensures forall a :: !(s.cur <= a < s.cur + STACK_SIZE) && a != Load(s.m.mem, q + CONTEXT) - 4 ==>
              Load(t.m.mem, a) == Load(s.m.mem, a)
    ensures q + STRUCT_SIZE <= Load(s.m.mem, q + CONTEXT) - 4 < q + STACK_SIZE
  {
    SwitchedMemory(s, t, q);
    StoredInBlock(s, q);
  }

  lemma HoldsInSameBlock(p: nat, r: Regs, frame: map<int, uint32>, mem: map<int, uint32>, mem1: map<int, uint32>)
    requires Holds(mem, p, r, frame) && SameBlock(p, mem, mem1)
    ensures Holds(mem1, p, r, frame)
  {}

  lemma StoredHolds(s: System, q: nat)
    requires Valid(s) && CallsSwitch(s, q)
    ensures s.m.regs.esp < TWO_TO_THE_32
    ensures Holds(Stored(s.m), s.cur, s.m.regs, s.m.mem)
  {
    StoredWords(s.m, s.cur + CONTEXT);
  }

  /** A switch parks the process that is left with its registers. */
  lemma SwitchParks(s: System, t: System, q: nat)
    requires Valid(s) && Step(s, t, Enter(q))
    ensures Parked(t, s.cur, s.m.regs, s.m.mem)
  {
    SwitchedMemory(s, t, q);
    StoredHolds(s, q);
    assert Apart(s.cur, q);
    HoldsInSameBlock(s.cur, s.m.regs, s.m.mem, Stored(s.m), t.m.mem);
  }

  /** A switch leaves the blocks of third processes alone. */
  lemma SwitchSparesOthers(s: System, t: System, q: nat, p: nat)
    requires Valid(s) && Step(s, t, Enter(q)) && p in s.procs && p != q && p != s.cur
    ensures SameBlock(p, s.m.mem, t.m.mem)
  {
    SwitchWrites(s, t, q);
    assert Apart(p, q) && Apart(p, s.cur);
  }

  lemma SwitchKeepsValid(s: System, t: System, q: nat)
    requires Valid(s) && Step(s, t, Enter(q))
    ensures Valid(t)
  {
    hide Switched, Stored, TargetEsp, Load;
    SwitchParks(s, t, q);
    forall p | p in t.procs && p != t.cur ensures InStack(p, Load(t.m.mem, p + CONTEXT), 1) {
      if p != s.cur {
        SwitchSparesOthers(s, t, q, p);
      }
    }
  }

  lemma WorkKeepsValid(s: System, t: System, e: Event)
    requires Valid(s) && Step(s, t, e) && !e.Enter?
    ensures Valid(t)
  {
    forall p | p in t.procs && p != t.cur ensures InStack(p, Load(t.m.mem, p + CONTEXT), 1) {
      if p in s.procs {
        assert SameBlock(p, s.m.mem, t.m.mem);
      }
    }
  }

  /** Validity is kept by every event. */
  lemma StepKeepsValid(s: System, t: System, e: Event)
    requires Valid(s) && Step(s, t, e)
    ensures Valid(t)
  {
    if e.Enter? {
      SwitchKeepsValid(s, t, e.q);
    } else {
      WorkKeepsValid(s, t, e);
    }
  }

  /** A parked process stays parked as it is until it is entered. */
  lemma StepKeepsParked(s: System, t: System, e: Event, p: nat, r: Regs, frame: map<int, uint32>)
    requires Valid(s) && Step(s, t, e) && Parked(s, p, r, frame) && e != Enter(p)
    ensures Parked(t, p, r, frame)
  {
    if e.Enter? {
      SwitchSparesOthers(s, t, e.q, p);
    }
    HoldsInSameBlock(p, r, frame, s.m.mem, t.m.mem);
  }

  /** Entering a parked process restores its registers and goes on at its return address. */
  lemma EnterRestores(s: System, t: System, p: nat, r: Regs, frame: map<int, uint32>)
    requires Valid(s) && Step(s, t, Enter(p)) && Parked(s, p, r, frame)
    ensures Resumed(t, p, r, frame)
  {
    hide Stored, Entered, Holds, Resumed;
    StoredInBlock(s, p);
    StoredSpares(s, p);
    HoldsInSameBlock(p, r, frame, s.m.mem, Stored(s.m));
    EnterHeld(Stored(s.m), p, r, frame, s.m.regs.eflags, t);
  }

  lemma EnterHeld(mem: map<int, uint32>, p: nat, r: Regs, frame: map<int, uint32>, ecx: uint32, t: System)
    requires Holds(mem, p, r, frame) && t.cur == p
    requires t.m == Entered(mem, p + CONTEXT, ecx)
    ensures Resumed(t, p, r, frame)
  {
    EnteredIs(mem, p + CONTEXT, ecx);
  }

  lemma StoredSpares(s: System, p: nat)
    requires Valid(s) && CallsSwitch(s, p)
    ensures s.m.regs.esp < TWO_TO_THE_32 && SameBlock(p, s.m.mem, Stored(s.m))
  {
    StoredInBlock(s, p);
    assert Apart(s.cur, p);
  }

  /** Where the machine goes on that enters a context. */
  lemma EnteredIs(mem: map<int, uint32>, ctx: nat, ecx: uint32)
    requires 4 <= Load(mem, ctx)
    ensures var n, t := Entered(mem, ctx, ecx).regs, Entered(mem, ctx, ecx);
            && n.esp == Load(mem, ctx) + 4 && n.eip == Load(mem, Load(mem, ctx))
            && n.ebp == Load(mem, ctx + 4) && n.ebx == Load(mem, ctx + 8) && n.esi == Load(mem, ctx + 12)
            && n.edi == Load(mem, ctx + 16) && n.eflags == Load(mem, ctx + 20)
            && forall a :: a >= Load(mem, ctx) ==> Load(t.mem, a) == Load(mem, a)
  {}

  /** The running process has the registers `r`, has returned from `switch_to`, and finds its
      stack as it was. */
  ghost predicate Resumed(t: System, p: nat, r: Regs, frame: map<int, uint32>) {
    var n := t.m.regs;
    && t.cur == p
    && n.esp == r.esp + 4 && n.eip == Load(frame, r.esp)
    && n.ebp == r.ebp && n.ebx == r.ebx && n.esi == r.esi && n.edi == r.edi && n.eflags == r.eflags
    && forall a :: n.esp <= a < p + STACK_SIZE ==> Load(t.m.mem, a) == Load(frame, a)
  }

  // ------------------------------------------------------------------- Runs

  ghost predicate IsRun(ss: seq<System>, es: seq<Event>) {
    && |ss| == |es| + 1
    && Valid(ss[0])
    && forall i: nat :: i < |es| ==> StepAt(ss, es, i)
  }

  ghost predicate StepAt(ss: seq<System>, es: seq<Event>, i: nat)
    requires i < |es| && |ss| == |es| + 1
  {
    Step(ss[i], ss[i + 1], es[i])
  }

  lemma {:induction false} RunIsValid(ss: seq<System>, es: seq<Event>, i: nat)
    requires IsRun(ss, es) && i <= |es|
    ensures Valid(ss[i])
    decreases i
  {
    if i > 0 {
      RunIsValid(ss, es, i - 1);
      assert StepAt(ss, es, i - 1);
      StepKeepsValid(ss[i - 1], ss[i], es[i - 1]);
    }
  }

  lemma {:induction false} StaysParked(ss: seq<System>, es: seq<Event>, i: nat, j: nat,
                                       p: nat, r: Regs, frame: map<int, uint32>)
    requires IsRun(ss, es) && i <= j <= |es|
    requires Parked(ss[i], p, r, frame)
    requires forall k :: i <= k < j ==> es[k] != Enter(p)
    ensures Parked(ss[j], p, r, frame)
    decreases j
  {
    if i < j {
      StaysParked(ss, es, i, j - 1, p, r, frame);
      RunIsValid(ss, es, j - 1);
      assert StepAt(ss, es, j - 1);
      StepKeepsParked(ss[j - 1], ss[j], es[j - 1], p, r, frame);
    }
  }

  lemma StepOfRun(ss: seq<System>, es: seq<Event>, i: nat) returns (s: System, t: System)
    requires IsRun(ss, es) && i < |es|
    ensures s == ss[i] && t == ss[i + 1] && Valid(s) && Step(s, t, es[i])
  {
    RunIsValid(ss, es, i);
    assert StepAt(ss, es, i);
    s, t := ss[i], ss[i + 1];
  }

  /** Over every run: a process that was left by a switch at step `i` and is entered again at
      step `j` sees the esp, ebp, ebx, esi, edi and eflags of its own last switch-out, goes on
      behind its own call, and finds its stack unchanged, whatever ran in between. */
  lemma ContextIsRestored(ss: seq<System>, es: seq<Event>, i: nat, j: nat, p: nat)
    requires IsRun(ss, es) && i < j < |es|
    requires ss[i].cur == p && es[i].Enter? && es[j] == Enter(p)
    requires forall k :: i < k < j ==> es[k] != Enter(p)
    ensures Resumed(ss[j + 1], p, ss[i].m.regs, ss[i].m.mem)
  {
    var r, frame := ss[i].m.regs, ss[i].m.mem;
    var s, t := StepOfRun(ss, es, i);
    SwitchParks(s, t, es[i].q);
    StaysParked(ss, es, i + 1, j, p, r, frame);
    var u, v := StepOfRun(ss, es, j);
    EnterRestores(u, v, p, r, frame);
  }

  lemma NewThreadIsParked(s: System, t: System, p: nat, fn: uint32, exit: uint32, arg: uint32)
    requires Valid(s) && Step(s, t, Create(p, fn, exit, arg))
    ensures Parked(t, p, InitialRegs(p), t.m.mem)
  {}

  /** Over every run: the first switch into a thread that was created at step `i` enters `fn`
      with the return address `thread_exit` and the first argument `arg`, interrupts on. */
  lemma ThreadStarts(ss: seq<System>, es: seq<Event>, i: nat, j: nat, p: nat, fn: uint32, exit: uint32, arg: uint32)
    requires IsRun(ss, es) && i < j < |es|
    requires es[i] == Create(p, fn, exit, arg) && es[j] == Enter(p)
    requires forall k :: i < k < j ==> es[k] != Enter(p)
    ensures var t := ss[j + 1];
            && t.cur == p && t.m.regs.eip == fn && t.m.regs.eflags == 0x200
            && Load(t.m.mem, t.m.regs.esp) == exit
            && Load(t.m.mem, t.m.regs.esp + 4) == arg
  {
    var s, t := StepOfRun(ss, es, i);
    NewThreadIsParked(s, t, p, fn, exit, arg);
    StaysParked(ss, es, i + 1, j, p, InitialRegs(p), t.m.mem);
    var u, v := StepOfRun(ss, es, j);
    EnterRestores(u, v, p, InitialRegs(p), t.m.mem);
  }
}
