/** The timer branch of src/kernel/arch/interrupts.c: one live register frame, shared by
    all tasks, behaves like a machine of its own for each of them. */
module ContextSwitch {
  import opened Basics
  import opened Scheduler

  const TIMER: nat := 32
  const SYSCALL: nat := 0x42

  /** What a task computes with. */
  datatype Registers = Registers(
    r15: nat, r14: nat, r13: nat, r12: nat, r11: nat, r10: nat, r9: nat, r8: nat,
    rbp: nat, rdi: nat, rsi: nat, rdx: nat, rcx: nat, rbx: nat, rax: nat,
    err: nat, rip: nat, cs: nat, rflags: nat, rsp: nat, ss: nat)

  /** The frame on the interrupt stack. */
  datatype Frame = Frame(registers: Registers, intno: nat)

  /** What the handler does after its timer branch. */
  datatype Exit = Eoi(line: nat) | Dispatch(rax: nat)

  datatype Machine = Machine(live: Frame, saved: map<Task, Frame>, prev: Option<Task>, sched: State)

  /** A timer interrupt: the hardware marks the live frame, the handler switches it. */
  function TimerStep(m: Machine): Machine
    requires 0 < |m.sched.processes| && m.sched.index <= |m.sched.processes|
    requires Tick(m.sched).current.Some? && Tick(m.sched).current.value in m.saved
    requires m.prev.Some? ==> m.prev.value in m.saved
  {
    var saved := if m.prev.Some? then m.saved[m.prev.value := m.live.(intno := TIMER)] else m.saved;
    var s := Tick(m.sched);
    Machine(saved[s.current.value], saved, s.current, s)
  }

  class Cpu {
    var live: Frame
    var saved: map<Task, Frame>
    var prev: Option<Task>
    var started: bool
    const sched: Sched

    constructor (sched: Sched, live: Frame, saved: map<Task, Frame>)
      ensures this.sched == sched && this.live == live && this.saved == saved && prev == None && !started
    {
      this.sched, this.live, this.saved, prev, started := sched, live, saved, None, false;
    }

    /** sched_start. */
    method Start()
      modifies this`started
      ensures started
    {
      started := true;
    }

    function Abs(): Machine
      reads this, sched
    {
      Machine(live, saved, prev, sched.Abs())
    }

    /** interrupts_handler.  The last test reads the frame that is
        live by then: after a timer interrupt, that of the process switched to. */
    method Handle(intno: nat) returns (exit: Exit)
      requires intno >= 32
      requires intno == TIMER && started ==>
                 && 0 < |sched.processes| && sched.index <= |sched.processes|
                 && Tick(sched.Abs()).current.Some? && Tick(sched.Abs()).current.value in saved
                 && (prev.Some? ==> prev.value in saved)
      modifies this`live, this`saved, this`prev, sched
      ensures intno == 32 && started ==> Abs() == TimerStep(old(Abs()))
      ensures intno != 32 || !started ==> Abs() == old(Abs()).(live := old(live).(intno := intno))
      ensures exit == if live.intno == 0x42 then Dispatch(live.registers.rax) else Eoi(live.intno)
    {
      live := live.(intno := intno);
      if live.intno == TIMER && started {
        if prev.Some? {
          saved := saved[prev.value := live];
        }
        var task := sched.TickOnce();
        prev := task;
        live := saved[task.value];
      }
      if live.intno == SYSCALL {
        exit := Dispatch(live.registers.rax);
      } else {
        exit := Eoi(live.intno);
      }
    }
  }

  // ----- Runs ----------------------------------------------------------------------------

  /** What can happen: the running task does one step of its own, whatever that makes of its registers (a
      computation, a load, the result of a system call); the timer fires; a task is pushed, or removed. */
  datatype Event = Step(f: Registers -> Registers) | Timer | Spawn(task: Task) | Remove(task: Task)

  /** The machine can run: the scheduler can go on, and every task in sight has a saved frame. */
  ghost predicate Sane(m: Machine)
  {
    && Going(m.sched) && m.prev == m.sched.current && (m.prev.Some? ==> m.prev.value in m.saved)
    && forall t :: t in m.sched.processes ==> t in m.saved
  }

  ghost predicate Enabled(m: Machine, e: Event)
  {
    match e
    case Step(f) => true
    case Timer => m.sched.processes != []
    case Spawn(t) => t in m.saved
    case Remove(t) => t !in m.sched.processes || m.sched.index < |m.sched.processes|
  }

  function Apply(m: Machine, e: Event): (m': Machine)
    requires Sane(m) && Enabled(m, e)
    ensures Sane(m') && m'.saved.Keys == m.saved.Keys
  {
    match e
    case Step(f) => if m.prev.Some? then m.(live := m.live.(registers := f(m.live.registers))) else m
    case Timer => TickReady(m.sched); TimerStep(m)
    case Spawn(t) => m.(sched := Push(m.sched, t))
    case Remove(t) =>
      RemoveKeepsBound(m.sched, t);
      OthersStay(m.sched.processes, t);
      m.(sched := Scheduler.Remove(m.sched, t))
  }

  /** Every event of the run can happen when its turn comes. */
  ghost predicate Legal(m: Machine, es: seq<Event>)
    requires Sane(m)
    decreases |es|
  {
    |es| > 0 ==> Enabled(m, es[0]) && Legal(Apply(m, es[0]), es[1..])
  }

  function Run(m: Machine, es: seq<Event>): (r: Machine)
    requires Sane(m) && Legal(m, es)
    ensures Sane(r) && r.saved.Keys == m.saved.Keys
    decreases |es|
  {
    if |es| == 0 then m else Run(Apply(m, es[0]), es[1..])
  }

  /** The steps of the run that were task `t`'s, in order. */
  function StepsOf(m: Machine, es: seq<Event>, t: Task): seq<Registers -> Registers>
    requires Sane(m) && Legal(m, es)
    decreases |es|
  {
    if |es| == 0 then []
    else (if es[0].Step? && m.prev == Some(t) then [es[0].f] else []) + StepsOf(Apply(m, es[0]), es[1..], t)
  }

  /** The registers that task `t` has, or will have when it is switched to. */
  function RegistersOf(m: Machine, t: Task): Registers
    requires t in m.saved
  {
    if m.prev == Some(t) then m.live.registers else m.saved[t].registers
  }

  /** A machine of its own that does the steps `fs` one after the other. */
  function Solo(fs: seq<Registers -> Registers>, x: Registers): Registers
  {
    if |fs| == 0 then x else Solo(fs[1..], fs[0](x))
  }

  /** However steps, timer interrupts, new and removed tasks interleave, each task's registers are those
      of a solo run of its own steps. */
  lemma {:induction false} Projection(m: Machine, es: seq<Event>, t: Task)
    requires Sane(m) && Legal(m, es) && t in m.saved
    ensures RegistersOf(Run(m, es), t) == Solo(StepsOf(m, es, t), RegistersOf(m, t))
    decreases |es|
  {
    if |es| > 0 {
      var m', rest := Apply(m, es[0]), StepsOf(Apply(m, es[0]), es[1..], t);
      Projection(m', es[1..], t);
      if es[0].Step? && m.prev == Some(t) {
        assert ([es[0].f] + rest)[1..] == rest;
      } else {
        assert [] + rest == rest;
      }
    }
  }

  /** A task is switched to with exactly the registers it had when it was last interrupted. */
  lemma Resumes(m: Machine)
    requires Sane(m) && m.sched.processes != []
    ensures var m' := TimerStep(m);
            && m'.prev.Some? && m'.prev.value in m.saved && m'.live.registers == RegistersOf(m, m'.prev.value)
            && forall t :: t in m.saved ==> RegistersOf(m', t) == RegistersOf(m, t)
  {
    TickReady(m.sched);
  }

  /** A saved frame is its process's first one or carries the timer's number. */
  lemma {:induction false} SavedNumbers(m: Machine, es: seq<Event>, t: Task)
    requires Sane(m) && Legal(m, es) && t in m.saved
    ensures Run(m, es).saved[t].intno in {m.saved[t].intno, TIMER}
    decreases |es|
  {
    if |es| > 0 {
      SavedNumbers(Apply(m, es[0]), es[1..], t);
    }
  }

  /** The handler's last test takes a timer interrupt for a system call exactly when it switches
      to another task whose saved frame carries that number; as no timer saves it, that is the
      first switch to a task whose initial frame happens to hold it. */
  lemma TimerDispatches(m0: Machine, es: seq<Event>)
    requires Sane(m0) && Legal(m0, es) && Run(m0, es).sched.processes != []
    ensures var m := Run(m0, es);
            var next := TimerStep(m).prev.value;
            TimerStep(m).live.intno == SYSCALL <==>
            m.prev != Some(next) && m.saved[next].intno == SYSCALL && m0.saved[next].intno == SYSCALL
  {
    var m := Run(m0, es);
    TickReady(m.sched);
    SavedNumbers(m0, es, Tick(m.sched).current.value);
  }

  /** Such a run: one process whose frame, as task_init leaves it, holds 0x42 for the interrupt's number.  The
      first timer interrupt switches to it and ends in a system call that it did not make. */
  lemma FirstSwitchDispatches(r: Registers, live: Frame)
    ensures var m := Machine(live, map[7 := Frame(r, SYSCALL)], None, State([7], 0, SWITCH_TICK - 1, None));
      Sane(m) && TimerStep(m).prev == Some(7) && TimerStep(m).live.intno == SYSCALL
  {
  }
}
