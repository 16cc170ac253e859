/**
 The instruction loop and its drivers as the emulator runs them: a batch, a
 slice, and the frame that strings slices together between events. The batch
 and the frame are proved to end in one and the same state.
 */
module CpuLoop {
  import opened CpuCore
  import opened Interrupts
  import opened Slices

  class Cpu<W> {
    /** Fixed for a machine: the opcode table, its kind, and when some card next wants service. */
    const instr: Instr<W>
    const cmos: bool
    const nextEvent: Machine<W> -> Wake

    var regs: Regs
    var mem: Memory
    var nmiFlank: bool
    var irq: bool
    var world: W

    /** The loop's own context. */
    var flags: Flags
    var loopCycles: nat

    var cumulativeCycles: nat
    var cyclesSubmitted: nat
    var cyclesExecuted: nat
    var cyclesLimit: nat
    var inSlice: bool

    constructor (instr: Instr<W>, cmos: bool, nextEvent: Machine<W> -> Wake, m: Machine<W>)
      ensures this.instr == instr && this.cmos == cmos && MachineNow() == m
      ensures !inSlice && cyclesExecuted == 0 && cumulativeCycles == 0
    {
      this.instr, this.cmos, this.nextEvent := instr, cmos, nextEvent;
      regs, mem, nmiFlank, irq, world := m.regs, m.mem, m.nmiFlank, m.irq, m.world;
      flags, loopCycles := RawFlags(0, 0, 0, 0), 0;
      cumulativeCycles, cyclesSubmitted, cyclesExecuted, cyclesLimit := 0, 0, 0, 0;
      inSlice := false;
    }

    function MachineNow(): Machine<W>
      reads this
    {
      Machine(regs, mem, nmiFlank, irq, world)
    }

    ghost function LoopNow(): Loop<W>
      reads this
    {
      Loop(MachineNow(), flags, loopCycles)
    }

    ghost function CoreNow(): Core
      reads this
    {
      Core(regs, flags, mem, nmiFlank, irq)
    }

    /** The cycle the current frame began at; nothing inside a frame moves it. */
    ghost function FrameStart(): int
      reads this
    {
      cumulativeCycles - cyclesExecuted
    }

    // ------------------------------------------------------------- stack

    method Push(b: bv8)
      modifies `regs, `mem
      ensures CoreNow() == CpuCore.Push(old(CoreNow()), b)
    {
      mem := mem[regs.sp := b];
      if regs.sp - 1 < STACK_BEGIN {
        regs := regs.(sp := STACK_END);
      } else {
        regs := regs.(sp := regs.sp - 1);
      }
    }

    method Pop() returns (b: bv8)
      modifies `regs
      ensures (CoreNow(), b) == CpuCore.Pop(old(CoreNow()))
    {
      regs := regs.(sp := if regs.sp >= STACK_END then STACK_BEGIN else regs.sp + 1);
      b := mem[regs.sp];
    }

    method PackStatus()
      modifies `regs
      ensures regs == old(regs).(ps := PackPs(old(regs.ps), flags))
    {
      regs := regs.(ps := PackPs(regs.ps, flags));
    }

    method UnpackStatus()
      modifies `flags
      ensures flags == UnpackPs(regs.ps)
    {
      flags := UnpackPs(regs.ps);
    }

    method PushPc()
      modifies `regs, `mem
      ensures CoreNow() == PushWord(old(CoreNow()), old(regs.pc))
    {
      Push(HighByte(regs.pc));
      Push(LowByte(regs.pc));
    }

    /** The common part of NMI, IRQ and BRK. */
    method EnterHandler(brk: bool, vector: nat)
      requires vector < 0xFFFF
      modifies `regs, `mem
      ensures CoreNow() == Interrupts.Enter(old(CoreNow()), cmos, brk, vector)
    {
      PushPc();
      PackStatus();
      Push(SavedStatus(regs.ps, brk));
      MaskAndJump(vector);
    }

    method MaskAndJump(vector: nat)
      requires vector < 0xFFFF
      modifies `regs
      ensures regs == old(regs).(ps := MaskedStatus(old(regs.ps), cmos), pc := Vector(mem, vector))
    {
      regs := regs.(ps := regs.ps | AF_INTERRUPT);
      if cmos {
        regs := regs.(ps := regs.ps & !AF_DECIMAL);
      }
      regs := regs.(pc := Vector(mem, vector));
    }

    method PollNmi()
      modifies `regs, `mem, `nmiFlank, `loopCycles
      ensures CoreNow() == CheckNmi(old(CoreNow()), cmos)
      ensures loopCycles == old(loopCycles) + if old(nmiFlank) then INTERRUPT_CYCLES else 0
    {
      if nmiFlank {
        nmiFlank := false;
        EnterHandler(false, NMI_VECTOR);
        loopCycles := loopCycles + 7;
      }
    }

    method PollIrq()
      modifies `regs, `mem, `loopCycles
      ensures CoreNow() == CheckIrq(old(CoreNow()), cmos)
      ensures loopCycles == old(loopCycles) + if old(TakesIrq(CoreNow())) then INTERRUPT_CYCLES else 0
    {
      if irq && regs.ps & AF_INTERRUPT == 0 {
        EnterHandler(false, IRQ_VECTOR);
        loopCycles := loopCycles + 7;
      }
    }

    method OpRti()
      modifies `regs, `flags
      ensures CoreNow() == Rti(old(CoreNow()))
    {
      var ps := Pop();
      regs := regs.(ps := ps | AF_RESERVED | AF_BREAK);
      UnpackStatus();
      var lo := Pop();
      var hi := Pop();
      regs := regs.(pc := Word(lo, hi));
    }

    method OpBrk()
      modifies `regs, `mem
      ensures CoreNow() == Brk(old(CoreNow()), cmos)
    {
      regs := regs.(pc := regs.pc + 1);
      EnterHandler(true, IRQ_VECTOR);
    }

    method OpJsr(addr: bv16)
      modifies `regs, `mem
      ensures CoreNow() == Jsr(old(CoreNow()), addr)
    {
      regs := regs.(pc := Before(regs.pc));
      PushPc();
      regs := regs.(pc := addr);
    }

    method OpRts()
      modifies `regs
      ensures CoreNow() == Rts(old(CoreNow()))
    {
      var lo := Pop();
      var hi := Pop();
      regs := regs.(pc := After(Word(lo, hi)));
    }

    // ------------------------------------------------------------ cycles

    /** A handler brings the counters up to the running count; the difference is counted once. */
    method CalcCycles(executed: nat)
      requires cyclesExecuted <= executed
      modifies `cyclesExecuted, `cumulativeCycles
      ensures cyclesExecuted == executed && FrameStart() == old(FrameStart())
    {
      var cycles := executed - cyclesExecuted;
      cyclesExecuted := cyclesExecuted + cycles;
      cumulativeCycles := cumulativeCycles + cycles;
    }

    /** Lower the running slice's bound to an absolute cycle; never raise it. */
    method LimitCycles(wake: Wake)
      modifies `cyclesLimit
      ensures !inSlice || wake.Never? ==> cyclesLimit == old(cyclesLimit)
      ensures inSlice && wake.At? ==>
        cyclesLimit == Min(old(cyclesLimit), Max(cyclesExecuted, wake.cycle - FrameStart()))
    {
      if !inSlice || wake.Never? {
        return;
      }
      var bound := cyclesExecuted;
      if wake.cycle > cumulativeCycles {
        bound := bound + (wake.cycle - cumulativeCycles);
      }
      if bound < cyclesLimit {
        cyclesLimit := bound;
      }
    }

    /** The calls an instruction's handlers make back, all at its first cycle. */
    method HandlerCalls(calls: seq<Call>)
      requires cyclesExecuted <= loopCycles
      modifies `cyclesExecuted, `cumulativeCycles, `cyclesLimit
      ensures cyclesExecuted <= loopCycles && FrameStart() == old(FrameStart())
      ensures !inSlice ==> cyclesLimit == old(cyclesLimit)
      ensures inSlice ==> SameBound(cyclesLimit, Lowered(old(cyclesLimit), FrameStart(), calls), loopCycles)
    {
      ghost var start, bound := FrameStart(), cyclesLimit;
      for i := 0 to |calls|
        invariant cyclesExecuted <= loopCycles && FrameStart() == start
        invariant !inSlice ==> cyclesLimit == bound
        invariant inSlice ==> SameBound(cyclesLimit, Lowered(bound, start, calls[..i]), loopCycles)
      {
        LoweredByOne(bound, start, calls, i);
        match calls[i]
        case Sync => CalcCycles(loopCycles);
        case Limit(wake) => LimitCycles(wake);
      }
      assert calls[..|calls|] == calls;
    }

    // -------------------------------------------------------------- loops

    method OneTurn()
      requires cyclesExecuted <= loopCycles
      modifies this
      ensures LoopNow() == Turn(instr, cmos, old(LoopNow()))
      ensures cyclesExecuted <= loopCycles && FrameStart() == old(FrameStart())
      ensures !inSlice ==> cyclesLimit == old(cyclesLimit)
      ensures inSlice ==>
        SameBound(cyclesLimit, Lowered(old(cyclesLimit), FrameStart(), Calls(instr, old(LoopNow()))), old(loopCycles))
      ensures inSlice == old(inSlice) && cyclesSubmitted == old(cyclesSubmitted)
    {
      Instruction();
      PollInterrupts();
    }

    /** Fetch and execute: what the opcode does, its handlers' calls, its cycles, and the flags packed. */
    method Instruction()
      requires cyclesExecuted <= loopCycles
      modifies `regs, `mem, `nmiFlank, `irq, `world, `flags
      modifies `cyclesExecuted, `cumulativeCycles, `cyclesLimit, `loopCycles
      ensures var e := instr(Look(old(LoopNow())));
              CoreNow() == Packed(e) && world == e.m.world && loopCycles == old(loopCycles) + e.cost
      ensures cyclesExecuted <= loopCycles && FrameStart() == old(FrameStart())
      ensures !inSlice ==> cyclesLimit == old(cyclesLimit)
      ensures inSlice ==>
        SameBound(cyclesLimit, Lowered(old(cyclesLimit), FrameStart(), Calls(instr, old(LoopNow()))), old(loopCycles))
    {
      var effect := instr(Look(Loop(MachineNow(), flags, loopCycles)));
      Adopt(effect);
      HandlerCalls(effect.calls);
      loopCycles := loopCycles + effect.cost;
    }

    /** Take over what the opcode handler did, and pack the flags. */
    method Adopt(effect: Effect<W>)
      modifies `regs, `mem, `nmiFlank, `irq, `world, `flags
      ensures CoreNow() == Packed(effect) && world == effect.m.world
    {
      regs, mem, nmiFlank, irq := effect.m.regs, effect.m.mem, effect.m.nmiFlank, effect.m.irq;
      world := effect.m.world;
      flags := effect.flags;
      PackStatus();
    }

    method PollInterrupts()
      modifies `regs, `mem, `nmiFlank, `loopCycles
      ensures CoreNow() == CheckIrq(CheckNmi(old(CoreNow()), cmos), cmos)
      ensures loopCycles == old(loopCycles) + old(InterruptCost(CoreNow(), cmos))
    {
      PollNmi();
      PollIrq();
    }

    /**
     The do-while loop. The bound is read again each turn, since a handler may
     have lowered it: in a slice the loop ends where the lowered bounds say, and
     in an uncut batch, where nothing lowers it, at the bound it was given.
     */
    method ExecuteLoop(start: nat)
      requires cyclesExecuted <= start
      modifies this
      ensures cyclesExecuted <= loopCycles && FrameStart() == old(FrameStart())
      ensures var first := Slices.Enter(old(MachineNow()), start);
              LoopNow() == Destination(first, old(inSlice), old(cyclesLimit), FrameStart())
      ensures inSlice == old(inSlice) && cyclesSubmitted == old(cyclesSubmitted)
    {
      loopCycles := start;
      UnpackStatus();
      ghost var end := Destination(LoopNow(), inSlice, cyclesLimit, FrameStart());
      Step();
      while loopCycles < cyclesLimit
        invariant cyclesExecuted <= loopCycles && FrameStart() == old(FrameStart())
        invariant inSlice == old(inSlice) && cyclesSubmitted == old(cyclesSubmitted)
        invariant end == if loopCycles < cyclesLimit then Destination(LoopNow(), inSlice, cyclesLimit, FrameStart())
                         else LoopNow()
        decreases cyclesLimit - loopCycles
      {
        Step();
      }
    }

    /** Where the loop should end: at the bound as it is lowered, or, uncut, at the bound as it is. */
    ghost function Destination(l: Loop<W>, sliced: bool, bound: nat, start: int): Loop<W> {
      if sliced then SliceTo(instr, cmos, l, bound, start) else RunTo(instr, cmos, l, bound)
    }

    /** One turn brings the loop on towards its end, and there exactly when the count is up to the bound. */
    method Step()
      requires cyclesExecuted <= loopCycles
      modifies this
      ensures cyclesExecuted <= loopCycles && FrameStart() == old(FrameStart())
      ensures old(Destination(LoopNow(), inSlice, cyclesLimit, FrameStart()))
           == if loopCycles < cyclesLimit then Destination(LoopNow(), inSlice, cyclesLimit, FrameStart()) else LoopNow()
      ensures inSlice == old(inSlice) && cyclesSubmitted == old(cyclesSubmitted)
      ensures cyclesLimit <= Max(old(cyclesLimit), old(loopCycles)) && old(loopCycles) + 2 <= loopCycles
    {
      TurnCost(instr, cmos, LoopNow());
      OneTurn();
    }

    /** One uncut batch. */
    method Execute(total: nat) returns (executed: nat)
      requires !inSlice
      modifies this
      ensures var end := RunTo(instr, cmos, Slices.Enter(old(MachineNow()), 0), total);
              MachineNow() == end.m && executed == end.executed
      ensures cumulativeCycles == old(cumulativeCycles) + executed && !inSlice
    {
      cyclesSubmitted := total;
      cyclesExecuted := 0;
      cyclesLimit := total;
      ExecuteLoop(0);
      executed := loopCycles;
      var remaining := executed - cyclesExecuted;
      cumulativeCycles := cumulativeCycles + remaining;
    }

    method BeginFrame(frame: nat)
      modifies `cyclesSubmitted, `cyclesExecuted
      ensures cyclesSubmitted == frame && cyclesExecuted == 0
    {
      cyclesSubmitted := frame;
      cyclesExecuted := 0;
    }

    /**
     One slice: on to the first instruction boundary at or after `until` or the
     frame's end, or after wherever a handler has lowered the bound by then. The
     frame finished from there is the frame finished from the start.
     */
    method ExecuteSlice(frame: nat, until: Wake) returns (executed: nat)
      requires !inSlice
      modifies this
      ensures var first := Slices.Enter(old(MachineNow()), old(cyclesExecuted));
              var end := SliceTo(instr, cmos, first, Lowered(frame, FrameStart(), [Limit(until)]), FrameStart());
              MachineNow() == end.m && executed == end.executed
      ensures SameEnd(Finish(instr, cmos, Slices.Enter(MachineNow(), cyclesExecuted), frame),
                      RunTo(instr, cmos, Slices.Enter(old(MachineNow()), old(cyclesExecuted)), frame))
      ensures executed == cyclesExecuted && FrameStart() == old(FrameStart())
      ensures old(cyclesExecuted) + 2 <= executed <= Max(frame - 1, old(cyclesExecuted)) + 16
      ensures until.At? ==> executed <= Max(until.cycle - FrameStart() - 1, old(cyclesExecuted)) + 16
      ensures !inSlice && cyclesSubmitted == old(cyclesSubmitted)
    {
      SliceEnd(instr, cmos, Slices.Enter(MachineNow(), cyclesExecuted), frame, until, FrameStart());
      executed := RunSlice(frame, until);
    }

    method RunSlice(frame: nat, until: Wake) returns (executed: nat)
      requires !inSlice
      modifies this
      ensures var first := Slices.Enter(old(MachineNow()), old(cyclesExecuted));
              var end := SliceTo(instr, cmos, first, Lowered(frame, FrameStart(), [Limit(until)]), FrameStart());
              MachineNow() == end.m && executed == end.executed
      ensures executed == cyclesExecuted && FrameStart() == old(FrameStart())
      ensures !inSlice && cyclesSubmitted == old(cyclesSubmitted)
    {
      inSlice := true;
      StartSlice(frame, until);
      ExecuteLoop(cyclesExecuted);
      executed := loopCycles;
      EndSlice(executed);
    }

    method StartSlice(frame: nat, until: Wake)
      requires inSlice
      modifies `cyclesLimit
      ensures var l, bound := Slices.Enter(MachineNow(), cyclesExecuted), Lowered(frame, FrameStart(), [Limit(until)]);
              Destination(l, inSlice, cyclesLimit, FrameStart()) == SliceTo(instr, cmos, l, bound, FrameStart())
    {
      cyclesLimit := frame;
      LimitCycles(until);
      LimitOnce(cyclesLimit, frame, FrameStart(), until, cyclesExecuted);
      BoundsBehindAreAlike(instr, cmos, Slices.Enter(MachineNow(), cyclesExecuted), cyclesLimit,
                           Lowered(frame, FrameStart(), [Limit(until)]), FrameStart());
    }

    /** Count what no handler has counted yet. */
    method EndSlice(executed: nat)
      requires cyclesExecuted <= executed
      modifies `cumulativeCycles, `cyclesExecuted, `inSlice
      ensures cyclesExecuted == executed && FrameStart() == old(FrameStart()) && !inSlice
    {
      var remaining := executed - cyclesExecuted;
      cumulativeCycles := cumulativeCycles + remaining;
      cyclesExecuted := executed;
      inSlice := false;
    }

    /**
     A frame: slices up to each card's next wake-up until the frame is used up, with
     cards served before each. It ends exactly where one uncut batch of the same
     length would.
     */
    method RunCycles(cycles: nat) returns (executed: nat, ghost stops: seq<Stop<W>>)
      requires !inSlice
      modifies this
      ensures cycles == 0 ==> executed == 0 && MachineNow() == old(MachineNow())
      ensures cycles > 0 ==>
        var end := RunTo(instr, cmos, Slices.Enter(old(MachineNow()), 0), cycles);
        MachineNow() == end.m && executed == end.executed
      ensures cumulativeCycles == old(cumulativeCycles) + executed && !inSlice
      ensures stops != [] && stops[0] == Stop(old(MachineNow()), 0)
      ensures stops[|stops| - 1] == Stop(MachineNow(), executed)
      ensures ServedInTurn(instr, cmos, nextEvent, cycles, old(cumulativeCycles), stops)
    {
      executed, stops := 0, [Stop(MachineNow(), 0)];
      if cycles == 0 {
        return;
      }
      BeginFrame(cycles);
      ghost var end := RunTo(instr, cmos, Slices.Enter(MachineNow(), 0), cycles);
      while executed < cycles
        invariant executed == cyclesExecuted && FrameStart() == old(cumulativeCycles) && !inSlice
        invariant SameEnd(Finish(instr, cmos, Slices.Enter(MachineNow(), executed), cycles), end)
        invariant stops != [] && stops[0] == Stop(old(MachineNow()), 0)
        invariant stops[|stops| - 1] == Stop(MachineNow(), executed)
        invariant ServedInTurn(instr, cmos, nextEvent, cycles, old(cumulativeCycles), stops)
        decreases cycles - executed
      {
        executed := ExecuteSlice(cycles, nextEvent(MachineNow()));
        stops := stops + [Stop(MachineNow(), executed)];
      }
    }
  }

  /** The bound, as far as it matters to a count that is going to be past `count`. */
  predicate SameBound(limit: int, bound: int, count: int) {
    limit == bound || (limit <= count && bound <= count)
  }

  lemma LimitOnce(limit: int, frame: int, start: int, until: Wake, executed: int)
    requires match until
             case Never => limit == frame
             case At(w) => limit == Min(frame, Max(executed, w - start))
    ensures SameBound(limit, Lowered(frame, start, [Limit(until)]), executed)
  {
    assert [Limit(until)][..0] == [];
    assert Lowered(frame, start, []) == frame;
  }

  /** Where a slice of a frame ends, and what that means for the rest of the frame. */
  lemma SliceEnd<W>(instr: Instr<W>, cmos: bool, first: Loop<W>, frame: nat, until: Wake, start: int)
    ensures var end := SliceTo(instr, cmos, first, Lowered(frame, start, [Limit(until)]), start);
            && first.executed + 2 <= end.executed <= Max(frame - 1, first.executed) + 16
            && (until.At? ==> end.executed <= Max(until.cycle - start - 1, first.executed) + 16)
            && SameEnd(Finish(instr, cmos, Slices.Enter(end.m, end.executed), frame), RunTo(instr, cmos, first, frame))
  {
    var bound := Lowered(frame, start, [Limit(until)]);
    if until.At? {
      CallIsHeard(frame, start, [Limit(until)], until.cycle);
    }
    SliceOvershoot(instr, cmos, first, bound, start);
    SliceIsPartOfTheFrame(instr, cmos, first, bound, start, frame);
    SpellingIsInvisible(instr, cmos, SliceTo(instr, cmos, first, bound, start), frame);
  }

  /** The same but for the spelling of the loop's own flags, which nothing reads after it. */
  ghost predicate SameEnd<W>(k: Loop<W>, l: Loop<W>) {
    k.m == l.m && k.executed == l.executed
  }

  /** Finishing a frame from a state entered anew: same machine, same count. */
  lemma SpellingIsInvisible<W>(instr: Instr<W>, cmos: bool, l: Loop<W>, limit: nat)
    requires InStep(l)
    ensures SameEnd(Finish(instr, cmos, Slices.Enter(l.m, l.executed), limit), Finish(instr, cmos, l, limit))
  {
    TurnIgnoresSpelling(instr, cmos, l.m, l.executed, UnpackPs(l.m.regs.ps), l.flags);
  }
}
