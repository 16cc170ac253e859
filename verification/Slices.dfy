/**
 A frame of emulation run as one batch or cut into slices. Here are the batch as
 a function, and what a cut can and cannot change; CpuLoop holds the code.
 */
module Slices {
  import opened CpuCore
  import opened Interrupts

  /** Everything that outlives a slice; `world` stands for the cards and the rest of the machine. */
  datatype Machine<W> = Machine(regs: Regs, mem: Memory, nmiFlank: bool, irq: bool, world: W)

  /** The state inside the instruction loop: the unpacked flags and the count so far in this frame. */
  datatype Loop<W> = Loop(m: Machine<W>, flags: Flags, executed: nat)

  /** What an opcode handler can see. It reads overflow and zero only as set or clear. */
  datatype View<W> = View(m: Machine<W>, carry: bool, sign: bool, overflow: bool, zero: bool, executed: nat)

  /** Base cycles of the opcode plus what its addressing mode or decimal mode adds. */
  type Cost = n: nat | 2 <= n <= 9 witness 2

  const INTERRUPT_CYCLES := 7

  /** When to stop for service: an absolute cycle, or not at all. */
  datatype Wake = Never | At(cycle: nat)

  /** Calls an I/O handler makes back into the core. */
  datatype Call = Sync | Limit(wake: Wake)

  datatype Effect<W> = Effect(m: Machine<W>, flags: Flags, cost: Cost, calls: seq<Call>)

  /** Fetch and execute one instruction. */
  type Instr<!W> = View<W> -> Effect<W>

  function Look<W>(l: Loop<W>): View<W> {
    View(l.m, l.flags.c != 0, l.flags.n != 0, l.flags.v != 0, l.flags.z != 0, l.executed)
  }

  /** The core as the interrupt checks find it: just after the flags were packed. */
  function Packed<W>(e: Effect<W>): Core {
    Core(e.m.regs.(ps := PackPs(e.m.regs.ps, e.flags)), e.flags, e.m.mem, e.m.nmiFlank, e.m.irq)
  }

  function InterruptCost(c: Core, cmos: bool): nat {
    (if c.nmiFlank then INTERRUPT_CYCLES else 0) +
    (if TakesIrq(CheckNmi(c, cmos)) then INTERRUPT_CYCLES else 0)
  }

  /** One turn of the loop: an instruction, then the interrupt lines. */
  function Turn<W>(instr: Instr<W>, cmos: bool, l: Loop<W>): Loop<W> {
    var e := instr(Look(l));
    var c := CheckIrq(CheckNmi(Packed(e), cmos), cmos);
    Loop(Machine(c.regs, c.mem, c.nmiFlank, c.irq, e.m.world), c.flags,
         l.executed + e.cost + InterruptCost(Packed(e), cmos))
  }

  /** Every turn takes 2 to 16 cycles: at most nine for the instruction and seven for one interrupt. */
  lemma TurnCost<W>(instr: Instr<W>, cmos: bool, l: Loop<W>)
    ensures l.executed + 2 <= Turn(instr, cmos, l).executed <= l.executed + 16
  {
    var c := Packed(instr(Look(l)));
    if c.nmiFlank {
      NmiMasksIrq(c, cmos);
    }
  }

  /** The uncut batch: turns until the count reaches `limit`, and at least one. */
  function RunTo<W>(instr: Instr<W>, cmos: bool, l: Loop<W>, limit: nat): Loop<W>
    decreases if l.executed < limit then limit - l.executed else 0
  {
    var t := Turn(instr, cmos, l);
    TurnCost(instr, cmos, l);
    if t.executed < limit then RunTo(instr, cmos, t, limit) else t
  }

  /** Finish a batch that may be finished already. */
  function Finish<W>(instr: Instr<W>, cmos: bool, l: Loop<W>, limit: nat): Loop<W> {
    if l.executed < limit then RunTo(instr, cmos, l, limit) else l
  }

  function Turns<W>(instr: Instr<W>, cmos: bool, l: Loop<W>, n: nat): Loop<W>
    decreases n
  {
    if n == 0 then l else Turns(instr, cmos, Turn(instr, cmos, l), n - 1)
  }

  // ------------------------------------------------- slices and their bounds

  /** The calls the next instruction's handlers make. */
  function Calls<W>(instr: Instr<W>, l: Loop<W>): seq<Call> {
    instr(Look(l)).calls
  }

  /** A bound after calls that ask for service; `start` is the absolute cycle the frame began at. */
  function Lowered(bound: int, start: int, calls: seq<Call>): (b: int)
    ensures b <= bound
  {
    if calls == [] then bound
    else
      var b := Lowered(bound, start, calls[..|calls| - 1]);
      match calls[|calls| - 1]
      case Limit(At(w)) => Min(b, w - start)
      case _ => b
  }

  function Min(x: int, y: int): int { if x < y then x else y }

  function Max(x: int, y: int): int { if x < y then y else x }

  /** One slice: turns until the count reaches the bound in force after the turn, and at least one. */
  function SliceTo<W>(instr: Instr<W>, cmos: bool, l: Loop<W>, bound: int, start: int): Loop<W>
    decreases if l.executed < bound then bound - l.executed else 0
  {
    var t, b := Turn(instr, cmos, l), Lowered(bound, start, Calls(instr, l));
    TurnCost(instr, cmos, l);
    if t.executed < b then SliceTo(instr, cmos, t, b, start) else t
  }

  /** The bound in force after `n` turns. */
  function InForce<W>(instr: Instr<W>, cmos: bool, l: Loop<W>, bound: int, start: int, n: nat): int
    decreases n
  {
    if n == 0 then bound
    else InForce(instr, cmos, Turn(instr, cmos, l), Lowered(bound, start, Calls(instr, l)), start, n - 1)
  }

  lemma LoweredByOne(bound: int, start: int, calls: seq<Call>, i: nat)
    requires i < |calls|
    ensures Lowered(bound, start, calls[..i + 1])
         == match calls[i]
            case Limit(At(w)) => Min(Lowered(bound, start, calls[..i]), w - start)
            case _ => Lowered(bound, start, calls[..i])
  {
    assert calls[..i + 1][..i] == calls[..i];
  }

  /** A call for service at `w` is heard, whatever calls surround it. */
  lemma {:induction false} CallIsHeard(bound: int, start: int, calls: seq<Call>, w: nat)
    requires Limit(At(w)) in calls
    ensures Lowered(bound, start, calls) <= w - start
  {
    var init := calls[..|calls| - 1];
    if calls[|calls| - 1] != Limit(At(w)) {
      assert calls == init + [calls[|calls| - 1]];
      CallIsHeard(bound, start, init, w);
    }
  }

  /** And nothing else lowers a bound: it is the old one or the least of the wake-ups. */
  lemma {:induction false} NothingElseIsHeard(bound: int, start: int, calls: seq<Call>)
    ensures Lowered(bound, start, calls) == bound
            || exists w: nat :: Limit(At(w)) in calls && Lowered(bound, start, calls) == w - start
    decreases |calls|
  {
    if calls != [] {
      var init, last := calls[..|calls| - 1], calls[|calls| - 1];
      assert calls == init + [last];
      NothingElseIsHeard(bound, start, init);
      if last.Limit? && last.wake.At? && Lowered(bound, start, calls) != Lowered(bound, start, init) {
        assert Limit(At(last.wake.cycle)) in calls;
      }
    }
  }

  /** After none of the first `n` turns but the last is the count up to the bound then in force. */
  ghost predicate RunsOn<W>(instr: Instr<W>, cmos: bool, l: Loop<W>, bound: int, start: int, n: nat) {
    forall k | 1 <= k < n :: Turns(instr, cmos, l, k).executed < InForce(instr, cmos, l, bound, start, k)
  }

  /** Each of the first `n` turns leaves a bound in force, or a count reached, that `end` is near to. */
  ghost predicate InTime<W>(instr: Instr<W>, cmos: bool, l: Loop<W>, bound: int, start: int, n: nat, end: int) {
    forall j: nat | j < n ::
      end <= Max(InForce(instr, cmos, l, bound, start, j + 1) - 1, Turns(instr, cmos, l, j).executed) + 16
  }

  /**
   A slice ends at the first instruction boundary at or after the bound then in
   force, which handlers may have lowered meanwhile, and no later than 16 cycles
   after what any turn on the way asked for or had reached.
   */
  lemma {:induction false} SliceEndsAtFirstBoundary<W>(instr: Instr<W>, cmos: bool, l: Loop<W>, bound: int, start: int)
    returns (n: nat)
    ensures n >= 1 && SliceTo(instr, cmos, l, bound, start) == Turns(instr, cmos, l, n)
    ensures InForce(instr, cmos, l, bound, start, n) <= SliceTo(instr, cmos, l, bound, start).executed
    ensures RunsOn(instr, cmos, l, bound, start, n)
    ensures InTime(instr, cmos, l, bound, start, n, SliceTo(instr, cmos, l, bound, start).executed)
    decreases if l.executed < bound then bound - l.executed else 0
  {
    var t, b := Turn(instr, cmos, l), Lowered(bound, start, Calls(instr, l));
    TurnCost(instr, cmos, l);
    FirstOf(instr, cmos, l, bound, start);
    if t.executed < b {
      var m := SliceEndsAtFirstBoundary(instr, cmos, t, b, start);
      SliceOvershoot(instr, cmos, t, b, start);
      RunsOnMore(instr, cmos, l, bound, start, m);
      InTimeMore(instr, cmos, l, bound, start, m, SliceTo(instr, cmos, t, b, start).executed);
      Later(instr, cmos, l, bound, start, m);
      n := m + 1;
    } else {
      n := 1;
    }
  }

  lemma RunsOnMore<W>(instr: Instr<W>, cmos: bool, l: Loop<W>, bound: int, start: int, m: nat)
    requires var t, b := Turn(instr, cmos, l), Lowered(bound, start, Calls(instr, l));
             t.executed < b && RunsOn(instr, cmos, t, b, start, m)
    ensures RunsOn(instr, cmos, l, bound, start, m + 1)
  {
    forall k | 1 <= k < m + 1 ensures Turns(instr, cmos, l, k).executed < InForce(instr, cmos, l, bound, start, k) {
      FirstOf(instr, cmos, l, bound, start);
      Later(instr, cmos, l, bound, start, k - 1);
    }
  }

  lemma InTimeMore<W>(instr: Instr<W>, cmos: bool, l: Loop<W>, bound: int, start: int, m: nat, end: int)
    requires var t, b := Turn(instr, cmos, l), Lowered(bound, start, Calls(instr, l));
             end <= b + 15 && InTime(instr, cmos, t, b, start, m, end)
    ensures InTime(instr, cmos, l, bound, start, m + 1, end)
  {
    var t, b := Turn(instr, cmos, l), Lowered(bound, start, Calls(instr, l));
    forall j: nat | j < m + 1
      ensures end <= Max(InForce(instr, cmos, l, bound, start, j + 1) - 1, Turns(instr, cmos, l, j).executed) + 16
    {
      FirstOf(instr, cmos, l, bound, start);
      if j > 0 {
        Later(instr, cmos, l, bound, start, j);
        Later(instr, cmos, l, bound, start, j - 1);
        assert end <= Max(InForce(instr, cmos, t, b, start, j) - 1, Turns(instr, cmos, t, j - 1).executed) + 16;
      }
    }
  }

  lemma FirstOf<W>(instr: Instr<W>, cmos: bool, l: Loop<W>, bound: int, start: int)
    ensures Turns(instr, cmos, l, 0) == l && Turns(instr, cmos, l, 1) == Turn(instr, cmos, l)
    ensures InForce(instr, cmos, l, bound, start, 0) == bound
    ensures InForce(instr, cmos, l, bound, start, 1) == Lowered(bound, start, Calls(instr, l))
  {
    var t, b := Turn(instr, cmos, l), Lowered(bound, start, Calls(instr, l));
    assert Turns(instr, cmos, t, 0) == t && InForce(instr, cmos, t, b, start, 0) == b;
  }

  lemma Later<W>(instr: Instr<W>, cmos: bool, l: Loop<W>, bound: int, start: int, k: nat)
    ensures Turns(instr, cmos, l, k + 1) == Turns(instr, cmos, Turn(instr, cmos, l), k)
    ensures InForce(instr, cmos, l, bound, start, k + 1)
         == InForce(instr, cmos, Turn(instr, cmos, l), Lowered(bound, start, Calls(instr, l)), start, k)
  {
  }

  lemma {:induction false} SliceOvershoot<W>(instr: Instr<W>, cmos: bool, l: Loop<W>, bound: int, start: int)
    ensures l.executed + 2 <= SliceTo(instr, cmos, l, bound, start).executed <= Max(bound - 1, l.executed) + 16
    decreases if l.executed < bound then bound - l.executed else 0
  {
    var t, b := Turn(instr, cmos, l), Lowered(bound, start, Calls(instr, l));
    TurnCost(instr, cmos, l);
    if t.executed < b {
      SliceOvershoot(instr, cmos, t, b, start);
    }
  }

  /** So every wake-up that a handler asks for during the slice ends it in time. */
  lemma WakeUpsAreMet<W>(instr: Instr<W>, cmos: bool, l: Loop<W>, bound: int, start: int) returns (n: nat)
    ensures n >= 1 && SliceTo(instr, cmos, l, bound, start) == Turns(instr, cmos, l, n)
    ensures forall j: nat, w: nat | j < n && Limit(At(w)) in Calls(instr, Turns(instr, cmos, l, j)) ::
      SliceTo(instr, cmos, l, bound, start).executed <= Max(w - start - 1, Turns(instr, cmos, l, j).executed) + 16
  {
    n := SliceEndsAtFirstBoundary(instr, cmos, l, bound, start);
    forall j: nat, w: nat | j < n && Limit(At(w)) in Calls(instr, Turns(instr, cmos, l, j))
      ensures SliceTo(instr, cmos, l, bound, start).executed
           <= Max(w - start - 1, Turns(instr, cmos, l, j).executed) + 16
    {
      InForceStep(instr, cmos, l, bound, start, j);
      CallIsHeard(InForce(instr, cmos, l, bound, start, j), start, Calls(instr, Turns(instr, cmos, l, j)), w);
    }
  }

  lemma {:induction false} InForceStep<W>(instr: Instr<W>, cmos: bool, l: Loop<W>, bound: int, start: int, j: nat)
    ensures InForce(instr, cmos, l, bound, start, j + 1)
         == Lowered(InForce(instr, cmos, l, bound, start, j), start, Calls(instr, Turns(instr, cmos, l, j)))
    decreases j
  {
    FirstOf(instr, cmos, l, bound, start);
    Later(instr, cmos, l, bound, start, j);
    if j > 0 {
      Later(instr, cmos, l, bound, start, j - 1);
      InForceStep(instr, cmos, Turn(instr, cmos, l), Lowered(bound, start, Calls(instr, l)), start, j - 1);
    }
  }

  /** A point of the frame at which cards are served. */
  datatype Stop<W> = Stop(m: Machine<W>, executed: nat)

  /** Where the next slice ends that goes on from a stop until `wake`. */
  ghost function NextStop<W>(instr: Instr<W>, cmos: bool, s: Stop<W>, frame: int, start: int, wake: Wake): Stop<W> {
    var end := SliceTo(instr, cmos, Enter(s.m, s.executed), Lowered(frame, start, [Limit(wake)]), start);
    Stop(end.m, end.executed)
  }

  /** Each stop of a frame follows the one before when some card then wants service, or a handler asks for it. */
  ghost predicate ServedInTurn<W>(
      instr: Instr<W>, cmos: bool, nextEvent: Machine<W> -> Wake, frame: int, start: int, stops: seq<Stop<W>>) {
    forall k | 0 < k < |stops| ::
      stops[k] == NextStop(instr, cmos, stops[k - 1], frame, start, nextEvent(stops[k - 1].m))
  }

  /** So no card waits longer than an instruction and an interrupt for a service it wants in the frame. */
  lemma ServedInTime<W>(
      instr: Instr<W>, cmos: bool, nextEvent: Machine<W> -> Wake, frame: int, start: int, stops: seq<Stop<W>>, k: nat)
    requires ServedInTurn(instr, cmos, nextEvent, frame, start, stops) && 0 < k < |stops|
    ensures stops[k - 1].executed + 2 <= stops[k].executed
    ensures nextEvent(stops[k - 1].m).At? ==>
              stops[k].executed <= Max(nextEvent(stops[k - 1].m).cycle - start - 1, stops[k - 1].executed) + 16
  {
    var s, wake := stops[k - 1], nextEvent(stops[k - 1].m);
    var bound := Lowered(frame, start, [Limit(wake)]);
    SliceOvershoot(instr, cmos, Enter(s.m, s.executed), bound, start);
    if wake.At? {
      CallIsHeard(frame, start, [Limit(wake)], wake.cycle);
    }
    assert stops[k] == NextStop(instr, cmos, s, frame, start, wake);
  }

  /** Wherever handlers made the slice end, finishing the frame from there is finishing it from the start. */
  lemma {:induction false} SliceIsPartOfTheFrame<W>(
      instr: Instr<W>, cmos: bool, l: Loop<W>, bound: int, start: int, frame: nat)
    requires bound <= frame
    ensures Finish(instr, cmos, SliceTo(instr, cmos, l, bound, start), frame) == RunTo(instr, cmos, l, frame)
    ensures InStep(SliceTo(instr, cmos, l, bound, start))
    decreases if l.executed < bound then bound - l.executed else 0
  {
    var t, b := Turn(instr, cmos, l), Lowered(bound, start, Calls(instr, l));
    TurnCost(instr, cmos, l);
    TurnInStep(instr, cmos, l);
    if t.executed < b {
      SliceIsPartOfTheFrame(instr, cmos, t, b, start, frame);
    }
  }

  /** Bounds that are not ahead are all alike: the slice is one turn. */
  lemma BoundsBehindAreAlike<W>(instr: Instr<W>, cmos: bool, l: Loop<W>, bound: int, other: int, start: int)
    requires bound == other || (bound <= l.executed && other <= l.executed)
    ensures SliceTo(instr, cmos, l, bound, start) == SliceTo(instr, cmos, l, other, start)
  {
    TurnCost(instr, cmos, l);
  }

  /** Entering the loop anew unpacks the flags from the status byte. */
  function Enter<W>(m: Machine<W>, executed: nat): Loop<W> {
    Loop(m, UnpackPs(m.regs.ps), executed)
  }

  // ----------------------------------------------------- what a cut costs

  lemma MaskKeepsFlags(ps: bv8, cmos: bool)
    ensures SameFlags(UnpackPs(MaskedStatus(ps, cmos)), UnpackPs(ps))
  {
    var masked := MaskedStatus(ps, cmos);
    assert masked & AF_CARRY == ps & AF_CARRY && masked & AF_SIGN == ps & AF_SIGN;
    assert masked & AF_OVERFLOW == ps & AF_OVERFLOW && masked & AF_ZERO == ps & AF_ZERO;
  }

  /** A loop whose status byte spells out its flags. */
  ghost predicate InStep<W>(l: Loop<W>) {
    SameFlags(UnpackPs(l.m.regs.ps), l.flags)
  }

  lemma EnterInStep(c: Core, cmos: bool, brk: bool, vector: nat)
    requires vector < 0xFFFF
    ensures var e := Interrupts.Enter(c, cmos, brk, vector);
            SameFlags(UnpackPs(e.regs.ps), e.flags)
  {
    UnpackAfterPack(c.regs.ps, c.flags);
    MaskKeepsFlags(PackPs(c.regs.ps, c.flags), cmos);
  }

  /** After every turn the status byte holds what the unpacked flags say. */
  lemma TurnInStep<W>(instr: Instr<W>, cmos: bool, l: Loop<W>)
    ensures InStep(Turn(instr, cmos, l))
  {
    var e := instr(Look(l));
    var c := Packed(e);
    UnpackAfterPack(e.m.regs.ps, e.flags);
    EnterInStep(c.(nmiFlank := false), cmos, false, NMI_VECTOR);
    EnterInStep(CheckNmi(c, cmos), cmos, false, IRQ_VECTOR);
  }

  /** A turn cannot tell one spelling of the flags from another. */
  lemma TurnIgnoresSpelling<W>(instr: Instr<W>, cmos: bool, m: Machine<W>, executed: nat, f: Flags, g: Flags)
    requires SameFlags(f, g)
    ensures Turn(instr, cmos, Loop(m, f, executed)) == Turn(instr, cmos, Loop(m, g, executed))
  {
    assert Look(Loop(m, f, executed)) == Look(Loop(m, g, executed));
  }

  /** So leaving the loop after a turn and entering it again changes nothing that follows. */
  lemma CutIsInvisible<W>(instr: Instr<W>, cmos: bool, l: Loop<W>, limit: nat)
    ensures var t := Turn(instr, cmos, l);
            RunTo(instr, cmos, Enter(t.m, t.executed), limit) == RunTo(instr, cmos, t, limit)
  {
    var t := Turn(instr, cmos, l);
    TurnInStep(instr, cmos, l);
    TurnIgnoresSpelling(instr, cmos, t.m, t.executed, UnpackPs(t.m.regs.ps), t.flags);
  }

  /** A frame cut at any earlier bound, and resumed, is the uncut frame. */
  lemma {:induction false} SplitRun<W>(instr: Instr<W>, cmos: bool, l: Loop<W>, bound: nat, limit: nat)
    requires bound <= limit
    ensures var cut := RunTo(instr, cmos, l, bound);
            RunTo(instr, cmos, l, limit)
            == if cut.executed < limit then RunTo(instr, cmos, Enter(cut.m, cut.executed), limit) else cut
    decreases if l.executed < bound then bound - l.executed else 0
  {
    var t := Turn(instr, cmos, l);
    TurnCost(instr, cmos, l);
    if t.executed < bound {
      SplitRun(instr, cmos, t, bound, limit);
    } else {
      CutIsInvisible(instr, cmos, l, limit);
    }
  }

  /** The slice loop on values: cut at each bound in turn, then at the frame's end. */
  function Sliced<W>(instr: Instr<W>, cmos: bool, m: Machine<W>, executed: nat, bounds: seq<nat>, limit: nat): Loop<W>
    decreases |bounds|
  {
    if bounds == [] then RunTo(instr, cmos, Enter(m, executed), limit)
    else
      var cut := RunTo(instr, cmos, Enter(m, executed), if bounds[0] < limit then bounds[0] else limit);
      if cut.executed < limit then Sliced(instr, cmos, cut.m, cut.executed, bounds[1..], limit) else cut
  }

  /** Whatever the bounds, the slices make up the uncut frame: same machine, same count. */
  lemma {:induction false} SlicesMakeTheFrame<W>(
      instr: Instr<W>, cmos: bool, m: Machine<W>, executed: nat, bounds: seq<nat>, limit: nat)
    ensures Sliced(instr, cmos, m, executed, bounds, limit) == RunTo(instr, cmos, Enter(m, executed), limit)
    decreases |bounds|
  {
    if bounds != [] {
      var bound := if bounds[0] < limit then bounds[0] else limit;
      var cut := RunTo(instr, cmos, Enter(m, executed), bound);
      SplitRun(instr, cmos, Enter(m, executed), bound, limit);
      if cut.executed < limit {
        SlicesMakeTheFrame(instr, cmos, cut.m, cut.executed, bounds[1..], limit);
      }
    }
  }

  /** A batch ends at the first instruction boundary at or after its bound, at most 15 cycles past it. */
  lemma {:induction false} EndsAtFirstBoundary<W>(instr: Instr<W>, cmos: bool, l: Loop<W>, limit: nat) returns (n: nat)
    ensures n >= 1 && RunTo(instr, cmos, l, limit) == Turns(instr, cmos, l, n)
    ensures limit <= RunTo(instr, cmos, l, limit).executed
    ensures forall k | 1 <= k < n :: Turns(instr, cmos, l, k).executed < limit
    ensures RunTo(instr, cmos, l, limit).executed <= (if l.executed < limit then limit + 15 else l.executed + 16)
    decreases if l.executed < limit then limit - l.executed else 0
  {
    var t := Turn(instr, cmos, l);
    TurnCost(instr, cmos, l);
    assert Turns(instr, cmos, l, 1) == Turns(instr, cmos, t, 0) == t;
    if t.executed < limit {
      var k := EndsAtFirstBoundary(instr, cmos, t, limit);
      n := k + 1;
      forall j | 1 <= j < n ensures Turns(instr, cmos, l, j).executed < limit {
        assert Turns(instr, cmos, l, j) == Turns(instr, cmos, t, j - 1);
        if j == 1 {
          assert Turns(instr, cmos, t, 0) == t;
        }
      }
    } else {
      n := 1;
    }
  }
}
