/**
 Interrupt entry and return, subroutine call and return, and why a program that
 is interrupted, however deeply, does not notice.
 */
module Interrupts {
  import opened CpuCore

  function HighByte(w: bv16): bv8 {
    (w >> 8) as bv8
  }

  function LowByte(w: bv16): bv8 {
    (w & 0xFF) as bv8
  }

  function Word(lo: bv8, hi: bv8): bv16 {
    (lo as bv16) | ((hi as bv16) << 8)
  }

  lemma WordOfBytes(w: bv16)
    ensures Word(LowByte(w), HighByte(w)) == w
  {
  }

  function Vector(mem: Memory, at: nat): bv16
    requires at < 0xFFFF
  {
    Word(mem[at], mem[at + 1])
  }

  function PushWord(c: Core, w: bv16): (r: Core)
  {
    Push(Push(c, HighByte(w)), LowByte(w))
  }

  function PopWord(c: Core): (r: (Core, bv16))
  {
    var (d, lo) := Pop(c);
    var (e, hi) := Pop(d);
    (e, Word(lo, hi))
  }

  /** The status byte an entry pushes: only BRK shows the break bit. */
  function SavedStatus(ps: bv8, brk: bool): bv8 {
    if brk then ps else ps & !AF_BREAK
  }

  /** The status a handler starts with: IRQs masked, and on CMOS decimal mode off. */
  function MaskedStatus(ps: bv8, cmos: bool): bv8 {
    if cmos then (ps | AF_INTERRUPT) & !AF_DECIMAL else ps | AF_INTERRUPT
  }

  /** Save PC and status, mask IRQs, jump through the vector. */
  function Enter(c: Core, cmos: bool, brk: bool, vector: nat): (r: Core)
    requires vector < 0xFFFF
  {
    var ps := PackPs(c.regs.ps, c.flags);
    var d := Push(PushWord(c, c.regs.pc), SavedStatus(ps, brk));
    d.(regs := d.regs.(ps := MaskedStatus(ps, cmos), pc := Vector(d.mem, vector)))
  }

  function CheckNmi(c: Core, cmos: bool): (r: Core)
  {
    if c.nmiFlank then Enter(c.(nmiFlank := false), cmos, false, NMI_VECTOR) else c
  }

  predicate TakesIrq(c: Core) {
    c.irq && c.regs.ps & AF_INTERRUPT == 0
  }

  function CheckIrq(c: Core, cmos: bool): (r: Core)
  {
    if TakesIrq(c) then Enter(c, cmos, false, IRQ_VECTOR) else c
  }

  /** BRK: as an interrupt, but past a padding byte and with the break bit saved. */
  function Brk(c: Core, cmos: bool): (r: Core)
  {
    Enter(c.(regs := c.regs.(pc := c.regs.pc + 1)), cmos, true, IRQ_VECTOR)
  }

  function Rti(c: Core): (r: Core)
  {
    var (d, ps) := Pop(c);
    var (e, pc) := PopWord(d);
    var status := ps | AF_RESERVED | AF_BREAK;
    e.(regs := e.regs.(ps := status, pc := pc), flags := UnpackPs(status))
  }

  function Before(w: bv16): bv16 { w - 1 }

  function After(w: bv16): bv16 { w + 1 }

  function Jsr(c: Core, target: bv16): (r: Core)
  {
    var d := PushWord(c, Before(c.regs.pc));
    d.(regs := d.regs.(pc := target))
  }

  function Rts(c: Core): (r: Core)
  {
    var (d, pc) := PopWord(c);
    d.(regs := d.regs.(pc := After(pc)))
  }

  /** After an NMI entry the mask is set, so one turn takes at most one interrupt. */
  lemma NmiMasksIrq(c: Core, cmos: bool)
    requires c.nmiFlank
    ensures !TakesIrq(CheckNmi(c, cmos))
  {
    MaskSticks(PackPs(c.regs.ps, c.flags));
  }

  lemma MaskSticks(ps: bv8)
    ensures forall cmos :: MaskedStatus(ps, cmos) & AF_INTERRUPT != 0
  {
    assert (ps | AF_INTERRUPT) & AF_INTERRUPT != 0;
    assert ((ps | AF_INTERRUPT) & !AF_DECIMAL) & AF_INTERRUPT != 0;
  }

  // ------------------------------------------------- interrupted programs

  /** What an instruction that leaves the stack alone can do; it stores outside page 1. */
  datatype Work = Work(a: bv8, x: bv8, y: bv8, ps: bv8, pc: bv16, flags: Flags, at: nat, v: bv8)

  /** The life of a handler: save and restore bytes, compute, be interrupted itself. */
  datatype Act = Save(b: bv8) | Drop | Compute(work: Work) | Serve(nmi: bool, body: seq<Act>)

  function DoWork(c: Core, w: Work): (r: Core) {
    c.(regs := Regs(w.a, w.x, w.y, w.ps, w.pc, c.regs.sp), flags := w.flags,
       mem := if w.at < 0x10000 && !OnStack(w.at) then c.mem[w.at := w.v] else c.mem)
  }

  /** A whole interrupt: entry, handler, return. */
  function ServeAll(c: Core, cmos: bool, nmi: bool, body: seq<Act>): (r: Core)
    decreases body, 1
  {
    Rti(PerformAll(Enter(c, cmos, false, if nmi then NMI_VECTOR else IRQ_VECTOR), cmos, body))
  }

  function PerformAll(c: Core, cmos: bool, acts: seq<Act>): (r: Core)
    decreases acts, 0
  {
    if acts == [] then c
    else
      var d := match acts[0]
        case Save(b) => Push(c, b)
        case Drop => Pop(c).0
        case Compute(w) => DoWork(c, w)
        case Serve(nmi, body) => ServeAll(c, cmos, nmi, body);
      PerformAll(d, cmos, acts[1..])
  }

  /** Starting `depth` bytes deep the acts use at most `room` bytes of stack and end level. */
  predicate Fits(acts: seq<Act>, depth: nat, room: nat)
    decreases acts
  {
    if acts == [] then depth == 0
    else
      match acts[0]
      case Save(_) => depth < room && Fits(acts[1..], depth + 1, room)
      case Drop => depth > 0 && Fits(acts[1..], depth - 1, room)
      case Compute(_) => Fits(acts[1..], depth, room)
      case Serve(_, body) =>
        depth + 3 <= room && Fits(body, 0, room - depth - 3) && Fits(acts[1..], depth, room)
  }

  /** The bytes an entry leaves on top: status, then PC, low byte first. */
  function Frame(c: Core, brk: bool): (f: seq<bv8>)
    ensures |f| == 3
  {
    [SavedStatus(PackPs(c.regs.ps, c.flags), brk), LowByte(c.regs.pc), HighByte(c.regs.pc)]
  }

  lemma EnterPushesFrame(c: Core, cmos: bool, brk: bool, vector: nat, below: nat)
    requires vector < 0xFFFF && below + 3 <= 0x100
    ensures var e := Enter(c, cmos, brk, vector);
            Up(e.regs.sp, 3) == c.regs.sp && Stacked(e, 3 + below) == Frame(c, brk) + Stacked(c, below)
  {
    var hi, lo := HighByte(c.regs.pc), LowByte(c.regs.pc);
    var ps := SavedStatus(PackPs(c.regs.ps, c.flags), brk);
    var c1 := Push(c, hi);
    PushOnTop(c, hi, below);
    PushOnTop(c1, lo, below + 1);
    PushOnTop(Push(c1, lo), ps, below + 2);
    ThreeBack(c.regs.sp);
  }

  lemma ThreeBack(sp: StackAddr)
    ensures Up(PushAt(PushAt(PushAt(sp))), 3) == sp && Up(PushAt(PushAt(sp)), 2) == sp
  {
    UpValue(PushAt(PushAt(PushAt(sp))), 3);
    UpValue(PushAt(PushAt(sp)), 2);
  }

  lemma PopTakesTop(c: Core, n: nat)
    requires n > 0
    ensures Pop(c).1 == Stacked(c, n)[0] && Stacked(Pop(c).0, n - 1) == Stacked(c, n)[1..]
  {
  }

  /** RTI takes a frame off the stack and restores from it. */
  lemma RtiPopsFrame(e: Core, c: Core, brk: bool, below: nat)
    requires Stacked(e, 3 + below) == Frame(c, brk) + Stacked(c, below)
    ensures var r := Rti(e);
            && r.regs.pc == c.regs.pc && r.regs.sp == Up(e.regs.sp, 3)
            && r.regs.ps == PackPs(c.regs.ps, c.flags) && SameFlags(r.flags, c.flags)
            && Stacked(r, below) == Stacked(c, below)
  {
    var d := Pop(e).0;
    var d1 := Pop(d).0;
    PopTakesTop(e, 3 + below);
    PopTakesTop(d, 2 + below);
    PopTakesTop(d1, 1 + below);
    WordOfBytes(c.regs.pc);
    StatusReturns(c.regs.ps, c.flags, brk);
    assert Stacked(e, 3 + below)[..3] == Frame(c, brk);
    assert Stacked(Rti(e), below) == Stacked(e, 3 + below)[3..];
    assert Up(e.regs.sp, 3) == Up(PopAt(e.regs.sp), 2) == Up(PopAt(PopAt(e.regs.sp)), 1);
  }

  lemma StatusReturns(ps: bv8, f: Flags, brk: bool)
    ensures SavedStatus(PackPs(ps, f), brk) | AF_RESERVED | AF_BREAK == PackPs(ps, f)
    ensures SameFlags(UnpackPs(PackPs(ps, f)), f)
  {
    UnpackAfterPack(ps, f);
  }

  /** Work outside page 1 does not show on the stack. */
  lemma WorkKeepsStack(c: Core, w: Work, n: nat)
    ensures Stacked(DoWork(c, w), n) == Stacked(c, n)
  {
    if w.at < 0x10000 && !OnStack(w.at) {
      TopUnaffected(c.mem, c.regs.sp, n, w.at, w.v);
    }
  }

  /** `depth` bytes up the stack pointer would be `sp`, with the bytes `view` above it. */
  ghost predicate Sees(c: Core, depth: nat, sp: StackAddr, view: seq<bv8>)
  {
    Up(c.regs.sp, depth) == sp && Stacked(c, depth + |view|)[depth..] == view
  }

  lemma SaveKeepsView(c: Core, b: bv8, depth: nat, sp: StackAddr, view: seq<bv8>)
    requires depth + |view| < 0x100 && Sees(c, depth, sp, view)
    ensures Sees(Push(c, b), depth + 1, sp, view)
  {
    PushOnTop(c, b, depth + |view|);
    assert PopAt(PushAt(c.regs.sp)) == c.regs.sp;
  }

  lemma DropKeepsView(c: Core, depth: nat, sp: StackAddr, view: seq<bv8>)
    requires depth > 0 && Sees(c, depth, sp, view)
    ensures Sees(Pop(c).0, depth - 1, sp, view)
  {
    PopTakesTop(c, depth + |view|);
  }

  lemma SameView(c: Core, d: Core, depth: nat, sp: StackAddr, view: seq<bv8>)
    requires d.regs.sp == c.regs.sp && Sees(c, depth, sp, view)
    requires Stacked(d, depth + |view|) == Stacked(c, depth + |view|)
    ensures Sees(d, depth, sp, view)
  {
  }

  /** A handler that ends level leaves SP and everything it did not push. */
  lemma {:induction false} LevelActsKeepStack(
      c: Core, cmos: bool, acts: seq<Act>, depth: nat, room: nat, sp: StackAddr, view: seq<bv8>)
    requires depth <= room && room + |view| <= 0x100
    requires Fits(acts, depth, room) && Sees(c, depth, sp, view)
    ensures Sees(PerformAll(c, cmos, acts), 0, sp, view)
    decreases acts, 0
  {
    if acts != [] {
      match acts[0]
      case Save(b) =>
        SaveKeepsView(c, b, depth, sp, view);
        LevelActsKeepStack(Push(c, b), cmos, acts[1..], depth + 1, room, sp, view);
      case Drop =>
        DropKeepsView(c, depth, sp, view);
        LevelActsKeepStack(Pop(c).0, cmos, acts[1..], depth - 1, room, sp, view);
      case Compute(w) =>
        WorkKeepsStack(c, w, depth + |view|);
        LevelActsKeepStack(DoWork(c, w), cmos, acts[1..], depth, room, sp, view);
      case Serve(nmi, body) =>
        var d := ServeAll(c, cmos, nmi, body);
        InterruptIsInvisible(c, cmos, nmi, body, room - depth - 3, depth + |view|);
        SameView(c, d, depth, sp, view);
        LevelActsKeepStack(d, cmos, acts[1..], depth, room, sp, view);
    }
  }

  /** What `r` has in common with `c` once an interrupt taken in `c` is over. */
  ghost predicate Resumes(c: Core, r: Core, below: nat)
  {
    && r.regs.pc == c.regs.pc && r.regs.sp == c.regs.sp
    && r.regs.ps == PackPs(c.regs.ps, c.flags) && SameFlags(r.flags, c.flags)
    && Stacked(r, below) == Stacked(c, below)
  }

  /**
   An interrupt at any depth, its handler interrupted in turn as often as the
   stack page allows, comes back with PC, SP and every status bit as they were,
   the decimal bit that CMOS entry clears included, and the stack below intact.
   */
  lemma {:induction false} InterruptIsInvisible(c: Core, cmos: bool, nmi: bool, body: seq<Act>, room: nat, below: nat)
    requires Fits(body, 0, room) && room + 3 + below <= 0x100
    ensures Resumes(c, ServeAll(c, cmos, nmi, body), below)
    decreases body, 2
  {
    EntryResumes(c, cmos, false, if nmi then NMI_VECTOR else IRQ_VECTOR, body, room, below);
  }

  lemma {:induction false} EntryResumes(
      c: Core, cmos: bool, brk: bool, vector: nat, body: seq<Act>, room: nat, below: nat)
    requires vector < 0xFFFF
    requires Fits(body, 0, room) && room + 3 + below <= 0x100
    ensures Resumes(c, Rti(PerformAll(Enter(c, cmos, brk, vector), cmos, body)), below)
    decreases body, 1
  {
    var e := Enter(c, cmos, brk, vector);
    EnterPushesFrame(c, cmos, brk, vector, below);
    LevelActsKeepStack(e, cmos, body, 0, room, e.regs.sp, Stacked(e, 3 + below));
    RtiPopsFrame(PerformAll(e, cmos, body), c, brk, below);
  }

  /** BRK and RTI likewise, one byte further on. */
  lemma BrkReturns(c: Core, cmos: bool, body: seq<Act>, room: nat, below: nat)
    requires Fits(body, 0, room) && room + 3 + below <= 0x100
    ensures Resumes(c.(regs := c.regs.(pc := c.regs.pc + 1)), Rti(PerformAll(Brk(c, cmos), cmos, body)), below)
  {
    EntryResumes(c.(regs := c.regs.(pc := c.regs.pc + 1)), cmos, true, IRQ_VECTOR, body, room, below);
  }

  lemma PushedWord(c: Core, w: bv16, below: nat)
    requires 2 + below <= 0x100
    ensures var j := PushWord(c, w);
            && Stacked(j, 2 + below) == [LowByte(w), HighByte(w)] + Stacked(c, below)
            && Up(j.regs.sp, 2) == c.regs.sp
  {
    var hi, lo := HighByte(w), LowByte(w);
    PushOnTop(c, hi, below);
    PushOnTop(Push(c, hi), lo, below + 1);
    ThreeBack(c.regs.sp);
  }

  lemma PoppedWord(e: Core, w: bv16, rest: seq<bv8>)
    requires Stacked(e, 2 + |rest|) == [LowByte(w), HighByte(w)] + rest
    ensures var (d, v) := PopWord(e);
            v == w && d.regs.sp == Up(e.regs.sp, 2) && Stacked(d, |rest|) == rest
  {
    PopTakesTop(e, 2 + |rest|);
    PopTakesTop(Pop(e).0, 1 + |rest|);
    assert Stacked(e, 2 + |rest|)[2..] == rest;
    WordOfBytes(w);
    assert Up(e.regs.sp, 2) == Up(PopAt(e.regs.sp), 1) == PopAt(PopAt(e.regs.sp));
  }

  /** A word pushed before some level acts is popped after them. */
  lemma WordReturns(c: Core, w: bv16, j: Core, cmos: bool, body: seq<Act>, room: nat, below: nat)
    requires Fits(body, 0, room) && room + 2 + below <= 0x100
    requires j == PushWord(c, w).(regs := j.regs) && j.regs.sp == PushWord(c, w).regs.sp
    ensures var (d, v) := PopWord(PerformAll(j, cmos, body));
            v == w && d.regs.sp == c.regs.sp && Stacked(d, below) == Stacked(c, below)
  {
    var view := Stacked(j, 2 + below);
    PushedWord(c, w, below);
    LevelActsKeepStack(j, cmos, body, 0, room, j.regs.sp, view);
    PoppedWord(PerformAll(j, cmos, body), w, Stacked(c, below));
  }

  lemma DownAndUp(w: bv16)
    ensures After(Before(w)) == w
  {
  }

  /** A subroutine that ends level returns to the instruction after its call, the stack below intact. */
  lemma RtsReturns(c: Core, cmos: bool, target: bv16, body: seq<Act>, room: nat, below: nat)
    requires Fits(body, 0, room) && room + 2 + below <= 0x100
    ensures var r := Rts(PerformAll(Jsr(c, target), cmos, body));
            r.regs.pc == c.regs.pc && r.regs.sp == c.regs.sp && Stacked(r, below) == Stacked(c, below)
  {
    var w := Before(c.regs.pc);
    var e := PerformAll(Jsr(c, target), cmos, body);
    var d := PopWord(e).0;
    assert PopWord(e).1 == w && d.regs.sp == c.regs.sp && Stacked(d, below) == Stacked(c, below) by {
      WordReturns(c, w, Jsr(c, target), cmos, body, room, below);
    }
    assert After(w) == c.regs.pc by { DownAndUp(c.regs.pc); }
  }
}
