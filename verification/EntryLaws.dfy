/**
 Where interrupts, BRK and JSR go and what they leave, in the bits and bytes of the
 processor: the layout of the status byte, the vectors, and the effect of the two
 interrupt lines on a turn of the loop.
 */
module EntryLaws {
  import opened CpuCore
  import opened Interrupts
  import opened Slices

  /** N, V, Z and C of the packed status are bits 7, 6, 1 and 0; bits 5 and 4 are set; D and I, bits 3 and 2, stay. */
  lemma StatusLayout(ps: bv8, f: Flags)
    ensures var p := PackPs(ps, f);
            && (p & 0x80 != 0 <==> f.n != 0) && (p & 0x40 != 0 <==> f.v != 0)
            && (p & 0x02 != 0 <==> f.z != 0) && (p & 0x01 != 0 <==> f.c != 0)
            && p & 0x30 == 0x30 && p & 0x0C == ps & 0x0C
  {
  }

  lemma StatusUnpacked(ps: bv8)
    ensures var f := UnpackPs(ps);
            && (f.n != 0 <==> ps & 0x80 != 0) && (f.v != 0 <==> ps & 0x40 != 0)
            && (f.z != 0 <==> ps & 0x02 != 0) && (f.c != 0 <==> ps & 0x01 != 0)
  {
  }

  /** An instruction is shown each flag of the status byte in its place. */
  lemma LooksAtFlags<W>(m: Machine<W>, executed: nat)
    ensures var v := Look(Slices.Enter(m, executed));
            && v.carry == (m.regs.ps & 0x01 != 0) && v.zero == (m.regs.ps & 0x02 != 0)
            && v.overflow == (m.regs.ps & 0x40 != 0) && v.sign == (m.regs.ps & 0x80 != 0)
            && v.m == m && v.executed == executed
  {
    StatusUnpacked(m.regs.ps);
  }

  /** A word as its two bytes lie in memory, the low one first. */
  predicate WordAt(mem: Memory, at: nat, w: bv16)
    requires at < 0xFFFF
  {
    w == mem[at] as bv16 + mem[at + 1] as bv16 * 0x100
  }

  lemma WordIsSum(lo: bv8, hi: bv8)
    ensures Word(lo, hi) == lo as bv16 + hi as bv16 * 0x100
  {
  }

  lemma BytesOfWord(w: bv16)
    ensures w == LowByte(w) as bv16 + HighByte(w) as bv16 * 0x100
  {
  }

  /** A byte of the stack page is all that a push changes. */
  lemma PushKeepsOther(c: Core, b: bv8, a: nat)
    requires a < 0x10000 && !(0x100 <= a < 0x200)
    ensures Push(c, b).mem[a] == c.mem[a]
  {
  }

  lemma EnterKeepsOther(c: Core, cmos: bool, brk: bool, vector: nat, a: nat)
    requires vector < 0xFFFF && a < 0x10000 && !(0x100 <= a < 0x200)
    ensures Interrupts.Enter(c, cmos, brk, vector).mem[a] == c.mem[a]
  {
    var c1 := Push(c, HighByte(c.regs.pc));
    var c2 := Push(c1, LowByte(c.regs.pc));
    PushKeepsOther(c, HighByte(c.regs.pc), a);
    PushKeepsOther(c1, LowByte(c.regs.pc), a);
    PushKeepsOther(c2, SavedStatus(PackPs(c.regs.ps, c.flags), brk), a);
  }

  /** The status a handler starts with: I set, D clear on CMOS only, all else as it was. */
  predicate HandlerStatus(ps: bv8, was: bv8, cmos: bool) {
    ps == if cmos then (was & 0xF7) | 0x04 else was | 0x04
  }

  lemma MaskedIs(ps: bv8, cmos: bool)
    ensures HandlerStatus(MaskedStatus(ps, cmos), ps, cmos)
  {
  }

  /** The pushed status shows the break bit, bit 4, for BRK and not for an interrupt. */
  lemma SavedIs(ps: bv8, brk: bool)
    requires ps & 0x10 != 0
    ensures SavedStatus(ps, brk) == if brk then ps else ps - 0x10
  {
  }

  /** What an entry through `vector` does to the core `c`, whose flags pack to `status`. */
  ghost predicate Entered(c: Core, e: Core, status: bv8, cmos: bool, brk: bool, vector: nat)
    requires vector < 0xFFFF
  {
    && WordAt(c.mem, vector, e.regs.pc)
    && HandlerStatus(e.regs.ps, status, cmos)
    && Stacked(e, 3)[0] == (if brk then status else status - 0x10)
    && c.regs.pc == Stacked(e, 3)[1] as bv16 + Stacked(e, 3)[2] as bv16 * 0x100
    && Up(e.regs.sp, 3) == c.regs.sp
    && (e.regs.a, e.regs.x, e.regs.y, e.flags, e.irq) == (c.regs.a, c.regs.x, c.regs.y, c.flags, c.irq)
    && forall a | 0 <= a < 0x10000 && !(0x100 <= a < 0x200) :: e.mem[a] == c.mem[a]
  }

  /**
   An entry continues at the word in its vector, low byte first, with IRQs masked and
   on CMOS the decimal mode off, having pushed PC and the status, and changes nothing
   else.
   */
  lemma EntryGoesToVector(c: Core, cmos: bool, brk: bool, vector: nat)
    requires 0x200 <= vector < 0xFFFF
    ensures Entered(c, Interrupts.Enter(c, cmos, brk, vector), PackPs(c.regs.ps, c.flags), cmos, brk, vector)
  {
    var e, status := Interrupts.Enter(c, cmos, brk, vector), PackPs(c.regs.ps, c.flags);
    EnterPushesFrame(c, cmos, brk, vector, 0);
    assert Stacked(e, 3) == Frame(c, brk) + Stacked(c, 0) == Frame(c, brk);
    StatusLayout(c.regs.ps, c.flags);
    SavedIs(status, brk);
    MaskedIs(status, cmos);
    BytesOfWord(c.regs.pc);
    forall a | 0 <= a < 0x10000 && !(0x100 <= a < 0x200) ensures e.mem[a] == c.mem[a] {
      EnterKeepsOther(c, cmos, brk, vector, a);
    }
    EntryWord(c, cmos, brk, vector);
  }

  lemma EntryWord(c: Core, cmos: bool, brk: bool, vector: nat)
    requires 0x200 <= vector < 0xFFFF
    ensures WordAt(c.mem, vector, Interrupts.Enter(c, cmos, brk, vector).regs.pc)
  {
    EnterKeepsOther(c, cmos, brk, vector, vector);
    EnterKeepsOther(c, cmos, brk, vector, vector + 1);
    WordIsSum(c.mem[vector], c.mem[vector + 1]);
  }

  /** BRK goes through $FFFE, pushing the address behind its signature byte and the break bit. */
  lemma BrkGoes(c: Core, cmos: bool)
    ensures Entered(c.(regs := c.regs.(pc := c.regs.pc + 1)), Brk(c, cmos), PackPs(c.regs.ps, c.flags), cmos, true,
                    0xFFFE)
  {
    EntryGoesToVector(c.(regs := c.regs.(pc := c.regs.pc + 1)), cmos, true, 0xFFFE);
  }

  /** JSR continues at its target, and pushes the address before that of the next instruction. */
  lemma JsrGoes(c: Core, target: bv16)
    ensures var j := Jsr(c, target);
            && j.regs.pc == target && Up(j.regs.sp, 2) == c.regs.sp
            && Stacked(j, 2)[0] as bv16 + Stacked(j, 2)[1] as bv16 * 0x100 == LessOne(c.regs.pc)
  {
    var w := Before(c.regs.pc);
    PushedWord(c, w, 0);
    WordOnTop(PushWord(c, w), w, Stacked(c, 0));
    JumpKeepsStack(PushWord(c, w), target, 2);
  }

  function LessOne(w: bv16): bv16 {
    w - 1
  }

  lemma JumpKeepsStack(d: Core, target: bv16, n: nat)
    ensures Stacked(d.(regs := d.regs.(pc := target)), n) == Stacked(d, n)
  {
  }

  lemma WordOnTop(d: Core, w: bv16, rest: seq<bv8>)
    requires Stacked(d, 2) == [LowByte(w), HighByte(w)] + rest
    ensures w == Stacked(d, 2)[0] as bv16 + Stacked(d, 2)[1] as bv16 * 0x100
  {
    BytesOfWord(w);
  }

  /** RTI takes the status, with its constant bits 5 and 4 set, and then the address, low byte first. */
  lemma RtiGoes(c: Core)
    ensures var r, s := Rti(c), Stacked(c, 3);
            && r.regs.ps == s[0] | 0x30 && r.regs.pc == s[1] as bv16 + s[2] as bv16 * 0x100
            && r.regs.sp == Up(c.regs.sp, 3) && r.mem == c.mem && r.flags == UnpackPs(r.regs.ps)
            && (r.regs.a, r.regs.x, r.regs.y, r.nmiFlank, r.irq) == (c.regs.a, c.regs.x, c.regs.y, c.nmiFlank, c.irq)
  {
    var d := Pop(c).0;
    var e := Pop(d).0;
    PopTakesTop(c, 3);
    PopTakesTop(d, 2);
    PopTakesTop(e, 1);
    ThirdUp(c.regs.sp);
    WordIsSum(Stacked(c, 3)[1], Stacked(c, 3)[2]);
  }

  lemma ThirdUp(sp: StackAddr)
    ensures Up(sp, 3) == PopAt(PopAt(PopAt(sp))) && Up(sp, 2) == PopAt(PopAt(sp))
  {
    assert Up(PopAt(PopAt(PopAt(sp))), 0) == PopAt(PopAt(PopAt(sp)));
    assert Up(PopAt(PopAt(sp)), 1) == PopAt(PopAt(PopAt(sp)));
    assert Up(PopAt(PopAt(sp)), 0) == PopAt(PopAt(sp));
  }

  /** RTS takes the address and goes one further. */
  lemma RtsGoes(c: Core)
    ensures var r, s := Rts(c), Stacked(c, 2);
            && r.regs.pc == s[0] as bv16 + s[1] as bv16 * 0x100 + 1
            && r.regs.sp == Up(c.regs.sp, 2) && r.mem == c.mem && r.regs.ps == c.regs.ps && r.flags == c.flags
  {
    var d := Pop(c).0;
    PopTakesTop(c, 2);
    PopTakesTop(d, 1);
    ThirdUp(c.regs.sp);
    WordIsSum(Stacked(c, 2)[0], Stacked(c, 2)[1]);
  }

  // ------------------------------------------------------------ one turn

  /** What the interrupt lines make of the core `c`, whose flags pack to `status`. */
  ghost predicate Served(c: Core, d: Core, status: bv8, cmos: bool, irq: bool) {
    && (c.nmiFlank ==> Entered(c, d, status, cmos, false, 0xFFFA))
    && (!c.nmiFlank && irq ==> Entered(c, d, status, cmos, false, 0xFFFE))
    && (!c.nmiFlank && !irq ==> d == c)
    && !d.nmiFlank
  }

  lemma LinesServe(c: Core, cmos: bool, status: bv8)
    requires status == PackPs(c.regs.ps, c.flags)
    ensures Served(c, CheckIrq(CheckNmi(c, cmos), cmos), status, cmos, c.irq && c.regs.ps & 0x04 == 0)
    ensures InterruptCost(c, cmos) == if c.nmiFlank || (c.irq && c.regs.ps & 0x04 == 0) then 7 else 0
  {
    if c.nmiFlank {
      NmiMasksIrq(c, cmos);
      EntryGoesToVector(c.(nmiFlank := false), cmos, false, 0xFFFA);
      FlankIsNoMemory(c, 3);
    } else if TakesIrq(c) {
      EntryGoesToVector(c, cmos, false, 0xFFFE);
    }
  }

  lemma FlankIsNoMemory(c: Core, n: nat)
    ensures Stacked(c.(nmiFlank := false), n) == Stacked(c, n)
  {
  }

  lemma PackedOnce<W>(e: Effect<W>)
    ensures PackPs(Packed(e).regs.ps, Packed(e).flags) == PackPs(e.m.regs.ps, e.flags)
    ensures Packed(e).regs.ps & 0x04 == e.m.regs.ps & 0x04
  {
    PackTwice(e.m.regs.ps, e.flags, e.flags);
    StatusLayout(e.m.regs.ps, e.flags);
    InterruptBit(Packed(e).regs.ps, e.m.regs.ps);
  }

  lemma InterruptBit(p: bv8, q: bv8)
    requires p & 0x0C == q & 0x0C
    ensures p & 0x04 == q & 0x04
  {
    assert p & 0x04 == (p & 0x0C) & 0x04 && q & 0x04 == (q & 0x0C) & 0x04;
  }

  /** The core that a turn of the loop leaves. */
  function CoreOf<W>(l: Loop<W>): Core {
    Core(l.m.regs, l.flags, l.m.mem, l.m.nmiFlank, l.m.irq)
  }

  /**
   Where a turn goes: with an edge latched through $FFFA, which takes the edge; else
   with the IRQ line pulled and I clear through $FFFE; else where the instruction
   went. Seven cycles are added for an interrupt.
   */
  lemma TurnGoes<W>(instr: Instr<W>, cmos: bool, l: Loop<W>)
    ensures var e, t := instr(Look(l)), Turn(instr, cmos, l);
            var irq := e.m.irq && e.m.regs.ps & 0x04 == 0;
            && Served(Packed(e), CoreOf(t), PackPs(e.m.regs.ps, e.flags), cmos, irq)
            && t.m.world == e.m.world
            && t.executed == l.executed + e.cost + (if e.m.nmiFlank || irq then 7 else 0)
  {
    var e := instr(Look(l));
    PackedOnce(e);
    LinesServe(Packed(e), cmos, PackPs(e.m.regs.ps, e.flags));
  }
}
