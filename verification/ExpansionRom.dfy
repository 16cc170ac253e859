/**
 The expansion-ROM window at $C800-$CFFF: which ROM the control state says is
 there, and that the bytes agree, over every run of the memory machine.
 */
module ExpansionRom {
  import opened Bytes
  import opened Paging
  import opened PagedMemory
  import opened SoftSwitches
  import opened MemoryMachine

  /** The live window is what the flat memory calls the window. */
  lemma LiveWindow(s: Paged)
    requires s.image.Valid()
    ensures s.image.live[0xC8..0xD0] == s.image.Flatten().cxInternal[8..]
  {
    forall i | 0 <= i < 8 ensures s.image.live[0xC8 + i] == s.image.Flatten().cxInternal[8..][i] {
      assert s.image.Flatten().Get(Place(CxInternal, 8 + i)) == s.image.Logical(Place(CxInternal, 8 + i));
    }
  }

  /** The two places a window's bytes live: on display, and in the peripheral ROM buffer. */
  datatype Views = Views(shown: Window, kept: Window)

  function ViewsOf(f: Flat): Views
    requires f.content.Valid()
  {
    Views(f.content.cxInternal[8..], f.content.cxPeripheral[8..])
  }

  function MoveViews(b: Views, move: Move): Views {
    match move
    case ShowWindow(w) => b.(shown := w)
    case KeepWindow(w) => b.(kept := w)
    case Apply(_) => b
  }

  function MoveAllViews(b: Views, moves: seq<Move>): Views
    decreases |moves|
  {
    if moves == [] then b else MoveAllViews(MoveViews(b, moves[0]), moves[1..])
  }

  lemma {:induction false} MovesMoveViews(f: Flat, moves: seq<Move>)
    requires f.content.Valid()
    ensures ViewsOf(FlatDoAll(f, moves)) == MoveAllViews(ViewsOf(f), moves)
    decreases |moves|
  {
    if moves != [] {
      assert ViewsOf(FlatDo(f, moves[0])) == MoveViews(ViewsOf(f), moves[0]);
      MovesMoveViews(FlatDo(f, moves[0]), moves[1..]);
    }
  }

  lemma MoveTwo(b: Views, x: Move, y: Move)
    ensures MoveAllViews(b, [x]) == MoveViews(b, x)
    ensures MoveAllViews(b, [x, y]) == MoveViews(MoveViews(b, x), y)
  {
    MoveConcat(b, [x], [y]);
    assert [x] + [y] == [x, y];
  }

  lemma MoveConcat(b: Views, xs: seq<Move>, ys: seq<Move>)
    ensures MoveAllViews(b, xs + ys) == MoveAllViews(MoveAllViews(b, xs), ys)
    decreases |xs|
  {
    if xs == [] {
      assert xs + ys == ys;
    } else {
      assert (xs + ys)[1..] == xs[1..] + ys;
      MoveConcat(MoveViews(b, xs[0]), xs[1..], ys);
    }
  }

  /** The control state never lies about the window. */
  ghost predicate Honest(cfg: Config, c: Control, b: Views)
    requires cfg.Valid()
  {
    && (c.romType == PeripheralRom <==> c.romSlot != 0)
    && (c.romSlot != 0 ==>
          && c.romSlot < NUM_SLOTS
          && cfg.expansionRom[c.romSlot] == Some(b.shown)
          && b.kept == b.shown)
    && (c.romType == InternalRom ==> b.shown == cfg.internalWindow)
    && (c.mode.slotCxRom || (!cfg.apple2 && c.romType == InternalRom))
    && Selectable(cfg, c.ioSelect)
  }

  /** Only slots with an expansion ROM are ever selected. */
  ghost predicate Selectable(cfg: Config, select: SlotMask)
    requires cfg.Valid()
  {
    forall k | 0 <= k < NUM_SLOTS && select[k] :: k != 0 && cfg.expansionRom[k].Some?
  }

  lemma FlipHonest(cfg: Config, before: Mode, c: Control, b: Views)
    requires cfg.Valid() && Honest(cfg, c.(mode := before), b)
    requires cfg.apple2 ==> c.mode.slotCxRom
    ensures var out := FlipWindow(cfg, before, c);
            Honest(cfg, out.ctl, MoveAllViews(b, out.moves))
  {
    MoveTwo(b, KeepWindow(NoWindow()), ShowWindow(NoWindow()));
    MoveTwo(b, ShowWindow(cfg.internalWindow), Apply(before));
  }

  lemma SetPagingHonest(cfg: Config, c: Control, b: Views, next: Option<Code>, sw: Byte)
    requires cfg.Valid() && Honest(cfg, c, b)
    ensures var out := SetPaging(cfg, c, next, sw);
            Honest(cfg, out.ctl, MoveAllViews(b, out.moves))
  {
    var d := AfterSwitch(cfg, c, sw);
    if HoldsBack(sw, next) {
      HeldKeepsCxRom(cfg, c, sw);
    } else {
      var e := d.(changing := false);
      if cfg.apple2 {
        CxRomStaysOn(cfg, c, sw);
      }
      assert Honest(cfg, e.(mode := c.mode), b);
      FlipHonest(cfg, c.mode, e, b);
      MoveConcat(b, FlipWindow(cfg, c.mode, e).moves, [Apply(d.mode)]);
      MoveTwo(MoveAllViews(b, FlipWindow(cfg, c.mode, e).moves), Apply(d.mode), Apply(d.mode));
    }
  }

  lemma HeldKeepsCxRom(cfg: Config, c: Control, sw: Byte)
    requires CardSwitch(sw) || sw == 0x04 || sw == 0x05
    ensures AfterSwitch(cfg, c, sw).mode.slotCxRom == c.mode.slotCxRom
  {
  }

  lemma CxRomStaysOn(cfg: Config, c: Control, sw: Byte)
    requires cfg.apple2 && c.mode.slotCxRom
    ensures AfterSwitch(cfg, c, sw).mode.slotCxRom
  {
  }

  lemma ReleaseHonest(cfg: Config, c: Control, b: Views, a: CxAddress)
    requires cfg.Valid() && Honest(cfg, c, b)
    ensures var out := ReleaseWindow(c, a);
            Honest(cfg, out.ctl, MoveAllViews(b, out.moves))
  {
    MoveTwo(b, KeepWindow(NoWindow()), ShowWindow(NoWindow()));
  }

  lemma ShowInternalHonest(cfg: Config, c: Control, b: Views)
    requires cfg.Valid() && Honest(cfg, c, b)
    ensures var out := ShowInternal(cfg, c);
            Honest(cfg, out.ctl, MoveAllViews(b, out.moves))
  {
    MoveTwo(b, ShowWindow(cfg.internalWindow), Apply(c.mode));
  }

  lemma SelectSlotHonest(cfg: Config, c: Control, b: Views, slot: nat)
    requires cfg.Valid() && Honest(cfg, c, b) && 0 < slot < NUM_SLOTS
    ensures Honest(cfg, SelectSlot(cfg, c, slot), b)
  {
    assert forall k | 0 <= k < NUM_SLOTS && c.ioSelect[slot := true][k] :: k == slot || c.ioSelect[k];
  }

  lemma StrobeSlotsHonest(cfg: Config, c: Control, b: Views)
    requires cfg.Valid() && Honest(cfg, c, b) && c.mode.slotCxRom
    ensures var out := StrobeSlots(cfg, c);
            Honest(cfg, out.ctl, MoveAllViews(b, out.moves))
  {
    var slot := LowestSlot(c.ioSelect, 1);
    if c.ioSelect == NO_SELECT {
      ShowInternalHonest(cfg, c, b);
    } else if slot < NUM_SLOTS && cfg.expansionRom[slot].Some? {
      var rom := cfg.expansionRom[slot].value;
      MoveTwo(b, KeepWindow(rom), ShowWindow(rom));
    }
  }

  lemma TouchSlotsHonest(cfg: Config, c: Control, b: Views, a: CxAddress)
    requires cfg.Valid() && Honest(cfg, c, b) && c.mode.slotCxRom
    ensures var out := TouchSlots(cfg, c, a);
            Honest(cfg, out.ctl, MoveAllViews(b, out.moves))
  {
    if a < 0xC800 {
      SelectSlotHonest(cfg, c, b, a / 0x100 - 0xC0);
    } else {
      StrobeSlotsHonest(cfg, c, b);
    }
  }

  lemma ReadCxHonest(cfg: Config, c: Control, b: Views, a: CxAddress)
    requires cfg.Valid() && Honest(cfg, c, b)
    ensures var out := ReadCx(cfg, c, a);
            Honest(cfg, out.ctl, MoveAllViews(b, out.moves))
  {
    var first := ReleaseWindow(c, a);
    var mid := MoveAllViews(b, first.moves);
    ReleaseHonest(cfg, c, b, a);
    if cfg.apple2 || first.ctl.mode.slotCxRom {
      TouchSlotsHonest(cfg, first.ctl, mid, a);
      MoveConcat(b, first.moves, TouchSlots(cfg, first.ctl, a).moves);
    } else {
      ShowInternalHonest(cfg, first.ctl, mid);
      MoveConcat(b, first.moves, TouchInternal(cfg, first.ctl, a).moves);
    }
  }

  // ------------------------------------------------------------ whole runs

  ghost predicate WindowInv(cfg: Config, f: Flat) {
    cfg.Valid() && f.content.Valid() && Honest(cfg, f.ctl, ViewsOf(f))
  }

  /** The state in which the I/O handlers are set up and the machine is reset. */
  lemma StartsHonest(cfg: Config, f: Flat)
    requires cfg.Valid() && f.content.Valid()
    requires f.ctl.mode == RESET_MODE && f.ctl.romType == NoRom && f.ctl.romSlot == 0
    requires f.ctl.ioSelect == NO_SELECT
    ensures WindowInv(cfg, f)
  {
  }

  lemma AccessHonest(cfg: Config, f: Flat, pc: Address, a: Address, write: bool)
    requires WindowInv(cfg, f) && IoArea(a)
    ensures WindowInv(cfg, FlatAccess(cfg, f, pc, a, write))
  {
    var out := Decode(cfg, f.ctl, FlatCodeAt(f, pc), a, write);
    DecodeHonest(cfg, f.ctl, ViewsOf(f), FlatCodeAt(f, pc), a, write);
    MovesMoveViews(f.(ctl := out.ctl), out.moves);
    assert ViewsOf(f.(ctl := out.ctl)) == ViewsOf(f);
  }

  lemma DecodeHonest(cfg: Config, c: Control, b: Views, next: Option<Code>, a: Address, write: bool)
    requires cfg.Valid() && Honest(cfg, c, b) && IoArea(a)
    ensures var out := Decode(cfg, c, next, a, write);
            Honest(cfg, out.ctl, MoveAllViews(b, out.moves))
  {
    if a < 0xC100 && SwitchPort(a - 0xC000, write) {
      SwitchHonest(cfg, c, b, next, a, a - 0xC000, write);
    } else if a >= 0xC100 && !write && ReachesReader(cfg, c, a) {
      ReadCxHonest(cfg, c, b, a);
    }
  }

  lemma SwitchHonest(
    cfg: Config, c: Control, b: Views, next: Option<Code>, a: Address, sw: Byte, write: bool)
    requires cfg.Valid() && Honest(cfg, c, b) && IoArea(a) && a < 0xC100 && sw == a - 0xC000 && SwitchPort(sw, write)
    ensures var out := Decode(cfg, c, next, a, write);
            Honest(cfg, out.ctl, MoveAllViews(b, out.moves))
  {
    SetPagingHonest(cfg, c, b, next, sw);
    assert Decode(cfg, c, next, a, write) == SetPaging(cfg, c, next, sw);
  }

  lemma PokeKeepsViews(s: Stores, m: Mode, a: Address, v: Byte)
    requires s.Valid()
    ensures FlatPoke(s, m, a, v).cxInternal == s.cxInternal
    ensures FlatPoke(s, m, a, v).cxPeripheral == s.cxPeripheral
  {
  }

  lemma StepHonest(cfg: Config, f: Flat, op: Op)
    requires WindowInv(cfg, f) && ValidOp(op)
    ensures WindowInv(cfg, FlatStep(cfg, f, op).0)
  {
    match op
    case Fetch(_) =>
    case Read(pc, a) =>
      if IoArea(a) {
        AccessHonest(cfg, f, pc, a, false);
      }
    case Write(pc, a, v) =>
      PokeKeepsViews(f.content, f.applied, a, v);
      if IoArea(a) {
        AccessHonest(cfg, f.(content := FlatPoke(f.content, f.applied, a, v)), pc, a, true);
      }
    case Push(sp, v) => PokeKeepsViews(f.content, f.applied, sp, v);
    case SwapCard(slot, page) =>
      assert ViewsOf(FlatStep(cfg, f, op).0) == ViewsOf(f);
    case Reset =>
      var out := SoftReset(f.ctl);
      MovesMoveViews(f.(ctl := out.ctl), out.moves);
      MoveTwo(ViewsOf(f), Apply(RESET_MODE), Apply(RESET_MODE));
  }

  /** Over every run of the cached machine the control state tells the truth about the live window. */
  lemma {:induction false} WindowStaysHonest(cfg: Config, s: Paged, ops: seq<Op>)
    requires Inv(cfg, s) && WindowInv(cfg, Abstraction(s))
    requires forall op | op in ops :: ValidOp(op)
    ensures var t := Run(cfg, s, ops).0;
            && WindowInv(cfg, Abstraction(t))
            && (t.ctl.romType == PeripheralRom <==> t.ctl.romSlot != 0)
            && (t.ctl.romSlot != 0 ==>
                  && t.ctl.romSlot < NUM_SLOTS
                  && cfg.expansionRom[t.ctl.romSlot] == Some(t.image.live[0xC8..0xD0]))
            && (t.ctl.romType == InternalRom ==> t.image.live[0xC8..0xD0] == cfg.internalWindow)
            && (!cfg.apple2 && !t.ctl.mode.slotCxRom ==> t.ctl.romType == InternalRom)
    decreases |ops|
  {
    if ops == [] {
      LiveWindow(s);
    } else {
      StepRefines(cfg, s, ops[0]);
      StepHonest(cfg, Abstraction(s), ops[0]);
      WindowStaysHonest(cfg, Step(cfg, s, ops[0]).0, ops[1..]);
    }
  }

  // ----------------------------------------------------- the slot protocol

  /** Reads of the window alone, at any program counters. */
  predicate WindowReads(ops: seq<Op>) {
    forall op | op in ops :: op.Read? && 0xC800 <= op.a < 0xD000
  }

  /** No ROM in the window, and nothing selected to come back. */
  predicate Released(c: Control) {
    && c.mode.slotCxRom && c.romType == NoRom && c.romSlot == 0
    && c.ioSelect == NO_SELECT && !c.ioSelectInternal
  }

  /**
   After $CFFF releases the window it floats, however often it is touched,
   until some slot's own page is read again.
   */
  lemma {:induction false} ReleasedWindowFloats(cfg: Config, f: Flat, ops: seq<Op>)
    requires cfg.Valid() && f.content.Valid() && WindowReads(ops) && Released(f.ctl)
    ensures FlatRun(cfg, f, ops).0.ctl == f.ctl
    ensures forall out | out in FlatRun(cfg, f, ops).1 :: out == None
    decreases |ops|
  {
    if ops != [] {
      var (g, out) := FlatStep(cfg, f, ops[0]);
      assert ReadCx(cfg, f.ctl, ops[0].a).ctl == f.ctl;
      assert g.ctl == f.ctl && out == None;
      ReleasedWindowFloats(cfg, g, ops[1..]);
    }
  }

  /** With slot ROMs on, a read of $CFFF through the I/O dispatch brings about just that state, whatever went before. */
  lemma ReleaseReaches(cfg: Config, f: Flat, pc: Address)
    requires cfg.Valid() && f.content.Valid() && f.ctl.mode.slotCxRom
    ensures Released(FlatStep(cfg, f, Read(pc, 0xCFFF)).0.ctl)
  {
  }

  /**
   An access to $CFFF leaves the window released exactly when it is a read through
   the I/O dispatch, or the window was released already: a write does not release
   it, nor does fetching an operand byte.
   */
  lemma OnlyReadsRelease(cfg: Config, f: Flat, op: Op)
    requires cfg.Valid() && f.content.Valid() && f.ctl.mode.slotCxRom
    requires (op.Read? || op.Write? || op.Fetch?) && op.a == 0xCFFF
    ensures Released(FlatStep(cfg, f, op).0.ctl) <==> op.Read? || Released(f.ctl)
  {
    if op.Read? {
      ReleaseReaches(cfg, f, op.pc);
    } else if op.Write? {
      assert FlatDoAll(f, []).ctl == f.ctl;
    }
  }

  lemma NoneSelected(select: SlotMask)
    requires !select[0] && LowestSlot(select, 1) == NUM_SLOTS
    ensures select == NO_SELECT
  {
    assert forall k | 0 <= k < NUM_SLOTS :: !select[k] && !NO_SELECT[k];
  }

  /** With slots selected, touching the window shows the lowest one's ROM and answers from it. */
  lemma LowestSlotAnswers(cfg: Config, f: Flat, pc: Address, a: Address)
    requires WindowInv(cfg, f) && f.ctl.mode.slotCxRom
    requires 0xC800 <= a < 0xCFFF && f.ctl.ioSelect != NO_SELECT
    ensures var slot := LowestSlot(f.ctl.ioSelect, 1);
            && slot < NUM_SLOTS && cfg.expansionRom[slot].Some?
            && FlatStep(cfg, f, Read(pc, a)).0.ctl.romSlot == slot
            && FlatStep(cfg, f, Read(pc, a)).1
               == Some(cfg.expansionRom[slot].value[PageOf(a) - 0xC8][OffsetOf(a)])
  {
    var slot := LowestSlot(f.ctl.ioSelect, 1);
    if slot == NUM_SLOTS {
      NoneSelected(f.ctl.ioSelect);
    }
    StepHonest(cfg, f, Read(pc, a));
    var g := FlatStep(cfg, f, Read(pc, a)).0;
    assert ReadCx(cfg, f.ctl, a).ctl == TouchSlots(cfg, f.ctl, a).ctl;
    assert g.content.cxInternal[8..][PageOf(a) - 0xC8] == g.content.cxInternal[PageOf(a) - 0xC0];
    MovesKeepTables(f.(ctl := g.ctl), ReadCx(cfg, f.ctl, a).moves);
  }

  lemma {:induction false} MovesKeepTables(f: Flat, moves: seq<Move>)
    requires f.content.Valid()
    ensures FlatDoAll(f, moves).ctl == f.ctl
    decreases |moves|
  {
  }
}
