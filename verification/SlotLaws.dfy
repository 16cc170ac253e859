/**
 What a program sees of slot ROM: which ports work a switch, what a touch of a
 slot's page selects, and what the window at $C800 answers afterwards.
 */
module SlotLaws {
  import opened Bytes
  import opened Paging
  import opened PagedMemory
  import opened SoftSwitches
  import opened MemoryMachine
  import opened ExpansionRom
  import opened SwitchLaws

  // ------------------------------------------------------------- the ports

  /** $C000-$C00B are switches to a store only; $C054-$C057 and $C080-$C08F to any access; no other port is. */
  predicate WorksSwitch(port: Byte, write: bool) {
    (port < 0x0C && write) || (port - 0x54) / 4 == 0 || port / 0x10 == 8
  }

  lemma OtherPortsDoNothing(cfg: Config, c: Control, next: Option<Code>, port: Byte, write: bool)
    requires cfg.Valid()
    ensures Decode(cfg, c, next, 0xC000 + port, write)
         == if WorksSwitch(port, write) then SetPaging(cfg, c, next, port) else Outcome(c, [])
  {
    assert IoArea(0xC000 + port) && 0xC000 + port - 0xC000 == port;
    assert SwitchPort(port, write) == WorksSwitch(port, write);
  }

  /** A store to slot ROM or to the window changes nothing. */
  lemma StoresToSlotsDoNothing(cfg: Config, f: Flat, pc: Address, a: Address, v: Byte)
    requires cfg.Valid() && f.content.Valid() && 0xC100 <= a < 0xD000
    ensures FlatStep(cfg, f, Write(pc, a, v)) == (f, None)
  {
    assert FlatPoke(f.content, f.applied, a, v) == f.content;
    assert FlatDoAll(f, []) == f;
  }

  // ------------------------------------------------- a touch of a slot's page

  function SlotOf(a: Address): nat
    requires 0xC100 <= a < 0xC800
  {
    a / 0x100 - 0xC0
  }

  /** The page of slot `k` answers from its card's expansion ROM when that is there and not hidden by internal ROM. */
  predicate HasRom(cfg: Config, c: Control, k: nat)
    requires cfg.Valid() && 1 <= k < 8
  {
    cfg.expansionRom[k].Some? && (k == 3 ==> c.mode.slotC3Rom)
  }

  /**
   With slot ROM on, a read of slot k's page selects exactly its expansion ROM, if
   it has one to show, and otherwise internal ROM unless SLOTC3ROM is on; nothing
   else of the machine changes.
   */
  lemma TouchSelects(cfg: Config, f: Flat, pc: Address, a: Address)
    requires cfg.Valid() && f.content.Valid() && (cfg.apple2 || f.ctl.mode.slotCxRom)
    requires 0xC100 <= a < 0xC800 && ReachesReader(cfg, f.ctl, a)
    ensures var k, g := SlotOf(a), FlatStep(cfg, f, Read(pc, a)).0;
            && g == f.(ctl := f.ctl.(ioSelect := g.ctl.ioSelect, ioSelectInternal := g.ctl.ioSelectInternal))
            && (forall i | 0 <= i < 8 :: g.ctl.ioSelect[i] <==> f.ctl.ioSelect[i] || (i == k && HasRom(cfg, f.ctl, k)))
            && (g.ctl.ioSelectInternal
                <==> f.ctl.ioSelectInternal || (!HasRom(cfg, f.ctl, k) && !f.ctl.mode.slotC3Rom))
  {
    var k := SlotOf(a);
    assert Decode(cfg, f.ctl, FlatCodeAt(f, pc), a, false) == ReadCx(cfg, f.ctl, a);
    assert ReadCx(cfg, f.ctl, a) == Outcome(SelectSlot(cfg, f.ctl, k), []);
    assert FlatDoAll(f.(ctl := SelectSlot(cfg, f.ctl, k)), []) == f.(ctl := SelectSlot(cfg, f.ctl, k));
  }

  /** With internal ROM at $C100-$CFFF every touch of $C100-$C7FF selects it. */
  lemma TouchSelectsInternal(cfg: Config, f: Flat, pc: Address, a: Address)
    requires cfg.Valid() && f.content.Valid() && !cfg.apple2 && !f.ctl.mode.slotCxRom && 0xC100 <= a < 0xC800
    ensures FlatStep(cfg, f, Read(pc, a)).0 == f.(ctl := f.ctl.(ioSelectInternal := true))
  {
    var d := f.ctl.(ioSelectInternal := true);
    assert ReachesReader(cfg, f.ctl, a);
    assert ReadCx(cfg, f.ctl, a) == Outcome(d, []);
    assert FlatDoAll(f.(ctl := d), []) == f.(ctl := d);
  }

  // ------------------------------------------------------ what is read there

  /** A read of a slot's page gives the ROM byte shown there, unless a card answers for itself. */
  lemma SlotPageRead(cfg: Config, f: Flat, pc: Address, a: Address)
    requires cfg.Valid() && f.content.Valid() && 0xC100 <= a < 0xC800 && f.applied == f.ctl.mode
    ensures var k := SlotOf(a);
            var own := f.ctl.mode.slotCxRom && (k == 3 ==> f.ctl.mode.slotC3Rom);
            FlatStep(cfg, f, Read(pc, a)).1
            == if cfg.ownHandler[k] && (cfg.apple2 || own) then None
               else Some((if own then f.content.cxPeripheral else f.content.cxInternal)[k][OffsetOf(a)])
  {
    var k := SlotOf(a);
    if ReachesReader(cfg, f.ctl, a) {
      var out := ReadCx(cfg, f.ctl, a);
      assert out.moves == [];
      assert FlatDoAll(f.(ctl := out.ctl), []) == f.(ctl := out.ctl);
    }
  }

  /**
   From a released window on a //e: touch a slot's page and read the window. It
   answers from that slot's expansion ROM, from internal ROM, or not at all, as the
   touch has selected.
   */
  lemma WindowAfterTouch(cfg: Config, f: Flat, pc: Address, a: Address, pc': Address, b: Address)
    requires cfg.Valid() && f.content.Valid() && !cfg.apple2 && Released(f.ctl)
    requires 0xC100 <= a < 0xC800 && ReachesReader(cfg, f.ctl, a) && 0xC800 <= b < 0xCFFF
    ensures var k, g := SlotOf(a), FlatStep(cfg, f, Read(pc, a)).0;
            var out := FlatStep(cfg, g, Read(pc', b)).1;
            out == if HasRom(cfg, f.ctl, k) then Some(cfg.expansionRom[k].value[PageOf(b) - 0xC8][OffsetOf(b)])
                   else if !f.ctl.mode.slotC3Rom then Some(cfg.internalWindow[PageOf(b) - 0xC8][OffsetOf(b)])
                   else None
  {
    var k, g := SlotOf(a), FlatStep(cfg, f, Read(pc, a)).0;
    TouchSelects(cfg, f, pc, a);
    if HasRom(cfg, f.ctl, k) {
      OnlySelected(g.ctl.ioSelect, k);
      WindowShows(cfg, g, pc', b, g.ctl.(romType := PeripheralRom, romSlot := k), cfg.expansionRom[k].value);
    } else {
      NoneIsSelected(g.ctl.ioSelect);
      if f.ctl.mode.slotC3Rom {
        assert ReadCx(cfg, g.ctl, b) == Outcome(g.ctl, []);
        assert FlatDoAll(g, []) == g;
      } else {
        WindowShows(cfg, g, pc', b, g.ctl.(romType := InternalRom, romSlot := 0), cfg.internalWindow);
      }
    }
  }

  lemma OnlySelected(select: SlotMask, k: nat)
    requires 1 <= k < 8 && forall i | 0 <= i < 8 :: select[i] <==> i == k
    ensures select != NO_SELECT && LowestSlot(select, 1) == k
  {
    assert select[k] && !NO_SELECT[k];
  }

  lemma NoneIsSelected(select: SlotMask)
    requires forall i | 0 <= i < 8 :: !select[i]
    ensures select == NO_SELECT
  {
    assert forall i | 0 <= i < 8 :: !NO_SELECT[i];
  }

  /** A touch that brings a ROM into the window answers from it. */
  lemma WindowShows(cfg: Config, f: Flat, pc: Address, b: Address, d: Control, rom: Window)
    requires cfg.Valid() && f.content.Valid() && 0xC800 <= b < 0xCFFF && d.romType != NoRom
    requires var out := ReadCx(cfg, f.ctl, b);
             out.ctl == d && (out.moves == [ShowWindow(rom)] || out.moves == [KeepWindow(rom), ShowWindow(rom)])
    ensures FlatStep(cfg, f, Read(pc, b)).1 == Some(rom[PageOf(b) - 0xC8][OffsetOf(b)])
  {
    var out, p := ReadCx(cfg, f.ctl, b), PageOf(b);
    assert ReachesReader(cfg, f.ctl, b);
    var g := FlatDoAll(f.(ctl := d), out.moves);
    LastShown(f.(ctl := d), out.moves, rom);
    assert ReadMap(g.applied, p) == Place(CxInternal, p - 0xC0);
    assert g.content.cxInternal[p - 0xC0] == g.content.cxInternal[8..][p - 0xC8] == rom[p - 0xC8];
  }

  lemma LastShown(f: Flat, moves: seq<Move>, rom: Window)
    requires f.content.Valid() && (moves == [ShowWindow(rom)] || moves == [KeepWindow(rom), ShowWindow(rom)])
    ensures var g := FlatDoAll(f, moves);
            g.ctl == f.ctl && g.content.cxInternal[8..] == rom
  {
    MoveTwo(ViewsOf(f), KeepWindow(rom), ShowWindow(rom));
    MoveTwo(ViewsOf(f), ShowWindow(rom), ShowWindow(rom));
    MovesMoveViews(f, moves);
    MovesKeepTables(f, moves);
  }

  // ------------------------------------------------- SLOTCXROM and the window

  predicate IsBlank(w: Window) {
    forall i, o | 0 <= i < 8 && 0 <= o < 0x100 :: w[i][o] == 0
  }

  /**
   Turning internal ROM on with $C007 puts it into the window; turning it off with
   $C006 empties the window, both where it is shown and where a card's ROM is kept.
   */
  lemma SlotCxRomFlipsTheWindow(cfg: Config, f: Flat, sw: Byte)
    requires cfg.Valid() && f.content.Valid() && !cfg.apple2 && 0x06 <= sw <= 0x07
    requires f.ctl.mode.slotCxRom == (sw == 0x07)
    ensures var g := FlatStep(cfg, f, Write(0xFFFF, 0xC000 + sw, 0)).0;
            && g.applied == g.ctl.mode == f.ctl.mode.(slotCxRom := sw == 0x06)
            && g.ctl.romSlot == 0 && !g.ctl.changing
            && (sw == 0x06 ==> g.ctl.romType == NoRom && IsBlank(ViewsOf(g).shown) && IsBlank(ViewsOf(g).kept))
            && (sw == 0x07 ==> g.ctl.romType == InternalRom && ViewsOf(g) == Views(cfg.internalWindow, ViewsOf(f).kept))
  {
    var d := AfterSwitch(cfg, f.ctl, sw);
    var flip := FlipWindow(cfg, f.ctl.mode, d.(changing := false));
    SlotCxForm(f.ctl.mode, sw);
    StoreToPort(f, 0xC000 + sw);
    OtherPortsDoNothing(cfg, f.ctl, None, sw, true);
    MovesAtRest(f.(ctl := flip.ctl), d.mode, flip.moves);
    MovesKeepTables(f.(ctl := flip.ctl), flip.moves + [Apply(d.mode)]);
    FlipShows(cfg, f, flip.ctl, d.mode, sw == 0x06);
  }

  /** What a read of the window asks to be brought there: the lowest selected slot's ROM, or internal ROM. */
  predicate AlreadyShown(cfg: Config, c: Control) {
    if cfg.apple2 || c.mode.slotCxRom then
      if c.ioSelect != NO_SELECT then c.romSlot == LowestSlot(c.ioSelect, 1)
      else !c.ioSelectInternal || c.romType == InternalRom
    else !c.ioSelectInternal || c.romType == InternalRom
  }

  /** Reading the window changes nothing while it shows what is selected, or nothing is. */
  lemma ShownRomStays(cfg: Config, f: Flat, pc: Address, b: Address)
    requires cfg.Valid() && f.content.Valid() && 0xC800 <= b < 0xCFFF && AlreadyShown(cfg, f.ctl)
    ensures FlatStep(cfg, f, Read(pc, b)).0 == f
  {
    assert ReachesReader(cfg, f.ctl, b);
    assert ReadCx(cfg, f.ctl, b) == Outcome(f.ctl, []);
    assert FlatDoAll(f, []) == f;
  }

  /** With slot ROM on a read of $CFFF empties both as well. */
  lemma ReleaseEmptiesTheWindow(cfg: Config, f: Flat, pc: Address)
    requires cfg.Valid() && f.content.Valid() && f.ctl.mode.slotCxRom
    ensures var b := ViewsOf(FlatStep(cfg, f, Read(pc, 0xCFFF)).0);
            IsBlank(b.shown) && IsBlank(b.kept)
  {
    var out, moves := ReadCx(cfg, f.ctl, 0xCFFF), [KeepWindow(NoWindow()), ShowWindow(NoWindow())];
    assert out.moves == moves;
    MovesMoveViews(f.(ctl := out.ctl), moves);
    MoveTwo(ViewsOf(f), KeepWindow(NoWindow()), ShowWindow(NoWindow()));
    assert ViewsOf(f.(ctl := out.ctl)) == ViewsOf(f);
  }

  lemma StoreToPort(f: Flat, a: Address)
    requires f.content.Valid() && 0xC000 <= a < 0xD000
    ensures FlatPoke(f.content, f.applied, a, 0) == f.content
  {
  }

  lemma FlipShows(cfg: Config, f: Flat, c: Control, m: Mode, off: bool)
    requires cfg.Valid() && f.content.Valid()
    ensures var moves := if off then [KeepWindow(NoWindow()), ShowWindow(NoWindow())] + [Apply(m)]
                         else [ShowWindow(cfg.internalWindow)] + [Apply(m)];
            var b := ViewsOf(FlatDoAll(f.(ctl := c), moves));
            if off then IsBlank(b.shown) && IsBlank(b.kept)
            else b == Views(cfg.internalWindow, ViewsOf(f).kept)
  {
    var moves := if off then [KeepWindow(NoWindow()), ShowWindow(NoWindow())] else [ShowWindow(cfg.internalWindow)];
    MovesMoveViews(f.(ctl := c), moves + [Apply(m)]);
    MoveConcat(ViewsOf(f), moves, [Apply(m)]);
    MoveTwo(MoveAllViews(ViewsOf(f), moves), Apply(m), Apply(m));
    MoveTwo(ViewsOf(f), KeepWindow(NoWindow()), ShowWindow(NoWindow()));
    MoveTwo(ViewsOf(f), ShowWindow(cfg.internalWindow), Apply(m));
    assert ViewsOf(f.(ctl := c)) == ViewsOf(f);
  }
}
