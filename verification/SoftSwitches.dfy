/**
 The soft-switch logic on its own: what an access to a switch or to the slot
 ROM area does to the control state, and which moves of memory it asks for.
 The moves are values, so the same logic drives the paged memory and the flat
 memory it is compared with.
 */
module SoftSwitches {
  import opened Bytes
  import opened Paging

  datatype RomType = NoRom | InternalRom | PeripheralRom

  datatype Control = Control(
    mode: Mode, changing: bool, lastWriteRam: bool,
    romType: RomType, romSlot: nat, ioSelect: SlotMask, ioSelectInternal: bool)

  /** The eight pages $C800-$CFFF. */
  type Window = w: seq<Page> | |w| == 8
    witness [ZeroPage(), ZeroPage(), ZeroPage(), ZeroPage(), ZeroPage(), ZeroPage(), ZeroPage(), ZeroPage()]

  function NoWindow(): Window {
    [ZeroPage(), ZeroPage(), ZeroPage(), ZeroPage(), ZeroPage(), ZeroPage(), ZeroPage(), ZeroPage()]
  }

  const NUM_SLOTS := 8

  /** One bit for each slot. */
  type SlotMask = m: seq<bool> | |m| == 8 witness [false, false, false, false, false, false, false, false]

  /** What stays fixed while a machine runs: its model and its cards. */
  datatype Config = Config(
    apple2: bool, internalWindow: Window,
    expansionRom: seq<Option<Window>>, ownHandler: seq<bool>)
  {
    predicate Valid() {
      |expansionRom| == NUM_SLOTS && |ownHandler| == NUM_SLOTS
    }
  }

  datatype Move =
    | ShowWindow(window: Window)   // copy over the live $C800-$CFFF
    | KeepWindow(window: Window)   // copy into the peripheral ROM buffer
    | Apply(mode: Mode)            // rebuild the tables and exchange pages

  datatype Outcome = Outcome(ctl: Control, moves: seq<Move>)

  /** The three bytes at the program counter. */
  datatype Code = Code(op: Byte, lo: Byte, hi: Byte)

  const RESET_MODE := Mode(
    store80 := false, altZp := false, auxRead := false, auxWrite := false,
    hramBank2 := true, highRam := false, hires := false, page2 := false,
    slotC3Rom := false, slotCxRom := true, hramWrite := true)

  predicate CardSwitch(sw: Byte) {
    0x80 <= sw <= 0x8F
  }

  /** The three choices a language-card switch makes, from its address bits 0, 3 and 1. */
  predicate EnablesWrite(sw: Byte) { sw % 2 == 1 }

  predicate SelectsBank2(sw: Byte) { (sw / 8) % 2 == 0 }

  predicate EnablesRead(sw: Byte) { (sw / 2) % 2 == sw % 2 }

  /** The switch table; `sw` is the low byte of the address. */
  function ModeAfter(apple2: bool, m: Mode, sw: Byte): Mode {
    if CardSwitch(sw) then
      m.(hramWrite := EnablesWrite(sw), hramBank2 := SelectsBank2(sw), highRam := EnablesRead(sw))
    else if apple2 then m
    else if sw == 0x00 || sw == 0x01 then m.(store80 := sw == 0x01)
    else if sw == 0x02 || sw == 0x03 then m.(auxRead := sw == 0x03)
    else if sw == 0x04 || sw == 0x05 then m.(auxWrite := sw == 0x05)
    else if sw == 0x06 || sw == 0x07 then m.(slotCxRom := sw == 0x06)
    else if sw == 0x08 || sw == 0x09 then m.(altZp := sw == 0x09)
    else if sw == 0x0A || sw == 0x0B then m.(slotC3Rom := sw == 0x0B)
    else if sw == 0x54 || sw == 0x55 then m.(page2 := sw == 0x55)
    else if sw == 0x56 || sw == 0x57 then m.(hires := sw == 0x57)
    else m
  }

  /** `code` is STA $C0nn with nn = `base` or `base` + 1. */
  predicate StoresTo(code: Code, base: Byte) {
    code.op == 0x8D && (code.lo == base || code.lo == base + 1) && code.hi == 0xC0
  }

  /** The access is held back because the next instruction sets a related switch. */
  predicate HoldsBack(sw: Byte, next: Option<Code>) {
    && next.Some?
    && (((sw == 0x04 || sw == 0x05) && StoresTo(next.value, 0x02))
        || (CardSwitch(sw) && (StoresTo(next.value, 0x04) || StoresTo(next.value, 0x02))))
  }

  function AfterSwitch(cfg: Config, c: Control, sw: Byte): Control {
    c.(mode := ModeAfter(cfg.apple2, c.mode, sw),
       lastWriteRam := if CardSwitch(sw) then EnablesWrite(sw) else c.lastWriteRam)
  }

  /** Accessing switch `sw`, with `next` the code at the program counter. */
  function SetPaging(cfg: Config, c: Control, next: Option<Code>, sw: Byte): Outcome {
    var d := AfterSwitch(cfg, c, sw);
    if HoldsBack(sw, next) then Outcome(d.(changing := true), [])
    else SettlePaging(cfg, c.mode, d)
  }

  /** What a flip of SLOTCXROM does to the ROM window. */
  function FlipWindow(cfg: Config, before: Mode, c: Control): Outcome {
    if before.slotCxRom == c.mode.slotCxRom then Outcome(c, [])
    else if c.mode.slotCxRom then
      Outcome(c.(romType := NoRom, romSlot := 0), [KeepWindow(NoWindow()), ShowWindow(NoWindow())])
    else
      Outcome(c.(romType := InternalRom, romSlot := 0), [ShowWindow(cfg.internalWindow)])
  }

  /** The end of a switch access: apply the mode unless nothing changed. */
  function SettlePaging(cfg: Config, before: Mode, c: Control): Outcome {
    if before == c.mode && !c.changing then Outcome(c, [])
    else
      var flip := FlipWindow(cfg, before, c.(changing := false));
      Outcome(flip.ctl, flip.moves + [Apply(c.mode)])
  }

  /** A soft reset; a held-back access stays flagged, and the ROM window is not touched. */
  function SoftReset(c: Control): Outcome {
    Outcome(c.(mode := RESET_MODE, lastWriteRam := false), [Apply(RESET_MODE)])
  }

  // ------------------------------------------------- the $C100-$CFFF reader

  type CxAddress = a: nat | 0xC100 <= a < 0xD000 witness 0xC100

  const NO_SELECT: SlotMask := [false, false, false, false, false, false, false, false]

  /** The lowest selected slot from `k` on, or 8. */
  function LowestSlot(select: SlotMask, k: nat): (slot: nat)
    requires k <= NUM_SLOTS
    ensures k <= slot <= NUM_SLOTS
    ensures slot < NUM_SLOTS ==> select[slot]
    ensures forall j | k <= j < slot :: !select[j]
    decreases NUM_SLOTS - k
  {
    if k == NUM_SLOTS || select[k] then k else LowestSlot(select, k + 1)
  }

  /** $CFFF clears the selections and, unless internal ROM is switched in, empties the window. */
  function ReleaseWindow(c: Control, a: CxAddress): Outcome {
    if a != 0xCFFF then Outcome(c, [])
    else
      var d := c.(ioSelect := NO_SELECT, ioSelectInternal := false, romSlot := 0);
      if c.mode.slotCxRom
      then Outcome(d.(romType := NoRom), [KeepWindow(NoWindow()), ShowWindow(NoWindow())])
      else Outcome(d, [])
  }

  /** An access to a slot's ROM page selects its expansion ROM. */
  function SelectSlot(cfg: Config, c: Control, slot: nat): Control
    requires cfg.Valid() && slot < NUM_SLOTS
  {
    var present := cfg.expansionRom[slot].Some?;
    if present && (slot != 3 || c.mode.slotC3Rom) then c.(ioSelect := c.ioSelect[slot := true])
    else if !c.mode.slotC3Rom then c.(ioSelectInternal := true)
    else c
  }

  /** Switch the internal ROM into the window unless it is there. */
  function ShowInternal(cfg: Config, c: Control): Outcome {
    if c.romType == InternalRom then Outcome(c, [])
    else Outcome(c.(romType := InternalRom, romSlot := 0), [ShowWindow(cfg.internalWindow)])
  }

  /** A touch of the window while slot ROM is enabled. */
  function StrobeSlots(cfg: Config, c: Control): Outcome
    requires cfg.Valid()
  {
    if c.ioSelect != NO_SELECT then
      var slot := LowestSlot(c.ioSelect, 1);
      if slot < NUM_SLOTS && cfg.expansionRom[slot].Some? && c.romSlot != slot then
        var rom := cfg.expansionRom[slot].value;
        Outcome(c.(romType := PeripheralRom, romSlot := slot), [KeepWindow(rom), ShowWindow(rom)])
      else Outcome(c, [])
    else if c.ioSelectInternal then ShowInternal(cfg, c)
    else Outcome(c, [])
  }

  function TouchSlots(cfg: Config, c: Control, a: CxAddress): Outcome
    requires cfg.Valid()
  {
    if a < 0xC800 then Outcome(SelectSlot(cfg, c, a / 0x100 - 0xC0), []) else StrobeSlots(cfg, c)
  }

  /** The same while a //e has its internal ROM at $C100-$CFFF. */
  function TouchInternal(cfg: Config, c: Control, a: CxAddress): Outcome {
    if a < 0xC800 then Outcome(c.(ioSelectInternal := true), [])
    else if c.ioSelectInternal then ShowInternal(cfg, c)
    else Outcome(c, [])
  }

  /** A read of $C100-$CFFF that no card answers itself. */
  function ReadCx(cfg: Config, c: Control, a: CxAddress): Outcome
    requires cfg.Valid()
  {
    var first := ReleaseWindow(c, a);
    var second := if cfg.apple2 || first.ctl.mode.slotCxRom
                  then TouchSlots(cfg, first.ctl, a) else TouchInternal(cfg, first.ctl, a);
    Outcome(second.ctl, first.moves + second.moves)
  }

  /** With no ROM in the window the bus floats; otherwise the live byte is read. */
  predicate Floats(c: Control, a: CxAddress) {
    c.romType == NoRom && 0xC800 <= a
  }

  // ------------------------------------------------------- address decoding

  /** Ports of $C0xx that reach the paging switches. */
  predicate SwitchPort(port: Byte, write: bool) {
    (write && port <= 0x0B) || 0x54 <= port <= 0x57 || CardSwitch(port)
  }

  /** Whether a read of $C100-$CFFF reaches the common reader rather than a card. */
  predicate ReachesReader(cfg: Config, c: Control, a: CxAddress)
    requires cfg.Valid()
  {
    var slot := a / 0x100 - 0xC0;
    || (!cfg.apple2 && (!c.mode.slotCxRom || (slot == 3 && !c.mode.slotC3Rom)))
    || slot >= NUM_SLOTS
    || !cfg.ownHandler[slot]
  }
}
