/**
 The memory system as the emulator runs it: buffers changed in place, two
 pointer tables, dirty marks and control fields. Every method is tied to the
 machine of MemoryMachine, so what is proved of that machine's runs holds of
 sequences of calls here.
 */
module MemoryBus {
  import opened Bytes
  import opened Paging
  import opened PagedMemory
  import opened SoftSwitches
  import opened MemoryMachine
  import opened MemorySnapshot

  class Memory {
    const cfg: Config

    const mem: array<Page>
    const memmain: array<Page>
    const memaux: array<Page>
    const memrom: array<Page>
    const cxRomInternal: array<Page>
    const cxRomPeripheral: array<Page>
    const memdirty: array<bool>
    const memshadow: array<Place>
    const memwrite: array<Target>

    var memMode: Mode
    var modeChanging: bool
    var lastWriteRam: bool
    var expansionRomType: RomType
    var peripheralRomSlot: nat
    var ioSelect: SlotMask
    var ioSelectInternalRom: bool

    ghost var applied: Mode

    ghost const Repr: set<object> :=
      {this, mem, memmain, memaux, memrom, cxRomInternal, cxRomPeripheral, memdirty, memshadow, memwrite}

    /**
     Power on: buffers allocated and filled, ROM in place, handlers set up, paging
     initialised. `striped` picks the FF FF 00 00 pattern below $C000.
     */
    constructor (cfg: Config, rom: seq<Page>, internal: seq<Page>, striped: bool)
      requires cfg.Valid() && |rom| == 0x30
      requires |internal| == 0x10 && internal[8..] == cfg.internalWindow
      ensures Valid() && this.cfg == cfg
      ensures fresh(mem) && fresh(memmain) && fresh(memaux) && fresh(memrom) && fresh(cxRomInternal)
      ensures fresh(cxRomPeripheral) && fresh(memdirty) && fresh(memshadow) && fresh(memwrite)
      ensures Value() == PowerOn(rom, internal, striped)
    {
      this.cfg := cfg;
      mem := new Page[0x100](_ => ZeroPage());
      memmain := new Page[0x100](p requires 0 <= p => RamFill(striped, p));
      memaux := new Page[0x100](_ => ZeroPage());
      memrom := new Page[0x50](p requires 0 <= p => RomFill(rom, p));
      cxRomInternal := new Page[0x10](p requires 0 <= p < 0x10 => internal[p]);
      cxRomPeripheral := new Page[0x10](_ => ZeroPage());
      memdirty := new bool[0x100](_ => false);
      memshadow := new Place[0x100](_ => Place(Main, 0));
      memwrite := new Target[0x100](_ => Blocked);
      memMode := RESET_MODE;
      modeChanging := false;
      lastWriteRam := false;
      expansionRomType := NoRom;
      peripheralRomSlot := 0;
      ioSelect := NO_SELECT;
      ioSelectInternalRom := false;
      applied := RESET_MODE;
      new;
      ghost var img := Image(Blank(0x100), seq(0x100, i => false), PowerOnStores(rom, internal, striped), RESET_MODE);
      assert memmain[..] == img.stores.main && memaux[..] == img.stores.aux && memrom[..] == img.stores.rom;
      assert cxRomInternal[..] == img.stores.cxInternal && cxRomPeripheral[..] == img.stores.cxPeripheral;
      assert mem[..] == img.live && memdirty[..] == img.dirty;
      ResetPaging(true);
    }

    /** Buffer sizes, and that no two buffers are the same. */
    ghost predicate Shape() {
      && cfg.Valid()
      && mem.Length == memdirty.Length == memshadow.Length == memwrite.Length == 0x100
      && memmain.Length == Capacity(Main)
      && memaux.Length == Capacity(Aux)
      && memrom.Length == Capacity(Rom)
      && cxRomInternal.Length == Capacity(CxInternal)
      && cxRomPeripheral.Length == Capacity(CxPeripheral)
      && mem !in {memmain, memaux, memrom, cxRomInternal, cxRomPeripheral}
      && memmain !in {memaux, memrom, cxRomInternal, cxRomPeripheral}
      && memaux !in {memrom, cxRomInternal, cxRomPeripheral}
      && memrom !in {cxRomInternal, cxRomPeripheral}
      && cxRomInternal != cxRomPeripheral
    }

    ghost function StoresNow(): Stores
      reads memmain, memaux, memrom, cxRomInternal, cxRomPeripheral
    {
      Stores(memmain[..], memaux[..], memrom[..], cxRomInternal[..], cxRomPeripheral[..])
    }

    ghost function ImageNow(): Image
      reads Repr
    {
      Image(mem[..], memdirty[..], StoresNow(), applied)
    }

    function ControlNow(): Control
      reads this
    {
      Control(memMode, modeChanging, lastWriteRam,
              expansionRomType, peripheralRomSlot, ioSelect, ioSelectInternalRom)
    }

    ghost function Value(): Paged
      reads Repr
    {
      Paged(ImageNow(), ControlNow())
    }

    /** Both tables are those of the mode last applied. */
    ghost predicate TablesFit(m: Mode)
      requires Shape()
      reads memshadow, memwrite
    {
      && (forall p | 0 <= p < 0x100 :: memshadow[p] == ReadMap(m, p))
      && (forall p | 0 <= p < 0x100 :: memwrite[p] == TargetOf(m, p))
    }

    ghost predicate Valid()
      reads Repr
    {
      Shape() && TablesFit(applied) && Inv(cfg, Value())
    }

    /** One page of a backing buffer. */
    function Load(b: Place): Page
      requires Shape() && InBank(b)
      reads memmain, memaux, memrom, cxRomInternal, cxRomPeripheral
    {
      match b.bank
      case Main => memmain[b.page]
      case Aux => memaux[b.page]
      case Rom => memrom[b.page]
      case CxInternal => cxRomInternal[b.page]
      case CxPeripheral => cxRomPeripheral[b.page]
    }

    method Store(b: Place, page: Page)
      requires Shape() && InBank(b)
      modifies memmain, memaux, memrom, cxRomInternal, cxRomPeripheral
      ensures StoresNow() == old(StoresNow()).Put(b, page)
    {
      match b.bank
      case Main => memmain[b.page] := page;
      case Aux => memaux[b.page] := page;
      case Rom => memrom[b.page] := page;
      case CxInternal => cxRomInternal[b.page] := page;
      case CxPeripheral => cxRomPeripheral[b.page] := page;
    }

    /** A stretch of both tables agrees with mode `m`. */
    ghost predicate Fits(m: Mode, start: nat, end: nat)
      requires Shape() && end <= 0x100
      reads memshadow, memwrite
    {
      forall p | start <= p < end :: memshadow[p] == ReadMap(m, p) && memwrite[p] == TargetOf(m, p)
    }

    /** Nothing outside a stretch of the tables has changed. */
    twostate predicate Untouched(start: nat, end: nat)
      requires Shape() && end <= 0x100
      reads memshadow, memwrite
    {
      forall p | 0 <= p < 0x100 && !(start <= p < end) ::
        memshadow[p] == old(memshadow[p]) && memwrite[p] == old(memwrite[p])
    }

    /** Rebuild the shadow and write tables for the current mode. */
    method BuildTables(initialize: bool)
      requires Shape()
      requires !initialize ==> TablesFit(applied)
      modifies memshadow, memwrite
      ensures TablesFit(memMode)
    {
      if initialize {
        ResetWriteTable();
      }
      BuildZeroPageTables();
      BuildMainTables();
      BuildSlotTables();
      BuildCardTables();
      ApplyStore80();
    }

    method ResetWriteTable()
      requires Shape()
      modifies memwrite
      ensures forall q | 0 <= q < 0xC0 :: memwrite[q] == Live
      ensures forall q | 0xC0 <= q < 0xD0 :: memwrite[q] == Blocked
    {
      for page := 0x00 to 0xC0
        invariant forall q | 0 <= q < page :: memwrite[q] == Live
      {
        memwrite[page] := Live;
      }
      for page := 0xC0 to 0xD0
        invariant forall q | 0 <= q < 0xC0 :: memwrite[q] == Live
        invariant forall q | 0xC0 <= q < page :: memwrite[q] == Blocked
      {
        memwrite[page] := Blocked;
      }
    }

    method BuildZeroPageTables()
      requires Shape()
      requires forall q | 0 <= q < 0x02 :: memwrite[q] == Live
      modifies memshadow
      ensures Fits(memMode, 0x00, 0x02) && Untouched(0x00, 0x02)
    {
      for page := 0x00 to 0x02
        invariant forall q | 0 <= q < page :: memshadow[q] == ReadMap(memMode, q)
        invariant Untouched(0x00, 0x02)
      {
        memshadow[page] := if memMode.altZp then Place(Aux, page) else Place(Main, page);
      }
    }

    /** RAMRD and RAMWRT, as if 80STORE were off. */
    method BuildMainTables()
      requires Shape()
      modifies memshadow, memwrite
      ensures Fits(memMode.(store80 := false), 0x02, 0xC0) && Untouched(0x02, 0xC0)
    {
      for page := 0x02 to 0xC0
        invariant Fits(memMode.(store80 := false), 0x02, page)
        invariant Untouched(0x02, 0xC0)
      {
        memshadow[page] := if memMode.auxRead then Place(Aux, page) else Place(Main, page);
        if memMode.auxRead == memMode.auxWrite {
          memwrite[page] := Live;
        } else if memMode.auxWrite {
          memwrite[page] := Backing(Place(Aux, page));
        } else {
          memwrite[page] := Backing(Place(Main, page));
        }
      }
    }

    method BuildSlotTables()
      requires Shape()
      requires forall q | 0xC0 <= q < 0xD0 :: memwrite[q] == Blocked
      modifies memshadow
      ensures Fits(memMode, 0xC0, 0xD0) && Untouched(0xC0, 0xD0)
    {
      for page := 0xC0 to 0xC8
        invariant forall q | 0xC0 <= q < page :: memshadow[q] == ReadMap(memMode, q)
        invariant Untouched(0xC0, 0xD0)
      {
        var slotRom := if page == 0xC3 then memMode.slotC3Rom && memMode.slotCxRom else memMode.slotCxRom;
        memshadow[page] := Place(if slotRom then CxPeripheral else CxInternal, page % 0x10);
      }
      for page := 0xC8 to 0xD0
        invariant forall q | 0xC0 <= q < page :: memshadow[q] == ReadMap(memMode, q)
        invariant Untouched(0xC0, 0xD0)
      {
        memshadow[page] := Place(CxInternal, page % 0x10);
      }
    }

    /** The language card; bank 1 of $D0-$DF sits one bank size lower in its buffer. */
    method BuildCardTables()
      requires Shape()
      modifies memshadow, memwrite
      ensures Fits(memMode, 0xD0, 0x100) && Untouched(0xD0, 0x100)
    {
      for page := 0xD0 to 0x100
        invariant Fits(memMode, 0xD0, page)
        invariant Untouched(0xD0, 0x100)
      {
        var offset := if page < 0xE0 && !memMode.hramBank2 then 0x10 else 0;
        var lcRam := Place(if memMode.altZp then Aux else Main, page - offset);
        memshadow[page] := if memMode.highRam then lcRam else Place(Rom, page - 0xD0);
        if !memMode.hramWrite {
          memwrite[page] := Blocked;
        } else if memMode.highRam {
          memwrite[page] := Live;
        } else {
          memwrite[page] := Backing(lcRam);
        }
      }
    }

    method ApplyStore80()
      requires Shape() && Fits(memMode.(store80 := false), 0x02, 0xC0)
      modifies memshadow, memwrite
      ensures Fits(memMode, 0x02, 0xC0) && Untouched(0x02, 0xC0)
    {
      if memMode.store80 {
        OverrideDisplay(0x04, 0x08);
        if memMode.hires {
          OverrideDisplay(0x20, 0x40);
        }
      }
    }

    /** 80STORE: PAGE2 alone picks the bank of these pages, for reads and writes. */
    method OverrideDisplay(start: nat, end: nat)
      requires Shape() && start <= end <= 0x100
      modifies memshadow, memwrite
      ensures forall q | start <= q < end ::
                memshadow[q] == Ram(memMode.page2, q) && memwrite[q] == Live
      ensures Untouched(start, end)
    {
      for page := start to end
        invariant forall q | start <= q < page ::
                    memshadow[q] == Ram(memMode.page2, q) && memwrite[q] == Live
        invariant Untouched(start, end)
      {
        memshadow[page] := if memMode.page2 then Place(Aux, page) else Place(Main, page);
        memwrite[page] := Live;
      }
    }

    /** What an update should leave: everything reloaded, or the exchange of Repage. */
    ghost function Updated(before: Image, initialize: bool): (r: Image)
      requires before.Valid()
      reads `memMode
      ensures r.Valid()
    {
      if initialize then Reload(before, memMode) else Repage(before, memMode)
    }

    /** The pass has dealt with the pages below `page`. */
    ghost predicate Exchanged(before: Image, initialize: bool, page: nat)
      requires Shape() && before.Valid()
      reads Repr
    {
      && (forall q | 0 <= q < 0x100 ::
            mem[q] == if q < page then Updated(before, initialize).live[q] else before.live[q])
      && (forall q | 0 <= q < 0x100 ::
            memdirty[q] == if q < page then Updated(before, initialize).dirty[q] else before.dirty[q])
      && if initialize then StoresNow() == before.stores
         else PartlyFlushed(before, memMode, page, StoresNow())
    }

    /** Exchange one page if its shadow has changed, saving it first where needed. */
    method ExchangePage(ghost before: Image, page: nat, was: Place, initialize: bool)
      requires Shape() && before.Valid() && page < 0x100
      requires memshadow[page] == ReadMap(memMode, page)
      requires initialize || was == ReadMap(before.applied, page)
      requires Exchanged(before, initialize, page)
      modifies mem, memdirty, memmain, memaux, memrom, cxRomInternal, cxRomPeripheral
      ensures Exchanged(before, initialize, page + 1)
    {
      if initialize {
        mem[page] := Load(memshadow[page]);
      } else if was != memshadow[page] {
        ReplacePage(before, page, was);
      } else {
        FlushStep(before, memMode, page, StoresNow(), StoresNow());
      }
    }

    /** The page is saved first where needed; what it is loaded from is still as it was. */
    method ReplacePage(ghost before: Image, page: nat, was: Place)
      requires Shape() && before.Valid() && page < 0x100
      requires memshadow[page] == ReadMap(memMode, page) != was == ReadMap(before.applied, page)
      requires Exchanged(before, false, page)
      modifies mem, memdirty, memmain, memaux, memrom, cxRomInternal, cxRomPeripheral
      ensures Exchanged(before, false, page + 1)
    {
      OneHome(before.applied, page);
      ghost var now := StoresNow();
      SaveIfDirty(page, was);
      FlushStep(before, memMode, page, now, StoresNow());
      assert Load(memshadow[page]) == before.stores.Get(memshadow[page]);
      mem[page] := Load(memshadow[page]);
    }

    /** Copy a dirty live page, or either of the first two, back to where it came from. */
    method SaveIfDirty(page: nat, was: Place)
      requires Shape() && page < 0x100 && InBank(was)
      modifies memdirty, memmain, memaux, memrom, cxRomInternal, cxRomPeripheral
      ensures memdirty[..] == old(memdirty[..])[page := false]
      ensures StoresNow() == if old(memdirty[page]) || page <= 0x01
                             then old(StoresNow()).Put(was, mem[page]) else old(StoresNow())
    {
      if memdirty[page] || page <= 0x01 {
        memdirty[page] := false;
        Store(was, mem[page]);
      }
    }

    /**
     The paging update: rebuild the tables, then exchange pages in one pass over
     the live image, saving a page where needed just before it is replaced.
     */
    method UpdatePaging(initialize: bool)
      requires Shape()
      requires !initialize ==> TablesFit(applied)
      modifies mem, memdirty, memmain, memaux, memrom, cxRomInternal, cxRomPeripheral
      modifies memshadow, memwrite, `applied
      ensures TablesFit(memMode) && applied == memMode
      ensures ImageNow() == if initialize then Reload(old(ImageNow()), memMode)
                            else Repage(old(ImageNow()), memMode)
    {
      var oldshadow := if initialize then seq(0x100, i => Place(Main, 0)) else memshadow[..];
      BuildTables(initialize);
      ExchangePages(oldshadow, initialize);
      applied := memMode;
    }

    /** The pass itself: `oldshadow` is the shadow table before the update. */
    method ExchangePages(oldshadow: seq<Place>, initialize: bool)
      requires Shape() && TablesFit(memMode)
      requires |oldshadow| == 0x100
      requires forall p | 0 <= p < 0x100 :: initialize || oldshadow[p] == ReadMap(applied, p)
      requires forall p | 0 <= p < 0x100 :: InBank(oldshadow[p])
      modifies mem, memdirty, memmain, memaux, memrom, cxRomInternal, cxRomPeripheral
      ensures ImageNow().(applied := memMode)
              == if initialize then Reload(old(ImageNow()), memMode) else Repage(old(ImageNow()), memMode)
    {
      ghost var before := ImageNow();
      for page := 0x00 to 0x100
        invariant Exchanged(before, initialize, page)
      {
        ExchangePage(before, page, oldshadow[page], initialize);
      }
      if !initialize {
        FlushDone(before, memMode, StoresNow());
      }
    }

    /** memcpy or memset over the live $C800-$CFFF. */
    method ShowWindow(w: Window)
      requires Shape()
      modifies mem
      ensures ImageNow() == Do(old(ImageNow()), Move.ShowWindow(w))
    {
      for i := 0 to 8
        invariant mem[..] == old(mem[..0xC8]) + w[..i] + old(mem[0xC8 + i..])
      {
        mem[0xC8 + i] := w[i];
      }
    }

    /** The same over the upper half of the peripheral ROM buffer. */
    method KeepWindow(w: Window)
      requires Shape()
      modifies cxRomPeripheral
      ensures ImageNow() == Do(old(ImageNow()), Move.KeepWindow(w))
    {
      for i := 0 to 8
        invariant cxRomPeripheral[..] == old(cxRomPeripheral[..8]) + w[..i] + old(cxRomPeripheral[8 + i..])
      {
        cxRomPeripheral[8 + i] := w[i];
      }
    }

    function ByteAt(a: Address): Byte
      requires Shape()
      reads mem
    {
      mem[a / 0x100][a % 0x100]
    }

    /** The state is `out` of the state before: all its moves made, its control state set. */
    twostate predicate Became(out: Outcome)
      requires Shape()
      reads Repr
    {
      Value() == Paged(DoAll(old(ImageNow()), out.moves), out.ctl)
    }

    /** Access to a paging switch; `sw` is the low byte of its address. */
    method SetPaging(pc: Address, sw: Byte)
      requires Valid()
      modifies Repr
      ensures Valid()
      ensures Became(SoftSwitches.SetPaging(cfg, old(ControlNow()), CodeAt(old(ImageNow()), pc), sw))
    {
      SwitchKeepsInv(cfg, Value(), CodeAt(ImageNow(), pc), sw);
      ghost var out := SoftSwitches.SetPaging(cfg, ControlNow(), CodeAt(ImageNow(), pc), sw);
      ghost var goal := Paged(DoAll(ImageNow(), out.moves), out.ctl);
      var lastMode := memMode;
      SetMode(sw);
      if HoldsBackAt(pc, sw) {
        modeChanging := true;
      } else {
        ApplyChange(lastMode);
      }
      assert Value() == goal;
    }

    /** Unless nothing changed, switch the ROM window if need be and update the paging. */
    method ApplyChange(lastMode: Mode)
      requires Shape() && TablesFit(applied) && cxRomInternal[8..] == cfg.internalWindow
      modifies mem, memdirty, memmain, memaux, memrom, cxRomInternal, cxRomPeripheral, memshadow, memwrite
      modifies `applied, `modeChanging, `expansionRomType, `peripheralRomSlot
      ensures TablesFit(applied)
      ensures Became(SettlePaging(cfg, lastMode, old(ControlNow())))
    {
      if lastMode != memMode || modeChanging {
        modeChanging := false;
        ghost var img, flip := ImageNow(), SoftSwitches.FlipWindow(cfg, lastMode, ControlNow());
        FlipThenApply(img, flip.moves, memMode);
        FlipWindow(lastMode);
        UpdatePaging(false);
        assert Value() == Paged(DoAll(img, flip.moves + [Apply(memMode)]), flip.ctl);
      }
    }

    lemma FlipThenApply(img: Image, moves: seq<Move>, m: Mode)
      requires img.Valid()
      ensures DoAll(img, moves + [Apply(m)]) == Repage(DoAll(img, moves), m)
    {
      Unroll(DoAll(img, moves), Apply(m), Apply(m));
      DoAllConcat(img, moves, [Apply(m)]);
    }

    /** Fill $C800-$CFFF if SLOTCXROM has flipped. */
    method FlipWindow(lastMode: Mode)
      requires Shape() && cxRomInternal[8..] == cfg.internalWindow
      modifies mem, cxRomPeripheral, `expansionRomType, `peripheralRomSlot
      ensures Became(SoftSwitches.FlipWindow(cfg, lastMode, old(ControlNow())))
    {
      Unroll(ImageNow(), Move.KeepWindow(NoWindow()), Move.ShowWindow(NoWindow()));
      if lastMode.slotCxRom != memMode.slotCxRom {
        if memMode.slotCxRom {
          KeepWindow(NoWindow());
          ShowWindow(NoWindow());
          expansionRomType := NoRom;
          peripheralRomSlot := 0;
        } else {
          Unroll(ImageNow(), Move.ShowWindow(cfg.internalWindow), Apply(memMode));
          ShowWindow(cxRomInternal[8..]);
          expansionRomType := InternalRom;
          peripheralRomSlot := 0;
        }
      }
    }

    /**
     A write-mode switch followed by a store to the read-mode switch, or a card
     switch followed by a store to either.
     */
    predicate HoldsBackAt(pc: Address, sw: Byte)
      requires Shape()
      reads Repr
      ensures HoldsBackAt(pc, sw) == HoldsBack(sw, CodeAt(ImageNow(), pc))
    {
      || ((sw == 4 || sw == 5) && pc <= 0xFFFC && NextStoresTo(pc, 0x02))
      || (0x80 <= sw <= 0x8F && pc <= 0xFFFC && (NextStoresTo(pc, 0x04) || NextStoresTo(pc, 0x02)))
    }

    /** STA $C0nn at `pc`, with nn equal to `base` or the next address. */
    predicate NextStoresTo(pc: Address, base: Byte)
      requires Shape() && pc <= 0xFFFC
      reads mem
    {
      ByteAt(pc) == 0x8D && (ByteAt(pc + 1) == base || ByteAt(pc + 1) == base + 1) && ByteAt(pc + 2) == 0xC0
    }

    /** The mode bits a switch sets or clears. */
    method SetMode(sw: Byte)
      modifies `memMode, `lastWriteRam
      ensures memMode == ModeAfter(cfg.apple2, old(memMode), sw)
      ensures lastWriteRam == if CardSwitch(sw) then EnablesWrite(sw) else old(lastWriteRam)
    {
      if 0x80 <= sw <= 0x8F {
        lastWriteRam := true;
        memMode := memMode.(hramWrite := lastWriteRam && EnablesWrite(sw),
                            hramBank2 := SelectsBank2(sw), highRam := EnablesRead(sw));
        lastWriteRam := EnablesWrite(sw);
      } else if !cfg.apple2 {
        if sw == 0x00 { memMode := memMode.(store80 := false); }
        else if sw == 0x01 { memMode := memMode.(store80 := true); }
        else if sw == 0x02 { memMode := memMode.(auxRead := false); }
        else if sw == 0x03 { memMode := memMode.(auxRead := true); }
        else if sw == 0x04 { memMode := memMode.(auxWrite := false); }
        else if sw == 0x05 { memMode := memMode.(auxWrite := true); }
        else if sw == 0x06 { memMode := memMode.(slotCxRom := true); }
        else if sw == 0x07 { memMode := memMode.(slotCxRom := false); }
        else if sw == 0x08 { memMode := memMode.(altZp := false); }
        else if sw == 0x09 { memMode := memMode.(altZp := true); }
        else if sw == 0x0A { memMode := memMode.(slotC3Rom := false); }
        else if sw == 0x0B { memMode := memMode.(slotC3Rom := true); }
        else if sw == 0x54 { memMode := memMode.(page2 := false); }
        else if sw == 0x55 { memMode := memMode.(page2 := true); }
        else if sw == 0x56 { memMode := memMode.(hires := false); }
        else if sw == 0x57 { memMode := memMode.(hires := true); }
      }
    }

    // ------------------------------------------------------- $C100-$CFFF

    /** The common reader of the slot ROM area. No value means the bus floats. */
    method ReadCx(a: CxAddress) returns (value: Option<Byte>)
      requires Valid()
      modifies Repr
      ensures Valid()
      ensures Became(SoftSwitches.ReadCx(cfg, old(ControlNow()), a))
      ensures value == if Floats(ControlNow(), a) then None else Some(ByteAt(a))
    {
      CxKeepsInv(cfg, Value(), a);
      ghost var img, c := ImageNow(), ControlNow();
      ghost var first := SoftSwitches.ReleaseWindow(c, a);
      ReleaseWindow(a);
      if cfg.apple2 || memMode.slotCxRom {
        DoAllConcat(img, first.moves, SoftSwitches.TouchSlots(cfg, first.ctl, a).moves);
        TouchSlots(a);
      } else {
        DoAllConcat(img, first.moves, SoftSwitches.TouchInternal(cfg, first.ctl, a).moves);
        TouchInternal(a);
      }
      if expansionRomType == NoRom && a >= 0xC800 {
        value := None;
      } else {
        value := Some(ByteAt(a));
      }
    }

    method ReleaseWindow(a: CxAddress)
      requires Shape()
      modifies mem, cxRomPeripheral, `ioSelect, `ioSelectInternalRom, `peripheralRomSlot, `expansionRomType
      ensures Became(SoftSwitches.ReleaseWindow(old(ControlNow()), a))
    {
      Unroll(ImageNow(), Move.KeepWindow(NoWindow()), Move.ShowWindow(NoWindow()));
      if a == 0xCFFF {
        ioSelect := NO_SELECT;
        ioSelectInternalRom := false;
        peripheralRomSlot := 0;
        if memMode.slotCxRom {
          KeepWindow(NoWindow());
          ShowWindow(NoWindow());
          expansionRomType := NoRom;
        }
      }
    }

    /** Slot ROM enabled: select on $C1-$C7, switch the lowest selected ROM in on $C8-$CF. */
    method TouchSlots(a: CxAddress)
      requires Shape() && cxRomInternal[8..] == cfg.internalWindow
      modifies mem, cxRomPeripheral, `ioSelect, `ioSelectInternalRom, `peripheralRomSlot, `expansionRomType
      ensures Became(SoftSwitches.TouchSlots(cfg, old(ControlNow()), a))
    {
      if a < 0xC800 {
        var slot := a / 0x100 - 0xC0;
        if slot != 3 && cfg.expansionRom[slot].Some? {
          ioSelect := ioSelect[slot := true];
        } else if memMode.slotC3Rom && cfg.expansionRom[slot].Some? {
          ioSelect := ioSelect[slot := true];
        } else if !memMode.slotC3Rom {
          ioSelectInternalRom := true;
        }
      } else if ioSelect != NO_SELECT {
        var slot := 1;
        while slot < NUM_SLOTS && !ioSelect[slot]
          invariant 1 <= slot <= NUM_SLOTS
          invariant LowestSlot(ioSelect, 1) == LowestSlot(ioSelect, slot)
        {
          slot := slot + 1;
        }
        if slot < NUM_SLOTS && cfg.expansionRom[slot].Some? && peripheralRomSlot != slot {
          ghost var rom := cfg.expansionRom[slot].value;
          Unroll(ImageNow(), Move.KeepWindow(rom), Move.ShowWindow(rom));
          KeepWindow(cfg.expansionRom[slot].value);
          ShowWindow(cfg.expansionRom[slot].value);
          expansionRomType := PeripheralRom;
          peripheralRomSlot := slot;
        }
      } else if ioSelectInternalRom {
        ShowInternal();
      }
    }

    /** Internal ROM enabled on a //e. */
    method TouchInternal(a: CxAddress)
      requires Shape() && cxRomInternal[8..] == cfg.internalWindow
      modifies mem, `ioSelectInternalRom, `peripheralRomSlot, `expansionRomType
      ensures Became(SoftSwitches.TouchInternal(cfg, old(ControlNow()), a))
    {
      if a < 0xC800 {
        ioSelectInternalRom := true;
      } else if ioSelectInternalRom {
        ShowInternal();
      }
    }

    method ShowInternal()
      requires Shape() && cxRomInternal[8..] == cfg.internalWindow
      modifies mem, `peripheralRomSlot, `expansionRomType
      ensures Became(SoftSwitches.ShowInternal(cfg, old(ControlNow())))
    {
      if expansionRomType != InternalRom {
        Unroll(ImageNow(), Move.ShowWindow(cfg.internalWindow), Apply(memMode));
        ShowWindow(cxRomInternal[8..]);
        expansionRomType := InternalRom;
        peripheralRomSlot := 0;
      }
    }

    /** A card has a new ROM page: refresh the buffer, and the live page while it shows it. */
    method RefreshCxPage(slot: nat, page: Page)
      requires Valid() && 1 <= slot <= 7
      modifies mem, cxRomPeripheral
      ensures Valid()
      ensures Value() == old(Value()).(image := RefreshCard(old(ImageNow()), slot, page))
    {
      SwapRefines(cfg, Value(), slot, page);
      cxRomPeripheral[slot] := page;
      if memshadow[0xC0 + slot] == Place(CxPeripheral, slot) {
        mem[0xC0 + slot] := page;
      }
    }

    // --------------------------------------------------------- CPU accessors

    /** Operands and pointers are read straight from the live image, in the I/O area too. */
    method FetchByte(a: Address) returns (value: Byte)
      requires Valid()
      ensures (Value(), Some(value)) == Step(cfg, Value(), Fetch(a))
    {
      value := mem[a / 0x100][a % 0x100];
    }

    method ReadByte(pc: Address, a: Address) returns (value: Option<Byte>)
      requires Valid()
      modifies Repr
      ensures Valid()
      ensures (Value(), value) == Step(cfg, old(Value()), Read(pc, a))
    {
      if !IoArea(a) {
        value := Some(ByteAt(a));
      } else if a < 0xC100 {
        if SwitchPort(a - 0xC000, false) {
          SetPaging(pc, a - 0xC000);
        }
        value := None;
      } else if ReachesReader(cfg, ControlNow(), a) {
        value := ReadCx(a);
      } else {
        value := None;
      }
    }

    /** The page is marked first, whatever the write table says. */
    method WriteByte(pc: Address, a: Address, v: Byte)
      requires Valid()
      modifies Repr
      ensures Valid()
      ensures Value() == Step(cfg, old(Value()), Write(pc, a, v)).0
    {
      StoreByte(a, v);
      if memwrite[a / 0x100] == Blocked && IoArea(a) && a < 0xC100 && SwitchPort(a - 0xC000, true) {
        SetPaging(pc, a - 0xC000);
      }
    }

    method StoreByte(a: Address, v: Byte)
      requires Valid()
      modifies mem, memdirty, memmain, memaux, memrom, cxRomInternal, cxRomPeripheral
      ensures Valid()
      ensures Value() == old(Value()).(image := Poke(old(ImageNow()), a, v))
    {
      PokeKeepsInv(cfg, Value(), a, v);
      OneHome(applied, a / 0x100);
      var p, o := a / 0x100, a % 0x100;
      memdirty[p] := true;
      match memwrite[p]
      case Blocked =>
      case Live => mem[p] := mem[p][o := v];
      case Backing(b) => Store(b, Load(b)[o := v]);
    }

    method PushAt(sp: Address, v: Byte)
      requires Valid() && PageOf(sp) == 1
      modifies mem
      ensures Valid()
      ensures Value() == Step(cfg, old(Value()), Push(sp, v)).0
    {
      PushRefines(ImageNow(), sp, v);
      mem[1] := mem[1][sp % 0x100 := v];
    }

    /** Soft reset, or with `initialize` the paging half of power-on. */
    method ResetPaging(initialize: bool)
      requires Shape() && cxRomInternal[8..] == cfg.internalWindow
      requires !initialize ==> Valid()
      modifies this, mem, memmain, memaux, memrom, cxRomInternal, cxRomPeripheral, memdirty, memshadow, memwrite
      ensures Valid()
      ensures Value() == if initialize
        then Paged(Reload(old(ImageNow()), RESET_MODE), SoftReset(old(ControlNow())).ctl)
        else Step(cfg, old(Value()), Reset).0
    {
      ghost var goal := if initialize
        then Paged(Reload(ImageNow(), RESET_MODE), SoftReset(ControlNow()).ctl)
        else Step(cfg, Value(), Reset).0;
      if initialize {
        PowerOnIsCoherent(cfg, ImageNow(), SoftReset(ControlNow()).ctl);
      } else {
        StepRefines(cfg, Value(), Reset);
        Unroll(ImageNow(), Apply(RESET_MODE), Apply(RESET_MODE));
      }
      assert Inv(cfg, goal);
      ApplyResetMode(initialize);
      assert Value() == goal;
    }

    method ApplyResetMode(initialize: bool)
      requires Shape()
      requires !initialize ==> TablesFit(applied)
      modifies this, mem, memmain, memaux, memrom, cxRomInternal, cxRomPeripheral, memdirty, memshadow, memwrite
      ensures TablesFit(applied)
      ensures ControlNow() == SoftReset(old(ControlNow())).ctl
      ensures ImageNow() == if initialize then Reload(old(ImageNow()), RESET_MODE)
                            else Repage(old(ImageNow()), RESET_MODE)
    {
      lastWriteRam := false;
      memMode := RESET_MODE;
      UpdatePaging(initialize);
    }

    // ------------------------------------------------------------- snapshots

    /** The page of a RAM bank as the debugger and the saver find it. */
    method RamPage(bank: Bank, p: nat) returns (page: Page)
      requires Shape() && TablesFit(applied) && p < 0x100 && (bank.Main? || bank.Aux?)
      ensures page == SavedPage(ImageNow(), bank, p)
    {
      page := if memshadow[p] == Place(bank, p) then mem[p] else Load(Place(bank, p));
    }

    method GetSnapshot() returns (snap: Snapshot)
      requires Valid()
      ensures snap == Save(Value())
    {
      ghost var saved := Save(Value());
      var main: seq<Page>, aux: seq<Page> := [], [];
      for p := 0 to 0x100
        invariant main == saved.main[..p] && aux == saved.aux[..p]
      {
        var mainPage := RamPage(Main, p);
        var auxPage := RamPage(Aux, p);
        main, aux := main + [mainPage], aux + [auxPage];
      }
      snap := Snapshot(memMode, lastWriteRam, main, aux);
    }

    method SetSnapshot(snap: Snapshot)
      requires Valid() && |snap.main| == 0x100 && |snap.aux| == 0x100
      modifies Repr
      ensures Valid()
      ensures Value() == Restore(old(Value()), snap)
    {
      RestoreKeepsInv(cfg, Value(), snap);
      memMode := snap.mode;
      lastWriteRam := snap.lastWriteRam;
      RestoreRam(snap.main, snap.aux);
      modeChanging := false;
      UpdatePaging(true);
    }

    method RestoreRam(main: seq<Page>, aux: seq<Page>)
      requires Shape() && |main| == 0x100 && |aux| == 0x100
      modifies memmain, memaux
      ensures memmain[..] == main && memaux[..] == aux
    {
      for p := 0 to 0x100
        invariant forall q | 0 <= q < p :: memmain[q] == main[q] && memaux[q] == aux[q]
      {
        memmain[p] := main[p];
        memaux[p] := aux[p];
      }
    }
  }
}
