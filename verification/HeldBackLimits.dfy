/**
 Where holding paging back shows: the exact addresses of code for which it never
 does, with a program for every other address.
 */
module HeldBackLimits {
  import opened Bytes
  import opened Paging
  import opened PagedMemory
  import opened SoftSwitches
  import opened MemoryMachine
  import opened ExpansionRom
  import opened RepageAlgebra
  import opened HeldBack

  // ------------------------------------------------------ the prompt machine

  /** The prompt machine never has a switch pending. */
  lemma {:induction false} PromptIsSettled(cfg: Config, s: Paged, pc: Address, sw: Byte, v: Byte, bus: Bus)
    requires cfg.Valid() && s.image.Valid() && !s.ctl.changing
    ensures !GroupRun(cfg, false, s, pc, sw, v, bus).ctl.changing
    decreases Rank(sw)
  {
    var t := Switch(cfg, false, s, pc, sw);
    NothingPending(cfg, s.ctl, sw);
    if HoldsBack(sw, CodeAt(t.image, pc)) {
      var lo := CodeAt(t.image, pc).value.lo;
      GroupGoesOn(cfg, false, s, t, pc, sw, lo, v, bus);
      FetchLeavesNothing(cfg, t, pc, bus);
      PromptIsSettled(cfg, Touched(FetchOp(cfg, false, t, pc, bus).0, Port(lo), v), pc + 3, lo, v, bus);
    } else {
      GroupEnds(cfg, false, s, pc, sw, v, bus);
    }
  }

  lemma NothingPending(cfg: Config, c: Control, sw: Byte)
    requires !c.changing
    ensures !SetPaging(cfg, c, None, sw).ctl.changing
  {
  }

  lemma FetchLeavesNothing(cfg: Config, s: Paged, pc: Address, bus: Bus)
    requires cfg.Valid() && s.image.Valid() && !s.ctl.changing
    ensures !FetchOp(cfg, false, s, pc, bus).0.ctl.changing
  {
    if IoArea(pc) && pc < 0xC100 {
      NothingPending(cfg, s.ctl, pc - 0xC000);
    } else if IoArea(pc) {
      ReadCxKeepsMode(cfg, s.ctl, pc);
    }
  }

  // ------------------------------------- fetches that miss the store ahead

  /** Code at `pc` stores to RAMRD. */
  predicate StoreAhead(s: Paged, pc: Address)
    requires s.image.Valid()
  {
    CodeAt(s.image, pc) == Some(Code(STA_ABS, 0x03, 0xC0))
  }

  /** A fetch at `pc` is answered by something other than memory. */
  predicate Elsewhere(cfg: Config, c: Control, pc: Address)
    requires cfg.Valid()
  {
    && IoArea(pc) && !(0xC054 <= pc <= 0xC057)
    && (0xC100 <= pc < 0xC800 ==> !ReachesReader(cfg, c, pc))
    && (0xC800 <= pc ==> Released(c))
  }

  /** Such a fetch does not settle what is held back. */
  lemma FetchMisses(cfg: Config, s: Paged, pc: Address, bus: Bus)
    requires cfg.Valid() && s.image.Valid() && s.ctl.changing
    requires StoreAhead(s, pc) && Elsewhere(cfg, s.ctl, pc)
    ensures var (u, op) := FetchOp(cfg, true, s, pc, bus);
            u.ctl.changing && op == bus(pc)
  {
    if 0xC800 <= pc {
      assert ReadCx(cfg, s.ctl, pc).ctl == s.ctl;
    }
  }

  /** A store that is looked at but not found leaves the machine with its paging out of date. */
  lemma StoreIsMissed(cfg: Config, s: Paged, pc: Address, sw: Byte, v: Byte, bus: Bus)
    requires cfg.Valid() && s.image.Valid() && (sw == 0x05 || sw == 0x88)
    requires StoreAhead(s, pc) && Elsewhere(cfg, s.ctl, pc) && bus(pc) != STA_ABS
    ensures GroupRun(cfg, true, s, pc, sw, v, bus).ctl.changing
  {
    var t := Switch(cfg, true, s, pc, sw);
    SwitchReach(cfg.apple2, s.ctl.mode, sw);
    assert t.image == s.image && t.ctl.changing;
    KeepsSlotC3(cfg.apple2, s.ctl.mode, sw);
    GroupGoesOn(cfg, true, s, t, pc, sw, 0x03, v, bus);
    FetchMisses(cfg, t, pc, bus);
  }

  lemma KeepsSlotC3(apple2: bool, m: Mode, sw: Byte)
    requires sw == 0x05 || sw == 0x88
    ensures ModeAfter(apple2, m, sw).slotC3Rom == m.slotC3Rom
  {
    if sw == 0x88 {
      CardForm(apple2, m, sw);
    } else {
      AuxWriteForm(apple2, m, sw);
    }
  }

  /** Two stores, the first of which is found. */
  predicate StoresAhead(s: Paged, pc: Address)
    requires s.image.Valid()
  {
    && pc <= 0xFFF9 && StoreAhead(s, pc + 3)
    && CodeAt(s.image, pc) == Some(Code(STA_ABS, 0x05, 0xC0))
  }

  /** The second store is missed though the first is found. */
  lemma SecondIsMissed(cfg: Config, s: Paged, pc: Address, v: Byte, bus: Bus)
    requires cfg.Valid() && s.image.Valid() && Settled(s) && StoresAhead(s, pc)
    requires 0xBFFD <= pc < 0xC000 || 0xC055 <= pc <= 0xC057
    requires (IoArea(pc) ==> bus(pc) == STA_ABS) && bus(pc + 3) != STA_ABS
    ensures GroupRun(cfg, true, s, pc, 0x88, v, bus).ctl.changing
  {
    var t := Switch(cfg, true, s, pc, 0x88);
    FirstIsFound(cfg, s, pc, bus);
    GroupGoesOn(cfg, true, s, t, pc, 0x88, 0x05, v, bus);
    AfterTheFirst(cfg, FetchOp(cfg, true, t, pc, bus).0, pc + 3, v, bus);
  }

  lemma AfterTheFirst(cfg: Config, s: Paged, pc: Address, v: Byte, bus: Bus)
    requires cfg.Valid() && s.image.Valid() && StoreAhead(s, pc)
    requires 0xC000 <= pc < 0xC054 || 0xC058 <= pc < 0xC100
    requires bus(pc) != STA_ABS
    ensures GroupRun(cfg, true, Touched(s, Port(0x05), v), pc, 0x05, v, bus).ctl.changing
  {
    TouchKeepsStore(s, Port(0x05), v, pc);
    StoreIsMissed(cfg, Touched(s, Port(0x05), v), pc, 0x05, v, bus);
  }

  lemma TouchKeepsStore(s: Paged, a: Address, v: Byte, pc: Address)
    requires s.image.Valid() && 0xC000 <= a < 0xC100
    ensures StoreAhead(Touched(s, a, v), pc) == StoreAhead(s, pc)
  {
    BlockedPoke(s.image, a, v);
  }

  lemma FirstIsFound(cfg: Config, s: Paged, pc: Address, bus: Bus)
    requires cfg.Valid() && s.image.Valid() && Settled(s) && StoresAhead(s, pc)
    requires 0xBFFD <= pc < 0xC000 || 0xC055 <= pc <= 0xC057
    requires IoArea(pc) ==> bus(pc) == STA_ABS
    ensures var t := Switch(cfg, true, s, pc, 0x88);
            var u := FetchOp(cfg, true, t, pc, bus).0;
            t.image == s.image && GoesOn(cfg, true, t, pc, 0x05, bus) && StoreAhead(u, pc + 3)
  {
    HeldIsStill(cfg, s, pc, 0x88);
    if IoArea(pc) {
      SwitchReach(cfg.apple2, s.ctl.mode, 0x88);
      DisplayKeepsCode(cfg, Switch(cfg, true, s, pc, 0x88), pc, pc - 0xC000, bus);
    }
  }

  /** Code in the ports stays where it is when it is fetched from a display switch. */
  lemma DisplayKeepsCode(cfg: Config, t: Paged, pc: Address, sw: Byte, bus: Bus)
    requires cfg.Valid() && t.image.Valid() && t.ctl.changing && Agree(t.image.applied, t.ctl.mode, 0xC0, 0xC1)
    requires DisplaySwitch(sw) && pc == 0xC000 + sw
    ensures var (u, op) := FetchOp(cfg, true, t, pc, bus);
            && op == bus(pc) && CodeAt(u.image, pc) == CodeAt(t.image, pc)
            && CodeAt(u.image, pc + 3) == CodeAt(t.image, pc + 3)
  {
    var m := ModeAfter(cfg.apple2, t.ctl.mode, sw);
    FetchIsSwitch(cfg, true, t, pc, sw, bus);
    SwitchSettlesAll(cfg, true, t, pc, sw);
    SwitchReach(cfg.apple2, t.ctl.mode, sw);
    SameCode(t.image, m, pc);
    SameCode(t.image, m, pc + 3);
  }

  lemma HeldIsStill(cfg: Config, s: Paged, pc: Address, sw: Byte)
    requires s.image.Valid() && HoldsBack(sw, CodeAt(s.image, pc))
    ensures Switch(cfg, true, s, pc, sw) == Paged(s.image, AfterSwitch(cfg, s.ctl, sw).(changing := true))
  {
  }

  lemma SameCode(img: Image, m: Mode, pc: Address)
    requires img.Valid() && 0xC000 <= pc < 0xC0FE && Agree(img.applied, m, 0xC0, 0xC1)
    ensures CodeAt(Repage(img, m), pc) == CodeAt(img, pc)
  {
    SameByte(img, m, pc);
    SameByte(img, m, pc + 1);
    SameByte(img, m, pc + 2);
  }

  // ---------------------------------------------- code that is banked away

  /** In the way of a language-card access: code in ROM where the access puts blank RAM. */
  ghost predicate InRom(cfg: Config, s: Paged, pc: Address) {
    && !cfg.apple2 && s.image.Valid() && Settled(s) && 0xD000 <= pc && StoreAhead(s, pc)
    && Peek(Repage(s.image, ModeAfter(false, s.ctl.mode, 0x88)), pc) != STA_ABS
  }

  /** The postponing machine executes a store that the prompt one never meets. */
  lemma StoreIsLost(cfg: Config, s: Paged, pc: Address, v: Byte, bus: Bus)
    requires cfg.Valid() && InRom(cfg, s, pc) && !s.ctl.mode.auxRead
    ensures GroupRun(cfg, true, s, pc, 0x88, v, bus).ctl.mode.auxRead
    ensures !GroupRun(cfg, false, s, pc, 0x88, v, bus).ctl.mode.auxRead
  {
    HeldMeetsStore(cfg, s, pc, v, bus);
    PromptMissesStore(cfg, s, pc, v, bus);
  }

  lemma HeldMeetsStore(cfg: Config, s: Paged, pc: Address, v: Byte, bus: Bus)
    requires cfg.Valid() && InRom(cfg, s, pc)
    ensures GroupRun(cfg, true, s, pc, 0x88, v, bus).ctl.mode.auxRead
  {
    var t := Switch(cfg, true, s, pc, 0x88);
    HeldIsStill(cfg, s, pc, 0x88);
    GroupGoesOn(cfg, true, s, t, pc, 0x88, 0x03, v, bus);
    MeetsStore(cfg, t, pc, bus);
    SetsAuxRead(cfg, Touched(t, Port(0x03), v), pc + 3, v, bus);
  }

  lemma MeetsStore(cfg: Config, t: Paged, pc: Address, bus: Bus)
    requires cfg.Valid() && t.image.Valid() && 0xD000 <= pc && StoreAhead(t, pc)
    ensures FetchOp(cfg, true, t, pc, bus).0 == t && GoesOn(cfg, true, t, pc, 0x03, bus)
  {
  }

  lemma SetsAuxRead(cfg: Config, s: Paged, pc: Address, v: Byte, bus: Bus)
    requires cfg.Valid() && s.image.Valid() && !cfg.apple2
    ensures GroupRun(cfg, true, s, pc, 0x03, v, bus).ctl.mode.auxRead
  {
    GroupEnds(cfg, true, s, pc, 0x03, v, bus);
    AuxReadForm(false, s.ctl.mode, 0x03);
  }

  lemma PromptMissesStore(cfg: Config, s: Paged, pc: Address, v: Byte, bus: Bus)
    requires cfg.Valid() && InRom(cfg, s, pc) && !s.ctl.mode.auxRead
    ensures !GroupRun(cfg, false, s, pc, 0x88, v, bus).ctl.mode.auxRead
  {
    SwitchSettlesAll(cfg, false, s, pc, 0x88);
    GroupEnds(cfg, false, s, pc, 0x88, v, bus);
    CardForm(false, s.ctl.mode, 0x88);
  }

  // ------------------------------------------------------------ witnesses

  /** The program STA $C005, STA $C003, by distance from its first byte. */
  function ProgramByte(k: int): Byte {
    if k == 0 || k == 3 then STA_ABS
    else if k == 1 then 0x05
    else if k == 4 then 0x03
    else if k == 2 || k == 5 then 0xC0
    else 0
  }

  function ByteOfPage(at: Address, p: nat, o: nat): Byte {
    ProgramByte(0x100 * p + o - at)
  }

  function ProgramPage(at: Address, p: nat): Page {
    seq(0x100, o requires 0 <= o => ByteOfPage(at, p, o))
  }

  function PageOfStretch(at: Address, start: nat, i: nat): Page {
    ProgramPage(at, start + i)
  }

  function ProgramPages(at: Address, start: nat, n: nat): seq<Page> {
    seq(n, i requires 0 <= i => PageOfStretch(at, start, i))
  }

  function AllSlots(): SlotMask {
    [true, true, true, true, true, true, true, true]
  }

  /** A //e whose cards all answer for their ROM pages themselves. */
  function PlainIIe(at: Address): Config {
    Config(false, ProgramPages(at, 0xC8, 8), [None, None, None, None, None, None, None, None], AllSlots())
  }

  /** The program in main RAM below $C000 and in every ROM. */
  function ProgramStores(at: Address): (s: Stores)
    ensures s.Valid()
  {
    Stores(
      ProgramPages(at, 0x00, 0xC0) + Blank(0x40), Blank(0x100), ProgramPages(at, 0xD0, 0x50),
      ProgramPages(at, 0xC0, 0x10), [ZeroPage()] + ProgramPages(at, 0xC1, 7) + Blank(8))
  }

  function Loaded(at: Address, m: Mode, romType: RomType): (s: Paged)
    ensures s.image.Valid()
  {
    var img := Image(Blank(0x100), seq(0x100, i => false), ProgramStores(at), m);
    Paged(Reload(img, m), Control(m, false, false, romType, 0, NO_SELECT, false))
  }

  /** With slot ROM: $C100-$C7FF are the cards' own, and the window floats. */
  function WithSlotRom(at: Address): Paged {
    Loaded(at, RESET_MODE.(slotC3Rom := true), NoRom)
  }

  /** With internal ROM, which alone can have a program at $C000. */
  function WithInternalRom(at: Address): Paged {
    Loaded(at, RESET_MODE.(slotCxRom := false), InternalRom)
  }

  /** A state the emulator can be in: coherent, honest about the window, nothing held back. */
  ghost predicate Start(cfg: Config, s: Paged) {
    Inv(cfg, s) && WindowInv(cfg, Abstraction(s)) && !s.ctl.changing
  }

  lemma LoadedStarts(at: Address, m: Mode, romType: RomType)
    requires romType == if m.slotCxRom then NoRom else InternalRom
    ensures Start(PlainIIe(at), Loaded(at, m, romType))
  {
    var s := Loaded(at, m, romType);
    assert s.image.stores.cxInternal[8..] == ProgramPages(at, 0xC8, 8);
    ReloadIsFlat(s.image, m);
    assert s.image == Reload(s.image, m);
  }

  lemma SlotRomHasCode(at: Address, pc: Address)
    requires 0xC100 <= pc
    ensures Peek(WithSlotRom(at).image, pc) == ProgramByte(pc - at)
  {
    assert WithSlotRom(at).image.live[PageOf(pc)] == ProgramPage(at, PageOf(pc));
  }

  lemma InternalRomHasCode(at: Address, pc: Address)
    requires 0x0200 <= pc < 0xD000
    ensures Peek(WithInternalRom(at).image, pc) == ProgramByte(pc - at)
  {
    assert WithInternalRom(at).image.live[PageOf(pc)] == ProgramPage(at, PageOf(pc));
  }

  lemma SecondStore(s: Paged, at: Address, pc: Address)
    requires s.image.Valid() && pc <= 0xFFFC && pc == at + 3
    requires forall a: Address | pc <= a <= pc + 2 :: Peek(s.image, a) == ProgramByte(a - at)
    ensures StoreAhead(s, pc)
  {
  }

  lemma SlotRomHasStore(at: Address, pc: Address)
    requires 0xC100 <= pc <= 0xFFFC && pc == at + 3
    ensures StoreAhead(WithSlotRom(at), pc)
  {
    var s := WithSlotRom(at);
    forall a: Address | pc <= a <= pc + 2 ensures Peek(s.image, a) == ProgramByte(a - at) {
      SlotRomHasCode(at, a);
    }
    SecondStore(s, at, pc);
  }

  lemma InternalRomHasStore(at: Address, pc: Address)
    requires 0xC000 <= pc < 0xC100 && pc == at + 3
    ensures StoreAhead(WithInternalRom(at), pc)
  {
    var s := WithInternalRom(at);
    forall a: Address | pc <= a <= pc + 2 ensures Peek(s.image, a) == ProgramByte(a - at) {
      InternalRomHasCode(at, a);
    }
    SecondStore(s, at, pc);
  }

  lemma CardIsBlank(at: Address, pc: Address)
    requires 0xD000 <= pc
    ensures var s := WithSlotRom(at);
            Peek(Repage(s.image, ModeAfter(false, s.ctl.mode, 0x88)), pc) == 0
  {
    var s := WithSlotRom(at);
    CardMode(s.ctl.mode, PageOf(pc));
    assert s.image.stores.main[PageOf(pc)] == ZeroPage();
  }

  /** After $C088 the card shows bank 1 of main RAM. */
  lemma CardMode(m: Mode, p: nat)
    requires 0xD0 <= p < 0x100 && !m.highRam && !m.altZp
    ensures ReadMap(m, p) == Place(Rom, p - 0xD0)
    ensures ReadMap(ModeAfter(false, m, 0x88), p) == Place(Main, if p < 0xE0 then p - 0x10 else p)
  {
  }

  /** Bytes from elsewhere are zero but at one address. */
  function Answers(at: Address): Bus {
    (a: Address) => if a == at then STA_ABS else 0
  }

  /** At every unsafe address of the I/O area there may be a store whose fetch is answered by something else. */
  lemma MissedStore(pc: Address, at: Address) returns (s: Paged)
    requires IoArea(pc) && !SafeAfterAuxWrite(pc) && at == pc - 3
    ensures Start(PlainIIe(at), s) && StoreAhead(s, pc) && Elsewhere(PlainIIe(at), s.ctl, pc)
  {
    if pc < 0xC100 {
      s := WithInternalRom(at);
      LoadedStarts(at, s.ctl.mode, InternalRom);
      InternalRomHasStore(at, pc);
    } else {
      s := WithSlotRom(at);
      LoadedStarts(at, s.ctl.mode, NoRom);
      SlotRomHasStore(at, pc);
    }
  }

  /** Two stores, of which the second is missed. */
  lemma SecondMissedStore(pc: Address)
    requires 0xBFFD <= pc < 0xC000 || 0xC055 <= pc <= 0xC057
    ensures Start(PlainIIe(pc), WithInternalRom(pc)) && StoresAhead(WithInternalRom(pc), pc)
  {
    LoadedStarts(pc, RESET_MODE.(slotCxRom := false), InternalRom);
    FirstBytes(pc);
    SecondBytes(pc);
  }

  lemma FirstBytes(pc: Address)
    requires 0xBFFD <= pc <= 0xC057
    ensures CodeAt(WithInternalRom(pc).image, pc) == Some(Code(STA_ABS, 0x05, 0xC0))
  {
    InternalRomHasCode(pc, pc);
    InternalRomHasCode(pc, pc + 1);
    InternalRomHasCode(pc, pc + 2);
  }

  lemma SecondBytes(pc: Address)
    requires 0xBFFD <= pc <= 0xC057
    ensures StoreAhead(WithInternalRom(pc), pc + 3)
  {
    InternalRomHasStore(pc, pc + 3);
  }

  lemma LostStore(pc: Address, at: Address)
    requires 0xD000 <= pc <= 0xFFFC && at == pc - 3
    ensures Start(PlainIIe(at), WithSlotRom(at)) && InRom(PlainIIe(at), WithSlotRom(at), pc)
  {
    LoadedStarts(at, RESET_MODE.(slotC3Rom := true), NoRom);
    SlotRomHasStore(at, pc);
    CardIsBlank(at, pc);
  }

  // ------------------------------------------------------ the exact addresses

  /** Postponing an access of `sw` can never be told, whatever state it meets and whatever the bus answers. */
  ghost predicate NeverTold(pc: Address, sw: Byte) {
    forall cfg, s, v, bus: Bus | Start(cfg, s) ::
      GroupRun(cfg, true, s, pc, sw, v, bus) == GroupRun(cfg, false, s, pc, sw, v, bus)
  }

  lemma Told(pc: Address, sw: Byte, cfg: Config, s: Paged, bus: Bus)
    requires Start(cfg, s) && GroupRun(cfg, true, s, pc, sw, 0, bus).ctl.changing
    ensures !NeverTold(pc, sw)
  {
    PromptIsSettled(cfg, s, pc, sw, 0, bus);
  }

  /** Exactly for which code holding language-card accesses back can never be told. */
  lemma HeldBackIsInvisibleExactly(pc: Address)
    ensures (forall sw | CardSwitch(sw) :: NeverTold(pc, sw)) <==> SafeAfterCard(pc)
  {
    if SafeAfterCard(pc) {
      forall sw, cfg, s, v, bus: Bus | CardSwitch(sw) && Start(cfg, s)
        ensures GroupRun(cfg, true, s, pc, sw, v, bus) == GroupRun(cfg, false, s, pc, sw, v, bus)
      {
        HeldBackIsInvisible(cfg, s, pc, sw, v, bus);
      }
    } else {
      assert CardSwitch(0x88);
      CardIsTold(pc);
    }
  }

  lemma CardIsTold(pc: Address)
    requires !SafeAfterCard(pc)
    ensures !NeverTold(pc, 0x88)
  {
    if 0xD000 <= pc {
      var s := WithSlotRom(pc - 3);
      LostStore(pc, pc - 3);
      StoreIsLost(PlainIIe(pc - 3), s, pc, 0, Answers(pc));
    } else if pc < 0xC000 || 0xC055 <= pc <= 0xC057 {
      SecondMissedStore(pc);
      SecondIsMissed(PlainIIe(pc), WithInternalRom(pc), pc, 0, Answers(pc));
      Told(pc, 0x88, PlainIIe(pc), WithInternalRom(pc), Answers(pc));
    } else {
      MissedIsTold(pc, 0x88);
    }
  }

  lemma MissedIsTold(pc: Address, sw: Byte)
    requires IoArea(pc) && !SafeAfterAuxWrite(pc) && (sw == 0x05 || sw == 0x88)
    ensures !NeverTold(pc, sw)
  {
    var s := MissedStore(pc, pc - 3);
    MissingIsTold(pc, sw, PlainIIe(pc - 3), s);
  }

  lemma MissingIsTold(pc: Address, sw: Byte, cfg: Config, s: Paged)
    requires Start(cfg, s) && (sw == 0x05 || sw == 0x88)
    requires StoreAhead(s, pc) && Elsewhere(cfg, s.ctl, pc)
    ensures !NeverTold(pc, sw)
  {
    StoreIsMissed(cfg, s, pc, sw, 0, Answers(0));
    Told(pc, sw, cfg, s, Answers(0));
  }

  /** The same for RAMWRT: only fetching the store that follows can give it away. */
  lemma AuxWriteHeldBackExactly(pc: Address)
    ensures NeverTold(pc, 0x04) && NeverTold(pc, 0x05) <==> SafeAfterAuxWrite(pc)
  {
    if SafeAfterAuxWrite(pc) {
      forall sw, cfg, s, v, bus: Bus | 0x04 <= sw <= 0x05 && Start(cfg, s)
        ensures GroupRun(cfg, true, s, pc, sw, v, bus) == GroupRun(cfg, false, s, pc, sw, v, bus)
      {
        HeldBackIsInvisible(cfg, s, pc, sw, v, bus);
      }
    } else {
      MissedIsTold(pc, 0x05);
    }
  }
}
