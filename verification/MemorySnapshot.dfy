/**
 Saving and restoring the memory system. The saver looks for each page under its
 own number only, so it does not find bank 1 of the language card, which is
 stored lower down: `SnapshotFaithful` says exactly when that matters.
 */
module MemorySnapshot {
  import opened Bytes
  import opened Paging
  import opened PagedMemory
  import opened SoftSwitches
  import opened MemoryMachine
  import opened ExpansionRom
  import opened RepageAlgebra

  datatype Snapshot = Snapshot(mode: Mode, lastWriteRam: bool, main: seq<Page>, aux: seq<Page>)

  /** A page of a RAM bank: the live page if it shows just that page, else the buffer's. */
  function SavedPage(img: Image, bank: Bank, p: nat): Page
    requires img.Valid() && p < 0x100 && (bank.Main? || bank.Aux?)
  {
    if ReadMap(img.applied, p) == Place(bank, p) then img.live[p] else img.stores.Get(Place(bank, p))
  }

  function Save(s: Paged): Snapshot
    requires s.image.Valid()
  {
    Snapshot(s.ctl.mode, s.ctl.lastWriteRam,
             seq(0x100, p requires 0 <= p < 0x100 => SavedPage(s.image, Main, p)),
             seq(0x100, p requires 0 <= p < 0x100 => SavedPage(s.image, Aux, p)))
  }

  function Restore(s: Paged, snap: Snapshot): (r: Paged)
    requires s.image.Valid() && |snap.main| == 0x100 && |snap.aux| == 0x100
    ensures r.image.Valid()
  {
    Paged(Reload(s.image.(stores := s.image.stores.(main := snap.main, aux := snap.aux)), snap.mode),
          s.ctl.(mode := snap.mode, lastWriteRam := snap.lastWriteRam, changing := false))
  }

  lemma RestoreKeepsInv(cfg: Config, s: Paged, snap: Snapshot)
    requires Inv(cfg, s) && |snap.main| == 0x100 && |snap.aux| == 0x100
    ensures Inv(cfg, Restore(s, snap))
  {
    ReloadIsFlat(s.image.(stores := s.image.stores.(main := snap.main, aux := snap.aux)), snap.mode);
  }

  /** What was saved of `s`, restored into `t`. */
  function Moved(s: Paged, t: Paged): (r: Paged)
    requires s.image.Valid() && t.image.Valid()
    ensures r.image.Valid()
  {
    Restore(t, Save(s))
  }

  /** Bank 1 of the language card is readable and some of its live pages have not been written back. */
  predicate CardBank1Dirty(img: Image)
    requires img.Valid()
  {
    && img.applied.highRam && !img.applied.hramBank2
    && exists p | 0xD0 <= p < 0xE0 :: img.live[p] != img.stores.Get(ReadMap(img.applied, p))
  }

  /** The saver reads each RAM page's logical content, except a bank-1 page on display. */
  lemma SavedPageIsLogical(img: Image, bank: Bank, p: nat)
    requires img.Valid() && p < 0x100 && (bank.Main? || bank.Aux?)
    ensures p < 0xC0 || 0xD0 <= p ==> SavedPage(img, bank, p) == img.Logical(Place(bank, p))
    ensures 0xC0 <= p < 0xD0 ==> SavedPage(img, bank, p) == img.stores.Get(Place(bank, p))
  {
  }

  lemma RestoredStores(s: Paged, t: Paged, b: Place)
    requires s.image.Valid() && t.image.Valid() && InBank(b)
    ensures Moved(s, t).image.Flatten().Get(b)
         == if b.bank.Main? || b.bank.Aux? then SavedPage(s.image, b.bank, b.page) else t.image.stores.Get(b)
  {
    var snap := Save(s);
    var img := t.image.(stores := t.image.stores.(main := snap.main, aux := snap.aux));
    ReloadIsFlat(img, snap.mode);
    assert Moved(s, t).image.Flatten().Get(b) == img.stores.Get(b);
  }

  lemma CleanPageSurvives(s: Paged, t: Paged, b: Place)
    requires s.image.Valid() && s.image.Coherent() && !CardBank1Dirty(s.image) && t.image.Valid()
    requires InBank(b) && (b.bank.Main? || b.bank.Aux?)
    ensures Moved(s, t).image.Flatten().Get(b) == s.image.Flatten().Get(b)
  {
    var img := s.image;
    RestoredStores(s, t, b);
    SavedPageIsLogical(img, b.bank, b.page);
    if 0xC0 <= b.page < 0xD0 && img.Shown(b) {
      assert img.live[Home(b)] == img.stores.Get(b);
    }
  }

  /**
   Saving and restoring, into whatever machine, keeps every byte of main and
   auxiliary memory if and only if no unsaved page of language-card bank 1 is
   on display.
   */
  lemma SnapshotFaithful(s: Paged, t: Paged)
    requires s.image.Valid() && s.image.Coherent() && t.image.Valid()
    ensures var before, after := s.image.Flatten(), Moved(s, t).image.Flatten();
            (after.main == before.main && after.aux == before.aux) <==> !CardBank1Dirty(s.image)
  {
    if CardBank1Dirty(s.image) {
      DirtyPageIsLost(s, t);
    } else {
      CleanPagesSurvive(s, t);
    }
  }

  lemma DirtyPageIsLost(s: Paged, t: Paged)
    requires s.image.Valid() && t.image.Valid() && CardBank1Dirty(s.image)
    ensures var before, after := s.image.Flatten(), Moved(s, t).image.Flatten();
            after.main != before.main || after.aux != before.aux
  {
    var p :| 0xD0 <= p < 0xE0 && s.image.live[p] != s.image.stores.Get(ReadMap(s.image.applied, p));
    UnsavedPageIsLost(s, t, p, ReadMap(s.image.applied, p));
  }

  lemma UnsavedPageIsLost(s: Paged, t: Paged, p: nat, b: Place)
    requires s.image.Valid() && t.image.Valid() && 0xD0 <= p < 0xE0 && UnsavedAt(s.image, p)
    requires b == ReadMap(s.image.applied, p)
    ensures b.bank.Main? || b.bank.Aux?
    ensures Moved(s, t).image.Flatten().Get(b) != s.image.Flatten().Get(b)
  {
    OneHome(s.image.applied, p);
    RestoredStores(s, t, b);
    assert s.image.Flatten().Get(b) == s.image.Logical(b) == s.image.live[p];
  }

  lemma CleanPagesSurvive(s: Paged, t: Paged)
    requires s.image.Valid() && s.image.Coherent() && t.image.Valid() && !CardBank1Dirty(s.image)
    ensures var before, after := s.image.Flatten(), Moved(s, t).image.Flatten();
            after.main == before.main && after.aux == before.aux
  {
    var before, after := s.image.Flatten(), Moved(s, t).image.Flatten();
    forall i | 0 <= i < 0x100 ensures after.main[i] == before.main[i] && after.aux[i] == before.aux[i] {
      CleanPageSurvives(s, t, Place(Main, i));
      CleanPageSurvives(s, t, Place(Aux, i));
      assert after.Get(Place(Main, i)) == before.Get(Place(Main, i));
      assert after.Get(Place(Aux, i)) == before.Get(Place(Aux, i));
    }
  }

  /** The machines have the same ROMs, the window at $C800 aside. */
  predicate SameRoms(s: Stores, t: Stores)
    requires s.Valid() && t.Valid()
  {
    s.rom == t.rom && s.cxInternal[..8] == t.cxInternal[..8] && s.cxPeripheral[..8] == t.cxPeripheral[..8]
  }

  /**
   The restored machine has the saved mode applied, even one that was held back,
   with ROM as it was. Outside $C800-$CFFF a page then reads as it would once the
   saved machine had applied that mode too, unless it shows unsaved bytes of bank 1
   before and after; where nothing is held back, that is as it did read.
   */
  lemma SnapshotKeepsReads(cfg: Config, s: Paged, t: Paged)
    requires Inv(cfg, s) && Inv(cfg, t) && SameRoms(s.image.stores, t.image.stores)
    ensures var r, m := Moved(s, t), s.ctl.mode;
            && Inv(cfg, r) && r.image.applied == m
            && r.ctl == t.ctl.(mode := m, lastWriteRam := s.ctl.lastWriteRam, changing := false)
            && r.image.Flatten().rom == s.image.Flatten().rom
            && forall p | PageOutside(p) ::
                 r.image.live[p] == Repage(s.image, m).live[p] <==> !(UnsavedAt(s.image, p) && !Moves(s.image, m, p))
    ensures !s.ctl.changing ==>
              && (forall p | PageOutside(p) :: Moved(s, t).image.live[p] == s.image.live[p] <==> !UnsavedAt(s.image, p))
              && (!CardBank1Dirty(s.image) <==>
                    forall p | PageOutside(p) :: Moved(s, t).image.live[p] == s.image.live[p])
  {
    RestoreKeepsInv(cfg, t, Save(s));
    RomSurvives(cfg, s, t);
    RepageIdle(Moved(s, t).image);
    if !s.ctl.changing {
      RepageIdle(s.image);
    }
    forall p | PageOutside(p)
      ensures Moved(s, t).image.live[p] == Repage(s.image, s.ctl.mode).live[p]
              <==> !(UnsavedAt(s.image, p) && !Moves(s.image, s.ctl.mode, p))
    {
      PageRead(cfg, s, t, s.ctl.mode, p);
    }
  }

  /**
   So a snapshot taken while a switch is held back is none the worse: under every
   mode the group can end in, or any later one, both machines read alike outside
   $C800-$CFFF if and only if no unsaved page of bank 1 was on display.
   */
  lemma SnapshotKeepsLaterReads(cfg: Config, s: Paged, t: Paged)
    requires Inv(cfg, s) && Inv(cfg, t) && SameRoms(s.image.stores, t.image.stores)
    ensures !CardBank1Dirty(s.image) <==>
              forall n, p | PageOutside(p) :: Repage(Moved(s, t).image, n).live[p] == Repage(s.image, n).live[p]
  {
    RestoreKeepsInv(cfg, t, Save(s));
    if CardBank1Dirty(s.image) {
      var p :| 0xD0 <= p < 0xE0 && s.image.live[p] != s.image.stores.Get(ReadMap(s.image.applied, p));
      assert UnsavedAt(s.image, p);
      PageRead(cfg, s, t, s.image.applied, p);
      assert PageOutside(p);
    }
    forall n, p | !CardBank1Dirty(s.image) && PageOutside(p)
      ensures Repage(Moved(s, t).image, n).live[p] == Repage(s.image, n).live[p]
    {
      PageRead(cfg, s, t, n, p);
    }
  }

  /** A page outside the window at $C800. */
  predicate PageOutside(p: int) {
    0 <= p < 0x100 && !(0xC8 <= p < 0xD0)
  }

  /** Page `p` shows bank 1 of the language card and has not been written back. */
  predicate UnsavedAt(img: Image, p: nat)
    requires img.Valid() && p < 0x100
  {
    0xD0 <= p < 0xE0 && img.applied.highRam && !img.applied.hramBank2
    && img.live[p] != img.stores.Get(ReadMap(img.applied, p))
  }

  lemma RomSurvives(cfg: Config, s: Paged, t: Paged)
    requires Inv(cfg, s) && Inv(cfg, t) && s.image.stores.rom == t.image.stores.rom
    ensures Moved(s, t).image.Flatten().rom == s.image.Flatten().rom
  {
    var img, r := s.image, Moved(s, t);
    forall i | 0 <= i < 0x50 ensures r.image.Flatten().rom[i] == img.Flatten().rom[i] {
      RestoredStores(s, t, Place(Rom, i));
      assert r.image.Flatten().rom[i] == r.image.Flatten().Get(Place(Rom, i));
      assert img.Flatten().rom[i] == img.Flatten().Get(Place(Rom, i));
      if i < 0x30 {
        assert img.CoherentAt(0xD0 + i);
      }
    }
  }

  /** What both machines read at page `p` once mode `n` is applied. */
  lemma PageRead(cfg: Config, s: Paged, t: Paged, n: Mode, p: nat)
    requires Inv(cfg, s) && Inv(cfg, t) && SameRoms(s.image.stores, t.image.stores) && PageOutside(p)
    ensures Repage(Moved(s, t).image, n).live[p] == Repage(s.image, n).live[p]
            <==> !(UnsavedAt(s.image, p) && !Moves(s.image, n, p))
  {
    var b := ReadMap(n, p);
    OneHome(n, p);
    RestoreKeepsInv(cfg, t, Save(s));
    RepageForgetsHistory(s.image, s.image, n);
    RepageForgetsHistory(Moved(s, t).image, Moved(s, t).image, n);
    RestoredStores(s, t, b);
    assert Moved(s, t).image.Logical(b) == Moved(s, t).image.Flatten().Get(b);
    if b.bank.Main? || b.bank.Aux? {
      SavedPageIsLogical(s.image, b.bank, b.page);
    } else {
      assert s.image.CoherentAt(p);
      SameRomPage(s.image.stores, t.image.stores, b);
    }
  }

  lemma SameRomPage(s: Stores, t: Stores, b: Place)
    requires s.Valid() && t.Valid() && SameRoms(s, t) && InBank(b)
    requires b.bank.Rom? || ((b.bank.CxInternal? || b.bank.CxPeripheral?) && b.page < 8)
    ensures s.Get(b) == t.Get(b)
  {
    if !b.bank.Rom? {
      assert s.cxInternal[b.page] == s.cxInternal[..8][b.page] && t.cxInternal[b.page] == t.cxInternal[..8][b.page];
      assert s.cxPeripheral[b.page] == s.cxPeripheral[..8][b.page];
      assert t.cxPeripheral[b.page] == t.cxPeripheral[..8][b.page];
    }
  }

  // ------------------------------------------------- where restoring fails

  /** The control state of the restored machine is true of the window exactly when it says what a restore puts there. */
  predicate WindowSurvives(cfg: Config, saved: Mode, c: Control)
    requires cfg.Valid()
  {
    && (c.romSlot == 0 || (c.romSlot < NUM_SLOTS && cfg.expansionRom[c.romSlot] == Some(cfg.internalWindow)))
    && (saved.slotCxRom || (!cfg.apple2 && c.romType == InternalRom))
  }

  /**
   A restore always puts internal ROM into the window and leaves the record of
   what is there as it was in the machine restored into: the record is true
   afterwards exactly when it happens to say so.
   */
  lemma RestoreOverwritesWindow(cfg: Config, s: Paged, t: Paged)
    requires s.image.Valid() && Inv(cfg, t) && WindowInv(cfg, Abstraction(t))
    ensures Moved(s, t).image.live[0xC8..0xD0] == cfg.internalWindow
    ensures WindowInv(cfg, Abstraction(Moved(s, t))) <==> WindowSurvives(cfg, s.ctl.mode, t.ctl)
  {
    var r := Moved(s, t);
    RestoreKeepsInv(cfg, t, Save(s));
    assert r.image.live[0xC8..0xD0] == t.image.stores.cxInternal[8..];
    LiveWindow(r);
    KeptSurvives(s, t);
  }

  lemma KeptSurvives(s: Paged, t: Paged)
    requires s.image.Valid() && t.image.Valid()
    ensures Moved(s, t).image.Flatten().cxPeripheral[8..] == t.image.Flatten().cxPeripheral[8..]
  {
    forall i | 8 <= i < 16
      ensures Moved(s, t).image.Flatten().cxPeripheral[i] == t.image.Flatten().cxPeripheral[i]
    {
      RestoredStores(s, t, Place(CxPeripheral, i));
      assert Moved(s, t).image.Flatten().Get(Place(CxPeripheral, i)) == t.image.stores.Get(Place(CxPeripheral, i));
      assert t.image.Flatten().Get(Place(CxPeripheral, i)) == t.image.Logical(Place(CxPeripheral, i));
    }
  }

  /** A program that a snapshot fails: it enables card RAM bank 1 for reading and writing, and stores a byte there. */
  function CardProgram(v: Byte): seq<Op> {
    [Read(0xFFFF, 0xC08B), Write(0xFFFF, 0xD000, v)]
  }

  /** One that restoring fails: it selects slot 1 and reads the window. */
  function SlotProgram(): seq<Op> {
    [Read(0xFFFF, 0xC100), Read(0xFFFF, 0xC800)]
  }

  lemma RunTwo(cfg: Config, s: Paged, x: Op, y: Op)
    requires cfg.Valid() && s.image.Valid() && ValidOp(x) && ValidOp(y)
    ensures Run(cfg, s, [x, y]).0 == Step(cfg, Step(cfg, s, x).0, y).0
  {
    assert [x, y][1..] == [y] && [y][1..] == [];
    assert Run(cfg, Step(cfg, s, x).0, [y]).0 == Step(cfg, Step(cfg, s, x).0, y).0;
  }

  lemma PowerOnInv(cfg: Config, rom: seq<Page>, internal: seq<Page>, striped: bool)
    requires cfg.Valid() && |internal| == 0x10 && internal[8..] == cfg.internalWindow
    ensures Inv(cfg, PowerOn(rom, internal, striped))
  {
    var img := Image(Blank(0x100), seq(0x100, i => false), PowerOnStores(rom, internal, striped), RESET_MODE);
    PowerOnIsCoherent(cfg, img, PowerOn(rom, internal, striped).ctl);
  }

  /** RAM bank 1 readable and writable, as an access to $C08B makes it. */
  const BANK1_MODE := RESET_MODE.(hramBank2 := false, highRam := true)

  lemma CardIsSwitchedIn(cfg: Config, s: Paged)
    requires cfg.Valid() && s.image.Valid() && s.ctl.mode == RESET_MODE && !s.ctl.changing
    ensures var r := Step(cfg, s, Read(0xFFFF, 0xC08B)).0;
            r.ctl.mode == BANK1_MODE && !r.ctl.changing && r.image == Repage(s.image, BANK1_MODE)
  {
    var c := s.ctl.(mode := BANK1_MODE, lastWriteRam := true);
    assert CodeAt(s.image, 0xFFFF) == None;
    assert SetPaging(cfg, s.ctl, None, 0x8B) == Outcome(c, [Apply(BANK1_MODE)]);
    Unroll(s.image, Apply(BANK1_MODE), Apply(BANK1_MODE));
  }

  lemma ByteIsNotWrittenBack(img: Image, v: Byte)
    requires img.Valid() && img.applied == RESET_MODE && img.stores.main[0xC0] == ZeroPage() && v != 0
    ensures CardBank1Dirty(Poke(Repage(img, BANK1_MODE), 0xD000, v))
  {
    var r, b := Repage(img, BANK1_MODE), Place(Main, 0xC0);
    assert ReadMap(BANK1_MODE, 0xD0) == b && TargetOf(BANK1_MODE, 0xD0) == Live;
    assert r.stores.Get(b) == AfterFlush(img, BANK1_MODE, b) == ZeroPage();
    assert r.live[0xD0] == ZeroPage();
    assert PageOf(0xD000) == 0xD0 && OffsetOf(0xD000) == 0;
    var w := Poke(r, 0xD000, v);
    assert w.live[0xD0][0] == v && w.stores == r.stores;
    assert w.live[0xD0] != w.stores.Get(ReadMap(w.applied, 0xD0));
  }

  /** After that program, from power-on on, a snapshot would lose the byte. */
  lemma CardProgramIsNotSaved(cfg: Config, rom: seq<Page>, internal: seq<Page>, v: Byte)
    requires cfg.Valid() && |internal| == 0x10 && internal[8..] == cfg.internalWindow && v != 0
    ensures var s := Run(cfg, PowerOn(rom, internal, false), CardProgram(v)).0;
            Inv(cfg, s) && !s.ctl.changing && CardBank1Dirty(s.image)
  {
    var s := PowerOn(rom, internal, false);
    PowerOnInv(cfg, rom, internal, false);
    RunTwo(cfg, s, Read(0xFFFF, 0xC08B), Write(0xFFFF, 0xD000, v));
    StepRefines(cfg, s, Read(0xFFFF, 0xC08B));
    StepRefines(cfg, Step(cfg, s, Read(0xFFFF, 0xC08B)).0, Write(0xFFFF, 0xD000, v));
    CardIsSwitchedIn(cfg, s);
    ByteIsNotWrittenBack(s.image, v);
  }

  /** After the other, with a card of its own ROM in slot 1, a restore would leave the record of the window false. */
  lemma SlotProgramIsNotRestored(cfg: Config, rom: seq<Page>, internal: seq<Page>)
    requires cfg.Valid() && |internal| == 0x10 && internal[8..] == cfg.internalWindow
    requires cfg.expansionRom[1].Some? && cfg.expansionRom[1] != Some(cfg.internalWindow) && !cfg.ownHandler[1]
    ensures var s := Run(cfg, PowerOn(rom, internal, false), SlotProgram()).0;
            Inv(cfg, s) && WindowInv(cfg, Abstraction(s)) && !WindowInv(cfg, Abstraction(Moved(s, s)))
  {
    var s := PowerOn(rom, internal, false);
    var t := Run(cfg, s, SlotProgram()).0;
    PowerOnInv(cfg, rom, internal, false);
    StartsHonest(cfg, Abstraction(s));
    RunRefines(cfg, s, SlotProgram());
    WindowStaysHonest(cfg, s, SlotProgram());
    RunTwo(cfg, s, Read(0xFFFF, 0xC100), Read(0xFFFF, 0xC800));
    SlotOneAnswers(cfg, s);
    RestoreOverwritesWindow(cfg, t, t);
  }

  lemma SlotOneAnswers(cfg: Config, s: Paged)
    requires cfg.Valid() && s.image.Valid() && cfg.expansionRom[1].Some? && !cfg.ownHandler[1]
    requires s.ctl.mode == RESET_MODE && s.ctl.ioSelect == NO_SELECT && s.ctl.romSlot == 0
    ensures Step(cfg, Step(cfg, s, Read(0xFFFF, 0xC100)).0, Read(0xFFFF, 0xC800)).0.ctl.romSlot == 1
  {
    var c := s.ctl.(ioSelect := NO_SELECT[1 := true]);
    assert ReachesReader(cfg, s.ctl, 0xC100) && ReachesReader(cfg, c, 0xC800);
    assert ReadCx(cfg, s.ctl, 0xC100).ctl == c;
    assert LowestSlot(c.ioSelect, 1) == 1;
    assert ReadCx(cfg, c, 0xC800).ctl.romSlot == 1;
  }
}
