/**
 How paging updates and touches of a switch combine, and which pages each switch of
 a held-back group can move: what comparing the postponing machine needs of pages.
 */
module RepageAlgebra {
  import opened Bytes
  import opened Paging
  import opened PagedMemory
  import opened SoftSwitches
  import opened MemoryMachine

  /** The modes show the same place at every page of a stretch. */
  ghost predicate Agree(m: Mode, n: Mode, start: nat, end: nat)
    requires end <= 0x100
  {
    forall p | start <= p < end :: ReadMap(m, p) == ReadMap(n, p)
  }

  lemma RepageIdle(img: Image)
    requires img.Valid()
    ensures Repage(img, img.applied) == img
  {
    var r := Repage(img, img.applied);
    forall b | InBank(b) ensures r.stores.Get(b) == img.stores.Get(b) {
      assert r.stores.Get(b) == AfterFlush(img, img.applied, b);
    }
    SameStores(r.stores, img.stores);
  }

  /** At page `p` one of two changes of mode in a row shows the same place as before. */
  predicate StaysOnce(m0: Mode, m: Mode, n: Mode, p: nat)
    requires p < 0x100
  {
    ReadMap(m0, p) == ReadMap(m, p) || ReadMap(m, p) == ReadMap(n, p)
  }

  ghost predicate MovesOnce(m0: Mode, m: Mode, n: Mode) {
    forall p | 0 <= p < 0x100 :: StaysOnce(m0, m, n, p)
  }

  lemma SplitAtTheCard(m0: Mode, m: Mode, n: Mode)
    requires Agree(m0, m, 0x00, 0xD0) && Agree(m, n, 0xD0, 0x100)
    ensures MovesOnce(m0, m, n)
  {
  }

  /** Two updates are one when no page moves in both. */
  lemma RepageTwice(img: Image, m: Mode, n: Mode)
    requires img.Valid()
    requires MovesOnce(img.applied, m, n)
    ensures Repage(Repage(img, m), n) == Repage(img, n)
  {
    var once, twice := Repage(img, n), Repage(Repage(img, m), n);
    forall p | 0 <= p < 0x100
      ensures twice.live[p] == once.live[p] && twice.dirty[p] == once.dirty[p]
    {
      assert StaysOnce(img.applied, m, n, p);
      TwiceAtPage(img, m, n, p);
    }
    forall b | InBank(b) ensures twice.stores.Get(b) == once.stores.Get(b) {
      assert Home(b) < 0x100 ==> StaysOnce(img.applied, m, n, Home(b));
      TwiceAtStore(img, m, n, b);
    }
    SameStores(twice.stores, once.stores);
  }

  lemma TwiceAtPage(img: Image, m: Mode, n: Mode, p: nat)
    requires img.Valid() && p < 0x100
    requires StaysOnce(img.applied, m, n, p)
    ensures Repage(Repage(img, m), n).live[p] == Repage(img, n).live[p]
    ensures Repage(Repage(img, m), n).dirty[p] == Repage(img, n).dirty[p]
  {
    var mid, b := Repage(img, m), ReadMap(n, p);
    OneHome(n, p);
    if !Moves(img, m, p) {
      assert mid.stores.Get(b) == AfterFlush(img, m, b) == img.stores.Get(b);
      assert mid.live[p] == img.live[p] && mid.dirty[p] == img.dirty[p];
      assert Moves(mid, n, p) == Moves(img, n, p);
    } else {
      assert !Moves(mid, n, p) && Moves(img, n, p);
      assert mid.live[p] == img.stores.Get(b);
    }
  }

  lemma TwiceAtStore(img: Image, m: Mode, n: Mode, b: Place)
    requires img.Valid() && InBank(b)
    requires Home(b) < 0x100 ==> StaysOnce(img.applied, m, n, Home(b))
    ensures Repage(Repage(img, m), n).stores.Get(b) == Repage(img, n).stores.Get(b)
  {
    var mid := Repage(img, m);
    var h := Home(b);
    assert mid.stores.Get(b) == AfterFlush(img, m, b);
    if h < 0x100 && !Moves(img, m, h) {
      assert mid.live[h] == img.live[h] && mid.dirty[h] == img.dirty[h];
    } else if h < 0x100 {
      assert !Moves(mid, n, h);
    }
  }

  /** Touching a switch commutes with an update that leaves $C0 alone. */
  lemma TouchCommutes(img: Image, m: Mode, a: Address, v: Byte)
    requires img.Valid() && 0xC000 <= a < 0xC100
    requires Agree(img.applied, m, 0xC0, 0xC1)
    ensures Poke(Repage(img, m), a, v) == Repage(Poke(img, a, v), m)
  {
    BlockedPoke(img, a, v);
    BlockedPoke(Repage(img, m), a, v);
    MarkCommutes(img, m);
  }

  function Marked(img: Image): (r: Image)
    requires img.Valid()
    ensures r.Valid()
  {
    img.(dirty := img.dirty[0xC0 := true])
  }

  lemma MarkCommutes(img: Image, m: Mode)
    requires img.Valid() && Agree(img.applied, m, 0xC0, 0xC1)
    ensures Marked(Repage(img, m)) == Repage(Marked(img), m)
  {
    var x, y := Marked(Repage(img, m)), Repage(Marked(img), m);
    assert !Moves(img, m, 0xC0);
    forall b | InBank(b) ensures x.stores.Get(b) == y.stores.Get(b) {
      assert x.stores.Get(b) == AfterFlush(img, m, b);
      assert y.stores.Get(b) == AfterFlush(Marked(img), m, b);
      SameFlush(img, m, b);
    }
    SameStores(x.stores, y.stores);
    assert x.live == y.live && x.dirty == y.dirty;
  }

  lemma SameFlush(img: Image, m: Mode, b: Place)
    requires img.Valid() && InBank(b) && !Moves(img, m, 0xC0)
    ensures AfterFlush(Marked(img), m, b) == AfterFlush(img, m, b)
  {
  }

  lemma BlockedPoke(img: Image, a: Address, v: Byte)
    requires img.Valid() && 0xC000 <= a < 0xC100
    ensures Poke(img, a, v) == Marked(img)
  {
    assert PageOf(a) == 0xC0;
  }

  /** The next `n` bytes of code lie below the language card, or the emulator does not look at them. */
  predicate ReadsBelow(pc: Address, n: nat) {
    pc + n <= 0xD000 || pc > 0xFFFC
  }

  lemma CodeUnmoved(img: Image, m: Mode, pc: Address)
    requires img.Valid()
    requires Agree(img.applied, m, 0x00, 0x100) || (ReadsBelow(pc, 3) && Agree(img.applied, m, 0x00, 0xD0))
    ensures CodeAt(Repage(img, m), pc) == CodeAt(img, pc)
  {
    if pc <= 0xFFFC {
      SameByte(img, m, pc);
      SameByte(img, m, pc + 1);
      SameByte(img, m, pc + 2);
    }
  }

  lemma SameByte(img: Image, m: Mode, a: Address)
    requires img.Valid() && ReadMap(img.applied, PageOf(a)) == ReadMap(m, PageOf(a))
    ensures Peek(Repage(img, m), a) == Peek(img, a)
  {
  }

  // ------------------------------------------------ what a switch moves

  /** The switches of a held-back group, and those of the display that share its decoding. */
  predicate Quiet(sw: Byte) {
    0x02 <= sw <= 0x05 || DisplaySwitch(sw) || CardSwitch(sw)
  }

  predicate DisplaySwitch(sw: Byte) {
    0x54 <= sw <= 0x57
  }

  /** Which pages such a switch can move. */
  lemma SwitchReach(apple2: bool, m: Mode, sw: Byte)
    requires Quiet(sw)
    ensures var n := ModeAfter(apple2, m, sw);
            && n.slotCxRom == m.slotCxRom
            && (!CardSwitch(sw) ==> Agree(m, n, 0xC0, 0x100))
            && (sw == 0x04 || sw == 0x05 ==> Agree(m, n, 0x00, 0x100))
            && (CardSwitch(sw) ==> Agree(m, n, 0x00, 0xD0))
  {
    if CardSwitch(sw) {
      CardSwitchReach(apple2, m, sw);
    } else if DisplaySwitch(sw) {
      DisplaySwitchReach(apple2, m, sw);
    } else if sw <= 0x03 {
      AuxReadSwitchReach(apple2, m, sw);
    } else {
      AuxWriteSwitchReach(apple2, m, sw);
    }
  }

  /** Which mode bits each kind of switch can change. */
  lemma CardForm(apple2: bool, m: Mode, sw: Byte)
    requires CardSwitch(sw)
    ensures var n := ModeAfter(apple2, m, sw);
            n == m.(hramWrite := n.hramWrite, hramBank2 := n.hramBank2, highRam := n.highRam)
  {
  }

  lemma AuxReadForm(apple2: bool, m: Mode, sw: Byte)
    requires sw == 0x02 || sw == 0x03
    ensures var n := ModeAfter(apple2, m, sw);
            n == m.(auxRead := n.auxRead) && n.auxRead == if apple2 then m.auxRead else sw == 0x03
  {
  }

  lemma AuxWriteForm(apple2: bool, m: Mode, sw: Byte)
    requires sw == 0x04 || sw == 0x05
    ensures var n := ModeAfter(apple2, m, sw);
            n == m.(auxWrite := n.auxWrite) && n.auxWrite == if apple2 then m.auxWrite else sw == 0x05
  {
  }

  lemma CardReach(m: Mode, n: Mode, write: bool, bank2: bool, read: bool)
    requires n == m.(hramWrite := write, hramBank2 := bank2, highRam := read)
    ensures n.slotCxRom == m.slotCxRom && Agree(m, n, 0x00, 0xD0)
  {
  }

  lemma CardSwitchReach(apple2: bool, m: Mode, sw: Byte)
    requires CardSwitch(sw)
    ensures var n := ModeAfter(apple2, m, sw);
            n.slotCxRom == m.slotCxRom && Agree(m, n, 0x00, 0xD0)
  {
    var n := ModeAfter(apple2, m, sw);
    CardForm(apple2, m, sw);
    CardReach(m, n, n.hramWrite, n.hramBank2, n.highRam);
  }

  lemma AuxReadSwitchReach(apple2: bool, m: Mode, sw: Byte)
    requires sw == 0x02 || sw == 0x03
    ensures var n := ModeAfter(apple2, m, sw);
            n.slotCxRom == m.slotCxRom && Agree(m, n, 0xC0, 0x100)
  {
    var n := ModeAfter(apple2, m, sw);
    AuxReadForm(apple2, m, sw);
    AuxReadReach(m, n, n.auxRead);
  }

  lemma AuxWriteSwitchReach(apple2: bool, m: Mode, sw: Byte)
    requires sw == 0x04 || sw == 0x05
    ensures var n := ModeAfter(apple2, m, sw);
            n.slotCxRom == m.slotCxRom && Agree(m, n, 0xC0, 0x100) && Agree(m, n, 0x00, 0x100)
  {
    var n := ModeAfter(apple2, m, sw);
    AuxWriteForm(apple2, m, sw);
    AuxWriteReach(m, n, n.auxWrite);
  }

  lemma AuxReadReach(m: Mode, n: Mode, aux: bool)
    requires n == m.(auxRead := aux)
    ensures n.slotCxRom == m.slotCxRom && Agree(m, n, 0xC0, 0x100)
  {
  }

  lemma AuxWriteReach(m: Mode, n: Mode, aux: bool)
    requires n == m.(auxWrite := aux)
    ensures n.slotCxRom == m.slotCxRom && Agree(m, n, 0xC0, 0x100) && Agree(m, n, 0x00, 0x100)
  {
  }

  lemma Page2Form(apple2: bool, m: Mode, sw: Byte)
    requires sw == 0x54 || sw == 0x55
    ensures var n := ModeAfter(apple2, m, sw);
            n == m.(page2 := n.page2) && n.page2 == if apple2 then m.page2 else sw == 0x55
  {
  }

  lemma HiresForm(apple2: bool, m: Mode, sw: Byte)
    requires sw == 0x56 || sw == 0x57
    ensures var n := ModeAfter(apple2, m, sw);
            n == m.(hires := n.hires) && n.hires == if apple2 then m.hires else sw == 0x57
  {
  }

  lemma DisplaySwitchReach(apple2: bool, m: Mode, sw: Byte)
    requires DisplaySwitch(sw)
    ensures var n := ModeAfter(apple2, m, sw);
            n.slotCxRom == m.slotCxRom && Agree(m, n, 0xC0, 0x100)
  {
    var n := ModeAfter(apple2, m, sw);
    if sw <= 0x55 {
      Page2Form(apple2, m, sw);
      Page2Reach(m, n, n.page2);
    } else {
      HiresForm(apple2, m, sw);
      HiresReach(m, n, n.hires);
    }
  }

  lemma Page2Reach(m: Mode, n: Mode, page2: bool)
    requires n == m.(page2 := page2)
    ensures n.slotCxRom == m.slotCxRom && Agree(m, n, 0xC0, 0x100)
  {
  }

  lemma HiresReach(m: Mode, n: Mode, hires: bool)
    requires n == m.(hires := hires)
    ensures n.slotCxRom == m.slotCxRom && Agree(m, n, 0xC0, 0x100)
  {
  }
}
