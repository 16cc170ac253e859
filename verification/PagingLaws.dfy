/**
 What each bit of the mode word does to memory, bit by bit: which pages it moves,
 and what they show or take with it on and off. Together with what the reset mode
 shows, these laws leave nothing of the two maps open.
 */
module PagingLaws {
  import opened Paging

  /** The places of main and auxiliary RAM that switches choose between. */
  predicate MainOrAux(off: Place, on: Place, page: nat) {
    off == Place(Main, page) && on == Place(Aux, page)
  }

  /** Stores to a page that is sent to main or to auxiliary RAM. */
  predicate ToMainOrAux(off: Destination, on: Destination, page: nat) {
    off == At(Place(Main, page)) && on == At(Place(Aux, page))
  }

  /** With 80STORE the text page, and with HIRES also the first graphics page, are PAGE2's. */
  predicate OfPage2(store80: bool, hires: bool, p: nat) {
    store80 && (p in {4, 5, 6, 7} || (hires && p / 0x20 == 1))
  }

  // ----------------------------------------------------- RAM below $C000

  lemma Page2Moves(m: Mode, p: nat)
    requires p < 0x100
    ensures var off, on := m.(page2 := false), m.(page2 := true);
            && (ReadMap(off, p) != ReadMap(on, p) <==> OfPage2(m.store80, m.hires, p))
            && (WriteMap(off, p) != WriteMap(on, p) <==> OfPage2(m.store80, m.hires, p))
            && (OfPage2(m.store80, m.hires, p) ==>
                  && MainOrAux(ReadMap(off, p), ReadMap(on, p), p)
                  && ToMainOrAux(WriteMap(off, p), WriteMap(on, p), p))
  {
  }

  /** RAMRD moves what is read of pages 2-$BF, less what is PAGE2's, and never where stores go. */
  lemma AuxReadMoves(m: Mode, p: nat)
    requires p < 0x100
    ensures var off, on := m.(auxRead := false), m.(auxRead := true);
            && (ReadMap(off, p) != ReadMap(on, p) <==> 0x02 <= p < 0xC0 && !OfPage2(m.store80, m.hires, p))
            && (ReadMap(off, p) != ReadMap(on, p) ==> MainOrAux(ReadMap(off, p), ReadMap(on, p), p))
            && WriteMap(off, p) == WriteMap(on, p)
  {
  }

  /** RAMWRT moves where stores to the same pages go, and never what is read. */
  lemma AuxWriteMoves(m: Mode, p: nat)
    requires p < 0x100
    ensures var off, on := m.(auxWrite := false), m.(auxWrite := true);
            && ReadMap(off, p) == ReadMap(on, p)
            && (WriteMap(off, p) != WriteMap(on, p) <==> 0x02 <= p < 0xC0 && !OfPage2(m.store80, m.hires, p))
            && (WriteMap(off, p) != WriteMap(on, p) ==> ToMainOrAux(WriteMap(off, p), WriteMap(on, p), p))
  {
  }

  /** 80STORE takes the display pages away from RAMRD and RAMWRT and gives them to PAGE2. */
  lemma Store80Moves(m: Mode, p: nat)
    requires p < 0x100
    ensures var off, on := m.(store80 := false), m.(store80 := true);
            && (ReadMap(off, p) != ReadMap(on, p) <==> OfPage2(true, m.hires, p) && m.page2 != m.auxRead)
            && (WriteMap(off, p) != WriteMap(on, p) <==> OfPage2(true, m.hires, p) && m.page2 != m.auxWrite)
  {
  }

  /** HIRES does so for the graphics page alone. */
  lemma HiresMoves(m: Mode, p: nat)
    requires p < 0x100
    ensures var off, on := m.(hires := false), m.(hires := true);
            && (ReadMap(off, p) != ReadMap(on, p) <==> m.store80 && p / 0x20 == 1 && m.page2 != m.auxRead)
            && (WriteMap(off, p) != WriteMap(on, p) <==> m.store80 && p / 0x20 == 1 && m.page2 != m.auxWrite)
  {
  }

  /** ALTZP moves pages 0-1 and the language card, wherever its RAM is read or written. */
  lemma AltZpMoves(m: Mode, p: nat)
    requires p < 0x100
    ensures var off, on := m.(altZp := false), m.(altZp := true);
            && (ReadMap(off, p) != ReadMap(on, p) <==> p <= 1 || (p >= 0xD0 && m.highRam))
            && (WriteMap(off, p) != WriteMap(on, p) <==> p <= 1 || (p >= 0xD0 && m.hramWrite))
            && (ReadMap(off, p) != ReadMap(on, p) ==> MainOrAux(ReadMap(off, p), ReadMap(on, p), CardPage(m, p)))
            && (WriteMap(off, p) != WriteMap(on, p) ==>
                  ToMainOrAux(WriteMap(off, p), WriteMap(on, p), CardPage(m, p)))
  {
  }

  /** Bank 1 of $D000-$DFFF is stored at $C000-$CFFF of the RAM buffers; all else under its own number. */
  function CardPage(m: Mode, p: nat): nat {
    if p / 0x10 == 0xD && !m.hramBank2 then p - 0x10 else p
  }

  // ----------------------------------------------------- the language card

  /** HIGHRAM shows RAM or ROM at $D000-$FFFF, and nothing elsewhere; stores do not depend on it. */
  lemma HighRamMoves(m: Mode, p: nat)
    requires p < 0x100
    ensures var off, on := m.(highRam := false), m.(highRam := true);
            && (ReadMap(off, p) != ReadMap(on, p) <==> p >= 0xD0)
            && (p >= 0xD0 ==>
                  && ReadMap(off, p) == Place(Rom, p - 0xD0)
                  && ReadMap(on, p) == Place(if m.altZp then Aux else Main, CardPage(m, p)))
            && WriteMap(off, p) == WriteMap(on, p)
  {
  }

  lemma BankMoves(m: Mode, p: nat)
    requires p < 0x100
    ensures var off, on := m.(hramBank2 := false), m.(hramBank2 := true);
            && (ReadMap(off, p) != ReadMap(on, p) <==> p / 0x10 == 0xD && m.highRam)
            && (WriteMap(off, p) != WriteMap(on, p) <==> p / 0x10 == 0xD && m.hramWrite)
  {
  }

  /** Without HRAM_WRITE stores to $D000-$FFFF are lost; with it they reach card RAM even while ROM is read. */
  lemma CardWriteMoves(m: Mode, p: nat)
    requires p < 0x100
    ensures var off, on := m.(hramWrite := false), m.(hramWrite := true);
            && ReadMap(off, p) == ReadMap(on, p)
            && (WriteMap(off, p) != WriteMap(on, p) <==> p >= 0xD0)
            && (p >= 0xD0 ==>
                  && WriteMap(off, p) == Nowhere
                  && WriteMap(on, p) == At(Place(if m.altZp then Aux else Main, CardPage(m, p))))
  {
  }

  // ------------------------------------------------------------- slot ROM

  /** What $C000-$C7FF shows: a slot's own ROM, or internal ROM. */
  lemma SlotPage(m: Mode, p: nat)
    requires 0xC0 <= p <= 0xC7
    ensures ReadMap(m, p)
         == Place(if m.slotCxRom && (p == 0xC3 ==> m.slotC3Rom) then CxPeripheral else CxInternal, p - 0xC0)
  {
  }

  lemma SlotSwitchesMoveSlots(m: Mode, cx: bool, c3: bool, p: nat)
    requires p < 0x100
    ensures WriteMap(m.(slotCxRom := cx, slotC3Rom := c3), p) == WriteMap(m, p)
    ensures p < 0xC0 || 0xC8 <= p ==> ReadMap(m.(slotCxRom := cx, slotC3Rom := c3), p) == ReadMap(m, p)
  {
  }

  lemma SlotCxRomMoves(m: Mode, p: nat)
    requires p < 0x100
    ensures var off, on := m.(slotCxRom := false), m.(slotCxRom := true);
            && (ReadMap(off, p) != ReadMap(on, p) <==> 0xC0 <= p <= 0xC7 && (p != 0xC3 || m.slotC3Rom))
            && WriteMap(off, p) == WriteMap(on, p)
  {
    SlotSwitchesMoveSlots(m, false, m.slotC3Rom, p);
    SlotSwitchesMoveSlots(m, true, m.slotC3Rom, p);
    if 0xC0 <= p <= 0xC7 {
      SlotPage(m.(slotCxRom := false), p);
      SlotPage(m.(slotCxRom := true), p);
    }
  }

  lemma SlotC3RomMoves(m: Mode, p: nat)
    requires p < 0x100
    ensures var off, on := m.(slotC3Rom := false), m.(slotC3Rom := true);
            && (ReadMap(off, p) != ReadMap(on, p) <==> p == 0xC3 && m.slotCxRom)
            && WriteMap(off, p) == WriteMap(on, p)
  {
    SlotSwitchesMoveSlots(m, m.slotCxRom, false, p);
    SlotSwitchesMoveSlots(m, m.slotCxRom, true, p);
    if 0xC0 <= p <= 0xC7 {
      SlotPage(m.(slotC3Rom := false), p);
      SlotPage(m.(slotC3Rom := true), p);
    }
  }

  /** No switch lets a store to $C000-$CFFF through, and the window always shadows internal ROM. */
  lemma IoPagesAreFixed(m: Mode, p: nat)
    requires 0xC0 <= p < 0xD0
    ensures WriteMap(m, p) == Nowhere
    ensures p >= 0xC8 ==> ReadMap(m, p) == Place(CxInternal, p - 0xC0)
  {
  }

  /** With every switch off pages are main RAM, internal ROM and ROM under their own numbers. */
  lemma AllOffIsPlain(m: Mode, p: nat)
    requires p < 0x100
    requires m == Mode(false, false, false, false, false, false, false, false, false, false, false)
    ensures ReadMap(m, p)
         == if p < 0xC0 then Place(Main, p) else if p < 0xD0 then Place(CxInternal, p - 0xC0) else Place(Rom, p - 0xD0)
    ensures WriteMap(m, p) == if p < 0xC0 then At(Place(Main, p)) else Nowhere
  {
  }
}
