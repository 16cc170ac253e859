/**
 The bank-switching rules of the machine as two pure maps: where a read of a
 page comes from, and where a write to it goes. The emulator never consults
 such maps; it keeps two pointer tables and moves pages about instead
 (MemoryBus), and the lemmas here are why that is safe.
 */
module Paging {

  /** The memory-mode word, one field for each named bit. */
  datatype Mode = Mode(
    store80: bool, altZp: bool, auxRead: bool, auxWrite: bool,
    hramBank2: bool, highRam: bool, hires: bool, page2: bool,
    slotC3Rom: bool, slotCxRom: bool, hramWrite: bool)

  datatype Bank = Main | Aux | Rom | CxInternal | CxPeripheral

  /** A pointer to the start of a page of one of the backing buffers. */
  datatype Place = Place(bank: Bank, page: nat)

  /** An entry of the write table: null, the live page itself, or a backing page. */
  datatype Target = Blocked | Live | Backing(place: Place)

  datatype Destination = Nowhere | At(place: Place)

  /** Number of pages of each backing buffer. */
  function Capacity(bank: Bank): nat {
    match bank
    case Main => 0x100
    case Aux => 0x100
    case Rom => 0x50
    case CxInternal => 0x10
    case CxPeripheral => 0x10
  }

  predicate InBank(b: Place) {
    b.page < Capacity(b.bank)
  }

  function Ram(aux: bool, page: nat): Place {
    Place(if aux then Aux else Main, page)
  }

  /** 80STORE takes the text page, and with HIRES the graphics page, away from RAMRD and RAMWRT. */
  predicate Displayed(m: Mode, p: nat) {
    m.store80 && (0x04 <= p < 0x08 || (m.hires && 0x20 <= p < 0x40))
  }

  /** Language-card RAM seen at `p`; bank 1 of $D0-$DF is stored $1000 lower. */
  function CardRam(m: Mode, p: nat): Place
    requires 0xD0 <= p
  {
    Ram(m.altZp, if p < 0xE0 && !m.hramBank2 then p - 0x10 else p)
  }

  /** What a read of page `p` sees. */
  function ReadMap(m: Mode, p: nat): (b: Place)
    requires p < 0x100
    ensures InBank(b)
  {
    if p < 0x02 then Ram(m.altZp, p)
    else if p < 0xC0 then Ram(if Displayed(m, p) then m.page2 else m.auxRead, p)
    else if p < 0xC8 && m.slotCxRom && (p == 0xC3 ==> m.slotC3Rom) then Place(CxPeripheral, p - 0xC0)
    else if p < 0xD0 then Place(CxInternal, p - 0xC0)
    else if m.highRam then CardRam(m, p)
    else Place(Rom, p - 0xD0)
  }

  /** Which backing page a write to page `p` changes, if any. */
  function WriteMap(m: Mode, p: nat): Destination
    requires p < 0x100
  {
    if p < 0x02 then At(Ram(m.altZp, p))
    else if p < 0xC0 then At(Ram(if Displayed(m, p) then m.page2 else m.auxWrite, p))
    else if p < 0xD0 || !m.hramWrite then Nowhere
    else At(CardRam(m, p))
  }

  /** The write table the emulator should hold while `m` is applied. */
  function TargetOf(m: Mode, p: nat): Target
    requires p < 0x100
  {
    match WriteMap(m, p)
    case Nowhere => Blocked
    case At(b) => if b == ReadMap(m, p) then Live else Backing(b)
  }

  /** The one live page at which a backing page can ever appear. */
  function Home(b: Place): (p: nat)
    requires InBank(b)
    ensures p < 0x120
  {
    match b.bank
    case Main => if 0xC0 <= b.page < 0xD0 then b.page + 0x10 else b.page
    case Aux => if 0xC0 <= b.page < 0xD0 then b.page + 0x10 else b.page
    case Rom => b.page + 0xD0
    case CxInternal => b.page + 0xC0
    case CxPeripheral => b.page + 0xC0
  }

  /** Whatever the switches say, a backing page shows up at its home or nowhere. */
  lemma OneHome(m: Mode, p: nat)
    requires p < 0x100
    ensures Home(ReadMap(m, p)) == p
    ensures WriteMap(m, p).At? ==> InBank(WriteMap(m, p).place) && Home(WriteMap(m, p).place) == p
  {
  }

  /**
   Tables for different modes never alias: two live pages shadow different
   backing pages, even when one is read under an old mode and one under a new.
   */
  lemma NoAliasing(m: Mode, n: Mode, p: nat, q: nat)
    requires p < 0x100 && q < 0x100 && p != q
    ensures ReadMap(m, p) != ReadMap(n, q)
    ensures WriteMap(m, p).At? ==> WriteMap(m, p) != WriteMap(n, q) && WriteMap(m, p).place != ReadMap(n, q)
  {
    OneHome(m, p);
    OneHome(n, q);
  }

  /** A store that bypasses the live image lands on a page no live page shadows, and never in ROM. */
  lemma BypassIsUnshadowed(m: Mode, p: nat, q: nat)
    requires p < 0x100 && q < 0x100 && TargetOf(m, p).Backing?
    ensures ReadMap(m, q) != TargetOf(m, p).place
    ensures TargetOf(m, p).place.bank in {Main, Aux}
  {
    OneHome(m, p);
    OneHome(m, q);
  }
}
