/**
 The emulated memory as values: a live 64K image that caches, page by page,
 whatever the applied mode puts there, and the backing buffers behind it.
 The content a program believes in is `Logical`; everything that moves pages
 about must leave it alone.
 */
module PagedMemory {
  import opened Bytes
  import opened Paging

  datatype Stores = Stores(
    main: seq<Page>, aux: seq<Page>, rom: seq<Page>,
    cxInternal: seq<Page>, cxPeripheral: seq<Page>)
  {
    predicate Valid() {
      && |main| == Capacity(Main)
      && |aux| == Capacity(Aux)
      && |rom| == Capacity(Rom)
      && |cxInternal| == Capacity(CxInternal)
      && |cxPeripheral| == Capacity(CxPeripheral)
    }

    function Get(b: Place): Page
      requires Valid() && InBank(b)
    {
      match b.bank
      case Main => main[b.page]
      case Aux => aux[b.page]
      case Rom => rom[b.page]
      case CxInternal => cxInternal[b.page]
      case CxPeripheral => cxPeripheral[b.page]
    }

    function Put(b: Place, page: Page): (s: Stores)
      requires Valid() && InBank(b)
      ensures s.Valid()
      ensures forall c | InBank(c) :: s.Get(c) == if c == b then page else Get(c)
    {
      match b.bank
      case Main => this.(main := main[b.page := page])
      case Aux => this.(aux := aux[b.page := page])
      case Rom => this.(rom := rom[b.page := page])
      case CxInternal => this.(cxInternal := cxInternal[b.page := page])
      case CxPeripheral => this.(cxPeripheral := cxPeripheral[b.page := page])
    }
  }

  function Entry(content: Place --> Page, b: Place): Page
    requires forall c | InBank(c) :: content.requires(c)
    requires InBank(b)
  {
    content(b)
  }

  /** The stores holding a given page at every place. */
  function Tabulate(content: Place --> Page): (s: Stores)
    requires forall b | InBank(b) :: content.requires(b)
    ensures s.Valid()
    ensures forall b | InBank(b) :: s.Get(b) == content(b)
  {
    Stores(
      seq(Capacity(Main), i requires 0 <= i < Capacity(Main) => Entry(content, Place(Main, i))),
      seq(Capacity(Aux), i requires 0 <= i < Capacity(Aux) => Entry(content, Place(Aux, i))),
      seq(Capacity(Rom), i requires 0 <= i < Capacity(Rom) => Entry(content, Place(Rom, i))),
      seq(Capacity(CxInternal), i requires 0 <= i < Capacity(CxInternal) => Entry(content, Place(CxInternal, i))),
      seq(Capacity(CxPeripheral), i requires 0 <= i < Capacity(CxPeripheral) => Entry(content, Place(CxPeripheral, i))))
  }

  lemma SameStores(s: Stores, t: Stores)
    requires s.Valid() && t.Valid()
    requires forall b | InBank(b) :: s.Get(b) == t.Get(b)
    ensures s == t
  {
    forall i | 0 <= i < Capacity(Main) ensures s.main[i] == t.main[i] && s.aux[i] == t.aux[i] {
      assert s.Get(Place(Main, i)) == t.Get(Place(Main, i));
      assert s.Get(Place(Aux, i)) == t.Get(Place(Aux, i));
    }
    forall i | 0 <= i < Capacity(Rom) ensures s.rom[i] == t.rom[i] {
      assert s.Get(Place(Rom, i)) == t.Get(Place(Rom, i));
    }
    forall i | 0 <= i < Capacity(CxInternal)
      ensures s.cxInternal[i] == t.cxInternal[i] && s.cxPeripheral[i] == t.cxPeripheral[i]
    {
      assert s.Get(Place(CxInternal, i)) == t.Get(Place(CxInternal, i));
      assert s.Get(Place(CxPeripheral, i)) == t.Get(Place(CxPeripheral, i));
    }
  }

  /** `applied` is the mode the pointer tables were last rebuilt for. */
  datatype Image = Image(live: seq<Page>, dirty: seq<bool>, stores: Stores, applied: Mode)
  {
    predicate Valid() {
      |live| == 0x100 && |dirty| == 0x100 && stores.Valid()
    }

    predicate Shown(b: Place)
      requires InBank(b)
    {
      Home(b) < 0x100 && ReadMap(applied, Home(b)) == b
    }

    /** The content of a backing page as the program knows it. */
    function Logical(b: Place): Page
      requires Valid() && InBank(b)
    {
      if Shown(b) then live[Home(b)] else stores.Get(b)
    }

    /**
     A clean page equals what it shadows, and a page shadowing ROM always does.
     Pages 0-1 are exempt because a stack push does not mark its page dirty, and
     $C8-$CF because their shadow is never exchanged.
     */
    ghost predicate Coherent()
      requires Valid()
    {
      forall p | 0x02 <= p < 0x100 && !(0xC8 <= p < 0xD0) :: CoherentAt(p)
    }

    predicate CoherentAt(p: nat)
      requires Valid() && p < 0x100
    {
      var b := ReadMap(applied, p);
      (dirty[p] && (b.bank.Main? || b.bank.Aux?)) || live[p] == stores.Get(b)
    }

    /** The whole logical content, as if nothing were cached. */
    function Flatten(): (s: Stores)
      requires Valid()
      ensures s.Valid()
      ensures forall b | InBank(b) :: s.Get(b) == Logical(b)
    {
      Tabulate(b requires InBank(b) => Logical(b))
    }
  }

  predicate Moves(img: Image, mode: Mode, p: nat)
    requires p < 0x100
  {
    ReadMap(img.applied, p) != ReadMap(mode, p)
  }

  /** Whether exchanging page `p` saves it first. */
  predicate Flushes(img: Image, mode: Mode, p: nat)
    requires img.Valid() && p < 0x100
  {
    Moves(img, mode, p) && (img.dirty[p] || p <= 0x01)
  }

  function AfterFlush(img: Image, mode: Mode, b: Place): Page
    requires img.Valid() && InBank(b)
  {
    if img.Shown(b) && Flushes(img, mode, Home(b)) then img.live[Home(b)]
    else img.stores.Get(b)
  }

  /** The image after a paging update to `mode`, every page exchanged at once. */
  function Repage(img: Image, mode: Mode): (r: Image)
    requires img.Valid()
    ensures r.Valid()
  {
    Image(
      seq(0x100, p requires 0 <= p < 0x100 =>
        if Moves(img, mode, p) then img.stores.Get(ReadMap(mode, p)) else img.live[p]),
      seq(0x100, p requires 0 <= p < 0x100 => img.dirty[p] && !Moves(img, mode, p)),
      Tabulate(b requires InBank(b) => AfterFlush(img, mode, b)),
      mode)
  }

  /** The image after an initialising update: every live page reloaded, nothing saved. */
  function Reload(img: Image, mode: Mode): (r: Image)
    requires img.Valid()
    ensures r.Valid()
  {
    Image(seq(0x100, p requires 0 <= p < 0x100 => img.stores.Get(ReadMap(mode, p))), img.dirty, img.stores, mode)
  }

  lemma ReloadIsFlat(img: Image, mode: Mode)
    requires img.Valid()
    ensures Reload(img, mode).Coherent()
    ensures Reload(img, mode).Flatten() == img.stores
  {
    var r := Reload(img, mode);
    forall b | InBank(b) ensures r.Flatten().Get(b) == img.stores.Get(b) {
    }
    SameStores(r.Flatten(), img.stores);
  }

  /** Nothing a program can observe changes when pages move. */
  lemma RepageConserves(img: Image, mode: Mode)
    requires img.Valid() && img.Coherent()
    ensures Repage(img, mode).Coherent()
    ensures Repage(img, mode).Flatten() == img.Flatten()
  {
    var r := Repage(img, mode);
    forall b | InBank(b) ensures r.Logical(b) == img.Logical(b) {
      RepageKeepsPage(img, mode, b);
      CoherentLosesNothing(img, mode, b);
    }
    forall p | 0x02 <= p < 0x100 && !(0xC8 <= p < 0xD0)
      ensures r.CoherentAt(p)
    {
      assert img.CoherentAt(p);
      OneHome(mode, p);
      OneHome(img.applied, p);
    }
    SameStores(r.Flatten(), img.Flatten());
  }

  /** A page is given up without being saved, though it differs from what it shadows. */
  predicate Loses(img: Image, mode: Mode, b: Place)
    requires img.Valid() && InBank(b)
  {
    var h := Home(b);
    img.Shown(b) && Moves(img, mode, h) && !Flushes(img, mode, h) && img.live[h] != img.stores.Get(b)
  }

  /** Coherent or not, an image keeps exactly the pages that are not given up unsaved. */
  lemma RepageKeepsPage(img: Image, mode: Mode, b: Place)
    requires img.Valid() && InBank(b)
    ensures Repage(img, mode).Logical(b) == img.Logical(b) <==> !Loses(img, mode, b)
  {
    var r, h := Repage(img, mode), Home(b);
    if !img.Shown(b) && r.Shown(b) {
      assert Moves(img, mode, h);
    }
  }

  lemma CoherentLosesNothing(img: Image, mode: Mode, b: Place)
    requires img.Valid() && img.Coherent() && InBank(b)
    ensures !Loses(img, mode, b)
  {
    var h := Home(b);
    if img.Shown(b) && Moves(img, mode, h) {
      assert !(0xC8 <= h < 0xD0);
      assert h < 0x02 || img.CoherentAt(h);
    }
  }

  /** The stores part-way through the pass: pages with homes below `page` are done. */
  ghost predicate PartlyFlushed(img: Image, mode: Mode, page: nat, now: Stores)
    requires img.Valid()
  {
    && now.Valid()
    && forall b | InBank(b) ::
         now.Get(b) == if Home(b) < page then AfterFlush(img, mode, b) else img.stores.Get(b)
  }

  /**
   One step of the pass. Saving the page about to be replaced disturbs neither
   what was saved before nor what is still to be loaded.
   */
  lemma FlushStep(img: Image, mode: Mode, page: nat, now: Stores, next: Stores)
    requires img.Valid() && page < 0x100
    requires PartlyFlushed(img, mode, page, now)
    requires next == if Flushes(img, mode, page) then now.Put(ReadMap(img.applied, page), img.live[page]) else now
    ensures PartlyFlushed(img, mode, page + 1, next)
    ensures Moves(img, mode, page) ==> next.Get(ReadMap(mode, page)) == img.stores.Get(ReadMap(mode, page))
  {
    var was := ReadMap(img.applied, page);
    OneHome(img.applied, page);
    OneHome(mode, page);
    forall b | InBank(b)
      ensures next.Get(b) == if Home(b) < page + 1 then AfterFlush(img, mode, b) else img.stores.Get(b)
    {
      assert next.Get(b) == if Flushes(img, mode, page) && b == was then img.live[page] else now.Get(b);
    }
  }

  lemma FlushDone(img: Image, mode: Mode, now: Stores)
    requires img.Valid() && PartlyFlushed(img, mode, 0x100, now)
    ensures now == Repage(img, mode).stores
  {
    forall b | InBank(b) ensures now.Get(b) == Repage(img, mode).stores.Get(b) {
    }
    SameStores(now, Repage(img, mode).stores);
  }

  /** After an update the live image is the logical content seen through the mode, whatever came before. */
  lemma RepageForgetsHistory(img: Image, other: Image, mode: Mode)
    requires img.Valid() && img.Coherent() && other.Valid() && other.Coherent()
    requires img.Flatten() == other.Flatten()
    ensures Repage(img, mode).live == Repage(other, mode).live
    ensures forall p | 0 <= p < 0x100 :: Repage(img, mode).live[p] == img.Logical(ReadMap(mode, p))
  {
    forall p | 0 <= p < 0x100
      ensures Repage(img, mode).live[p] == img.Logical(ReadMap(mode, p)) == Repage(other, mode).live[p]
    {
      var b := ReadMap(mode, p);
      OneHome(mode, p);
      assert img.Flatten().Get(b) == other.Flatten().Get(b);
    }
  }

  // ---------------------------------------------------------------- stores

  type Address = a: nat | a < 0x10000

  function PageOf(a: Address): nat { a / 0x100 }

  function OffsetOf(a: Address): nat { a % 0x100 }

  function Peek(img: Image, a: Address): Byte
    requires img.Valid()
  {
    img.live[PageOf(a)][OffsetOf(a)]
  }

  /** A CPU store: the page is marked dirty even where nothing can be written. */
  function Poke(img: Image, a: Address, v: Byte): (r: Image)
    requires img.Valid()
    ensures r.Valid() && r.applied == img.applied
  {
    var p, o := PageOf(a), OffsetOf(a);
    var marked := img.(dirty := img.dirty[p := true]);
    match TargetOf(img.applied, p)
    case Blocked => marked
    case Live => marked.(live := img.live[p := img.live[p][o := v]])
    case Backing(b) =>
      OneHome(img.applied, p);
      marked.(stores := img.stores.Put(b, img.stores.Get(b)[o := v]))
  }

  /** A push stores straight into the live image and marks nothing. */
  function PushByte(img: Image, sp: Address, v: Byte): (r: Image)
    requires img.Valid() && PageOf(sp) == 1
    ensures r.Valid() && r.applied == img.applied
  {
    img.(live := img.live[1 := img.live[1][OffsetOf(sp) := v]])
  }

  /** The same store on uncached memory. */
  function FlatPoke(s: Stores, m: Mode, a: Address, v: Byte): (r: Stores)
    requires s.Valid()
    ensures r.Valid()
  {
    OneHome(m, PageOf(a));
    match WriteMap(m, PageOf(a))
    case Nowhere => s
    case At(b) => s.Put(b, s.Get(b)[OffsetOf(a) := v])
  }

  function FlatPeek(s: Stores, m: Mode, a: Address): Byte
    requires s.Valid()
  {
    s.Get(ReadMap(m, PageOf(a)))[OffsetOf(a)]
  }

  lemma PeekRefines(img: Image, a: Address)
    requires img.Valid()
    ensures Peek(img, a) == FlatPeek(img.Flatten(), img.applied, a)
  {
    OneHome(img.applied, PageOf(a));
  }

  /** A store changes the one cell the write map names, or nothing at all. */
  lemma PokeRefines(img: Image, a: Address, v: Byte)
    requires img.Valid() && img.Coherent()
    ensures Poke(img, a, v).Coherent()
    ensures Poke(img, a, v).Flatten() == FlatPoke(img.Flatten(), img.applied, a, v)
  {
    var r, p := Poke(img, a, v), PageOf(a);
    OneHome(img.applied, p);
    forall q | 0x02 <= q < 0x100 && !(0xC8 <= q < 0xD0)
      ensures r.CoherentAt(q)
    {
      assert img.CoherentAt(q);
      OneHome(img.applied, q);
    }
    forall b | InBank(b)
      ensures r.Flatten().Get(b) == FlatPoke(img.Flatten(), img.applied, a, v).Get(b)
    {
    }
    SameStores(r.Flatten(), FlatPoke(img.Flatten(), img.applied, a, v));
  }

  lemma PushRefines(img: Image, sp: Address, v: Byte)
    requires img.Valid() && img.Coherent() && PageOf(sp) == 1
    ensures PushByte(img, sp, v).Coherent()
    ensures PushByte(img, sp, v).Flatten() == FlatPoke(img.Flatten(), img.applied, sp, v)
  {
    var r := PushByte(img, sp, v);
    forall q | 0x02 <= q < 0x100 && !(0xC8 <= q < 0xD0) ensures r.CoherentAt(q) {
      assert img.CoherentAt(q);
    }
    forall b | InBank(b)
      ensures r.Flatten().Get(b) == FlatPoke(img.Flatten(), img.applied, sp, v).Get(b)
    {
    }
    SameStores(r.Flatten(), FlatPoke(img.Flatten(), img.applied, sp, v));
  }
}
