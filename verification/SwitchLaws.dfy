/**
 What the soft switches mean to a program: which bit each address sets, what the
 sixteen language-card switches do to reads and stores, and what is read back
 after a store through one setting of the switches and a read through another.
 */
module SwitchLaws {
  import opened Bytes
  import opened Paging
  import opened PagedMemory
  import opened SoftSwitches
  import opened MemoryMachine
  import opened RepageAlgebra

  // ------------------------------------------------------- the mode bits

  lemma Store80Form(m: Mode, sw: Byte)
    requires sw == 0x00 || sw == 0x01
    ensures ModeAfter(false, m, sw) == m.(store80 := sw == 0x01)
  {
  }

  lemma SlotCxForm(m: Mode, sw: Byte)
    requires sw == 0x06 || sw == 0x07
    ensures ModeAfter(false, m, sw) == m.(slotCxRom := sw == 0x06)
  {
  }

  lemma AltZpForm(m: Mode, sw: Byte)
    requires sw == 0x08 || sw == 0x09
    ensures var n := ModeAfter(false, m, sw);
            n == m.(altZp := n.altZp) && n.altZp == (sw == 0x09)
  {
  }

  lemma SlotC3Form(m: Mode, sw: Byte)
    requires sw == 0x0A || sw == 0x0B
    ensures ModeAfter(false, m, sw) == m.(slotC3Rom := sw == 0x0B)
  {
  }

  /** All those addresses on a II or II Plus, and the others, leave the mode alone. */
  lemma PlainForm(m: Mode, sw: Byte)
    requires sw < 0x80
    ensures ModeAfter(true, m, sw) == m
  {
  }

  lemma OtherForm(m: Mode, sw: Byte)
    requires 0x0C <= sw < 0x54 || 0x58 <= sw < 0x80 || 0x90 <= sw
    ensures ModeAfter(false, m, sw) == m
  {
    var n := ModeAfter(false, m, sw);
    assert !CardSwitch(sw) && sw > 0x0B && !(0x54 <= sw <= 0x57);
    assert n == m;
  }

  /** What the card switch at $C080 + `k` makes of a read: RAM for 0 and 3 of every four. */
  predicate ReadsCard(k: nat) {
    k % 4 in {0, 3}
  }

  /** Stores reach the card after the odd ones. */
  predicate WritesCard(k: nat) {
    k in {1, 3, 5, 7, 9, 11, 13, 15}
  }

  /** Page `p` of the card's RAM after the switch: bank 2 comes with the first eight, bank 1 is stored lower. */
  function CardPlace(m: Mode, k: nat, p: nat): Place
    requires 0xD0 <= p < 0x100
  {
    Place(if m.altZp then Aux else Main, if p < 0xE0 && k >= 8 then p - 0x10 else p)
  }

  lemma CardSwitchSets(apple2: bool, m: Mode, k: nat)
    requires k < 16
    ensures var n := ModeAfter(apple2, m, 0x80 + k);
            && n == m.(hramWrite := WritesCard(k), hramBank2 := k < 8, highRam := ReadsCard(k))
  {
    CardBits(0x80 + k, k);
  }

  lemma CardBits(sw: Byte, k: nat)
    requires k < 16 && sw == 0x80 + k
    ensures CardSwitch(sw)
    ensures EnablesWrite(sw) == WritesCard(k) && SelectsBank2(sw) == (k < 8) && EnablesRead(sw) == ReadsCard(k)
  {
  }

  /** All sixteen language-card switches, by what they do to reads and stores at $D000-$FFFF. */
  lemma CardSwitchMeans(apple2: bool, m: Mode, k: nat, p: nat)
    requires k < 16 && 0xD0 <= p < 0x100
    ensures var n := ModeAfter(apple2, m, 0x80 + k);
            && ReadMap(n, p) == (if ReadsCard(k) then CardPlace(m, k, p) else Place(Rom, p - 0xD0))
            && WriteMap(n, p) == (if WritesCard(k) then At(CardPlace(m, k, p)) else Nowhere)
  {
    CardSwitchSets(apple2, m, k);
    CardShows(m, k, p);
  }

  lemma CardShows(m: Mode, k: nat, p: nat)
    requires k < 16 && 0xD0 <= p < 0x100
    ensures var n := m.(hramWrite := WritesCard(k), hramBank2 := k < 8, highRam := ReadsCard(k));
            && ReadMap(n, p) == (if ReadsCard(k) then CardPlace(m, k, p) else Place(Rom, p - 0xD0))
            && WriteMap(n, p) == (if WritesCard(k) then At(CardPlace(m, k, p)) else Nowhere)
  {
  }

  /** The last-write flag follows the card switches and nothing else. */
  lemma LastWriteFollowsTheCard(cfg: Config, c: Control, sw: Byte)
    ensures AfterSwitch(cfg, c, sw).lastWriteRam
         == if 0x80 <= sw < 0x90 then WritesCard(sw - 0x80) else c.lastWriteRam
  {
    if 0x80 <= sw < 0x90 {
      CardBits(sw, sw - 0x80);
    }
  }

  /** The mode a reset sets, by what it shows and takes. */
  lemma ResetShows(p: nat)
    requires p < 0x100
    ensures ReadMap(RESET_MODE, p)
         == if p < 0xC0 then Place(Main, p)
            else if p < 0xC8 && p != 0xC3 then Place(CxPeripheral, p - 0xC0)
            else if p < 0xD0 then Place(CxInternal, p - 0xC0)
            else Place(Rom, p - 0xD0)
    ensures WriteMap(RESET_MODE, p) == if 0xC0 <= p < 0xD0 then Nowhere else At(Place(Main, p))
    ensures !RESET_MODE.store80 && !RESET_MODE.page2 && !RESET_MODE.hires
  {
  }

  lemma ResetResets(cfg: Config, f: Flat)
    requires cfg.Valid() && f.content.Valid()
    ensures var g := FlatStep(cfg, f, Reset).0;
            && g.content == f.content && g.applied == RESET_MODE && g.ctl.mode == RESET_MODE && !g.ctl.lastWriteRam
            && g.ctl.changing == f.ctl.changing && g.ctl.romType == f.ctl.romType && g.ctl.romSlot == f.ctl.romSlot
  {
    FlatDoOne(f.(ctl := SoftReset(f.ctl).ctl), Apply(RESET_MODE));
  }

  lemma FlatDoOne(f: Flat, move: Move)
    requires f.content.Valid()
    ensures FlatDoAll(f, [move]) == FlatDo(f, move)
  {
    assert FlatDoAll(FlatDo(f, move), [move][1..]) == FlatDo(f, move);
  }

  // ----------------------------------------------------- runs of switches

  /** The access by which programs work a switch: the first twelve by a store, the others by a read. */
  function Work(sw: Byte): Op {
    if sw <= 0x0B then Write(0xFFFF, 0xC000 + sw, 0) else Read(0xFFFF, 0xC000 + sw)
  }

  function WorkAll(sws: seq<Byte>): (ops: seq<Op>)
    ensures forall op | op in ops :: ValidOp(op)
  {
    if sws == [] then [] else [Work(sws[0])] + WorkAll(sws[1..])
  }

  predicate Switches(sws: seq<Byte>) {
    forall i | 0 <= i < |sws| :: sws[i] in {0x00, 0x01, 0x02, 0x03, 0x04, 0x05, 0x06, 0x07, 0x08, 0x09, 0x0A, 0x0B}
      || 0x54 <= sws[i] <= 0x57 || 0x80 <= sws[i] < 0x90
  }

  function ModesAfter(apple2: bool, m: Mode, sws: seq<Byte>): Mode
    decreases |sws|
  {
    if sws == [] then m else ModesAfter(apple2, ModeAfter(apple2, m, sws[0]), sws[1..])
  }

  /** The mode is applied and nothing is pending. */
  predicate AtRest(f: Flat) {
    f.applied == f.ctl.mode && !f.ctl.changing
  }

  predicate SameMemory(s: Stores, t: Stores) {
    s.main == t.main && s.aux == t.aux && s.rom == t.rom
  }

  lemma {:induction false} MovesAtRest(f: Flat, m: Mode, moves: seq<Move>)
    requires f.content.Valid() && forall mv | mv in moves :: !mv.Apply?
    ensures var g := FlatDoAll(f, moves + [Apply(m)]);
            g.applied == m && SameMemory(g.content, f.content)
    decreases |moves|
  {
    if moves == [] {
      assert moves + [Apply(m)] == [Apply(m)];
      FlatDoOne(f, Apply(m));
    } else {
      assert (moves + [Apply(m)])[0] == moves[0] && (moves + [Apply(m)])[1..] == moves[1..] + [Apply(m)];
      MovesAtRest(FlatDo(f, moves[0]), m, moves[1..]);
    }
  }

  /** An access that is not held back sets the mode and applies it, and changes no RAM or ROM. */
  lemma SwitchAtRest(cfg: Config, f: Flat, sw: Byte)
    requires f.content.Valid() && AtRest(f)
    ensures var out := SetPaging(cfg, f.ctl, None, sw);
            var g := FlatDoAll(f.(ctl := out.ctl), out.moves);
            && AtRest(g) && g.ctl.mode == ModeAfter(cfg.apple2, f.ctl.mode, sw) && SameMemory(g.content, f.content)
  {
    var d := AfterSwitch(cfg, f.ctl, sw);
    if d.mode != f.ctl.mode {
      var flip := FlipWindow(cfg, f.ctl.mode, d.(changing := false));
      MovesAtRest(f.(ctl := flip.ctl), d.mode, flip.moves);
    }
  }

  lemma WorkSettles(cfg: Config, f: Flat, sw: Byte)
    requires cfg.Valid() && f.content.Valid() && AtRest(f) && Switches([sw])
    ensures var g := FlatStep(cfg, f, Work(sw)).0;
            && AtRest(g) && g.ctl.mode == ModeAfter(cfg.apple2, f.ctl.mode, sw) && SameMemory(g.content, f.content)
  {
    assert Switches([sw]) ==> [sw][0] == sw;
    SwitchAtRest(cfg, f, sw);
    assert Decode(cfg, f.ctl, None, 0xC000 + sw, sw <= 0x0B) == SetPaging(cfg, f.ctl, None, sw);
    assert FlatPoke(f.content, f.applied, 0xC000 + sw, 0) == f.content;
  }

  /** Working any switches in a row changes no RAM or ROM and ends in the mode they make together. */
  lemma {:induction false} SwitchesAddUp(cfg: Config, f: Flat, sws: seq<Byte>)
    requires cfg.Valid() && f.content.Valid() && AtRest(f) && Switches(sws)
    ensures var g := FlatRun(cfg, f, WorkAll(sws)).0;
            && AtRest(g) && g.ctl.mode == ModesAfter(cfg.apple2, f.ctl.mode, sws) && SameMemory(g.content, f.content)
    decreases |sws|
  {
    if sws != [] {
      WorkSettles(cfg, f, sws[0]);
      SwitchesAddUp(cfg, FlatStep(cfg, f, Work(sws[0])).0, sws[1..]);
      assert WorkAll(sws)[1..] == WorkAll(sws[1..]);
    }
  }

  // ------------------------------------ storing here and reading back there

  lemma {:induction false} FlatRunConcat(cfg: Config, f: Flat, xs: seq<Op>, ys: seq<Op>)
    requires cfg.Valid() && f.content.Valid()
    requires (forall op | op in xs :: ValidOp(op)) && (forall op | op in ys :: ValidOp(op))
    ensures var (g, outs) := FlatRun(cfg, f, xs);
            var (h, more) := FlatRun(cfg, g, ys);
            FlatRun(cfg, f, xs + ys) == (h, outs + more)
    decreases |xs|
  {
    if xs == [] {
      assert xs + ys == ys;
      assert [] + FlatRun(cfg, f, ys).1 == FlatRun(cfg, f, ys).1;
    } else {
      assert (xs + ys)[1..] == xs[1..] + ys;
      var (g, out) := FlatStep(cfg, f, xs[0]);
      FlatRunConcat(cfg, g, xs[1..], ys);
      var (h, outs) := FlatRun(cfg, g, xs[1..]);
      var (k, more) := FlatRun(cfg, h, ys);
      assert [out] + (outs + more) == ([out] + outs) + more;
    }
  }

  lemma FlatRunOne(cfg: Config, f: Flat, op: Op)
    requires cfg.Valid() && f.content.Valid() && ValidOp(op)
    ensures FlatRun(cfg, f, [op]) == (FlatStep(cfg, f, op).0, [FlatStep(cfg, f, op).1])
  {
    var (g, out) := FlatStep(cfg, f, op);
    assert [op][1..] == [] && FlatRun(cfg, g, []) == (g, []);
    assert [out] + [] == [out];
  }

  /** Work some switches, store `v` at `a`, work others, and read `a`. */
  function StoreAndReadBack(before: seq<Byte>, a: Address, v: Byte, after: seq<Byte>): (ops: seq<Op>)
    ensures forall op | op in ops :: ValidOp(op)
  {
    WorkAll(before) + ([Write(0xFFFF, a, v)] + (WorkAll(after) + [Read(0xFFFF, a)]))
  }

  /** The last thing a run puts out. */
  function LastOf(outs: seq<Option<Byte>>): Option<Byte> {
    if outs == [] then None else outs[|outs| - 1]
  }

  function AfterStore(cfg: Config, f: Flat, before: seq<Byte>, a: Address, v: Byte): (r: Flat)
    requires cfg.Valid() && f.content.Valid()
    ensures r.content.Valid()
  {
    FlatStep(cfg, FlatRun(cfg, f, WorkAll(before)).0, Write(0xFFFF, a, v)).0
  }

  lemma RunsInThreeParts(cfg: Config, f: Flat, before: seq<Byte>, a: Address, v: Byte, after: seq<Byte>)
    requires cfg.Valid() && f.content.Valid() && !IoArea(a)
    ensures var g := FlatRun(cfg, AfterStore(cfg, f, before, a, v), WorkAll(after)).0;
            LastOf(FlatRun(cfg, f, StoreAndReadBack(before, a, v, after)).1) == Some(FlatByte(g, a))
  {
    var store, tail := [Write(0xFFFF, a, v)], WorkAll(after) + [Read(0xFFFF, a)];
    var h := FlatRun(cfg, f, WorkAll(before)).0;
    FlatRunConcat(cfg, f, WorkAll(before), store + tail);
    FlatRunConcat(cfg, h, store, tail);
    FlatRunOne(cfg, h, Write(0xFFFF, a, v));
    FlatRunConcat(cfg, AfterStore(cfg, f, before, a, v), WorkAll(after), [Read(0xFFFF, a)]);
    FlatRunOne(cfg, FlatRun(cfg, AfterStore(cfg, f, before, a, v), WorkAll(after)).0, Read(0xFFFF, a));
  }

  /** What a store under one mode leaves for a read under another. */
  lemma StoredByte(s: Stores, m: Mode, n: Mode, a: Address, v: Byte)
    requires s.Valid()
    ensures FlatPeek(FlatPoke(s, m, a, v), n, a)
         == if WriteMap(m, PageOf(a)) == At(ReadMap(n, PageOf(a))) then v else FlatPeek(s, n, a)
  {
    OneHome(m, PageOf(a));
    OneHome(n, PageOf(a));
  }

  lemma SamePeek(s: Stores, t: Stores, m: Mode, a: Address)
    requires s.Valid() && t.Valid() && SameMemory(s, t) && !IoArea(a)
    ensures FlatPeek(s, m, a) == FlatPeek(t, m, a)
    ensures forall v :: SameMemory(FlatPoke(s, m, a, v), FlatPoke(t, m, a, v))
  {
    OneHome(m, PageOf(a));
  }

  /**
   In the cached machine, whatever switches are worked before a store and before the
   read: the byte comes back if and only if the store went where the read looks, and
   otherwise what lay there before.
   */
  lemma StoreThenRead(cfg: Config, s: Paged, before: seq<Byte>, a: Address, v: Byte, after: seq<Byte>)
    requires Inv(cfg, s) && !s.ctl.changing && Switches(before) && Switches(after) && !IoArea(a)
    ensures var m := ModesAfter(cfg.apple2, s.ctl.mode, before);
            var n := ModesAfter(cfg.apple2, m, after);
            LastOf(Run(cfg, s, StoreAndReadBack(before, a, v, after)).1)
            == Some(if WriteMap(m, PageOf(a)) == At(ReadMap(n, PageOf(a))) then v
                    else FlatPeek(s.image.Flatten(), n, a))
  {
    var f := Abstraction(s);
    var g := FlatRun(cfg, f, WorkAll(before)).0;
    var h := AfterStore(cfg, f, before, a, v);
    var k := FlatRun(cfg, h, WorkAll(after)).0;
    RunRefines(cfg, s, StoreAndReadBack(before, a, v, after));
    RunsInThreeParts(cfg, f, before, a, v, after);
    SwitchesAddUp(cfg, f, before);
    SwitchesAddUp(cfg, h, after);
    StoredByte(g.content, g.applied, k.applied, a, v);
    SamePeek(k.content, h.content, k.applied, a);
    SamePeek(g.content, f.content, k.applied, a);
  }

  /** The byte of `a` in a page of a bank, as the program knows it. */
  function ByteIn(s: Paged, b: Place, a: Address): Byte
    requires s.image.Valid() && InBank(b)
  {
    s.image.Flatten().Get(b)[OffsetOf(a)]
  }

  /** The byte of `a` in main or auxiliary RAM. */
  function RamByte(s: Paged, aux: bool, a: Address): Byte
    requires s.image.Valid()
  {
    ByteIn(s, Place(if aux then Aux else Main, PageOf(a)), a)
  }

  /** `StoreThenRead` where the modes and the place that is read are known. */
  lemma ReadsBack(
    cfg: Config, s: Paged, before: seq<Byte>, m: Mode, a: Address, v: Byte, after: seq<Byte>, n: Mode, b: Place)
    requires Inv(cfg, s) && !s.ctl.changing && Switches(before) && Switches(after) && !IoArea(a)
    requires m == ModesAfter(cfg.apple2, s.ctl.mode, before) && n == ModesAfter(cfg.apple2, m, after)
    requires b == ReadMap(n, PageOf(a))
    ensures LastOf(Run(cfg, s, StoreAndReadBack(before, a, v, after)).1)
         == Some(if WriteMap(m, PageOf(a)) == At(b) then v else ByteIn(s, b, a))
  {
    StoreThenRead(cfg, s, before, a, v, after);
  }

  lemma OneSwitch(apple2: bool, m: Mode, sw: Byte)
    ensures ModesAfter(apple2, m, [sw]) == ModeAfter(apple2, m, sw)
  {
    assert [sw][1..] == [];
  }

  /** Where the card's stores and reads meet: both in the same bank of RAM. */
  lemma CardMeets(apple2: bool, m0: Mode, j: nat, k: nat, p: nat)
    requires j < 16 && k < 16 && 0xD0 <= p < 0x100
    ensures var m := ModeAfter(apple2, m0, 0x80 + j);
            var n := ModeAfter(apple2, m, 0x80 + k);
            && ReadMap(n, p) == (if ReadsCard(k) then CardPlace(m0, k, p) else Place(Rom, p - 0xD0))
            && (WriteMap(m, p) == At(ReadMap(n, p))
                <==> ReadsCard(k) && WritesCard(j) && (p >= 0xE0 || (j < 8 <==> k < 8)))
  {
    var m := ModeAfter(apple2, m0, 0x80 + j);
    CardSwitchMeans(apple2, m0, j, p);
    CardSwitchMeans(apple2, m, k, p);
    CardSwitchSets(apple2, m0, j);
  }

  /**
   The language card: store after one of its switches, read after another. The byte
   comes back exactly when the first enables stores, the second reads RAM, and at
   $D000-$DFFF both choose one bank.
   */
  lemma CardRun(cfg: Config, s: Paged, j: nat, a: Address, v: Byte, k: nat)
    requires Inv(cfg, s) && !s.ctl.changing && j < 16 && k < 16 && 0xD000 <= a
    ensures var out := LastOf(Run(cfg, s, StoreAndReadBack([0x80 + j], a, v, [0x80 + k])).1);
            out == Some(if !ReadsCard(k) then ByteIn(s, Place(Rom, PageOf(a) - 0xD0), a)
                        else if WritesCard(j) && (a >= 0xE000 || (j < 8 <==> k < 8)) then v
                        else ByteIn(s, CardPlace(s.ctl.mode, k, PageOf(a)), a))
  {
    var m := ModeAfter(cfg.apple2, s.ctl.mode, 0x80 + j);
    var n := ModeAfter(cfg.apple2, m, 0x80 + k);
    OneSwitch(cfg.apple2, s.ctl.mode, 0x80 + j);
    OneSwitch(cfg.apple2, m, 0x80 + k);
    CardMeets(cfg.apple2, s.ctl.mode, j, k, PageOf(a));
    ReadsBack(cfg, s, [0x80 + j], m, a, v, [0x80 + k], n, ReadMap(n, PageOf(a)));
  }

  // ------------------------------------------------ main and auxiliary RAM

  /** Store under RAMWRT off or on, read under RAMRD off or on: the byte comes back exactly when they agree. */
  lemma AuxRun(cfg: Config, s: Paged, x: Byte, a: Address, v: Byte, y: Byte)
    requires Inv(cfg, s) && !s.ctl.changing && !cfg.apple2 && !s.ctl.mode.store80 && 0x0200 <= a < 0xC000
    requires 0x04 <= x <= 0x05 && 0x02 <= y <= 0x03
    ensures LastOf(Run(cfg, s, StoreAndReadBack([x], a, v, [y])).1)
         == Some(if x == 0x05 <==> y == 0x03 then v else RamByte(s, y == 0x03, a))
  {
    var m := ModeAfter(false, s.ctl.mode, x);
    var n := ModeAfter(false, m, y);
    OneSwitch(false, s.ctl.mode, x);
    OneSwitch(false, m, y);
    AuxWriteForm(false, s.ctl.mode, x);
    AuxReadForm(false, m, y);
    AuxMeets(m, n, PageOf(a));
    ReadsBack(cfg, s, [x], m, a, v, [y], n, ReadMap(n, PageOf(a)));
  }

  lemma AuxMeets(m: Mode, n: Mode, p: nat)
    requires 0x02 <= p < 0xC0 && !m.store80 && n == m.(auxRead := n.auxRead)
    ensures WriteMap(m, p) == At(Place(if m.auxWrite then Aux else Main, p))
    ensures ReadMap(n, p) == Place(if n.auxRead then Aux else Main, p)
  {
  }

  /** The same for pages 0 and 1 under ALTZP, which moves reads and stores together. */
  lemma ZeroPageRun(cfg: Config, s: Paged, x: Byte, a: Address, v: Byte, y: Byte)
    requires Inv(cfg, s) && !s.ctl.changing && !cfg.apple2 && a < 0x0200
    requires 0x08 <= x <= 0x09 && 0x08 <= y <= 0x09
    ensures LastOf(Run(cfg, s, StoreAndReadBack([x], a, v, [y])).1)
         == Some(if x == y then v else RamByte(s, y == 0x09, a))
  {
    var m := ModeAfter(false, s.ctl.mode, x);
    var n := ModeAfter(false, m, y);
    OneSwitch(false, s.ctl.mode, x);
    OneSwitch(false, m, y);
    AltZpForm(s.ctl.mode, x);
    AltZpForm(m, y);
    ZeroPageMeets(m, n, PageOf(a));
    ReadsBack(cfg, s, [x], m, a, v, [y], n, ReadMap(n, PageOf(a)));
  }

  lemma ZeroPageMeets(m: Mode, n: Mode, p: nat)
    requires p < 0x02 && n == m.(altZp := n.altZp)
    ensures WriteMap(m, p) == At(Place(if m.altZp then Aux else Main, p))
    ensures ReadMap(n, p) == Place(if n.altZp then Aux else Main, p)
  {
  }

  lemma DisplaySwitches(m: Mode, w: Byte, x: Byte, y: Byte)
    requires w <= 0x01 && 0x56 <= x <= 0x57 && 0x54 <= y <= 0x55
    ensures ModesAfter(false, m, [w, x, y]) == m.(store80 := w == 0x01, hires := x == 0x57, page2 := y == 0x55)
  {
    var m1 := ModeAfter(false, m, w);
    var m2 := ModeAfter(false, m1, x);
    Store80Form(m, w);
    HiresForm(false, m1, x);
    Page2Form(false, m2, y);
    OneSwitch(false, m2, y);
    assert [w, x, y][1..] == [x, y] && [x, y][1..] == [y];
    assert ModesAfter(false, m1, [x, y]) == ModesAfter(false, m2, [y]);
  }

  /** The text page $0400-$07FF, and with HIRES the graphics page $2000-$3FFF. */
  predicate InDisplay(hires: bool, a: Address) {
    0x0400 <= a < 0x0800 || (hires && 0x2000 <= a < 0x4000)
  }

  /**
   80STORE, HIRES and PAGE2: with RAMRD and RAMWRT alike, a byte stored under one
   PAGE2 setting is missed under the other exactly in the display pages that 80STORE
   covers.
   */
  lemma DisplayRun(cfg: Config, s: Paged, w: Byte, x: Byte, y: Byte, a: Address, v: Byte, z: Byte)
    requires Inv(cfg, s) && !s.ctl.changing && !cfg.apple2 && 0x0200 <= a < 0xC000
    requires s.ctl.mode.auxRead == s.ctl.mode.auxWrite
    requires w <= 0x01 && 0x56 <= x <= 0x57 && 0x54 <= y <= 0x55 && 0x54 <= z <= 0x55
    ensures LastOf(Run(cfg, s, StoreAndReadBack([w, x, y], a, v, [z])).1)
         == Some(if w == 0x01 && InDisplay(x == 0x57, a) && y != z then RamByte(s, z == 0x55, a) else v)
  {
    var m := ModesAfter(false, s.ctl.mode, [w, x, y]);
    var n := ModeAfter(false, m, z);
    DisplaySwitches(s.ctl.mode, w, x, y);
    OneSwitch(false, m, z);
    Page2Form(false, m, z);
    DisplayMeets(m, n, a);
    ReadsBack(cfg, s, [w, x, y], m, a, v, [z], n, ReadMap(n, PageOf(a)));
  }

  lemma DisplayMeets(m: Mode, n: Mode, a: Address)
    requires 0x0200 <= a < 0xC000 && m.auxRead == m.auxWrite && n == m.(page2 := n.page2)
    ensures var b := ReadMap(n, PageOf(a));
            && (WriteMap(m, PageOf(a)) == At(b) <==> !(m.store80 && InDisplay(m.hires, a) && m.page2 != n.page2))
            && (m.store80 && InDisplay(m.hires, a) ==> b == Place(if n.page2 then Aux else Main, PageOf(a)))
  {
  }

  /** On a II or II Plus those switches do nothing: the byte always comes back. */
  lemma PlainRun(cfg: Config, s: Paged, x: Byte, a: Address, v: Byte, y: Byte)
    requires Inv(cfg, s) && !s.ctl.changing && cfg.apple2 && s.ctl.mode == RESET_MODE && a < 0xC000
    requires Switches([x]) && Switches([y]) && x < 0x80 && y < 0x80
    ensures LastOf(Run(cfg, s, StoreAndReadBack([x], a, v, [y])).1) == Some(v)
  {
    OneSwitch(true, RESET_MODE, x);
    OneSwitch(true, RESET_MODE, y);
    PlainForm(RESET_MODE, x);
    PlainForm(RESET_MODE, y);
    ResetShows(PageOf(a));
    StoreThenRead(cfg, s, [x], a, v, [y]);
  }

  // --------------------------------------------------------- power-on

  /** What each address reads as after power-on: RAM striped in fours or blank, the ROMs, and no cards. */
  lemma PowerOnReads(rom: seq<Page>, internal: seq<Page>, striped: bool, a: Address)
    requires |internal| == 0x10
    ensures var p, o := a / 0x100, a % 0x100;
            Peek(PowerOn(rom, internal, striped).image, a)
            == if a < 0xC000 then (if striped && a % 4 in {0, 1} then 0xFF else 0)
               else if a >= 0xD000 then (if p - 0xD0 < |rom| then rom[p - 0xD0][o] else 0)
               else if a >= 0xC800 || p == 0xC3 then internal[p - 0xC0][o]
               else 0
  {
    ResetShows(PageOf(a));
  }

  /** And what the RAM buffers hold, with nothing marked to be written back. */
  lemma PowerOnBuffers(rom: seq<Page>, internal: seq<Page>, striped: bool, p: nat, o: nat)
    requires |internal| == 0x10 && p < 0x100 && o < 0x100
    ensures var img := PowerOn(rom, internal, striped).image;
            && img.stores.main[p][o] == (if striped && p < 0xC0 && o % 4 < 2 then 0xFF else 0)
            && img.stores.aux[p][o] == 0 && !img.dirty[p]
  {
  }
}
