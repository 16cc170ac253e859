/**
 The memory system as a machine that answers CPU accesses, in two versions:
 `Paged` is what the emulator runs, `Flat` is the bank-switched memory it
 stands for, with no live image, no dirty bits and nothing to copy.
 `RunRefines` says no run can tell them apart.
 */
module MemoryMachine {
  import opened Bytes
  import opened Paging
  import opened PagedMemory
  import opened SoftSwitches

  datatype Op =
    | Fetch(a: Address)                // an operand or pointer byte, read past the I/O dispatch
    | Read(pc: Address, a: Address)
    | Write(pc: Address, a: Address, v: Byte)
    | Push(sp: Address, v: Byte)
    | SwapCard(slot: nat, page: Page)  // a card exchanges its ROM page
    | Reset                            // soft reset

  predicate ValidOp(op: Op) {
    match op
    case Push(sp, _) => PageOf(sp) == 1
    case SwapCard(slot, _) => 1 <= slot <= 7
    case _ => true
  }

  predicate IoArea(a: Address) {
    0xC000 <= a < 0xD000
  }

  /** What an access to $C000-$CFFF does; `next` is the code at the program counter. */
  function Decode(cfg: Config, c: Control, next: Option<Code>, a: Address, write: bool): Outcome
    requires cfg.Valid() && IoArea(a)
  {
    if a < 0xC100 then
      if SwitchPort(a - 0xC000, write) then SetPaging(cfg, c, next, a - 0xC000) else Outcome(c, [])
    else if !write && ReachesReader(cfg, c, a) then ReadCx(cfg, c, a)
    else Outcome(c, [])
  }

  /** Whether a read of $C000-$CFFF returns the live byte; `d` is the control state after it. */
  predicate ShowsByte(cfg: Config, c: Control, d: Control, a: Address)
    requires cfg.Valid() && IoArea(a)
  {
    0xC100 <= a && ReachesReader(cfg, c, a) && !Floats(d, a)
  }

  // ------------------------------------------------------------ the cache

  datatype Paged = Paged(image: Image, ctl: Control)

  function Do(img: Image, move: Move): (r: Image)
    requires img.Valid()
    ensures r.Valid()
  {
    match move
    case ShowWindow(w) => img.(live := img.live[..0xC8] + w + img.live[0xD0..])
    case KeepWindow(w) => img.(stores := img.stores.(cxPeripheral := img.stores.cxPeripheral[..8] + w))
    case Apply(m) => Repage(img, m)
  }

  function DoAll(img: Image, moves: seq<Move>): (r: Image)
    requires img.Valid()
    ensures r.Valid()
    decreases |moves|
  {
    if moves == [] then img else DoAll(Do(img, moves[0]), moves[1..])
  }

  function CodeAt(img: Image, pc: Address): Option<Code>
    requires img.Valid()
  {
    if pc <= 0xFFFC then Some(CodeOf(img, pc, pc + 1, pc + 2)) else None
  }

  function CodeOf(img: Image, x: Address, y: Address, z: Address): Code
    requires img.Valid()
  {
    Code(Peek(img, x), Peek(img, y), Peek(img, z))
  }

  function Access(cfg: Config, s: Paged, pc: Address, a: Address, write: bool): (r: Paged)
    requires cfg.Valid() && s.image.Valid() && IoArea(a)
    ensures r.image.Valid()
  {
    var out := Decode(cfg, s.ctl, CodeAt(s.image, pc), a, write);
    Paged(DoAll(s.image, out.moves), out.ctl)
  }

  /** A card's new ROM page goes to its buffer, and to the live page while that shows it. */
  function RefreshCard(img: Image, slot: nat, page: Page): (r: Image)
    requires img.Valid() && 1 <= slot <= 7
    ensures r.Valid()
  {
    var b := Place(CxPeripheral, slot);
    var stored := img.(stores := img.stores.Put(b, page));
    if img.Shown(b) then stored.(live := img.live[0xC0 + slot := page]) else stored
  }

  function Step(cfg: Config, s: Paged, op: Op): (r: (Paged, Option<Byte>))
    requires cfg.Valid() && s.image.Valid() && ValidOp(op)
    ensures r.0.image.Valid()
  {
    match op
    case Fetch(a) => (s, Some(Peek(s.image, a)))
    case Read(pc, a) =>
      if !IoArea(a) then (s, Some(Peek(s.image, a)))
      else
        var t := Access(cfg, s, pc, a, false);
        (t, if ShowsByte(cfg, s.ctl, t.ctl, a) then Some(Peek(t.image, a)) else None)
    case Write(pc, a, v) =>
      var t := s.(image := Poke(s.image, a, v));
      (if IoArea(a) then Access(cfg, t, pc, a, true) else t, None)
    case Push(sp, v) => (s.(image := PushByte(s.image, sp, v)), None)
    case SwapCard(slot, page) => (s.(image := RefreshCard(s.image, slot, page)), None)
    case Reset =>
      var out := SoftReset(s.ctl);
      (Paged(DoAll(s.image, out.moves), out.ctl), None)
  }

  /** The cache is coherent, and the mode is applied unless an access is held back. */
  ghost predicate Inv(cfg: Config, s: Paged) {
    && cfg.Valid()
    && s.image.Valid()
    && s.image.Coherent()
    && s.image.stores.cxInternal[8..] == cfg.internalWindow
    && (s.ctl.changing || s.ctl.mode == s.image.applied)
  }

  // ------------------------------------------------------- the flat memory

  datatype Flat = Flat(content: Stores, applied: Mode, ctl: Control)

  /** Pages 8-15 of the internal ROM bank stand for the window at $C800. */
  function FlatDo(f: Flat, move: Move): (r: Flat)
    requires f.content.Valid()
    ensures r.content.Valid() && r.ctl == f.ctl
  {
    match move
    case ShowWindow(w) => f.(content := f.content.(cxInternal := f.content.cxInternal[..8] + w))
    case KeepWindow(w) => f.(content := f.content.(cxPeripheral := f.content.cxPeripheral[..8] + w))
    case Apply(m) => f.(applied := m)
  }

  function FlatDoAll(f: Flat, moves: seq<Move>): (r: Flat)
    requires f.content.Valid()
    ensures r.content.Valid() && r.ctl == f.ctl
    decreases |moves|
  {
    if moves == [] then f else FlatDoAll(FlatDo(f, moves[0]), moves[1..])
  }

  function FlatByte(f: Flat, a: Address): Byte
    requires f.content.Valid()
  {
    FlatPeek(f.content, f.applied, a)
  }

  function FlatCodeAt(f: Flat, pc: Address): Option<Code>
    requires f.content.Valid()
  {
    if pc <= 0xFFFC then Some(FlatCodeOf(f, pc, pc + 1, pc + 2)) else None
  }

  function FlatCodeOf(f: Flat, x: Address, y: Address, z: Address): Code
    requires f.content.Valid()
  {
    Code(FlatByte(f, x), FlatByte(f, y), FlatByte(f, z))
  }

  function FlatAccess(cfg: Config, f: Flat, pc: Address, a: Address, write: bool): (r: Flat)
    requires cfg.Valid() && f.content.Valid() && IoArea(a)
    ensures r.content.Valid()
  {
    var out := Decode(cfg, f.ctl, FlatCodeAt(f, pc), a, write);
    FlatDoAll(f.(ctl := out.ctl), out.moves)
  }

  function FlatStep(cfg: Config, f: Flat, op: Op): (r: (Flat, Option<Byte>))
    requires cfg.Valid() && f.content.Valid() && ValidOp(op)
    ensures r.0.content.Valid()
  {
    match op
    case Fetch(a) => (f, Some(FlatByte(f, a)))
    case Read(pc, a) =>
      if !IoArea(a) then (f, Some(FlatByte(f, a)))
      else
        var g := FlatAccess(cfg, f, pc, a, false);
        (g, if ShowsByte(cfg, f.ctl, g.ctl, a) then Some(FlatByte(g, a)) else None)
    case Write(pc, a, v) =>
      var g := f.(content := FlatPoke(f.content, f.applied, a, v));
      (if IoArea(a) then FlatAccess(cfg, g, pc, a, true) else g, None)
    case Push(sp, v) => (f.(content := FlatPoke(f.content, f.applied, sp, v)), None)
    case SwapCard(slot, page) => (f.(content := f.content.Put(Place(CxPeripheral, slot), page)), None)
    case Reset =>
      var out := SoftReset(f.ctl);
      (FlatDoAll(f.(ctl := out.ctl), out.moves), None)
  }

  ghost function Abstraction(s: Paged): Flat
    requires s.image.Valid()
  {
    Flat(s.image.Flatten(), s.image.applied, s.ctl)
  }

  // ------------------------------------------------------------ refinement

  lemma DoRefines(cfg: Config, s: Paged, move: Move)
    requires cfg.Valid() && s.image.Valid() && s.image.Coherent()
    requires s.image.stores.cxInternal[8..] == cfg.internalWindow
    ensures var r := Do(s.image, move);
            && r.Coherent() && r.stores.cxInternal[8..] == cfg.internalWindow
            && Abstraction(s.(image := r)) == FlatDo(Abstraction(s), move)
  {
    var img, r := s.image, Do(s.image, move);
    var goal := FlatDo(Abstraction(s), move).content;
    match move
    case Apply(m) =>
      RepageConserves(img, m);
      forall i | 8 <= i < 16 ensures r.stores.cxInternal[i] == img.stores.cxInternal[i] {
        assert r.stores.Get(Place(CxInternal, i)) == AfterFlush(img, m, Place(CxInternal, i));
      }
      assert r.stores.cxInternal[8..] == img.stores.cxInternal[8..];
    case ShowWindow(w) =>
      forall p | 0x02 <= p < 0x100 && !(0xC8 <= p < 0xD0) ensures r.CoherentAt(p) {
        assert img.CoherentAt(p);
      }
      forall b | InBank(b) ensures r.Flatten().Get(b) == goal.Get(b) {
        assert img.Flatten().Get(b) == img.Logical(b);
      }
      SameStores(r.Flatten(), goal);
    case KeepWindow(w) =>
      forall p | 0x02 <= p < 0x100 && !(0xC8 <= p < 0xD0) ensures r.CoherentAt(p) {
        assert img.CoherentAt(p);
      }
      forall b | InBank(b) ensures r.Flatten().Get(b) == goal.Get(b) {
        assert img.Flatten().Get(b) == img.Logical(b);
      }
      SameStores(r.Flatten(), goal);
  }

  lemma {:induction false} DoAllRefines(cfg: Config, s: Paged, moves: seq<Move>)
    requires cfg.Valid() && s.image.Valid() && s.image.Coherent()
    requires s.image.stores.cxInternal[8..] == cfg.internalWindow
    ensures var r := DoAll(s.image, moves);
            && r.Coherent() && r.stores.cxInternal[8..] == cfg.internalWindow
            && Abstraction(s.(image := r)) == FlatDoAll(Abstraction(s), moves)
    decreases moves
  {
    if moves != [] {
      DoRefines(cfg, s, moves[0]);
      DoAllRefines(cfg, s.(image := Do(s.image, moves[0])), moves[1..]);
    }
  }

  /** Which mode is applied after some moves: the last one asked for. */
  lemma {:induction false} AppliedAfter(img: Image, moves: seq<Move>)
    requires img.Valid()
    ensures (forall mv | mv in moves :: !mv.Apply?) ==> DoAll(img, moves).applied == img.applied
    ensures moves != [] && moves[|moves| - 1].Apply? ==> DoAll(img, moves).applied == moves[|moves| - 1].mode
    decreases |moves|
  {
    if moves != [] {
      AppliedAfter(Do(img, moves[0]), moves[1..]);
    }
  }

  lemma ReadCxKeepsMode(cfg: Config, c: Control, a: CxAddress)
    requires cfg.Valid()
    ensures KeepsMode(c, ReadCx(cfg, c, a))
  {
    var first := ReleaseWindow(c, a);
    TouchKeepsMode(cfg, first.ctl, a);
  }

  lemma TouchKeepsMode(cfg: Config, c: Control, a: CxAddress)
    requires cfg.Valid()
    ensures KeepsMode(c, TouchSlots(cfg, c, a)) && KeepsMode(c, TouchInternal(cfg, c, a))
  {
  }

  predicate KeepsMode(c: Control, out: Outcome) {
    && out.ctl.mode == c.mode && out.ctl.changing == c.changing
    && forall mv | mv in out.moves :: !mv.Apply?
  }

  lemma CxKeepsInv(cfg: Config, s: Paged, a: CxAddress)
    requires Inv(cfg, s)
    ensures var out := ReadCx(cfg, s.ctl, a);
            Inv(cfg, Paged(DoAll(s.image, out.moves), out.ctl))
  {
    ReadCxSettles(cfg, s, a);
    OutcomeKeepsInv(cfg, s, ReadCx(cfg, s.ctl, a));
  }

  /** Whether an outcome leaves the mode applied, or flags that it is not. */
  predicate Settles(img: Image, out: Outcome)
    requires img.Valid()
  {
    out.ctl.changing || out.ctl.mode == DoAll(img, out.moves).applied
  }

  /** A switch access applies every mode it does not hold back. */
  lemma SetPagingSettles(cfg: Config, s: Paged, next: Option<Code>, sw: Byte)
    requires Inv(cfg, s)
    ensures Settles(s.image, SetPaging(cfg, s.ctl, next, sw))
  {
    AppliedAfter(s.image, SetPaging(cfg, s.ctl, next, sw).moves);
  }

  lemma ReadCxSettles(cfg: Config, s: Paged, a: CxAddress)
    requires Inv(cfg, s)
    ensures Settles(s.image, ReadCx(cfg, s.ctl, a))
  {
    ReadCxKeepsMode(cfg, s.ctl, a);
    AppliedAfter(s.image, ReadCx(cfg, s.ctl, a).moves);
  }

  lemma OutcomeKeepsInv(cfg: Config, s: Paged, out: Outcome)
    requires Inv(cfg, s) && Settles(s.image, out)
    ensures Inv(cfg, Paged(DoAll(s.image, out.moves), out.ctl))
  {
    DoAllRefines(cfg, s, out.moves);
  }

  lemma SwitchKeepsInv(cfg: Config, s: Paged, next: Option<Code>, sw: Byte)
    requires Inv(cfg, s)
    ensures var out := SetPaging(cfg, s.ctl, next, sw);
            Inv(cfg, Paged(DoAll(s.image, out.moves), out.ctl))
  {
    SetPagingSettles(cfg, s, next, sw);
    OutcomeKeepsInv(cfg, s, SetPaging(cfg, s.ctl, next, sw));
  }

  lemma DecodeSettles(cfg: Config, s: Paged, next: Option<Code>, a: Address, write: bool)
    requires Inv(cfg, s) && IoArea(a)
    ensures Settles(s.image, Decode(cfg, s.ctl, next, a, write))
  {
    if a < 0xC100 && SwitchPort(a - 0xC000, write) {
      SwitchSettles(cfg, s, next, a, a - 0xC000, write);
    } else if a >= 0xC100 && !write && ReachesReader(cfg, s.ctl, a) {
      ReadCxSettles(cfg, s, a);
    } else {
      NothingSettles(cfg, s);
    }
  }

  lemma SwitchSettles(cfg: Config, s: Paged, next: Option<Code>, a: Address, sw: Byte, write: bool)
    requires Inv(cfg, s) && IoArea(a) && a < 0xC100 && sw == a - 0xC000 && SwitchPort(sw, write)
    ensures Settles(s.image, Decode(cfg, s.ctl, next, a, write))
  {
    SetPagingSettles(cfg, s, next, sw);
    assert Decode(cfg, s.ctl, next, a, write) == SetPaging(cfg, s.ctl, next, sw);
  }

  lemma NothingSettles(cfg: Config, s: Paged)
    requires Inv(cfg, s)
    ensures Settles(s.image, Outcome(s.ctl, []))
  {
    assert DoAll(s.image, []) == s.image;
  }

  lemma Unroll(img: Image, a: Move, b: Move)
    requires img.Valid()
    ensures DoAll(img, [a]) == Do(img, a)
    ensures DoAll(img, [a, b]) == Do(Do(img, a), b)
  {
    DoAllConcat(img, [a], [b]);
    assert [a] + [b] == [a, b];
  }

  lemma DoAllConcat(img: Image, xs: seq<Move>, ys: seq<Move>)
    requires img.Valid()
    ensures DoAll(img, xs + ys) == DoAll(DoAll(img, xs), ys)
    decreases |xs|
  {
    if xs == [] {
      assert xs + ys == ys;
    } else {
      assert (xs + ys)[1..] == xs[1..] + ys;
      DoAllConcat(Do(img, xs[0]), xs[1..], ys);
    }
  }

  lemma ByteRefines(s: Paged, a: Address)
    requires s.image.Valid()
    ensures Peek(s.image, a) == FlatByte(Abstraction(s), a)
  {
    PeekRefines(s.image, a);
  }

  lemma CodeRefines(s: Paged, pc: Address)
    requires s.image.Valid()
    ensures CodeAt(s.image, pc) == FlatCodeAt(Abstraction(s), pc)
  {
    if pc <= 0xFFFC {
      CodeIsThere(s, pc, pc + 1, pc + 2);
    }
  }

  lemma CodeIsThere(s: Paged, pc: Address, y: Address, z: Address)
    requires s.image.Valid() && pc <= 0xFFFC && y == pc + 1 && z == pc + 2
    ensures CodeAt(s.image, pc) == FlatCodeAt(Abstraction(s), pc)
  {
    ThreeBytes(s, pc, y, z);
  }

  lemma ThreeBytes(s: Paged, x: Address, y: Address, z: Address)
    requires s.image.Valid()
    ensures CodeOf(s.image, x, y, z) == FlatCodeOf(Abstraction(s), x, y, z)
  {
    ByteRefines(s, x);
    ByteRefines(s, y);
    ByteRefines(s, z);
  }

  lemma AccessRefines(cfg: Config, s: Paged, pc: Address, a: Address, write: bool)
    requires Inv(cfg, s) && IoArea(a)
    ensures Inv(cfg, Access(cfg, s, pc, a, write))
    ensures Abstraction(Access(cfg, s, pc, a, write)) == FlatAccess(cfg, Abstraction(s), pc, a, write)
  {
    CodeRefines(s, pc);
    var out := Decode(cfg, s.ctl, CodeAt(s.image, pc), a, write);
    DecodeSettles(cfg, s, CodeAt(s.image, pc), a, write);
    DoAllRefines(cfg, s.(ctl := out.ctl), out.moves);
  }

  lemma SwapRefines(cfg: Config, s: Paged, slot: nat, page: Page)
    requires Inv(cfg, s) && 1 <= slot <= 7
    ensures var t := s.(image := RefreshCard(s.image, slot, page));
            && Inv(cfg, t)
            && t.image.Flatten() == s.image.Flatten().Put(Place(CxPeripheral, slot), page)
  {
    var img, r := s.image, RefreshCard(s.image, slot, page);
    var goal := img.Flatten().Put(Place(CxPeripheral, slot), page);
    forall p | 0x02 <= p < 0x100 && !(0xC8 <= p < 0xD0) ensures r.CoherentAt(p) {
      assert img.CoherentAt(p);
      OneHome(img.applied, p);
    }
    forall b | InBank(b) ensures r.Flatten().Get(b) == goal.Get(b) {
      assert img.Flatten().Get(b) == img.Logical(b);
    }
    SameStores(r.Flatten(), goal);
    forall i | 8 <= i < 16 ensures r.stores.cxInternal[i] == img.stores.cxInternal[i] {
      assert r.stores.Get(Place(CxInternal, i)) == img.stores.Get(Place(CxInternal, i));
    }
    assert r.stores.cxInternal[8..] == img.stores.cxInternal[8..];
  }

  lemma PokeKeepsInv(cfg: Config, s: Paged, a: Address, v: Byte)
    requires Inv(cfg, s)
    ensures Inv(cfg, s.(image := Poke(s.image, a, v)))
  {
    var img, r := s.image, Poke(s.image, a, v);
    PokeRefines(img, a, v);
    OneHome(img.applied, PageOf(a));
    forall i | 8 <= i < 16 ensures r.stores.cxInternal[i] == img.stores.cxInternal[i] {
      assert r.stores.Get(Place(CxInternal, i)) == img.stores.Get(Place(CxInternal, i));
    }
    assert r.stores.cxInternal[8..] == img.stores.cxInternal[8..];
  }

  lemma StepRefines(cfg: Config, s: Paged, op: Op)
    requires Inv(cfg, s) && ValidOp(op)
    ensures var (t, out) := Step(cfg, s, op);
            Inv(cfg, t) && FlatStep(cfg, Abstraction(s), op) == (Abstraction(t), out)
  {
    match op
    case Fetch(a) => PeekRefines(s.image, a);
    case Read(pc, a) =>
      if IoArea(a) {
        AccessRefines(cfg, s, pc, a, false);
        PeekRefines(Access(cfg, s, pc, a, false).image, a);
      } else {
        PeekRefines(s.image, a);
      }
    case Write(pc, a, v) =>
      PokeRefines(s.image, a, v);
      PokeKeepsInv(cfg, s, a, v);
      if IoArea(a) {
        AccessRefines(cfg, s.(image := Poke(s.image, a, v)), pc, a, true);
      }
    case Push(sp, v) => PushRefines(s.image, sp, v);
    case SwapCard(slot, page) => SwapRefines(cfg, s, slot, page);
    case Reset =>
      var out := SoftReset(s.ctl);
      DoAllRefines(cfg, s.(ctl := out.ctl), out.moves);
      AppliedAfter(s.image, out.moves);
  }

  // ------------------------------------------------------------ whole runs

  function Run(cfg: Config, s: Paged, ops: seq<Op>): (r: (Paged, seq<Option<Byte>>))
    requires cfg.Valid() && s.image.Valid()
    requires forall op | op in ops :: ValidOp(op)
    ensures r.0.image.Valid()
    decreases |ops|
  {
    if ops == [] then (s, [])
    else
      var (t, out) := Step(cfg, s, ops[0]);
      var (u, outs) := Run(cfg, t, ops[1..]);
      (u, [out] + outs)
  }

  function FlatRun(cfg: Config, f: Flat, ops: seq<Op>): (r: (Flat, seq<Option<Byte>>))
    requires cfg.Valid() && f.content.Valid()
    requires forall op | op in ops :: ValidOp(op)
    ensures r.0.content.Valid()
    decreases |ops|
  {
    if ops == [] then (f, [])
    else
      var (g, out) := FlatStep(cfg, f, ops[0]);
      var (h, outs) := FlatRun(cfg, g, ops[1..]);
      (h, [out] + outs)
  }

  /**
   Over every run, the cache answers each access as the flat memory does and
   stays a coherent image of it.
   */
  lemma {:induction false} RunRefines(cfg: Config, s: Paged, ops: seq<Op>)
    requires Inv(cfg, s)
    requires forall op | op in ops :: ValidOp(op)
    ensures var (t, outs) := Run(cfg, s, ops);
            Inv(cfg, t) && FlatRun(cfg, Abstraction(s), ops) == (Abstraction(t), outs)
    decreases |ops|
  {
    if ops != [] {
      StepRefines(cfg, s, ops[0]);
      RunRefines(cfg, Step(cfg, s, ops[0]).0, ops[1..]);
    }
  }

  // ---------------------------------------------------------- consequences

  /** ROM content survives any run: no store and no exchange of pages reaches it. */
  lemma RomNeverChanges(cfg: Config, s: Paged, ops: seq<Op>)
    requires Inv(cfg, s)
    requires forall op | op in ops :: ValidOp(op)
    ensures var before, after := s.image.Flatten(), Run(cfg, s, ops).0.image.Flatten();
            after.rom == before.rom && after.cxInternal[..8] == before.cxInternal[..8]
  {
    RunRefines(cfg, s, ops);
    FlatRunKeepsRom(cfg, Abstraction(s), ops);
  }

  lemma {:induction false} FlatRunKeepsRom(cfg: Config, f: Flat, ops: seq<Op>)
    requires cfg.Valid() && f.content.Valid()
    requires forall op | op in ops :: ValidOp(op)
    ensures var g := FlatRun(cfg, f, ops).0;
            g.content.rom == f.content.rom && g.content.cxInternal[..8] == f.content.cxInternal[..8]
    decreases |ops|
  {
    if ops != [] {
      FlatStepKeepsRom(cfg, f, ops[0]);
      FlatRunKeepsRom(cfg, FlatStep(cfg, f, ops[0]).0, ops[1..]);
    }
  }

  lemma FlatStepKeepsRom(cfg: Config, f: Flat, op: Op)
    requires cfg.Valid() && f.content.Valid() && ValidOp(op)
    ensures var g := FlatStep(cfg, f, op).0;
            g.content.rom == f.content.rom && g.content.cxInternal[..8] == f.content.cxInternal[..8]
  {
    match op
    case Read(pc, a) =>
      if IoArea(a) {
        var out := Decode(cfg, f.ctl, FlatCodeAt(f, pc), a, false);
        FlatMovesKeepRom(f.(ctl := out.ctl), out.moves);
      }
    case Write(pc, a, v) =>
      var g := f.(content := FlatPoke(f.content, f.applied, a, v));
      if IoArea(a) {
        var out := Decode(cfg, g.ctl, FlatCodeAt(g, pc), a, true);
        FlatMovesKeepRom(g.(ctl := out.ctl), out.moves);
      }
    case Reset => FlatMovesKeepRom(f.(ctl := SoftReset(f.ctl).ctl), SoftReset(f.ctl).moves);
    case _ =>
  }

  lemma {:induction false} FlatMovesKeepRom(f: Flat, moves: seq<Move>)
    requires f.content.Valid()
    ensures var g := FlatDoAll(f, moves);
            g.content.rom == f.content.rom && g.content.cxInternal[..8] == f.content.cxInternal[..8]
    decreases |moves|
  {
    if moves != [] {
      FlatMovesKeepRom(FlatDo(f, moves[0]), moves[1..]);
    }
  }

  /** FF FF 00 00 over and over. */
  function StripedPage(): Page {
    seq(0x100, i => if i % 4 < 2 then 0xFF else 0x00)
  }

  function RamFill(striped: bool, p: nat): Page {
    if striped && p < 0xC0 then StripedPage() else ZeroPage()
  }

  function RomFill(rom: seq<Page>, p: nat): Page {
    if p < |rom| then rom[p] else ZeroPage()
  }

  function Blank(n: nat): seq<Page> {
    seq(n, i => ZeroPage())
  }

  /** The buffers at power-on; the 12K ROM image fills the start of its larger buffer. */
  function PowerOnStores(rom: seq<Page>, internal: seq<Page>, striped: bool): (s: Stores)
    requires |internal| == 0x10
    ensures s.Valid()
  {
    Stores(seq(0x100, p requires 0 <= p => RamFill(striped, p)), Blank(0x100),
           seq(0x50, p requires 0 <= p => RomFill(rom, p)), internal, Blank(0x10))
  }

  function PowerOn(rom: seq<Page>, internal: seq<Page>, striped: bool): Paged
    requires |internal| == 0x10
  {
    var img := Image(Blank(0x100), seq(0x100, i => false), PowerOnStores(rom, internal, striped), RESET_MODE);
    Paged(Reload(img, RESET_MODE), Control(RESET_MODE, false, false, NoRom, 0, NO_SELECT, false))
  }

  /** Power-on leaves a coherent cache of exactly what the buffers hold. */
  lemma PowerOnIsCoherent(cfg: Config, img: Image, ctl: Control)
    requires cfg.Valid() && img.Valid() && img.stores.cxInternal[8..] == cfg.internalWindow
    requires ctl.mode == RESET_MODE
    ensures var s := Paged(Reload(img, RESET_MODE), ctl);
            Inv(cfg, s) && Abstraction(s) == Flat(img.stores, RESET_MODE, ctl)
  {
    ReloadIsFlat(img, RESET_MODE);
  }
}
