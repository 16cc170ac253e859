/**
 Held-back paging. When a program sets the write bank and is about to set the
 read bank, or works the language card and is about to set either, the emulator
 postpones the costly exchange of pages to the last store of the group. Here the
 postponing machine is compared with one that applies every switch at once.
 */
module HeldBack {
  import opened Bytes
  import opened Paging
  import opened PagedMemory
  import opened SoftSwitches
  import opened MemoryMachine
  import opened RepageAlgebra

  /** What ports, cards and the floating bus answer; it may be anything. */
  type Bus = Address -> Byte

  /** What an access is told of the code ahead: only the postponing machine looks. */
  function Ahead(postpones: bool, img: Image, pc: Address): Option<Code>
    requires img.Valid()
  {
    if postpones then CodeAt(img, pc) else None
  }

  /** An access to a paging switch by the instruction before `pc`. */
  function Switch(cfg: Config, postpones: bool, s: Paged, pc: Address, sw: Byte): (r: Paged)
    requires s.image.Valid()
    ensures r.image.Valid()
  {
    var out := SetPaging(cfg, s.ctl, Ahead(postpones, s.image, pc), sw);
    Paged(DoAll(s.image, out.moves), out.ctl)
  }

  /** The fetch of an opcode: at $C000-$CFFF it is an access like any other. */
  function FetchOp(cfg: Config, postpones: bool, s: Paged, pc: Address, bus: Bus): (r: (Paged, Byte))
    requires cfg.Valid() && s.image.Valid()
    ensures r.0.image.Valid()
  {
    if !IoArea(pc) then (s, Peek(s.image, pc))
    else
      var out := Decode(cfg, s.ctl, Ahead(postpones, s.image, pc), pc, false);
      var t := Paged(DoAll(s.image, out.moves), out.ctl);
      (t, if ShowsByte(cfg, s.ctl, t.ctl, pc) then Peek(t.image, pc) else bus(pc))
  }

  function Port(lo: Byte): Address {
    0xC000 + lo
  }

  function Rank(sw: Byte): nat {
    if CardSwitch(sw) then 2 else if sw == 0x04 || sw == 0x05 then 1 else 0
  }

  /** The store instruction before `pc` touches its page before its switch is reached. */
  function Touched(s: Paged, a: Address, v: Byte): (r: Paged)
    requires s.image.Valid()
    ensures r.image.Valid()
  {
    s.(image := Poke(s.image, a, v))
  }

  /** The operand at `pc` + 1, which is read past the I/O dispatch, is switch `lo`. */
  predicate OperandIs(img: Image, pc: Address, lo: Byte)
    requires img.Valid()
  {
    pc <= 0xFFFC && Peek(img, pc + 1) == lo && Peek(img, pc + 2) == 0xC0
  }

  const STA_ABS := 0x8D

  /**
   A switch access and, as long as the code ahead is a store to a related switch,
   that store of `v`: its opcode is fetched, and if it is then indeed that store,
   it is executed.
   */
  function GroupRun(cfg: Config, postpones: bool, s: Paged, pc: Address, sw: Byte, v: Byte, bus: Bus): (r: Paged)
    requires cfg.Valid() && s.image.Valid()
    ensures r.image.Valid()
    decreases Rank(sw)
  {
    var t := Switch(cfg, postpones, s, pc, sw);
    var next := CodeAt(t.image, pc);
    if HoldsBack(sw, next) then
      var lo := next.value.lo;
      var (u, op) := FetchOp(cfg, postpones, t, pc, bus);
      if op == STA_ABS && OperandIs(u.image, pc, lo)
      then GroupRun(cfg, postpones, Touched(u, Port(lo), v), pc + 3, lo, v, bus)
      else u
    else t
  }

  /** With postponing, all these are steps of the memory machine. */
  lemma CardReadIsStep(cfg: Config, s: Paged, pc: Address, sw: Byte)
    requires cfg.Valid() && s.image.Valid() && CardSwitch(sw)
    ensures Step(cfg, s, Read(pc, Port(sw))).0 == Switch(cfg, true, s, pc, sw)
  {
    assert Decode(cfg, s.ctl, CodeAt(s.image, pc), Port(sw), false) == SetPaging(cfg, s.ctl, CodeAt(s.image, pc), sw);
  }

  lemma StoreIsStep(cfg: Config, s: Paged, pc: Address, sw: Byte, v: Byte)
    requires cfg.Valid() && s.image.Valid() && (sw <= 0x0B || CardSwitch(sw))
    ensures Step(cfg, s, Write(pc, Port(sw), v)).0 == Switch(cfg, true, Touched(s, Port(sw), v), pc, sw)
  {
    var next := CodeAt(Touched(s, Port(sw), v).image, pc);
    assert Decode(cfg, s.ctl, next, Port(sw), true) == SetPaging(cfg, s.ctl, next, sw);
  }

  lemma FetchIsStep(cfg: Config, s: Paged, pc: Address, bus: Bus)
    requires cfg.Valid() && s.image.Valid()
    ensures var fetched := Step(cfg, s, Read(pc, pc));
            FetchOp(cfg, true, s, pc, bus) == (fetched.0, if fetched.1.Some? then fetched.1.value else bus(pc))
  {
  }

  // ------------------------------------------------------------ comparison

  /** `t` has applied what `s` still holds back, and only pages of the language card differ. */
  ghost predicate Behind(s: Paged, t: Paged) {
    && s.image.Valid()
    && t == Paged(Repage(s.image, s.ctl.mode), s.ctl.(changing := false))
    && Agree(s.image.applied, s.ctl.mode, 0x00, 0xD0)
    && (s.ctl.changing || s.ctl.mode == s.image.applied)
  }

  predicate Settled(s: Paged) {
    !s.ctl.changing && s.ctl.mode == s.image.applied
  }

  lemma SettledIsLevel(s: Paged)
    requires s.image.Valid() && Settled(s)
    ensures Behind(s, s)
  {
    RepageIdle(s.image);
  }

  lemma SettlePlain(cfg: Config, before: Mode, c: Control)
    requires before.slotCxRom == c.mode.slotCxRom
    ensures SettlePaging(cfg, before, c)
         == if before == c.mode && !c.changing then Outcome(c, [])
            else Outcome(c.(changing := false), [Apply(c.mode)])
  {
    assert [] + [Apply(c.mode)] == [Apply(c.mode)];
  }

  /** An access that is not held back applies its mode, with whatever was pending. */
  lemma SwitchSettlesAll(cfg: Config, postpones: bool, s: Paged, pc: Address, sw: Byte)
    requires s.image.Valid() && (s.ctl.changing || s.ctl.mode == s.image.applied)
    requires Quiet(sw) && !HoldsBack(sw, Ahead(postpones, s.image, pc))
    ensures var m := ModeAfter(cfg.apple2, s.ctl.mode, sw);
            Switch(cfg, postpones, s, pc, sw)
            == Paged(Repage(s.image, m), AfterSwitch(cfg, s.ctl.(changing := false), sw))
  {
    var m := ModeAfter(cfg.apple2, s.ctl.mode, sw);
    SwitchReach(cfg.apple2, s.ctl.mode, sw);
    SettlePlain(cfg, s.ctl.mode, AfterSwitch(cfg, s.ctl, sw));
    ApplyOrIdle(s.image, m);
  }

  lemma ApplyOrIdle(img: Image, m: Mode)
    requires img.Valid()
    ensures DoAll(img, [Apply(m)]) == Repage(img, m)
    ensures m == img.applied ==> DoAll(img, []) == Repage(img, m)
  {
    Unroll(img, Apply(m), Apply(m));
    RepageIdle(img);
  }

  /** The prompt machine's access is one update of what the held machine still has. */
  lemma PromptBehind(cfg: Config, s: Paged, t: Paged, pc: Address, sw: Byte)
    requires Behind(s, t) && Quiet(sw) && (CardSwitch(sw) ==> Settled(s))
    ensures Switch(cfg, false, t, pc, sw)
         == Paged(Repage(s.image, ModeAfter(cfg.apple2, s.ctl.mode, sw)),
                  AfterSwitch(cfg, s.ctl.(changing := false), sw))
  {
    var m0, m1, m2 := s.image.applied, s.ctl.mode, ModeAfter(cfg.apple2, s.ctl.mode, sw);
    SwitchReach(cfg.apple2, m1, sw);
    SwitchSettlesAll(cfg, false, t, pc, sw);
    if Settled(s) {
      RepageIdle(s.image);
    } else {
      SplitAtTheCard(m0, m1, m2);
      RepageTwice(s.image, m1, m2);
    }
  }

  /** The held machine's access leaves it behind the prompt one, or level with it. */
  lemma SwitchBehind(cfg: Config, s: Paged, t: Paged, pc: Address, sw: Byte)
    requires Behind(s, t) && Quiet(sw) && (CardSwitch(sw) ==> Settled(s))
    ensures var held, prompt := Switch(cfg, true, s, pc, sw), Switch(cfg, false, t, pc, sw);
            if HoldsBack(sw, CodeAt(s.image, pc)) then Behind(held, prompt) && held.image == s.image
            else held == prompt && Settled(held)
  {
    PromptBehind(cfg, s, t, pc, sw);
    if HoldsBack(sw, CodeAt(s.image, pc)) {
      SwitchReach(cfg.apple2, s.ctl.mode, sw);
    } else {
      SwitchSettlesAll(cfg, true, s, pc, sw);
    }
  }

  /** Both machines then execute the same store, which keeps them in step. */
  lemma TouchBehind(s: Paged, t: Paged, a: Address, v: Byte)
    requires Behind(s, t) && 0xC000 <= a < 0xC100
    ensures Behind(Touched(s, a, v), Touched(t, a, v))
  {
    TouchCommutes(s.image, s.ctl.mode, a, v);
  }

  // ------------------------------------------------------------ safe code

  /** The fetch of the store after RAMWRT is not an access, or one that applies what is held back. */
  predicate SafeAfterAuxWrite(pc: Address) {
    !IoArea(pc) || 0xC054 <= pc <= 0xC057
  }

  /** The same of both stores that can follow a language-card access, or the emulator does not look ahead. */
  predicate SafeAfterCard(pc: Address) {
    pc + 3 < 0xC000 || pc == 0xC054 || pc > 0xFFFC
  }

  /** Where a group of accesses can stand: fresh, or some accesses in. */
  ghost predicate InGroup(s: Paged, t: Paged, pc: Address, sw: Byte) {
    && Behind(s, t)
    && (0x02 <= sw <= 0x05 || (CardSwitch(sw) && Settled(s) && SafeAfterCard(pc)))
    && (sw == 0x04 || sw == 0x05 ==> SafeAfterAuxWrite(pc) && (ReadsBelow(pc, 3) || Settled(s)))
  }

  /** Both machines see the same next instruction. */
  lemma SameNext(cfg: Config, s: Paged, t: Paged, pc: Address, sw: Byte)
    requires InGroup(s, t, pc, sw) && Rank(sw) > 0
    ensures CodeAt(Switch(cfg, false, t, pc, sw).image, pc) == CodeAt(s.image, pc)
  {
    PromptBehind(cfg, s, t, pc, sw);
    SwitchReach(cfg.apple2, s.ctl.mode, sw);
    CodeUnmoved(s.image, ModeAfter(cfg.apple2, s.ctl.mode, sw), pc);
  }

  /** A fetch from a display switch applies what is held back. */
  lemma FetchSettles(cfg: Config, s: Paged, t: Paged, pc: Address, bus: Bus)
    requires cfg.Valid() && Behind(s, t) && 0xC054 <= pc <= 0xC057
    ensures FetchOp(cfg, true, s, pc, bus) == FetchOp(cfg, false, t, pc, bus)
    ensures Settled(FetchOp(cfg, true, s, pc, bus).0)
  {
    var sw := pc - 0xC000;
    FetchIsSwitch(cfg, true, s, pc, sw, bus);
    FetchIsSwitch(cfg, false, t, pc, sw, bus);
    SwitchBehind(cfg, s, t, pc, sw);
  }

  lemma FetchIsSwitch(cfg: Config, postpones: bool, s: Paged, pc: Address, sw: Byte, bus: Bus)
    requires cfg.Valid() && s.image.Valid() && IoArea(pc) && sw == pc - 0xC000 && SwitchPort(sw, false)
    ensures FetchOp(cfg, postpones, s, pc, bus) == (Switch(cfg, postpones, s, pc, sw), bus(pc))
  {
  }

  /** The fetch of a safe store leaves both machines in step, and they find the same opcode and operand. */
  lemma FetchBehind(cfg: Config, s: Paged, t: Paged, pc: Address, bus: Bus)
    requires cfg.Valid() && Behind(s, t) && SafeAfterAuxWrite(pc) && CodeAt(s.image, pc) == CodeAt(t.image, pc)
    requires pc <= 0xFFFC
    ensures var (u, op) := FetchOp(cfg, true, s, pc, bus);
            var (w, oq) := FetchOp(cfg, false, t, pc, bus);
            && op == oq && Behind(u, w)
            && (forall lo: Byte :: OperandIs(u.image, pc, lo) <==> OperandIs(w.image, pc, lo))
            && if IoArea(pc) then u == w && Settled(u) else u == s && w == t
  {
    if IoArea(pc) {
      FetchSettles(cfg, s, t, pc, bus);
      SettledIsLevel(FetchOp(cfg, true, s, pc, bus).0);
    }
  }

  predicate Alike(cfg: Config, s: Paged, t: Paged, pc: Address, sw: Byte, v: Byte, bus: Bus)
    requires cfg.Valid() && s.image.Valid() && t.image.Valid()
  {
    GroupRun(cfg, true, s, pc, sw, v, bus) == GroupRun(cfg, false, t, pc, sw, v, bus)
  }

  /** Whether the store the machine sees ahead is the one it comes to execute. */
  predicate GoesOn(cfg: Config, postpones: bool, s: Paged, pc: Address, lo: Byte, bus: Bus)
    requires cfg.Valid() && s.image.Valid()
  {
    var (u, op) := FetchOp(cfg, postpones, s, pc, bus);
    op == STA_ABS && OperandIs(u.image, pc, lo)
  }

  lemma GroupEnds(cfg: Config, postpones: bool, s: Paged, pc: Address, sw: Byte, v: Byte, bus: Bus)
    requires cfg.Valid() && s.image.Valid()
    requires !HoldsBack(sw, CodeAt(Switch(cfg, postpones, s, pc, sw).image, pc))
    ensures GroupRun(cfg, postpones, s, pc, sw, v, bus) == Switch(cfg, postpones, s, pc, sw)
  {
  }

  lemma GroupGoesOn(
    cfg: Config, postpones: bool, s: Paged, t: Paged, pc: Address, sw: Byte, lo: Byte, v: Byte, bus: Bus)
    requires cfg.Valid() && s.image.Valid()
    requires t == Switch(cfg, postpones, s, pc, sw)
    requires HoldsBack(sw, CodeAt(t.image, pc)) && lo == CodeAt(t.image, pc).value.lo
    ensures var u := FetchOp(cfg, postpones, t, pc, bus).0;
            GroupRun(cfg, postpones, s, pc, sw, v, bus)
            == if GoesOn(cfg, postpones, t, pc, lo, bus)
               then GroupRun(cfg, postpones, Touched(u, Port(lo), v), pc + 3, lo, v, bus) else u
  {
  }

  lemma {:induction false} HeldCatchesUp(cfg: Config, s: Paged, t: Paged, pc: Address, sw: Byte, v: Byte, bus: Bus)
    requires cfg.Valid() && InGroup(s, t, pc, sw)
    ensures Alike(cfg, s, t, pc, sw, v, bus)
    decreases Rank(sw), 1
  {
    SwitchBehind(cfg, s, t, pc, sw);
    if Rank(sw) > 0 {
      SameNext(cfg, s, t, pc, sw);
    }
    if HoldsBack(sw, CodeAt(s.image, pc)) {
      BothGoOn(cfg, s, t, pc, sw, v, bus);
    } else {
      GroupEnds(cfg, true, s, pc, sw, v, bus);
      GroupEnds(cfg, false, t, pc, sw, v, bus);
    }
  }

  /** After a held access both machines find the same code, and the same at the fetch. */
  lemma BothFetch(cfg: Config, s: Paged, t: Paged, pc: Address, sw: Byte, lo: Byte, bus: Bus)
    requires cfg.Valid() && InGroup(s, t, pc, sw) && HoldsBack(sw, CodeAt(s.image, pc))
    requires lo == CodeAt(s.image, pc).value.lo
    ensures var held, prompt := Switch(cfg, true, s, pc, sw), Switch(cfg, false, t, pc, sw);
            var u, w := FetchOp(cfg, true, held, pc, bus).0, FetchOp(cfg, false, prompt, pc, bus).0;
            && CodeAt(held.image, pc) == CodeAt(prompt.image, pc) == CodeAt(s.image, pc) && Behind(u, w)
            && (GoesOn(cfg, true, held, pc, lo, bus) <==> GoesOn(cfg, false, prompt, pc, lo, bus))
            && (u == w || GoesOn(cfg, true, held, pc, lo, bus))
  {
    SwitchBehind(cfg, s, t, pc, sw);
    SameNext(cfg, s, t, pc, sw);
    FetchBehind(cfg, Switch(cfg, true, s, pc, sw), Switch(cfg, false, t, pc, sw), pc, bus);
  }

  lemma NextInGroup(s: Paged, t: Paged, pc: Address, sw: Byte, lo: Byte, u: Paged, w: Paged, v: Byte)
    requires InGroup(s, t, pc, sw) && HoldsBack(sw, CodeAt(s.image, pc)) && lo == CodeAt(s.image, pc).value.lo
    requires Behind(u, w)
    ensures Rank(lo) < Rank(sw) && InGroup(Touched(u, Port(lo), v), Touched(w, Port(lo), v), pc + 3, lo)
  {
    TouchBehind(u, w, Port(lo), v);
  }

  /** Whether they end alike is decided by the store they go on to, if there is one. */
  lemma GroupStep(cfg: Config, s: Paged, t: Paged, pc: Address, sw: Byte, v: Byte, bus: Bus)
    returns (s': Paged, t': Paged, lo: Byte)
    requires cfg.Valid() && InGroup(s, t, pc, sw) && HoldsBack(sw, CodeAt(s.image, pc))
    ensures Rank(lo) < Rank(sw) && pc <= 0xFFFC && InGroup(s', t', pc + 3, lo)
    ensures Alike(cfg, s', t', pc + 3, lo, v, bus) ==> Alike(cfg, s, t, pc, sw, v, bus)
  {
    lo := CodeAt(s.image, pc).value.lo;
    var held, prompt := Switch(cfg, true, s, pc, sw), Switch(cfg, false, t, pc, sw);
    var u, w := FetchOp(cfg, true, held, pc, bus).0, FetchOp(cfg, false, prompt, pc, bus).0;
    s', t' := Touched(u, Port(lo), v), Touched(w, Port(lo), v);
    BothFetch(cfg, s, t, pc, sw, lo, bus);
    NextInGroup(s, t, pc, sw, lo, u, w, v);
    GroupGoesOn(cfg, true, s, held, pc, sw, lo, v, bus);
    GroupGoesOn(cfg, false, t, prompt, pc, sw, lo, v, bus);
  }

  lemma {:induction false} BothGoOn(cfg: Config, s: Paged, t: Paged, pc: Address, sw: Byte, v: Byte, bus: Bus)
    requires cfg.Valid() && InGroup(s, t, pc, sw) && HoldsBack(sw, CodeAt(s.image, pc))
    ensures Alike(cfg, s, t, pc, sw, v, bus)
    decreases Rank(sw), 0
  {
    var s', t', lo := GroupStep(cfg, s, t, pc, sw, v, bus);
    HeldCatchesUp(cfg, s', t', pc + 3, lo, v, bus);
  }

  /**
   Holding back is invisible: live image, stores, dirty marks and control state
   all end as if every switch had been applied at once, provided the stores that
   follow lie where fetching them is safe.
   */
  lemma HeldBackIsInvisible(cfg: Config, s: Paged, pc: Address, sw: Byte, v: Byte, bus: Bus)
    requires Inv(cfg, s) && !s.ctl.changing
    requires CardSwitch(sw) ==> SafeAfterCard(pc)
    requires sw == 0x04 || sw == 0x05 ==> SafeAfterAuxWrite(pc)
    ensures GroupRun(cfg, true, s, pc, sw, v, bus) == GroupRun(cfg, false, s, pc, sw, v, bus)
  {
    if 0x02 <= sw <= 0x05 || CardSwitch(sw) {
      SettledIsLevel(s);
      HeldCatchesUp(cfg, s, s, pc, sw, v, bus);
    }
  }
}
