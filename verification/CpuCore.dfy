/**
 Registers, status flags, stack and interrupt entry of the 6502 core. While
 instructions run, four flags live unpacked beside the registers and are packed
 into the status byte after each of them.
 */
module CpuCore {

  const AF_SIGN: bv8 := 0x80
  const AF_OVERFLOW: bv8 := 0x40
  const AF_RESERVED: bv8 := 0x20
  const AF_BREAK: bv8 := 0x10
  const AF_DECIMAL: bv8 := 0x08
  const AF_INTERRUPT: bv8 := 0x04
  const AF_ZERO: bv8 := 0x02
  const AF_CARRY: bv8 := 0x01

  const NMI_VECTOR := 0xFFFA
  const IRQ_VECTOR := 0xFFFE

  const STACK_BEGIN := 0x100
  const STACK_END := 0x1FF

  /** Every run of pushes and pops keeps SP within page 1. */
  type StackAddr = a: nat | STACK_BEGIN <= a <= STACK_END witness STACK_BEGIN

  /** `sp` is the full address of the next free stack byte. */
  datatype Regs = Regs(a: bv8, x: bv8, y: bv8, ps: bv8, pc: bv16, sp: StackAddr)

  datatype RawFlags = RawFlags(c: bv8, n: bv8, v: bv8, z: bv8)

  /** Carry and sign are stored as their exact bits; overflow and zero count as set when nonzero. */
  type Flags = f: RawFlags | (f.c == 0 || f.c == 1) && (f.n == 0 || f.n == 0x80)
    witness RawFlags(0, 0, 0, 0)

  type Memory = m: seq<bv8> | |m| == 0x10000 witness seq(0x10000, i => 0)

  datatype Core = Core(regs: Regs, flags: Flags, mem: Memory, nmiFlank: bool, irq: bool)

  // ---------------------------------------------------------------- flags

  function PackPs(ps: bv8, f: Flags): bv8 {
    (ps & !(AF_CARRY | AF_SIGN | AF_OVERFLOW | AF_ZERO)) | f.c | f.n
    | (if f.v != 0 then AF_OVERFLOW else 0) | (if f.z != 0 then AF_ZERO else 0)
    | AF_RESERVED | AF_BREAK
  }

  function UnpackPs(ps: bv8): Flags {
    BitsInPlace(ps);
    RawFlags(ps & AF_CARRY, ps & AF_SIGN, ps & AF_OVERFLOW, ps & AF_ZERO)
  }

  lemma BitsInPlace(ps: bv8)
    ensures ps & AF_CARRY == 0 || ps & AF_CARRY == 1
    ensures ps & AF_SIGN == 0 || ps & AF_SIGN == 0x80
  {
  }

  /** Flags no instruction can tell apart. */
  predicate SameFlags(f: Flags, g: Flags) {
    f.c == g.c && f.n == g.n && (f.v != 0 <==> g.v != 0) && (f.z != 0 <==> g.z != 0)
  }

  /** Packing loses nothing but the spelling of overflow and zero. */
  lemma UnpackAfterPack(ps: bv8, f: Flags)
    ensures SameFlags(UnpackPs(PackPs(ps, f)), f)
  {
    BitsInPlace(PackPs(ps, f));
  }

  lemma PackAfterUnpack(ps: bv8)
    ensures PackPs(ps, UnpackPs(ps)) == ps | AF_RESERVED | AF_BREAK
  {
    BitsInPlace(ps);
  }

  lemma PackTwice(ps: bv8, f: Flags, g: Flags)
    requires SameFlags(f, g)
    ensures PackPs(ps, f) == PackPs(ps, g)
    ensures PackPs(PackPs(ps, f), g) == PackPs(ps, f)
  {
  }

  // ---------------------------------------------------------------- stack

  predicate OnStack(a: nat) {
    STACK_BEGIN <= a <= STACK_END
  }

  /** SP after a push, and after a pop: within page 1, around its ends. */
  function PushAt(sp: StackAddr): (a: StackAddr)
  {
    if sp - 1 < STACK_BEGIN then STACK_END else sp - 1
  }

  function PopAt(sp: StackAddr): (a: StackAddr)
  {
    if sp >= STACK_END then STACK_BEGIN else sp + 1
  }

  function Push(c: Core, b: bv8): (r: Core)
  {
    c.(mem := c.mem[c.regs.sp := b], regs := c.regs.(sp := PushAt(c.regs.sp)))
  }

  /** The core after a pop, and the byte it returns. */
  function Pop(c: Core): (r: (Core, bv8))
  {
    var sp := PopAt(c.regs.sp);
    (c.(regs := c.regs.(sp := sp)), c.mem[sp])
  }

  /** SP after `n` pops. */
  function Up(sp: StackAddr, n: nat): (a: StackAddr)
    decreases n
  {
    if n == 0 then sp else Up(PopAt(sp), n - 1)
  }

  /** The `n` bytes pushed last, the newest first. */
  function Top(mem: Memory, sp: StackAddr, n: nat): (s: seq<bv8>)
    ensures |s| == n
    decreases n
  {
    if n == 0 then [] else [mem[PopAt(sp)]] + Top(mem, PopAt(sp), n - 1)
  }

  function Stacked(c: Core, n: nat): (s: seq<bv8>)
    ensures |s| == n
  {
    Top(c.mem, c.regs.sp, n)
  }

  lemma {:induction false} UpValue(sp: StackAddr, n: nat)
    requires n <= 0x100
    ensures Up(sp, n) == if sp + n <= STACK_END then sp + n else sp + n - 0x100
    decreases n
  {
    if n > 0 {
      UpValue(PopAt(sp), n - 1);
    }
  }

  /** A store elsewhere does not show in the top of the stack. */
  lemma {:induction false} TopUnaffected(mem: Memory, sp: StackAddr, n: nat, at: nat, b: bv8)
    requires at < 0x10000
    requires forall i | 1 <= i <= n :: Up(sp, i) != at
    ensures Top(mem[at := b], sp, n) == Top(mem, sp, n)
    decreases n
  {
    if n > 0 {
      assert Up(sp, 1) == PopAt(sp);
      forall i | 1 <= i <= n - 1 ensures Up(PopAt(sp), i) != at {
        assert Up(sp, i + 1) == Up(PopAt(sp), i);
      }
      TopUnaffected(mem, PopAt(sp), n - 1, at, b);
    }
  }

  /** A push puts its byte on top of up to 255 others. */
  lemma PushOnTop(c: Core, b: bv8, below: nat)
    requires below < 0x100
    ensures Stacked(Push(c, b), below + 1) == [b] + Stacked(c, below)
  {
    var sp := c.regs.sp;
    forall i | 1 <= i <= below ensures Up(sp, i) != sp {
      UpValue(sp, i);
    }
    TopUnaffected(c.mem, sp, below, sp, b);
    assert PopAt(PushAt(sp)) == sp;
  }

  lemma {:induction false} TopSplits(mem: Memory, sp: StackAddr, n: nat, k: nat)
    requires k <= n
    ensures Top(mem, sp, n) == Top(mem, sp, k) + Top(mem, Up(sp, k), n - k)
    decreases k
  {
    if k > 0 {
      TopSplits(mem, PopAt(sp), n - 1, k - 1);
    }
  }

  function PushAll(c: Core, bytes: seq<bv8>): (r: Core)
    decreases |bytes|
  {
    if bytes == [] then c else PushAll(Push(c, bytes[0]), bytes[1..])
  }

  function PopAll(c: Core, n: nat): (r: (Core, seq<bv8>))
    decreases n
  {
    if n == 0 then (c, [])
    else
      var (d, b) := Pop(c);
      var (e, rest) := PopAll(d, n - 1);
      (e, [b] + rest)
  }

  function Reversed<T>(s: seq<T>): (r: seq<T>)
    ensures |r| == |s|
  {
    if s == [] then [] else Reversed(s[1..]) + [s[0]]
  }

  /** Pushes put their bytes on top and leave what was there below them, up to a full page. */
  lemma {:induction false} PushedOnTop(c: Core, bytes: seq<bv8>, below: nat)
    requires |bytes| + below <= 0x100
    ensures Stacked(PushAll(c, bytes), |bytes| + below) == Reversed(bytes) + Stacked(c, below)
    decreases |bytes|
  {
    if bytes != [] {
      PushedOnTop(Push(c, bytes[0]), bytes[1..], below + 1);
      PushOnTop(c, bytes[0], below);
    }
  }

  lemma {:induction false} PushAllKeeps(c: Core, bytes: seq<bv8>, k: nat)
    ensures var d := PushAll(c, bytes);
            && d == c.(mem := d.mem, regs := c.regs.(sp := d.regs.sp))
            && Up(d.regs.sp, |bytes| + k) == Up(c.regs.sp, k)
    decreases |bytes|
  {
    if bytes != [] {
      PushAllKeeps(Push(c, bytes[0]), bytes[1..], k + 1);
      assert PopAt(PushAt(c.regs.sp)) == c.regs.sp;
    }
  }

  /** Pops return the top of the stack in order and change no byte. */
  lemma {:induction false} PopsReturnTop(c: Core, n: nat)
    ensures PopAll(c, n) == (c.(regs := c.regs.(sp := Up(c.regs.sp, n))), Stacked(c, n))
    decreases n
  {
    if n > 0 {
      PopsReturnTop(Pop(c).0, n - 1);
    }
  }

  /** Last in, first out, across the wrap, for as many bytes as the page holds. */
  lemma LastInFirstOut(c: Core, bytes: seq<bv8>)
    requires |bytes| <= 0x100
    ensures PopAll(PushAll(c, bytes), |bytes|).1 == Reversed(bytes)
    ensures PopAll(PushAll(c, bytes), |bytes|).0.regs == c.regs
  {
    PushedOnTop(c, bytes, 0);
    PushAllKeeps(c, bytes, 0);
    PopsReturnTop(PushAll(c, bytes), |bytes|);
  }

  /** One byte more and the first is lost: the last comes back twice. */
  lemma PageOverflows(c: Core, first: bv8, rest: seq<bv8>)
    requires |rest| == 0x100
    ensures PopAll(PushAll(c, [first] + rest), |rest| + 1).1 == Reversed(rest) + [rest[|rest| - 1]]
  {
    var d, n := Push(c, first), |rest|;
    var e := PushAll(d, rest);
    assert ([first] + rest)[1..] == rest;
    PopsReturnTop(e, n + 1);
    PushedOnTop(d, rest, 0);
    OneMore(e, n);
    LastIsFirst(rest);
  }

  /** A page up from SP is SP itself. */
  lemma OneMore(c: Core, n: nat)
    requires n == 0x100
    ensures Stacked(c, n + 1) == Stacked(c, n) + [Stacked(c, n)[0]]
  {
    TopSplits(c.mem, c.regs.sp, n + 1, n);
    UpValue(c.regs.sp, n);
    TopHead(c, n);
    TopHead(c, 1);
  }

  lemma TopHead(c: Core, n: nat)
    requires n > 0
    ensures Stacked(c, n)[0] == c.mem[PopAt(c.regs.sp)]
  {
  }

  lemma {:induction false} LastIsFirst<T>(s: seq<T>)
    requires s != []
    ensures Reversed(s)[0] == s[|s| - 1]
  {
    if |s| > 1 {
      LastIsFirst(s[1..]);
    }
  }
}
