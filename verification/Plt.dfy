/** Procedure linkage: stubs, GOT slots and relocations that must stay in step, for the four targets. */
module Plt {

  const TWO16 := 0x1_0000
  const TWO32 := 0x1_0000_0000
  const TWO64 := 0x1_0000_0000_0000_0000

  type Byte = b: int | 0 <= b < 256
  type Half = h: int | 0 <= h < TWO16
  type Word = w: int | 0 <= w < TWO32

  datatype Option<+T> = None | Some(value: T)

  // ------------------------------------------------------------------
  // Little-endian stores and loads
  // ------------------------------------------------------------------

  function Get16(b: seq<Byte>, o: nat): Half
    requires o + 2 <= |b|
  {
    var lo: int, hi: int := b[o], b[o + 1];
    lo + 256 * hi
  }

  function Get32(b: seq<Byte>, o: nat): Word
    requires o + 4 <= |b|
  {
    Get16(b, o) + TWO16 * Get16(b, o + 2)
  }

  function Put16(b: seq<Byte>, o: nat, h: Half): (r: seq<Byte>)
    requires o + 2 <= |b|
    ensures |r| == |b| && Get16(r, o) == h && forall k :: 0 <= k < |b| && k != o && k != o + 1 ==> r[k] == b[k]
  {
    b[o := h % 256][o + 1 := h / 256]
  }

  function Put32(b: seq<Byte>, o: nat, w: Word): (r: seq<Byte>)
    requires o + 4 <= |b|
    ensures |r| == |b| && Get32(r, o) == w && forall k :: 0 <= k < |b| && !(o <= k < o + 4) ==> r[k] == b[k]
  {
    Put16(Put16(b, o, w % TWO16), o + 2, w / TWO16)
  }

  function Signed32(w: Word): int { if w < TWO32 / 2 then w else w - TWO32 }

  function Signed16(h: Half): int { if h < TWO16 / 2 then h else h - TWO16 }

  // ------------------------------------------------------------------
  // Targets
  // ------------------------------------------------------------------

  datatype Arch = X86 | X64 | Arm | Mips
  {
    /** Bytes of a PLT entry and of a GOT slot, and the slots at the start of .got.plt that are reserved. */
    function Entry(): nat { if Mips? then 32 else 16 }
    function Slot(): nat { if X64? then 8 else 4 }
    function Reserved(): nat { if Mips? then 2 else 3 }
    function Space(): nat { if X64? then TWO64 else TWO32 }

    function Plt0Template(): (t: seq<Byte>)
      ensures |t| == Entry()
    {
      match this
      case X86 => [0xff, 0x35, 0, 0, 0, 0, 0xff, 0x25, 0, 0, 0, 0, 0x90, 0x90, 0x90, 0x90]
      case X64 => [0xff, 0x35, 0, 0, 0, 0, 0xff, 0x25, 0, 0, 0, 0, 0x90, 0x90, 0x90, 0x90]
      case Arm => [0x04, 0xe0, 0x2d, 0xe5, 0x00, 0xe0, 0x9f, 0xe5, 0x00, 0xf0, 0x9e, 0xe5, 0, 0, 0, 0]
      case Mips => [0, 0, 0x1c, 0x3c, 0, 0, 0x99, 0x8f, 0, 0, 0x9c, 0x27, 0x23, 0xc0, 0x1c, 0x03,
                    0x21, 0x78, 0xe0, 0x03, 0x82, 0xc0, 0x18, 0x00, 0x09, 0xf8, 0x20, 0x03, 0xfe, 0xff, 0x18, 0x27]
    }

    function PltnTemplate(): (t: seq<Byte>)
      ensures |t| == Entry()
    {
      match this
      case X86 => [0xff, 0x25, 0, 0, 0, 0, 0x68, 0, 0, 0, 0, 0xe9, 0, 0, 0, 0]
      case X64 => [0xff, 0x25, 0, 0, 0, 0, 0x68, 0, 0, 0, 0, 0xe9, 0, 0, 0, 0]
      case Arm => [0x00, 0xc0, 0x9f, 0xe5, 0x00, 0xf0, 0x9c, 0xe5, 0, 0, 0, 0, 0, 0, 0xa0, 0xe1]
      case Mips => [0, 0, 0x0f, 0x3c, 0, 0, 0xf9, 0x8d, 0x08, 0x00, 0x20, 0x03, 0, 0, 0xf8, 0x25,
                    0, 0, 0, 0, 0, 0, 0, 0, 0, 0, 0, 0, 0, 0, 0, 0]
    }
  }

  /** The upper half of a MIPS address, with the carry for a lower half that counts as negative. */
  function High(a: Word): Half {
    (a / TWO16 + if a % TWO16 >= TWO16 / 2 then 1 else 0) % TWO16
  }

  /** lui and a signed 16-bit offset make the address again. */
  lemma HighLow(a: Word)
    ensures (High(a) * TWO16 + Signed16(a % TWO16)) % TWO32 == a
  {
    var h, l := a / TWO16, a % TWO16;
    assert a == h * TWO16 + l;
    if l >= TWO16 / 2 && h == TWO16 - 1 {
      assert High(a) == 0;
    }
  }

  // ------------------------------------------------------------------
  // Stubs
  // ------------------------------------------------------------------

  /** PLT0, for .plt at plt and .got.plt at got. */
  function Plt0(arch: Arch, plt: nat, got: nat): (r: seq<Byte>)
    ensures |r| == arch.Entry()
  {
    var t := arch.Plt0Template();
    match arch
    case X86 => Put32(Put32(t, 2, (got + 4) % TWO32), 8, (got + 8) % TWO32)
    case X64 => Put32(Put32(t, 2, (got - (plt + 6) + 8) % TWO32), 8, (got - (plt + 12) + 16) % TWO32)
    case Arm => Put32(t, 12, (got + 8) % TWO32)
    case Mips =>
      var g := got % TWO32;
      Put16(Put16(Put16(t, 0, High(g)), 4, g % TWO16), 8, g % TWO16)
  }

  /** The stub at addr for the GOT slot at slot and relocation number k. */
  function Stub(arch: Arch, plt: nat, addr: nat, slot: nat, k: nat): (r: seq<Byte>)
    ensures |r| == arch.Entry()
  {
    var t := arch.PltnTemplate();
    match arch
    case X86 => Put32(Put32(Put32(t, 2, slot % TWO32), 7, 8 * k % TWO32), 12, (plt - (addr + 16)) % TWO32)
    case X64 => Put32(Put32(Put32(t, 2, (slot - (addr + 6)) % TWO32), 7, k % TWO32), 12, (plt - (addr + 16)) % TWO32)
    case Arm => Put32(t, 8, slot % TWO32)
    case Mips =>
      var s := slot % TWO32;
      Put16(Put16(Put16(t, 0, High(s)), 4, s % TWO16), 12, s % TWO16)
  }

  /** What the processor makes of a stub: the slot it jumps through, the relocation it names, and where PLT0 is. */
  datatype Decoded = Decoded(slot: nat, reloc: Option<nat>, plt0: Option<nat>)

  /** The stub at addr, read as the target's instructions; nothing if they are not the ones expected. */
  function Decode(arch: Arch, b: seq<Byte>, addr: nat): Option<Decoded>
    requires |b| == arch.Entry()
  {
    match arch
    case X86 =>
      // jmp [imm32]; push imm32; jmp rel32
      if b[0] == 0xff && b[1] == 0x25 && b[6] == 0x68 && b[11] == 0xe9
      then Some(Decoded(Get32(b, 2), Some(Get32(b, 7) / 8), Some((addr + 16 + Get32(b, 12)) % TWO32)))
      else None
    case X64 =>
      // jmp [rip + disp32]; push imm32; jmp rel32
      if b[0] == 0xff && b[1] == 0x25 && b[6] == 0x68 && b[11] == 0xe9
      then Some(Decoded((addr + 6 + Signed32(Get32(b, 2))) % TWO64, Some(Get32(b, 7)),
          Some((addr + 16 + Signed32(Get32(b, 12))) % TWO64)))
      else None
    case Arm =>
      // ldr ip, [pc]; ldr pc, [ip]: the pc is eight bytes ahead
      if Get32(b, 0) == 0xe59f_c000 && Get32(b, 4) == 0xe59c_f000
      then Some(Decoded(Get32(b, 0 + 8), None, None))
      else None
    case Mips =>
      // lui t7, hi; lw t9, lo(t7); jr t9; addiu t8, t7, lo
      var a := (Get16(b, 0) * TWO16 + Signed16(Get16(b, 4))) % TWO32;
      var t8 := (Get16(b, 0) * TWO16 + Signed16(Get16(b, 12))) % TWO32;
      if Get16(b, 2) == 0x3c0f && Get16(b, 6) == 0x8df9 && Get32(b, 8) == 0x0320_0008 && Get16(b, 14) == 0x25f8
          && a == t8
      then Some(Decoded(a, None, None))
      else None
  }

  /** The slot is within reach of a 32-bit displacement. */
  predicate Near(slot: int, addr: int) { -(TWO32 / 2) <= slot - (addr + 6) < TWO32 / 2 }

  /** Words that lie apart do not disturb each other. */
  lemma Undisturbed(b: seq<Byte>, o: nat, w: Word, p: nat)
    requires o + 4 <= |b| && p + 4 <= |b| && (p + 4 <= o || o + 4 <= p)
    ensures Get32(Put32(b, o, w), p) == Get32(b, p)
  {
    var c := Put32(b, o, w);
    assert c[p] == b[p] && c[p + 1] == b[p + 1] && c[p + 2] == b[p + 2] && c[p + 3] == b[p + 3];
  }

  lemma Wraps(target: int, next: int)
    requires 0 <= target < TWO32
    ensures (next + (target - next) % TWO32) % TWO32 == target
  {
  }

  lemma DecodeX86(plt: nat, addr: nat, slot: nat, k: nat)
    requires plt < TWO32 && slot < TWO32 && 8 * k < TWO32 && addr < TWO32
    ensures Decode(X86, Stub(X86, plt, addr, slot, k), addr) == Some(Decoded(slot, Some(k), Some(plt)))
  {
    hide Get32, Put32;
    var t := X86.PltnTemplate();
    var d := (plt - (addr + 16)) % TWO32;
    var b1 := Put32(t, 2, slot);
    var b2 := Put32(b1, 7, 8 * k);
    Undisturbed(b1, 7, 8 * k, 2);
    Undisturbed(b2, 12, d, 2);
    Undisturbed(b2, 12, d, 7);
    Wraps(plt, addr + 16);
  }

  /** On x86-64 the operands are displacements: the slot is found exactly if it is near enough. */
  lemma DecodeX64(plt: nat, addr: nat, slot: nat, k: nat)
    requires plt < TWO64 && slot < TWO64 && k < TWO32 && addr < TWO64 && plt <= addr < plt + TWO32 / 2 - 16
    ensures Decode(X64, Stub(X64, plt, addr, slot, k), addr).Some?
    ensures var d := Decode(X64, Stub(X64, plt, addr, slot, k), addr).value;
      && d.reloc == Some(k) && d.plt0 == Some(plt) && (Near(slot, addr) ==> d.slot == slot)
      && d.slot == (addr + 6 + Signed32((slot - (addr + 6)) % TWO32)) % TWO64
  {
    hide Get32, Put32;
    var t := X64.PltnTemplate();
    var d1, d3 := (slot - (addr + 6)) % TWO32, (plt - (addr + 16)) % TWO32;
    var b1 := Put32(t, 2, d1);
    var b2 := Put32(b1, 7, k);
    Undisturbed(b1, 7, k, 2);
    Undisturbed(b2, 12, d3, 2);
    Undisturbed(b2, 12, d3, 7);
    SignedBack(plt - (addr + 16));
    if Near(slot, addr) {
      SignedBack(slot - (addr + 6));
    }
  }

  lemma SignedBack(x: int)
    requires -(TWO32 / 2) <= x < TWO32 / 2
    ensures Signed32(x % TWO32) == x
  {
  }

  /** Too far away, the displacement leads elsewhere, unless the address space wraps around. */
  lemma FarSlotMissed(plt: nat, addr: nat, slot: nat, k: nat)
    requires plt < TWO64 && k < TWO32 && plt <= addr < plt + TWO32 / 2 - 16
    requires slot < TWO64 / 2 && addr < TWO64 / 2 && !Near(slot, addr)
    ensures Decode(X64, Stub(X64, plt, addr, slot, k), addr).Some?
    ensures Decode(X64, Stub(X64, plt, addr, slot, k), addr).value.slot != slot
  {
    hide Decode, Stub, Near;
    DecodeX64(plt, addr, slot, k);
    FarAway(addr + 6, slot, Signed32((slot - (addr + 6)) % TWO32));
  }

  lemma FarAway(next: nat, slot: nat, d: int)
    requires slot < TWO64 / 2 && next < TWO64 / 2 + 6 && -(TWO32 / 2) <= d < TWO32 / 2 && !Near(slot, next - 6)
    ensures (next + d) % TWO64 != slot
  {
    if next + d < 0 {
      assert (next + d) % TWO64 == next + d + TWO64;
    } else {
      assert (next + d) % TWO64 == next + d;
    }
  }

  lemma DecodeArm(plt: nat, addr: nat, slot: nat, k: nat)
    requires slot < TWO32
    ensures Decode(Arm, Stub(Arm, plt, addr, slot, k), addr) == Some(Decoded(slot, None, None))
  {
    ArmTemplate();
    hide Get32, Put32;
    var t := Arm.PltnTemplate();
    Undisturbed(t, 8, slot, 0);
    Undisturbed(t, 8, slot, 4);
  }

  lemma ArmTemplate()
    ensures var t := Arm.PltnTemplate(); Get32(t, 0) == 0xe59f_c000 && Get32(t, 4) == 0xe59c_f000
  {
  }

  lemma DecodeMips(plt: nat, addr: nat, slot: nat, k: nat)
    requires slot < TWO32
    ensures Decode(Mips, Stub(Mips, plt, addr, slot, k), addr) == Some(Decoded(slot, None, None))
  {
    HighLow(slot);
    MipsStub(plt, addr, slot, k);
    hide Stub, High, Signed16, Get16, Put16, Get32;
  }

  /** The instructions of a MIPS stub. */
  lemma MipsStub(plt: nat, addr: nat, slot: nat, k: nat)
    requires slot < TWO32
    ensures var b := Stub(Mips, plt, addr, slot, k);
      && Get16(b, 0) == High(slot) && Get16(b, 4) == Get16(b, 12) == slot % TWO16
      && Get16(b, 2) == 0x3c0f && Get16(b, 6) == 0x8df9 && Get32(b, 8) == 0x0320_0008 && Get16(b, 14) == 0x25f8
  {
    MipsTemplate();
    hide High, Get16, Put16, Get32, Arch.PltnTemplate;
    var t := Mips.PltnTemplate();
    var h, lo := High(slot), slot % TWO16;
    var b1 := Put16(t, 0, h);
    var b2 := Put16(b1, 4, lo);
    Undisturbed16(b1, 4, lo, 0);
    Undisturbed16(b2, 12, lo, 0);
    Undisturbed16(b2, 12, lo, 4);
    Untouched(t, h, lo, 2);
    Untouched(t, h, lo, 6);
    Untouched(t, h, lo, 8);
    Untouched(t, h, lo, 10);
    Untouched(t, h, lo, 14);
    Get32Halves(Put16(b2, 12, lo), 8);
    Get32Halves(t, 8);
  }

  lemma Get32Halves(b: seq<Byte>, o: nat)
    requires o + 4 <= |b|
    ensures Get32(b, o) == Get16(b, o) + TWO16 * Get16(b, o + 2)
  {
  }

  lemma Undisturbed16(b: seq<Byte>, o: nat, h: Half, p: nat)
    requires o + 2 <= |b| && p + 2 <= |b| && (p + 2 <= o || o + 2 <= p)
    ensures Get16(Put16(b, o, h), p) == Get16(b, p)
  {
    assert Put16(b, o, h)[p] == b[p] && Put16(b, o, h)[p + 1] == b[p + 1];
  }

  /** A half of the template that none of the three operands covers. */
  lemma Untouched(t: seq<Byte>, h: Half, lo: Half, p: nat)
    requires |t| == 32 && p + 2 <= 32 && (p == 2 || p == 6 || p == 8 || p == 10 || p == 14)
    ensures Get16(Put16(Put16(Put16(t, 0, h), 4, lo), 12, lo), p) == Get16(t, p)
  {
    hide Get16, Put16;
    Undisturbed16(t, 0, h, p);
    Undisturbed16(Put16(t, 0, h), 4, lo, p);
    Undisturbed16(Put16(Put16(t, 0, h), 4, lo), 12, lo, p);
  }

  lemma MipsTemplate()
    ensures var t := Mips.PltnTemplate();
      Get16(t, 2) == 0x3c0f && Get16(t, 6) == 0x8df9 && Get32(t, 8) == 0x0320_0008 && Get16(t, 14) == 0x25f8
  {
  }

  // ------------------------------------------------------------------
  // PLT0
  // ------------------------------------------------------------------

  /** What the processor makes of PLT0, entered from the stub of a slot: the word pushed for the dynamic linker, the
      word
      its address is read from, and the relocation number computed. */
  datatype Resolver = Resolver(pushed: Option<nat>, through: nat, reloc: Option<int>)

  /** PLT0 at plt, read as the target's instructions; nothing if they are not the ones expected. */
  function Enter(arch: Arch, b: seq<Byte>, plt: nat, slot: nat): Option<Resolver>
    requires |b| == arch.Entry()
  {
    match arch
    case X86 =>
      // push [imm32]; jmp [imm32]
      if b[0] == 0xff && b[1] == 0x35 && b[6] == 0xff && b[7] == 0x25
      then Some(Resolver(Some(Get32(b, 2)), Get32(b, 8), None))
      else None
    case X64 =>
      // push [rip + disp32]; jmp [rip + disp32]
      if b[0] == 0xff && b[1] == 0x35 && b[6] == 0xff && b[7] == 0x25
      then Some(Resolver(Some((plt + 6 + Signed32(Get32(b, 2))) % TWO64), (plt + 12 + Signed32(Get32(b, 8))) % TWO64,
          None))
      else None
    case Arm =>
      // push {lr}; ldr lr, [pc]; ldr pc, [lr]
      if Get32(b, 0) == 0xe52d_e004 && Get32(b, 4) == 0xe59f_e000 && Get32(b, 8) == 0xe59e_f000
      then Some(Resolver(None, Get32(b, 12), None))
      else None
    case Mips =>
      // lui gp, hi; lw t9, lo(gp); addiu gp, gp, lo; t8 := t8 - gp; t7 := ra; t8 := t8 >> 2; jalr t9; t8 := t8 - 2
      var gp := (Get16(b, 0) * TWO16 + Signed16(Get16(b, 8))) % TWO32;
      if Get16(b, 2) == 0x3c1c && Get16(b, 6) == 0x8f99 && Get16(b, 10) == 0x279c && b[12..] == MIPS_TAIL
      then Some(Resolver(None, (Get16(b, 0) * TWO16 + Signed16(Get16(b, 4))) % TWO32,
          Some((slot - gp) % TWO32 / 4 - 2)))
      else None
  }

  const MIPS_TAIL: seq<Byte> := [0x23, 0xc0, 0x1c, 0x03, 0x21, 0x78, 0xe0, 0x03, 0x82, 0xc0, 0x18, 0x00, 0x09, 0xf8,
      0x20, 0x03,
                                 0xfe, 0xff, 0x18, 0x27]

  lemma EnterX86(plt: nat, got: nat, slot: nat)
    requires got + 8 < TWO32
    ensures Enter(X86, Plt0(X86, plt, got), plt, slot) == Some(Resolver(Some(got + 4), got + 8, None))
  {
    hide Get32, Put32;
    Undisturbed(Put32(X86.Plt0Template(), 2, got + 4), 8, got + 8, 2);
  }

  lemma EnterX64(plt: nat, got: nat, slot: nat)
    requires plt < TWO64 && got + 16 < TWO64 && Near(got + 8, plt) && Near(got + 16, plt + 6)
    ensures Enter(X64, Plt0(X64, plt, got), plt, slot) == Some(Resolver(Some(got + 8), got + 16, None))
  {
    hide Get32, Put32;
    var d1, d2 := (got - (plt + 6) + 8) % TWO32, (got - (plt + 12) + 16) % TWO32;
    Undisturbed(Put32(X64.Plt0Template(), 2, d1), 8, d2, 2);
    SignedBack(got - (plt + 6) + 8);
    SignedBack(got - (plt + 12) + 16);
  }

  lemma EnterArm(plt: nat, got: nat, slot: nat)
    requires got + 8 < TWO32
    ensures Enter(Arm, Plt0(Arm, plt, got), plt, slot) == Some(Resolver(None, got + 8, None))
  {
    ArmPlt0Template();
    hide Get32, Put32;
    var t := Arm.Plt0Template();
    Undisturbed(t, 12, got + 8, 0);
    Undisturbed(t, 12, got + 8, 4);
    Undisturbed(t, 12, got + 8, 8);
  }

  lemma ArmPlt0Template()
    ensures var t := Arm.Plt0Template();
      Get32(t, 0) == 0xe52d_e004 && Get32(t, 4) == 0xe59f_e000 && Get32(t, 8) == 0xe59e_f000
  {
  }

  /** The instructions of the MIPS PLT0. */
  lemma MipsPlt0(plt: nat, got: nat)
    requires got < TWO32
    ensures var b := Plt0(Mips, plt, got);
      && Get16(b, 0) == High(got) && Get16(b, 4) == Get16(b, 8) == got % TWO16
      && Get16(b, 2) == 0x3c1c && Get16(b, 6) == 0x8f99 && Get16(b, 10) == 0x279c && b[12..] == MIPS_TAIL
  {
    MipsPlt0Template();
    hide High, Get16, Put16, Get32, Arch.Plt0Template;
    var t := Mips.Plt0Template();
    var h, lo := High(got), got % TWO16;
    var b1 := Put16(t, 0, h);
    var b2 := Put16(b1, 4, lo);
    var b3 := Put16(b2, 8, lo);
    Undisturbed16(b1, 4, lo, 0);
    Undisturbed16(b2, 8, lo, 0);
    Undisturbed16(b2, 8, lo, 4);
    forall p | p == 2 || p == 6 || p == 10 ensures Get16(b3, p) == Get16(t, p) {
      Undisturbed16(t, 0, h, p);
      Undisturbed16(b1, 4, lo, p);
      Undisturbed16(b2, 8, lo, p);
    }
    assert b3[12..] == t[12..];
  }

  lemma MipsPlt0Template()
    ensures var t := Mips.Plt0Template();
      Get16(t, 2) == 0x3c1c && Get16(t, 6) == 0x8f99 && Get16(t, 10) == 0x279c && t[12..] == MIPS_TAIL
  {
    hide Get16;
    MipsPlt0Heads();
  }

  lemma MipsPlt0Heads()
    ensures var t := Mips.Plt0Template(); Get16(t, 2) == 0x3c1c && Get16(t, 6) == 0x8f99 && Get16(t, 10) == 0x279c
  {
  }

  lemma EnterMips(plt: nat, got: nat, k: nat)
    requires got + 4 * (2 + k) < TWO32
    ensures Enter(Mips, Plt0(Mips, plt, got), plt, got + 4 * (2 + k)) == Some(Resolver(None, got, Some(k)))
  {
    HighLow(got);
    MipsPlt0(plt, got);
    hide Plt0, High, Signed16, Get16, Put16, Get32;
  }

  // ------------------------------------------------------------------
  // The tables
  // ------------------------------------------------------------------

  /** A relocation of .rel.plt: the GOT slot and the dynamic symbol. */
  datatype Rel = Rel(offset: nat, sym: nat)

  /** An entry of the list of functions seen. */
  datatype PltEnt = PltEnt(fname: string, addr: nat)

  /** Where the stub of the k-th function begins in .plt, behind PLT0. */
  function Off(a: Arch, k: nat): nat { a.Entry() * (k + 1) }

  lemma OffSteps(a: Arch, k: nat)
    ensures Off(a, k + 1) == Off(a, k) + a.Entry() && Off(a, 0) == a.Entry() && a.Entry() >= 16
    ensures k > 0 ==> Off(a, k) >= 2 * a.Entry()
  {
  }

  lemma {:induction false} OffGrows(a: Arch, i: nat, j: nat)
    requires i < j
    ensures Off(a, i) + a.Entry() <= Off(a, j)
    decreases j
  {
    OffSteps(a, j - 1);
    if i < j - 1 {
      OffGrows(a, i, j - 1);
    }
  }

  datatype Layout = Layout(arch: Arch, plt: nat, got: nat, dynsym: map<string, nat>)
  {
    /** The address of the stub, and of the GOT slot, of the k-th function. */
    function StubAt(k: nat): nat { plt + Off(arch, k) }
    function SlotAt(k: nat): nat { got + arch.Slot() * (arch.Reserved() + k) }

    function Sym(fname: string): nat { if fname in dynsym then dynsym[fname] else 0 }

    /** The sections for n functions lie in the address space; on x86-64 also close together. */
    predicate Room(n: nat) {
      && StubAt(n) < arch.Space() && SlotAt(n) < arch.Space()
      && (arch.X86? || arch.X64? ==> 8 * n < TWO32)
      && (arch.X64? ==> Off(arch, n + 1) < TWO32 / 2 && forall k :: 0 <= k < n ==> Near(SlotAt(k), StubAt(k)))
      && (arch.X64? ==> Near(got + 8, plt) && Near(got + 16, plt + 6))
    }
  }

  /** Stub k is read by the processor as a jump through slot k that names relocation k and PLT0, as far as the target
      names them. */
  predicate StubOk(l: Layout, plt: seq<Byte>, k: nat) {
    && Off(l.arch, k) + l.arch.Entry() <= |plt|
    && ReadsWell(l, plt[Off(l.arch, k)..Off(l.arch, k) + l.arch.Entry()], k)
  }

  predicate ReadsWell(l: Layout, stub: seq<Byte>, k: nat)
    requires |stub| == l.arch.Entry()
  {
    var d := Decode(l.arch, stub, l.StubAt(k));
    && d.Some? && d.value.slot == l.SlotAt(k)
    && (l.arch.X86? || l.arch.X64? ==> d.value.reloc == Some(k) && d.value.plt0 == Some(l.plt))
  }

  lemma StubDecodes(l: Layout, n: nat, k: nat)
    requires l.Room(n) && k < n
    ensures ReadsWell(l, Stub(l.arch, l.plt, l.StubAt(k), l.SlotAt(k), k), k)
  {
    Before(l, n, k);
    hide Off, Stub, Decode;
    match l.arch
    case X86 => DecodeX86(l.plt, l.StubAt(k), l.SlotAt(k), k);
    case X64 => DecodeX64(l.plt, l.StubAt(k), l.SlotAt(k), k);
    case Arm => DecodeArm(l.plt, l.StubAt(k), l.SlotAt(k), k);
    case Mips => DecodeMips(l.plt, l.StubAt(k), l.SlotAt(k), k);
  }

  lemma Before(l: Layout, n: nat, k: nat)
    requires l.Room(n) && k < n
    ensures l.StubAt(k) < l.StubAt(n) && l.SlotAt(k) < l.SlotAt(n) && l.plt < l.StubAt(k)
    ensures l.arch.X64? ==> Near(l.SlotAt(k), l.StubAt(k)) && l.StubAt(k) < l.plt + TWO32 / 2 - 16
  {
    OffGrows(l.arch, k, n);
    OffSteps(l.arch, n);
    OffSteps(l.arch, k);
  }

  /** The list of the functions seen, the newest first. */
  function ListOf(l: Layout, names: seq<string>): (r: seq<PltEnt>)
    ensures |r| == |names|
  {
    if names == [] then []
    else var n := |names| - 1; [PltEnt(names[n], l.StubAt(n))] + ListOf(l, names[..n])
  }

  ghost predicate NamesDiffer(names: seq<string>) { forall i, j :: 0 <= i < j < |names| ==> names[i] != names[j] }

  /** One stub for each function, behind PLT0. */
  ghost predicate StubsOk(l: Layout, n: nat, plt: seq<Byte>) {
    && |plt| == (if n == 0 then 0 else Off(l.arch, n))
    && (n > 0 ==> l.arch.Entry() <= |plt| && plt[..l.arch.Entry()] == Plt0(l.arch, l.plt, l.got))
    && forall k :: 0 <= k < n ==> StubOk(l, plt, k)
  }

  /** One slot for each function, behind the reserved ones, that leads back to its stub or to PLT0 until it is bound. */
  ghost predicate SlotsOk(l: Layout, n: nat, got: seq<nat>) {
    |got| == l.arch.Reserved() + n && forall k :: 0 <= k < n ==> got[l.arch.Reserved() + k] == Unbound(l, k)
  }

  function Unbound(l: Layout, k: nat): nat { if l.arch.X86? || l.arch.X64? then l.StubAt(k) + 6 else l.plt }

  /** One relocation for each function, for its slot and its symbol. */
  ghost predicate RelsOk(l: Layout, names: seq<string>, rels: seq<Rel>) {
    |rels| == |names| && forall k :: 0 <= k < |names| ==> rels[k] == Rel(l.SlotAt(k), l.Sym(names[k]))
  }

  /** The tables in step. */
  ghost predicate InStep(l: Layout, names: seq<string>, plt: seq<Byte>, got: seq<nat>, rels: seq<Rel>,
      entries: seq<PltEnt>) {
    NamesDiffer(names) && entries == ListOf(l, names) && StubsOk(l, |names|, plt) && SlotsOk(l, |names|, got)
        && RelsOk(l, names, rels)
  }

  /** The bytes of entry k, when others are added behind it. */
  lemma StubStays(l: Layout, plt: seq<Byte>, more: seq<Byte>, k: nat)
    requires StubOk(l, plt, k)
    ensures StubOk(l, plt + more, k)
  {
    hide ReadsWell, Off;
    var o, e := Off(l.arch, k), l.arch.Entry();
    assert (plt + more)[o..o + e] == plt[o..o + e];
  }

  lemma StubAdded(l: Layout, plt: seq<Byte>, n: nat, room: nat)
    requires l.Room(room) && n < room && |plt| == Off(l.arch, n)
    ensures StubOk(l, plt + Stub(l.arch, l.plt, l.StubAt(n), l.SlotAt(n), n), n)
  {
    StubDecodes(l, room, n);
    hide Stub, ReadsWell, Off, Layout.StubAt, Layout.SlotAt;
    var s := Stub(l.arch, l.plt, l.StubAt(n), l.SlotAt(n), n);
    assert (plt + s)[|plt|..|plt| + l.arch.Entry()] == s;
  }

  class Linker {
    const l: Layout
    var plt: seq<Byte>
    var got: seq<nat>
    var rels: seq<Rel>
    var entries: seq<PltEnt>
    /** The functions, in the order of their stubs. */
    ghost var names: seq<string>

    ghost predicate Valid()
      reads this
    {
      InStep(l, names, plt, got, rels, entries)
    }

    constructor (l: Layout, reserved: seq<nat>)
      requires |reserved| == l.arch.Reserved()
      ensures Valid() && this.l == l && names == []
    {
      this.l := l;
      plt, got, rels, entries, names := [], reserved, [], [], [];
    }

    /** `new_gotplt_entry`: a slot with its first contents, and the relocation for it. */
    method NewGotPltEntry(pa: nat, fname: string) returns (ea: nat, k: nat)
      requires |got| == l.arch.Reserved() + |rels|
      modifies this`got, this`rels
      ensures k == |old(rels)| && ea == l.SlotAt(k)
      ensures got == old(got) + [pa] && rels == old(rels) + [Rel(ea, l.Sym(fname))]
    {
      ea := l.got + l.arch.Slot() * |got|;
      got := got + [pa];
      k := |rels|;
      rels := rels + [Rel(ea, l.Sym(fname))];
    }

    /** The search of the list of functions seen. */
    method Find(fname: string) returns (r: Option<nat>)
      requires Valid()
      ensures r.Some? <==> fname in names
      ensures r.Some? ==> exists k :: 0 <= k < |names| && names[k] == fname && r.value == l.StubAt(k)
    {
      hide StubsOk, SlotsOk, RelsOk, NamesDiffer;
      var i := 0;
      assert names[..|names|] == names;
      while i < |entries|
        invariant 0 <= i <= |entries| == |names| && entries[i..] == ListOf(l, names[..|names| - i])
        invariant fname in names <==> fname in names[..|names| - i]
      {
        ghost var k := |names| - i - 1;
        assert names[..k + 1][..k] == names[..k] && names[..k + 1] == names[..k] + [names[k]];
        assert entries[i] == entries[i..][0] && entries[i + 1..] == entries[i..][1..];
        if entries[i].fname == fname {
          return Some(entries[i].addr);
        }
        i := i + 1;
      }
      return None;
    }

    /**
     * `get_plt_entry`: the address of the function's stub. A function seen for the first time gets a stub, a slot and a
     * relocation, one of each.
     */
    method GetPltEntry(fname: string) returns (addr: nat)
      requires Valid() && l.Room(|names| + 1)
      modifies this
      ensures Valid()
      ensures names == if fname in old(names) then old(names) else old(names) + [fname]
      ensures exists k :: 0 <= k < |names| && names[k] == fname && addr == l.StubAt(k)
      ensures fname in old(names) ==> plt == old(plt) && got == old(got) && rels == old(rels)
    {
      var r := Find(fname);
      if r.Some? {
        return r.value;
      }
      addr := AddEntry(fname);
    }

    method AddEntry(fname: string) returns (addr: nat)
      requires Valid() && l.Room(|names| + 1) && fname !in names
      modifies this
      ensures Valid() && names == old(names) + [fname] && addr == l.StubAt(|old(names)|)
    {
      hide InStep, Stub, Plt0, Layout.Room, Arch.Entry, Arch.Reserved, Arch.Slot, Layout.StubAt, Layout.SlotAt,
          Layout.Sym,
        Off, Get16, Get32, Put16, Put32, Decode, StubOk, ReadsWell, ListOf, Arch.Plt0Template, Arch.PltnTemplate;
      Next(l, names, plt, got, rels, entries, fname);
      if entries == [] {
        plt := plt + Plt0(l.arch, l.plt, l.got);
      }
      addr := l.plt + |plt|;
      var slot, k := NewGotPltEntry(if l.arch.X86? || l.arch.X64? then addr + 6 else l.plt, fname);
      plt := plt + Stub(l.arch, l.plt, addr, slot, k);
      entries := [PltEnt(fname, addr)] + entries;
      names := names + [fname];
    }
  }

  /** All tables one function further. */
  lemma Next(l: Layout, names: seq<string>, plt: seq<Byte>, got: seq<nat>, rels: seq<Rel>, entries: seq<PltEnt>,
      fname: string)
    requires InStep(l, names, plt, got, rels, entries) && fname !in names && l.Room(|names| + 1)
    ensures var n := |names|;
      var before := if entries == [] then plt + Plt0(l.arch, l.plt, l.got) else plt;
      && |got| == l.arch.Reserved() + n && |rels| == n && l.plt + |before| == l.StubAt(n)
      && InStep(l, names + [fname], before + Stub(l.arch, l.plt, l.StubAt(n), l.SlotAt(n), n), got + [Unbound(l, n)],
                rels + [Rel(l.SlotAt(n), l.Sym(fname))], [PltEnt(fname, l.StubAt(n))] + entries)
  {
    var n := |names|;
    EntrySize(l, n, plt);
    NamesStep(names, fname);
    ListStep(l, names, fname);
    StubsStep(l, n, plt);
    SlotsStep(l, n, got);
    RelsStep(l, names, rels, fname);
    hide StubsOk, SlotsOk, RelsOk, NamesDiffer, Stub, Plt0, Layout.Room, Unbound;
  }

  /** Where the next stub goes. */
  lemma EntrySize(l: Layout, n: nat, plt: seq<Byte>)
    requires StubsOk(l, n, plt)
    ensures l.plt + (if n == 0 then l.arch.Entry() else |plt|) == l.StubAt(n) && (n == 0 ==> plt == [])
  {
    OffSteps(l.arch, 0);
  }

  lemma NamesStep(names: seq<string>, fname: string)
    requires NamesDiffer(names) && fname !in names
    ensures NamesDiffer(names + [fname])
  {
  }

  lemma ListStep(l: Layout, names: seq<string>, fname: string)
    ensures ListOf(l, names + [fname]) == [PltEnt(fname, l.StubAt(|names|))] + ListOf(l, names)
  {
    assert (names + [fname])[..|names|] == names;
  }

  lemma StubsStep(l: Layout, n: nat, plt: seq<Byte>)
    requires StubsOk(l, n, plt) && l.Room(n + 1)
    ensures StubsOk(l, n + 1, (if n == 0 then plt + Plt0(l.arch, l.plt, l.got) else plt)
            + Stub(l.arch, l.plt, l.StubAt(n), l.SlotAt(n), n))
  {
    OffSteps(l.arch, n);
    OffSteps(l.arch, 0);
    if n > 0 {
      OffGrows(l.arch, 0, n);
    }
    hide Stub, Decode, Plt0, StubOk, Layout.Room, Off, Arch.Entry, Layout.StubAt, Layout.SlotAt;
    var e := l.arch.Entry();
    var s := Stub(l.arch, l.plt, l.StubAt(n), l.SlotAt(n), n);
    var before := if n == 0 then plt + Plt0(l.arch, l.plt, l.got) else plt;
    assert |before| == Off(l.arch, n) && before[..e] == Plt0(l.arch, l.plt, l.got);
    StubAdded(l, before, n, n + 1);
    forall k | 0 <= k < n + 1 ensures StubOk(l, before + s, k) {
      if k < n {
        StubStays(l, before, s, k);
      }
    }
    assert (before + s)[..e] == before[..e];
  }

  lemma SlotsStep(l: Layout, n: nat, got: seq<nat>)
    requires SlotsOk(l, n, got)
    ensures |got| == l.arch.Reserved() + n
    ensures SlotsOk(l, n + 1, got + [Unbound(l, n)])
  {
    var r := l.arch.Reserved();
    forall k | 0 <= k < n + 1 ensures (got + [Unbound(l, n)])[r + k] == Unbound(l, k) {
      if k < n {
        assert (got + [Unbound(l, n)])[r + k] == got[r + k];
      }
    }
  }

  lemma RelsStep(l: Layout, names: seq<string>, rels: seq<Rel>, fname: string)
    requires RelsOk(l, names, rels)
    ensures |rels| == |names|
    ensures RelsOk(l, names + [fname], rels + [Rel(l.SlotAt(|names|), l.Sym(fname))])
  {
  }

  // ------------------------------------------------------------------
  // A function that is not bound yet
  // ------------------------------------------------------------------

  /** The x86 code at addr, if it pushes a relocation and jumps: the relocation's number and the address. */
  function PushThenJump(arch: Arch, b: seq<Byte>, addr: nat): Option<(nat, nat)>
    requires |b| == 10
  {
    // push imm32; jmp rel32
    if b[0] == 0x68 && b[5] == 0xe9
    then Some((if arch.X64? then Get32(b, 1) else Get32(b, 1) / 8,
               if arch.X64? then (addr + 10 + Signed32(Get32(b, 6))) % TWO64 else (addr + 10 + Get32(b, 6)) % TWO32))
    else None
  }

  /** The last ten bytes of a stub do what the whole stub is decoded to do. */
  lemma StubTail(arch: Arch, b: seq<Byte>, addr: nat)
    requires (arch.X86? || arch.X64?) && |b| == 16 && Decode(arch, b, addr).Some?
    ensures var d := Decode(arch, b, addr).value;
      d.reloc.Some? && d.plt0.Some? && PushThenJump(arch, b[6..], addr + 6) == Some((d.reloc.value, d.plt0.value))
  {
    assert forall k :: 0 <= k < 10 ==> b[6..][k] == b[6 + k];
  }

  /** Until it is bound, a function's slot leads on x86 to the code of its stub that pushes its own relocation and goes
      to PLT0, and on the other targets to PLT0, which is told the slot. */
  lemma UnboundReachesPlt0(l: Layout, n: nat, plt: seq<Byte>, got: seq<nat>, k: nat)
    requires StubsOk(l, n, plt) && SlotsOk(l, n, got) && l.Room(n) && k < n
    ensures var to := got[l.arch.Reserved() + k];
      if l.arch.X86? || l.arch.X64? then
        && l.plt <= to && to - l.plt + 10 <= |plt|
        && PushThenJump(l.arch, plt[to - l.plt..to - l.plt + 10], to) == Some((k, l.plt))
      else to == l.plt && plt[..l.arch.Entry()] == Plt0(l.arch, l.plt, l.got)
  {
    hide Decode, PushThenJump, Off, ReadsWell, Plt0, Layout.Room, Layout.SlotAt;
    assert got[l.arch.Reserved() + k] == Unbound(l, k) && StubOk(l, plt, k);
    if l.arch.X86? || l.arch.X64? {
      StubPushes(l, plt, k);
    }
  }

  lemma StubPushes(l: Layout, plt: seq<Byte>, k: nat)
    requires StubOk(l, plt, k) && (l.arch.X86? || l.arch.X64?)
    ensures var o := Off(l.arch, k) + 6;
      o + 10 <= |plt| && PushThenJump(l.arch, plt[o..o + 10], l.StubAt(k) + 6) == Some((k, l.plt))
  {
    hide Decode, PushThenJump, Off;
    var o := Off(l.arch, k);
    var b := plt[o..o + 16];
    StubTail(l.arch, b, l.StubAt(k));
    assert b[6..] == plt[o + 6..o + 16];
  }

  /** Every relocation is for its function's slot and its function's symbol. */
  lemma RelocationsBind(l: Layout, names: seq<string>, rels: seq<Rel>, k: nat)
    requires RelsOk(l, names, rels) && k < |names|
    ensures rels[k].offset == l.SlotAt(k)
    ensures names[k] in l.dynsym ==> rels[k].sym == l.dynsym[names[k]]
  {
  }

  /** Entered from any stub, PLT0 jumps through the slot reserved for the dynamic linker, pushes the one for the module
      where the target does, and on MIPS computes the stub's relocation number from its slot. */
  lemma Plt0Resolves(l: Layout, n: nat, k: nat)
    requires l.Room(n) && k < n
    ensures var r := Enter(l.arch, Plt0(l.arch, l.plt, l.got), l.plt, l.SlotAt(k));
      var w := l.arch.Slot();
      r == Some(match l.arch
                case X86 | X64 => Resolver(Some(l.got + w), l.got + 2 * w, None)
                case Arm => Resolver(None, l.got + 2 * w, None)
                case Mips => Resolver(None, l.got, Some(k)))
  {
    RoomAround(l, n, k);
    hide Off, Plt0, Enter, Layout.Room, Layout.SlotAt, Near;
    match l.arch
    case X86 => EnterX86(l.plt, l.got, l.SlotAt(k));
    case X64 => EnterX64(l.plt, l.got, l.SlotAt(k));
    case Arm => EnterArm(l.plt, l.got, l.SlotAt(k));
    case Mips => EnterMips(l.plt, l.got, k);
  }

  lemma RoomAround(l: Layout, n: nat, k: nat)
    requires l.Room(n) && k < n
    ensures l.plt < l.arch.Space() && l.got + 2 * l.arch.Slot() < l.arch.Space()
    ensures l.arch.X64? ==> Near(l.got + 8, l.plt) && Near(l.got + 16, l.plt + 6)
    ensures l.arch.Mips? ==> l.SlotAt(k) == l.got + 4 * (2 + k) < TWO32
  {
    Before(l, n, k);
    hide Off, Near;
  }

  /** Slots of the size of an address do not overlap, and none is one that PLT0 uses. */
  lemma SlotsApart(l: Layout, i: nat, j: nat)
    ensures var size := if l.arch.X64? then 8 else 4;
      && (i < j ==> l.SlotAt(i) + size <= l.SlotAt(j))
      && l.got + (if l.arch.Mips? then 2 else 3) * size == l.SlotAt(0)
  {
  }

  /** Equal names share a stub, distinct names have distinct ones; and the same for slots. */
  lemma StubsDistinct(l: Layout, i: nat, j: nat)
    ensures l.StubAt(i) == l.StubAt(j) <==> i == j
    ensures l.SlotAt(i) == l.SlotAt(j) <==> i == j
  {
    OffSteps(l.arch, 0);
    if i < j {
      OffGrows(l.arch, i, j);
    } else if j < i {
      OffGrows(l.arch, j, i);
    }
  }
}
