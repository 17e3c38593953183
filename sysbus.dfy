/**
 * The system bus (src/sysbus.rs): a fixed table that sends every 32-bit
 * address to one memory region, and hands that region the address's low 24
 * bits as its offset. The region is chosen on the full address, so the upper
 * byte is not ignored: only the cartridge window, which spans two 16 MiB
 * pages, sees the same bytes at two addresses.
 */
module SysBusModel {
  import opened LittleEndian
  import opened Memory
  import opened ArmTypes

  const VIDEO_RAM_SIZE: nat := 128 * 1024
  const WORK_RAM_SIZE: nat := 256 * 1024
  const INTERNAL_RAM: nat := 32 * 1024
  const PALETTE_RAM_SIZE: nat := 1 * 1024
  const OAM_SIZE: nat := 1 * 1024

  datatype Region =
    Bios | OnboardWorkRam | InternalWorkRam | IoRegs | PaletteRam | Vram | Oam | Gamepak | Dummy

  /** The routing table: inclusive ranges of the unmasked address, open bus elsewhere. */
  function Route(addr: Addr): (r: Region)
    ensures r != Dummy ==> Lo(r) <= addr <= Hi(r)
  {
    if addr <= 0x0000_3fff then Bios
    else if 0x0200_0000 <= addr <= 0x0203_ffff then OnboardWorkRam
    else if 0x0300_0000 <= addr <= 0x0300_7fff then InternalWorkRam
    else if 0x0400_0000 <= addr <= 0x0400_03fe then IoRegs
    else if 0x0500_0000 <= addr <= 0x0500_03ff then PaletteRam
    else if 0x0600_0000 <= addr <= 0x0601_7fff then Vram
    else if 0x0700_0000 <= addr <= 0x0700_03ff then Oam
    else if 0x0800_0000 <= addr <= 0x09ff_ffff then Gamepak
    else Dummy
  }

  /** The first and last address of each region's window. */
  function Lo(r: Region): Addr
    requires r != Dummy
  {
    match r
    case Bios => 0 case OnboardWorkRam => 0x0200_0000 case InternalWorkRam => 0x0300_0000
    case IoRegs => 0x0400_0000 case PaletteRam => 0x0500_0000 case Vram => 0x0600_0000
    case Oam => 0x0700_0000 case Gamepak => 0x0800_0000
  }

  function Hi(r: Region): Addr
    requires r != Dummy
  {
    match r
    case Bios => 0x3fff case OnboardWorkRam => 0x0203_ffff case InternalWorkRam => 0x0300_7fff
    case IoRegs => 0x0400_03fe case PaletteRam => 0x0500_03ff case Vram => 0x0601_7fff
    case Oam => 0x0700_03ff case Gamepak => 0x09ff_ffff
  }

  /** No two windows overlap. */
  lemma WindowsDisjoint(r: Region, q: Region)
    requires r != Dummy && q != Dummy && r != q
    ensures Hi(r) < Lo(q) || Hi(q) < Lo(r)
  {
  }

  /** An address is routed to a region exactly when it lies in that region's window. */
  lemma RouteIsWindow(addr: Addr, r: Region)
    requires r != Dummy
    ensures Route(addr) == r <==> Lo(r) <= addr <= Hi(r)
  {
  }

  /** The open bus takes exactly the addresses outside every window. */
  lemma RouteDummy(addr: Addr)
    ensures Route(addr) == Dummy <==> forall r :: r != Dummy ==> !(Lo(r) <= addr <= Hi(r))
  {
    if Route(addr) != Dummy {
      RouteIsWindow(addr, Route(addr));
    }
  }

  /**
   * The offset a region is handed: `addr & 0xff_ffff`, the low 24 bits,
   * written as the remainder modulo 2^24. It differs from the address by a
   * multiple of 16 MiB.
   */
  function Offset(addr: Addr): (o: nat)
    ensures o < 0x100_0000 && o <= addr
    ensures (addr - o) % 0x100_0000 == 0
  {
    addr % 0x100_0000
  }

  /** Both ends of a window are inclusive. */
  lemma Boundaries()
    ensures Route(0x0000_3fff) == Bios && Route(0x0000_4000) == Dummy
    ensures Route(0x0400_03fe) == IoRegs && Route(0x0400_03ff) == Dummy
    ensures Route(0x09ff_ffff) == Gamepak && Route(0x0a00_0000) == Dummy
  {
  }

  /**
   * The upper byte takes part in routing: 0x0a00_1000 has the same offset as
   * 0x0200_1000, yet goes to the open bus rather than work RAM.
   */
  lemma UnmaskedRouting()
    ensures Offset(0x0200_1000) == Offset(0x0a00_1000) == 0x1000
    ensures Route(0x0200_1000) == OnboardWorkRam && Route(0x0a00_1000) == Dummy
    ensures Route(0x0a20_1000) == Dummy
  {
  }

  /** The cartridge window covers two pages that show the same offsets. */
  lemma GamepakMirror(a: Addr, b: Addr)
    requires Route(a) == Gamepak && Route(b) == Gamepak
    ensures Offset(a) == Offset(b) <==> a == b || a == b + 0x100_0000 || b == a + 0x100_0000
  {
  }

  /** The size of the buffer the bus gives each internal RAM. */
  function RamSize(r: Region): nat
    requires r in {OnboardWorkRam, InternalWorkRam, PaletteRam, Vram, Oam}
  {
    match r
    case OnboardWorkRam => WORK_RAM_SIZE
    case InternalWorkRam => INTERNAL_RAM
    case PaletteRam => PALETTE_RAM_SIZE
    case Vram => VIDEO_RAM_SIZE
    case Oam => OAM_SIZE
  }

  /** Every offset the table hands an internal RAM lies inside its buffer. */
  lemma RamOffsetsInBuffer(addr: Addr)
    requires Route(addr) in {OnboardWorkRam, InternalWorkRam, PaletteRam, Vram, Oam}
    ensures Offset(addr) < RamSize(Route(addr))
  {
  }

  /**
   * The bus and the regions it owns. The cartridge and the I/O registers are
   * defined elsewhere; each stands here as a byte region of its own.
   */
  class SysBus {
    const bios: BoxedMemory
    const onboardWorkRam: BoxedMemory
    const internalWorkRam: BoxedMemory
    const ioregs: BoxedMemory
    const paletteRam: BoxedMemory
    const vram: BoxedMemory
    const oam: BoxedMemory
    const gamepak: BoxedMemory
    const dummy: DummyBus

    /** The region object of the table's entry `r`. */
    function Mem(r: Region): BoxedMemory
      requires r != Dummy
    {
      match r
      case Bios => bios case OnboardWorkRam => onboardWorkRam case InternalWorkRam => internalWorkRam
      case IoRegs => ioregs case PaletteRam => paletteRam case Vram => vram
      case Oam => oam case Gamepak => gamepak
    }

    /** The buffers the bus owns. */
    function Repr(): set<object> {
      {bios.data, onboardWorkRam.data, internalWorkRam.data, ioregs.data,
       paletteRam.data, vram.data, oam.data, gamepak.data}
    }

    /** The buffer a write at `addr` may change. */
    function Target(addr: Addr): set<object> {
      if Route(addr) == Dummy then {} else {Mem(Route(addr)).data}
    }

    /**
     * Each region owns its own buffer, and the open bus's four scratch bytes
     * are none of them; the internal RAMs have their fixed sizes and wait states.
     */
    predicate Valid() {
      && (forall r, q :: r != Dummy && q != Dummy && r != q ==> Mem(r).data != Mem(q).data)
      && onboardWorkRam.data.Length == WORK_RAM_SIZE
      && internalWorkRam.data.Length == INTERNAL_RAM
      && paletteRam.data.Length == PALETTE_RAM_SIZE
      && vram.data.Length == VIDEO_RAM_SIZE
      && oam.data.Length == OAM_SIZE
      && bios.waitState == DEFAULT_WAIT_STATE
      && onboardWorkRam.waitState == WaitState(3, 3, 6)
      && internalWorkRam.waitState == DEFAULT_WAIT_STATE
      && paletteRam.waitState == WaitState(1, 1, 2)
      && vram.waitState == WaitState(1, 1, 2)
      && oam.waitState == DEFAULT_WAIT_STATE
      && dummy.bytes !in Repr() && dummy.bytes.Length == 4
    }

    /** An access of `n` bytes at `addr` ends inside the buffer it is routed to. */
    predicate Fits(addr: Addr, n: nat) {
      Route(addr) == Dummy || Offset(addr) + n <= Mem(Route(addr)).data.Length
    }

    /** The regions of a fresh bus: the BIOS image, zeroed RAMs, and the given cartridge and I/O registers. */
    constructor (biosRom: seq<Byte>, ioregs: BoxedMemory, gamepak: BoxedMemory)
      requires ioregs.data != gamepak.data
      ensures Valid()
      ensures fresh(bios.data) && bios.data[..] == biosRom
      ensures fresh(onboardWorkRam.data) && onboardWorkRam.data[..] == seq(WORK_RAM_SIZE, _ => 0)
      ensures fresh(internalWorkRam.data) && internalWorkRam.data[..] == seq(INTERNAL_RAM, _ => 0)
      ensures fresh(paletteRam.data) && paletteRam.data[..] == seq(PALETTE_RAM_SIZE, _ => 0)
      ensures fresh(vram.data) && vram.data[..] == seq(VIDEO_RAM_SIZE, _ => 0)
      ensures fresh(oam.data) && oam.data[..] == seq(OAM_SIZE, _ => 0)
      ensures this.ioregs == ioregs && this.gamepak == gamepak
      ensures fresh(dummy.bytes) && dummy.bytes[..] == [0, 0, 0, 0]
    {
      bios := new BoxedMemory(biosRom);
      onboardWorkRam := new BoxedMemory.WithWaitState(seq(WORK_RAM_SIZE, _ => 0), WaitState(3, 3, 6));
      internalWorkRam := new BoxedMemory(seq(INTERNAL_RAM, _ => 0));
      this.ioregs := ioregs;
      paletteRam := new BoxedMemory.WithWaitState(seq(PALETTE_RAM_SIZE, _ => 0), WaitState(1, 1, 2));
      vram := new BoxedMemory.WithWaitState(seq(VIDEO_RAM_SIZE, _ => 0), WaitState(1, 1, 2));
      oam := new BoxedMemory(seq(OAM_SIZE, _ => 0));
      this.gamepak := gamepak;
      dummy := new DummyBus();
    }

    function Read8(addr: Addr): (v: Byte)
      reads Repr()
      requires Fits(addr, 1)
      ensures Route(addr) == Dummy ==> v == 0
      ensures Route(addr) != Dummy ==> v == Mem(Route(addr)).data[Offset(addr)]
    {
      if Route(addr) == Dummy then dummy.Read8(Offset(addr))
      else Mem(Route(addr)).Read8(Offset(addr))
    }

    function Read16(addr: Addr): (v: U16)
      reads Repr()
      requires Fits(addr, 2)
      ensures Route(addr) == Dummy ==> v == 0
      ensures Route(addr) != Dummy ==> v == Decode(Mem(Route(addr)).data[Offset(addr)..Offset(addr) + 2])
    {
      if Route(addr) == Dummy then dummy.Read16(Offset(addr))
      else Mem(Route(addr)).Read16(Offset(addr))
    }

    function Read32(addr: Addr): (v: Word)
      reads Repr()
      requires Fits(addr, 4)
      ensures Route(addr) == Dummy ==> v == 0
      ensures Route(addr) != Dummy ==> v == Decode(Mem(Route(addr)).data[Offset(addr)..Offset(addr) + 4])
    {
      if Route(addr) == Dummy then dummy.Read32(Offset(addr))
      else Mem(Route(addr)).Read32(Offset(addr))
    }

    method Write8(addr: Addr, value: Byte)
      requires Valid() && Fits(addr, 1)
      modifies Target(addr)
      ensures Route(addr) != Dummy ==>
        Mem(Route(addr)).data[..] == Splice(old(Mem(Route(addr)).data[..]), Offset(addr), Encode(value, 1))
      ensures Read8(addr) == if Route(addr) == Dummy then 0 else value
      ensures forall r :: r != Dummy && r != Route(addr) ==> Mem(r).data[..] == old(Mem(r).data[..])
      ensures dummy.bytes[..] == old(dummy.bytes[..])
      ensures Valid()
    {
      if Route(addr) == Dummy {
        dummy.Write8(Offset(addr), value);
      } else {
        Mem(Route(addr)).Write8(Offset(addr), value);
      }
    }

    method Write16(addr: Addr, value: U16)
      requires Valid() && Fits(addr, 2)
      modifies Target(addr)
      ensures Route(addr) != Dummy ==>
        Mem(Route(addr)).data[..] == Splice(old(Mem(Route(addr)).data[..]), Offset(addr), Encode(value, 2))
      ensures Read16(addr) == if Route(addr) == Dummy then 0 else value
      ensures forall r :: r != Dummy && r != Route(addr) ==> Mem(r).data[..] == old(Mem(r).data[..])
      ensures dummy.bytes[..] == old(dummy.bytes[..])
      ensures Valid()
    {
      if Route(addr) == Dummy {
        dummy.Write16(Offset(addr), value);
      } else {
        Mem(Route(addr)).Write16(Offset(addr), value);
      }
    }

    method Write32(addr: Addr, value: Word)
      requires Valid() && Fits(addr, 4)
      modifies Target(addr)
      ensures Route(addr) != Dummy ==>
        Mem(Route(addr)).data[..] == Splice(old(Mem(Route(addr)).data[..]), Offset(addr), Encode(value, 4))
      ensures Read32(addr) == if Route(addr) == Dummy then 0 else value
      ensures forall r :: r != Dummy && r != Route(addr) ==> Mem(r).data[..] == old(Mem(r).data[..])
      ensures dummy.bytes[..] == old(dummy.bytes[..])
      ensures Valid()
    {
      if Route(addr) == Dummy {
        dummy.Write32(Offset(addr), value);
      } else {
        Mem(Route(addr)).Write32(Offset(addr), value);
      }
    }

    /** The routed region's bytes from the offset on; the open bus's scratch bytes elsewhere. */
    function GetBytes(addr: Addr): (s: seq<Byte>)
      reads Repr(), dummy.bytes
      requires Fits(addr, 0)
      ensures Route(addr) == Dummy ==> s == dummy.bytes[..]
      ensures Route(addr) != Dummy ==> s == Mem(Route(addr)).data[Offset(addr)..]
    {
      if Route(addr) == Dummy then dummy.GetBytes(Offset(addr))
      else Mem(Route(addr)).GetBytes(Offset(addr))
    }

    function GetCycles(addr: Addr, width: MemoryAccessWidth): (c: nat)
      ensures Route(addr) == Dummy ==> c == 1
      ensures Route(addr) != Dummy ==> c == Mem(Route(addr)).waitState.Cycles(width)
    {
      if Route(addr) == Dummy then dummy.GetCycles(Offset(addr), width)
      else Mem(Route(addr)).GetCycles(Offset(addr), width)
    }

    /** The access costs of the internal regions, by width (8, 16, 32 bits). */
    lemma CycleTable(addr: Addr)
      requires Valid()
      ensures Route(addr) in {Bios, InternalWorkRam, Oam} ==>
        GetCycles(addr, MemoryAccess8) == 1 && GetCycles(addr, MemoryAccess16) == 1 && GetCycles(addr, MemoryAccess32) == 1
      ensures Route(addr) == OnboardWorkRam ==>
        GetCycles(addr, MemoryAccess8) == 3 && GetCycles(addr, MemoryAccess16) == 3 && GetCycles(addr, MemoryAccess32) == 6
      ensures Route(addr) in {PaletteRam, Vram} ==>
        GetCycles(addr, MemoryAccess8) == 1 && GetCycles(addr, MemoryAccess16) == 1 && GetCycles(addr, MemoryAccess32) == 2
    {
    }

    /** A single-byte access to an internal RAM never runs past its buffer; nor does an aligned wider one. */
    lemma RamAccessFits(addr: Addr, n: nat)
      requires Valid()
      requires Route(addr) in {OnboardWorkRam, InternalWorkRam, PaletteRam, Vram, Oam}
      requires n in {1, 2, 4} && addr % n == 0
      ensures Fits(addr, n)
    {
      RamOffsetsInBuffer(addr);
    }

    /** Two addresses of the cartridge window with equal low 24 bits read the same value. */
    lemma GamepakMirrorRead(a: Addr, b: Addr)
      requires Route(a) == Gamepak && Route(b) == Gamepak && a % 0x100_0000 == b % 0x100_0000
      requires Fits(a, 4)
      ensures Fits(b, 4) && Read32(a) == Read32(b)
    {
    }
  }
}
