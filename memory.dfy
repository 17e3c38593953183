/**
 * The memory regions behind the system bus (src/sysbus.rs): a boxed byte
 * buffer with a per-width wait-state record, and the open-bus fallback that
 * reads zero and ignores writes. Both answer the same bus operations:
 * little-endian reads and writes of 8, 16 and 32 bits, a view of the bytes
 * from an offset on, and the cycle count of an access.
 */
module Memory {
  import opened LittleEndian
  import opened ArmTypes

  /** A bus address: the processor's `Addr`, a 32-bit word. */
  type Addr = Word

  type U16 = n: nat | n < 0x1_0000

  /** The width part of a bus access; the access kind beside it is not examined here. */
  datatype MemoryAccessWidth = MemoryAccess8 | MemoryAccess16 | MemoryAccess32

  /** The cycles an access of each width costs. */
  datatype WaitState = WaitState(access8: nat, access16: nat, access32: nat)
  {
    function Cycles(w: MemoryAccessWidth): nat {
      match w
      case MemoryAccess8 => access8
      case MemoryAccess16 => access16
      case MemoryAccess32 => access32
    }
  }

  /** The wait state a region gets when none is given: one cycle at every width. */
  const DEFAULT_WAIT_STATE: WaitState := WaitState(1, 1, 1)

  /** A wait state is its three per-width costs and nothing more. */
  lemma WaitStateOfCycles(ws: WaitState)
    ensures ws == WaitState(ws.Cycles(MemoryAccess8), ws.Cycles(MemoryAccess16), ws.Cycles(MemoryAccess32))
  {
  }

  /** The default wait state costs one cycle at every width. */
  lemma DefaultWaitStateCycles(w: MemoryAccessWidth)
    ensures DEFAULT_WAIT_STATE.Cycles(w) == 1
  {
  }

  /**
   * A region backed by a fixed-size byte buffer. The buffer is never
   * resized; its contents change only through the write operations.
   * Every access demands that it ends inside the buffer (the source
   * panics otherwise).
   */
  class BoxedMemory {
    const data: array<Byte>
    const waitState: WaitState

    /** A region over `bytes` with the default wait state. */
    constructor (bytes: seq<Byte>)
      ensures fresh(data) && data[..] == bytes
      ensures waitState == DEFAULT_WAIT_STATE
    {
      data := new Byte[|bytes|](i requires 0 <= i < |bytes| => bytes[i]);
      waitState := DEFAULT_WAIT_STATE;
    }

    constructor WithWaitState(bytes: seq<Byte>, ws: WaitState)
      ensures fresh(data) && data[..] == bytes
      ensures waitState == ws
    {
      data := new Byte[|bytes|](i requires 0 <= i < |bytes| => bytes[i]);
      waitState := ws;
    }

    function Read8(addr: Addr): (v: Byte)
      reads data
      requires addr < data.Length
      ensures v == Decode(data[addr..addr + 1])
    {
      assert data[addr..addr + 1][1..] == [];
      data[addr]
    }

    /** The low byte at `addr`, the high byte after it. */
    function Read16(addr: Addr): (v: U16)
      reads data
      requires addr + 2 <= data.Length
      ensures v == Decode(data[addr..addr + 2])
    {
      Decode2(data[addr..addr + 2]);
      data[addr] as nat + 0x100 * (data[addr + 1] as nat)
    }

    /** Four bytes from `addr` on, least significant first. */
    function Read32(addr: Addr): (v: Word)
      reads data
      requires addr + 4 <= data.Length
      ensures v == Decode(data[addr..addr + 4])
    {
      Decode4(data[addr..addr + 4]);
      data[addr] as nat + 0x100 * (data[addr + 1] as nat)
        + 0x1_0000 * (data[addr + 2] as nat) + 0x100_0000 * (data[addr + 3] as nat)
    }

    method Write8(addr: Addr, value: Byte)
      requires addr < data.Length
      modifies data
      ensures data[..] == Splice(old(data[..]), addr, Encode(value, 1))
      ensures Read8(addr) == value
    {
      data[addr] := value;
      assert data[..] == Splice(old(data[..]), addr, Encode(value, 1));
    }

    method Write16(addr: Addr, value: U16)
      requires addr + 2 <= data.Length
      modifies data
      ensures data[..] == Splice(old(data[..]), addr, Encode(value, 2))
      ensures Read16(addr) == value
    {
      Encode2(value);
      data[addr] := value % 0x100;
      data[addr + 1] := value / 0x100;
      assert data[..] == Splice(old(data[..]), addr, Encode(value, 2));
      ReadBackSplice(old(data[..]), addr, value, 2);
    }

    method Write32(addr: Addr, value: Word)
      requires addr + 4 <= data.Length
      modifies data
      ensures data[..] == Splice(old(data[..]), addr, Encode(value, 4))
      ensures Read32(addr) == value
    {
      Encode4(value);
      data[addr] := value % 0x100;
      data[addr + 1] := value / 0x100 % 0x100;
      data[addr + 2] := value / 0x1_0000 % 0x100;
      data[addr + 3] := value / 0x100_0000;
      assert data[..] == Splice(old(data[..]), addr, Encode(value, 4));
      ReadBackSplice(old(data[..]), addr, value, 4);
    }

    /** The buffer from `addr` to its end. */
    function GetBytes(addr: Addr): (s: seq<Byte>)
      reads data
      requires addr <= data.Length
      ensures |s| == data.Length - addr
      ensures forall i :: 0 <= i < |s| ==> s[i] == data[addr + i]
    {
      data[addr..]
    }

    /** The cost of an access: the wait state's entry for its width, whatever the address. */
    function GetCycles(addr: Addr, width: MemoryAccessWidth): (c: nat)
      ensures c == waitState.Cycles(width)
    {
      waitState.Cycles(width)
    }
  }

  /**
   * The open bus: a four-byte scratch buffer that every read sees as zero
   * and every write leaves alone, at one cycle per access.
   */
  class DummyBus {
    const bytes: array<Byte>

    constructor ()
      ensures fresh(bytes) && bytes[..] == [0, 0, 0, 0]
    {
      bytes := new Byte[4](_ => 0);
    }

    function Read8(addr: Addr): (v: Byte)
      ensures v == 0
    {
      0
    }

    function Read16(addr: Addr): (v: U16)
      ensures v == 0
    {
      0
    }

    function Read32(addr: Addr): (v: Word)
      ensures v == 0
    {
      0
    }

    method Write8(addr: Addr, value: Byte)
      ensures bytes[..] == old(bytes[..])
    {
    }

    method Write16(addr: Addr, value: U16)
      ensures bytes[..] == old(bytes[..])
    {
    }

    method Write32(addr: Addr, value: Word)
      ensures bytes[..] == old(bytes[..])
    {
    }

    /** The whole scratch buffer, whatever the address. */
    function GetBytes(addr: Addr): (s: seq<Byte>)
      reads bytes
      ensures s == bytes[..]
    {
      bytes[..]
    }

    function GetCycles(addr: Addr, width: MemoryAccessWidth): (c: nat)
      ensures c == 1
    {
      1
    }
  }
}
