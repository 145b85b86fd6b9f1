/** PCI configuration space through mechanism #1 (section 3.2.2.3.2 of the PCI Local Bus Specification 3.0),
    and the dword-and-shift read of the NetBSD back end. */
module PciConfig {
  import opened Arith
  import opened CTypes

  /** A byte of configuration space: bus, device, function, register. Functions that are not there read as 0xFF. */
  type ConfigSpace = (nat, nat, nat, nat) -> nat

  ghost predicate ByteSpace(cfg: ConfigSpace) {
    forall b: nat, d: nat, f: nat, r: nat :: cfg(b, d, f, r) < 256
  }

  const EIO: int := 5

  /** The I/O ports of the host bridge: CONFIG_ADDRESS at 0xCF8 and CONFIG_DATA at 0xCFC. The data port shows
      the dword of configuration space that CONFIG_ADDRESS selects; `beyond` is what the ports from 0xD00 on show. */
  class Ports {
    var configAddress: nat
    const cfg: ConfigSpace
    const beyond: nat -> nat

    constructor (cfg: ConfigSpace, beyond: nat -> nat)
      ensures this.cfg == cfg && this.beyond == beyond
    {
      this.cfg, this.beyond := cfg, beyond;
      configAddress := 0;
    }

    /** The byte read at a port. */
    function PortByte(port: nat): nat
      requires port >= 0xCFC
      reads this`configAddress
    {
      if port < 0xD00 then DataByte(port - 0xCFC) else beyond(port)
    }

    /** The byte the data port shows at offset k: bit 31 of CONFIG_ADDRESS enables the access, and the bus, device,
        function and register numbers sit at bits 23-16, 15-11, 10-8 and 7-2. */
    function DataByte(k: nat): nat
      requires k < 4
      reads this`configAddress
    {
      if configAddress / 0x8000_0000 % 2 == 1
      then cfg(configAddress / 0x1_0000 % 0x100, configAddress / 0x800 % 0x20, configAddress / 0x100 % 8,
               configAddress % 0x100 / 4 * 4 + k)
      else 0xFF
    }

    method Outl(value: nat, port: nat)
      requires port == 0xCF8
      modifies this`configAddress
      ensures configAddress == value
    {
      configAddress := value;
    }

    method InlAddress(port: nat) returns (v: nat)
      requires port == 0xCF8
      ensures v == configAddress
    {
      v := configAddress;
    }

    method Inb(port: nat) returns (v: nat)
      requires port >= 0xCFC
      ensures v == PortByte(port)
    {
      v := PortByte(port);
    }

    method Inw(port: nat) returns (v: seq<nat>)
      requires port >= 0xCFC
      ensures v == [PortByte(port), PortByte(port + 1)]
    {
      v := [PortByte(port), PortByte(port + 1)];
    }

    method Inl(port: nat) returns (v: seq<nat>)
      requires port >= 0xCFC
      ensures v == [PortByte(port), PortByte(port + 1), PortByte(port + 2), PortByte(port + 3)]
    {
      v := [PortByte(port), PortByte(port + 1), PortByte(port + 2), PortByte(port + 3)];
    }
  }

  /** A function's address. */
  datatype Slot = Slot(bus: nat, dev: nat, func: nat)

  predicate ValidSlot(s: Slot) {
    s.bus < 0x100 && s.dev < 32 && s.func < 8
  }

  /** n bytes of a function's configuration space from register r on. */
  function Bytes(cfg: ConfigSpace, s: Slot, r: nat, n: nat): (bs: seq<nat>)
    ensures |bs| == n
    ensures forall i :: 0 <= i < n ==> bs[i] == cfg(s.bus, s.dev, s.func, r + i)
  {
    if n == 0 then [] else Bytes(cfg, s, r, n - 1) + [cfg(s.bus, s.dev, s.func, r + n - 1)]
  }

  /** What an access of n bytes at register r reads: the registers of its dword, and behind the data port whatever
      other ports show. */
  function Accessed(ports: Ports, s: Slot, r: nat, n: nat): (bs: seq<nat>)
    ensures |bs| == n
    ensures forall i :: 0 <= i < n ==>
              bs[i] == if r % 4 + i < 4 then ports.cfg(s.bus, s.dev, s.func, r + i) else ports.beyond(0xCFC + r % 4 + i)
  {
    if n == 0 then []
    else Accessed(ports, s, r, n - 1) +
         [if r % 4 + n <= 4 then ports.cfg(s.bus, s.dev, s.func, r + n - 1) else ports.beyond(0xCFB + r % 4 + n)]
  }

  /** An access that stays within a dword reads the registers it asks for. */
  lemma AccessedWithin(ports: Ports, s: Slot, r: nat, n: nat)
    requires r % 4 + n <= 4
    ensures Accessed(ports, s, r, n) == Bytes(ports.cfg, s, r, n)
  {
    hide Accessed, Bytes;
  }

  lemma AlignedWithin(r: nat, n: nat)
    requires n in {1, 2, 4} && Aligned(r, n)
    ensures r % 4 + n <= 4
  {
    if n == 2 {
      assert r % 2 == 0;
    } else if n == 4 {
      assert r % 4 == 0;
    }
  }

  /** A naturally aligned access, or one of a size that is refused or touches one byte at most. */
  predicate Aligned(reg: nat, size: nat) {
    size in {0, 1, 3} || reg % size == 0
  }

  /** The switch over the size, once CONFIG_ADDRESS selects the register's dword. */
  method InSize(ports: Ports, s: Slot, reg: nat, addr: nat, size: nat) returns (val: seq<nat>)
    requires size in {0, 1, 2, 4} && addr == 0xCFC + reg % 4
    requires forall k: nat :: k < 4 ==> ports.DataByte(k) == ports.cfg(s.bus, s.dev, s.func, reg - reg % 4 + k)
    ensures val == Accessed(ports, s, reg, size)
  {
    hide Ports.DataByte, Accessed;
    val := [];
    if size == 1 {
      var v := ports.Inb(addr);
      val := [v];
    } else if size == 2 {
      val := ports.Inw(addr);
    } else if size == 4 {
      val := ports.Inl(addr);
    }
  }

  /** pci_system_x86_conf1_read: one access of 1, 2 or 4 bytes (a zero-byte one reads nothing). */
  method Conf1Read(ports: Ports, s: Slot, reg: nat, data: array<nat>, at: nat, size: nat) returns (err: int)
    requires at + size <= data.Length
    modifies ports`configAddress, data
    ensures ports.configAddress == old(ports.configAddress)
    ensures err == if !ValidSlot(s) || reg >= 0x100 || size > 4 || size == 3 then EIO else 0
    ensures err == 0 ==> data[..] == old(data[..at]) + Accessed(ports, s, reg, size) + old(data[at + size..])
    ensures err != 0 ==> data[..] == old(data[..])
  {
    hide Ports.DataByte, Accessed;
    var addr := 0xCFC + reg % 4;
    if s.bus >= 0x100 || s.dev >= 32 || s.func >= 8 || reg >= 0x100 || size > 4 || size == 3 {
      return EIO;
    }
    var sav := ports.InlAddress(0xCF8);
    ports.Outl(0x8000_0000 + s.bus * 0x1_0000 + s.dev * 0x800 + s.func * 0x100 + (reg - reg % 4), 0xCF8);
    DataShown(ports, s, reg);
    var val := InSize(ports, s, reg, addr, size);
    Store(data, at, val);
    ports.Outl(sav, 0xCF8);
    err := 0;
  }

  /** *val = ...: the bytes read go to the caller's buffer. */
  method Store(data: array<nat>, at: nat, val: seq<nat>)
    requires at + |val| <= data.Length
    modifies data
    ensures data[..] == old(data[..at]) + val + old(data[at + |val|..])
  {
    forall i | 0 <= i < |val| {
      data[at + i] := val[i];
    }
  }

  lemma DataShown(ports: Ports, s: Slot, reg: nat)
    requires ValidSlot(s) && reg < 0x100
    requires ports.configAddress
             == 0x8000_0000 + s.bus * 0x1_0000 + s.dev * 0x800 + s.func * 0x100 + (reg - reg % 4)
    ensures forall k: nat :: k < 4 ==> ports.DataByte(k) == ports.cfg(s.bus, s.dev, s.func, reg - reg % 4 + k)
  {
    Selects(s, reg, ports.configAddress);
  }

  /** The address written selects exactly this function and dword. */
  lemma Selects(s: Slot, reg: nat, address: nat)
    requires ValidSlot(s) && reg < 0x100
    requires address == 0x8000_0000 + s.bus * 0x1_0000 + s.dev * 0x800 + s.func * 0x100 + (reg - reg % 4)
    ensures address / 0x8000_0000 % 2 == 1 && address / 0x1_0000 % 0x100 == s.bus
    ensures address / 0x800 % 0x20 == s.dev && address / 0x100 % 8 == s.func
    ensures address % 0x100 / 4 * 4 == reg - reg % 4
  {
    var dword := reg - reg % 4;
    assert dword < 0x100 && dword / 4 * 4 == dword by { AlignedDown(reg, dword); }
    var low := s.func * 0x100 + dword;
    assert low < 0x800;
    assert address / 0x8000_0000 % 2 == 1 by { EnableField(address, s.bus * 0x1_0000 + s.dev * 0x800 + low); }
    assert address / 0x1_0000 % 0x100 == s.bus by { BusField(address, s.bus, s.dev * 0x800 + low); }
    assert address / 0x800 % 0x20 == s.dev by { DevField(address, s.bus, s.dev, low); }
    assert address / 0x100 % 8 == s.func && address % 0x100 == dword by {
      FuncField(address, s.bus * 0x100 + s.dev * 8, s.func, dword);
    }
  }

  lemma AlignedDown(reg: nat, dword: nat)
    requires dword == reg - reg % 4 && reg < 0x100
    ensures dword / 4 * 4 == dword && dword < 0x100
  {}

  lemma EnableField(address: nat, low: nat)
    requires low < 0x8000_0000 && address == 0x8000_0000 + low
    ensures address / 0x8000_0000 % 2 == 1
  {
    assert address / 0x8000_0000 == 1;
  }

  lemma BusField(address: nat, bus: nat, low: nat)
    requires bus < 0x100 && low < 0x1_0000 && address == 0x8000_0000 + bus * 0x1_0000 + low
    ensures address / 0x1_0000 % 0x100 == bus
  {
    assert address / 0x1_0000 == 0x8000 + bus;
  }

  lemma DevField(address: nat, bus: nat, dev: nat, low: nat)
    requires dev < 0x20 && low < 0x800 && address == 0x8000_0000 + bus * 0x1_0000 + dev * 0x800 + low
    ensures address / 0x800 % 0x20 == dev
  {
    assert address / 0x800 == 0x10_0000 + bus * 0x20 + dev;
  }

  lemma FuncField(address: nat, high: nat, func: nat, low: nat)
    requires func < 8 && low < 0x100 && high % 8 == 0 && address == 0x8000_0000 + high * 0x100 + func * 0x100 + low
    ensures address / 0x100 % 8 == func && address % 0x100 == low
  {
    assert address / 0x100 == 0x80_0000 + high + func;
  }

  // ----- the chunked read loop -----

  /** ffs: one more than the position of the lowest set bit. */
  function Ffs(n: nat): nat {
    if n == 0 then 0 else if n % 2 == 1 then 1 else 1 + Ffs(n / 2)
  }

  /** The chunk the loop asks for at an offset is the largest naturally aligned one. */
  lemma ChunkSize(offset: nat)
    ensures Ffs(4 + offset % 4) > 0
    ensures Pow2(Ffs(4 + offset % 4) - 1) == if offset % 4 == 0 then 4 else if offset % 4 == 2 then 2 else 1
  {
    assert Ffs(4) == 3 && Ffs(5) == 1 && Ffs(6) == 2 && Ffs(7) == 1;
    assert Pow2(2) == 4 && Pow2(1) == 2 && Pow2(0) == 1;
  }

  /** How many bytes the loop delivers: it stops at the end of the function's 256 bytes, and before a last chunk of
      three bytes, which the access routine refuses. */
  function Conf1Done(s: Slot, offset: nat, size: nat): (n: nat)
    ensures n <= size
  {
    if !ValidSlot(s) || offset >= 0x100 then 0
    else if offset + size > 0x100 then 0x100 - offset
    else if size >= 3 && (offset + size) % 4 == 3 then size - 3
    else size
  }

  /** One pass of the loop: the access is aligned, and either it is refused and nothing more can be read, or the
      rest of the range follows it. */
  lemma ChunkStep(s: Slot, offset: nat, left: nat, toread: nat)
    requires left > 0
    requires var most := Pow2(Ffs(4 + offset % 4) - 1); toread == if most > left then left else most
    ensures 0 < toread <= 4 && toread <= left && Aligned(offset, toread)
    ensures !ValidSlot(s) || offset >= 0x100 || toread == 3 ==> Conf1Done(s, offset, left) == 0
    ensures ValidSlot(s) && offset < 0x100 && toread != 3 ==>
              Conf1Done(s, offset, left) == toread + Conf1Done(s, offset + toread, left - toread)
  {
    ChunkSize(offset);
    hide Ffs, Pow2, ValidSlot;
  }

  /** One access of the loop, the next chunk of the range. */
  method ReadChunk(ports: Ports, s: Slot, offset: nat, data: array<nat>, at: nat, toread: nat, ghost was: seq<nat>)
    returns (err: int)
    requires at + toread <= data.Length && Aligned(offset + at, toread)
    requires Delivered(ports.cfg, s, offset, at, was, data[..])
    modifies ports`configAddress, data
    ensures ports.configAddress == old(ports.configAddress)
    ensures err == if !ValidSlot(s) || offset + at >= 0x100 || toread > 4 || toread == 3 then EIO else 0
    ensures Delivered(ports.cfg, s, offset, if err == 0 then at + toread else at, was, data[..])
  {
    hide Bytes, Delivered, Aligned, ValidSlot;
    ghost var before := data[..];
    err := Conf1Read(ports, s, offset + at, data, at, toread);
    if err == 0 {
      if toread > 0 { AlignedWithin(offset + at, toread); }
      AccessedWithin(ports, s, offset + at, toread);
      BytesJoin(ports.cfg, s, offset, at, toread, was, before, data[..]);
    }
  }

  /** pci_device_x86_read_conf1 */
  method ReadConf1(ports: Ports, s: Slot, data: array<nat>, offset: nat, size: nat) returns (err: int, bytesRead: nat)
    requires size <= data.Length
    modifies ports`configAddress, data
    ensures ports.configAddress == old(ports.configAddress)
    ensures bytesRead == Conf1Done(s, offset, size)
    ensures err == if bytesRead == size then 0 else EIO
    ensures data[..] == Bytes(ports.cfg, s, offset, bytesRead) + old(data[bytesRead..])
  {
    hide Bytes, Ffs, Pow2, Conf1Done, Delivered, Aligned, ValidSlot;
    ghost var was := data[..];
    bytesRead := 0;
    NoneDelivered(ports.cfg, s, offset, was);
    var off, left := offset, size;
    while left > 0
      invariant 0 <= left && off == offset + bytesRead && bytesRead + left == size
      invariant bytesRead + Conf1Done(s, off, left) == Conf1Done(s, offset, size)
      invariant ports.configAddress == old(ports.configAddress)
      invariant Delivered(ports.cfg, s, offset, bytesRead, was, data[..])
      decreases left
    {
      ChunkSize(off);
      var toread := Pow2(Ffs(4 + off % 4) - 1);
      if toread > left {
        toread := left;
      }
      ChunkStep(s, off, left, toread);
      err := ReadChunk(ports, s, offset, data, bytesRead, toread, was);
      if err != 0 {
        DeliveredMeans(ports.cfg, s, offset, bytesRead, was, data[..]);
        return;
      }
      off, left, bytesRead := off + toread, left - toread, bytesRead + toread;
    }
    DeliveredMeans(ports.cfg, s, offset, bytesRead, was, data[..]);
    err := 0;
  }

  /** The first n bytes of a range have replaced those of a buffer. */
  ghost predicate Delivered(cfg: ConfigSpace, s: Slot, r: nat, n: nat, was: seq<nat>, now: seq<nat>) {
    n <= |was| && now == Bytes(cfg, s, r, n) + was[n..]
  }

  lemma NoneDelivered(cfg: ConfigSpace, s: Slot, r: nat, was: seq<nat>)
    ensures Delivered(cfg, s, r, 0, was, was)
  {}

  lemma DeliveredMeans(cfg: ConfigSpace, s: Slot, r: nat, n: nat, was: seq<nat>, now: seq<nat>)
    requires Delivered(cfg, s, r, n, was, now)
    ensures n <= |was| && now == Bytes(cfg, s, r, n) + was[n..]
  {}

  /** Appending a chunk to what has been read so far. */
  lemma BytesJoin(cfg: ConfigSpace, s: Slot, r: nat, n: nat, m: nat, was: seq<nat>, before: seq<nat>, after: seq<nat>)
    requires n + m <= |before| && Delivered(cfg, s, r, n, was, before)
    requires after == before[..n] + Bytes(cfg, s, r + n, m) + before[n + m..]
    ensures Delivered(cfg, s, r, n + m, was, after)
  {
    assert before[n + m..] == was[n + m..];
    assert Bytes(cfg, s, r, n + m) == Bytes(cfg, s, r, n) + Bytes(cfg, s, r + n, m);
  }

  /** When the loop succeeds: exactly if the range lies inside the 256 bytes of a valid function and does not end in
      a three-byte chunk. */
  lemma Conf1Succeeds(s: Slot, offset: nat, size: nat)
    ensures Conf1Done(s, offset, size) == size <==>
              size == 0 || (ValidSlot(s) && offset + size <= 0x100 && !(size >= 3 && (offset + size) % 4 == 3))
  {}

  /** A plain three-byte read of registers 0 to 2 of a function that is there fails. */
  lemma ThreeBytesFail()
    ensures ValidSlot(Slot(0, 0, 0)) && Conf1Done(Slot(0, 0, 0), 0, 3) == 0
  {}

  // ----- the NetBSD back end -----

  /** offset & 0x3 */
  function Low2(offset: nat): (k: nat)
    ensures k < 4 && k <= offset
  {
    offset % 4
  }

  /** v >> (8 * k) */
  function ShiftDown(v: nat, k: nat): nat {
    if k == 0 then v else ShiftDown(v / 0x100, k - 1)
  }

  /** Byte i of a little-endian value. */
  function ByteOf(v: nat, i: nat): nat {
    ShiftDown(v, i) % 0x100
  }

  /** The dword a configuration read delivers, as the kernel call returns it. */
  function Dword(cfg: ConfigSpace, s: Slot, reg: nat): nat {
    cfg(s.bus, s.dev, s.func, reg) + 0x100 * cfg(s.bus, s.dev, s.func, reg + 1)
    + 0x1_0000 * cfg(s.bus, s.dev, s.func, reg + 2) + 0x100_0000 * cfg(s.bus, s.dev, s.func, reg + 3)
  }

  lemma {:induction false} ShiftTwice(v: nat, k: nat, i: nat)
    ensures ShiftDown(ShiftDown(v, k), i) == ShiftDown(v, k + i)
  {
    if k > 0 {
      ShiftTwice(v / 0x100, k - 1, i);
    }
  }

  lemma DropByte(b: nat, rest: nat)
    requires b < 256
    ensures (b + 0x100 * rest) / 0x100 == rest && (b + 0x100 * rest) % 0x100 == b
  {}

  /** Shifting the dword down by whole bytes and taking byte i gives byte k + i of the dword's registers. */
  lemma ShiftedByte(b0: nat, b1: nat, b2: nat, b3: nat, k: nat, i: nat)
    requires b0 < 256 && b1 < 256 && b2 < 256 && b3 < 256 && k + i < 4
    ensures ByteOf(ShiftDown(b0 + 0x100 * b1 + 0x1_0000 * b2 + 0x100_0000 * b3, k), i)
            == if k + i == 0 then b0 else if k + i == 1 then b1 else if k + i == 2 then b2 else b3
  {
    var v2 := b2 + 0x100 * b3;
    var v1 := b1 + 0x100 * v2;
    var v := b0 + 0x100 * v1;
    ShiftTwice(v, k, i);
    DropByte(b0, v1);
    DropByte(b1, v2);
    DropByte(b2, b3);
    assert ShiftDown(v, 1) == ShiftDown(v1, 0) && ShiftDown(v, 2) == ShiftDown(v1, 1) && ShiftDown(v, 3) == ShiftDown(v1, 2);
    assert ShiftDown(v1, 1) == ShiftDown(v2, 0) && ShiftDown(v1, 2) == ShiftDown(v2, 1);
    assert ShiftDown(v2, 1) == b3;
  }

  /** memcpy of the first n bytes of a little-endian value. */
  method StoreValue(data: array<nat>, at: nat, rval: nat, n: nat)
    requires n <= 4 && at + n <= data.Length
    modifies data
    ensures forall k :: at <= k < at + n ==> data[k] == ByteOf(rval, k - at)
    ensures forall k :: 0 <= k < data.Length && !(at <= k < at + n) ==> data[k] == old(data[k])
  {
    var i := 0;
    while i < n
      invariant 0 <= i <= n
      invariant forall k :: at <= k < at + i ==> data[k] == ByteOf(rval, k - at)
      invariant forall k :: 0 <= k < data.Length && !(at <= k < at + i) ==> data[k] == old(data[k])
    {
      data[at + i] := ByteOf(rval, i);
      i := i + 1;
    }
  }

  /** The kernel's error for the dword that holds register r, 0 if it can be read. */
  function DwordError(fails: (Slot, nat) -> int, s: Slot, r: nat): int {
    fails(s, r - Low2(r))
  }

  /** The kernel can read every dword that holds a register of [from, to). */
  ghost predicate Readable(fails: (Slot, nat) -> int, s: Slot, from: nat, to: nat) {
    forall r: nat :: from <= r < to ==> DwordError(fails, s, r) == 0
  }

  /** `done` bytes from register `from` on are in place, the rest of the buffer is as it was. */
  ghost predicate Progress(cfg: ConfigSpace, fails: (Slot, nat) -> int, s: Slot, from: nat, done: nat,
                           was: seq<nat>, now: seq<nat>) {
    && done <= |was|
    && now == Bytes(cfg, s, from, done) + was[done..]
    && Readable(fails, s, from, from + done)
  }

  /** Configuration space, and the kernel's errors, by the register number before it is cast to 32 bits. */
  function Cast(cfg: ConfigSpace): ConfigSpace {
    (b, d, f, r) => cfg(b, d, f, Card32(r))
  }

  function CastErrors(fails: (Slot, nat) -> int): (Slot, nat) -> int {
    (s, r) => fails(s, Card32(r))
  }

  lemma DwordCast(cfg: ConfigSpace, s: Slot, reg: nat)
    requires reg % 4 == 0
    ensures Dword(cfg, s, Card32(reg)) == Dword(Cast(cfg), s, reg)
  {
    hide Card32;
    CardNext(reg, 1);
    CardNext(reg, 2);
    CardNext(reg, 3);
  }

  lemma CardNext(reg: nat, i: nat)
    requires reg % 4 == 0 && i < 4
    ensures Card32(reg + i) == Card32(reg) + i
  {
    var q, low := reg / 0x1_0000_0000, reg % 0x1_0000_0000;
    assert low == reg - 4 * (q * 0x4000_0000);
    assert low % 4 == 0 && low <= 0xFFFF_FFFC;
    assert reg + i == q * 0x1_0000_0000 + (low + i) && low + i < 0x1_0000_0000;
  }

  lemma CastIsByteSpace(cfg: ConfigSpace)
    requires ByteSpace(cfg)
    ensures ByteSpace(Cast(cfg))
  {
    hide Card32;
    forall b: nat, d: nat, f: nat, r: nat ensures Cast(cfg)(b, d, f, r) < 256 {
      assert Cast(cfg)(b, d, f, r) == cfg(b, d, f, Card32(r));
    }
  }

  /** Up to 2^32 the cast changes nothing, and from there on the low registers are read again. */
  lemma CastBytes(cfg: ConfigSpace, s: Slot, r: nat, n: nat)
    requires r + n <= 0x1_0000_0000
    ensures Bytes(Cast(cfg), s, r, n) == Bytes(cfg, s, r, n) == Bytes(Cast(cfg), s, 0x1_0000_0000 + r, n)
  {
    hide Bytes;
    var low, cast, high := Bytes(cfg, s, r, n), Bytes(Cast(cfg), s, r, n), Bytes(Cast(cfg), s, 0x1_0000_0000 + r, n);
    forall i | 0 <= i < n ensures high[i] == low[i] && cast[i] == low[i] {
      assert Card32(0x1_0000_0000 + (r + i)) == Card32(r + i) == r + i;
    }
    assert cast == low && high == low;
  }

  /** The body of the loop: read the dword that holds register r, shift it down to r, store n bytes of it. */
  method NetbsdChunk(cfg: ConfigSpace, fails: (Slot, nat) -> int, s: Slot, r: nat, data: array<nat>, at: nat, n: nat,
                     ghost from: nat, ghost was: seq<nat>)
    returns (err: int)
    requires ByteSpace(cfg) && n <= 4 - Low2(r) && at + n <= data.Length == |was|
    requires r == from + at && Progress(Cast(cfg), CastErrors(fails), s, from, at, was, data[..])
    modifies data
    ensures err == DwordError(CastErrors(fails), s, r)
    ensures Progress(Cast(cfg), CastErrors(fails), s, from, if err == 0 then at + n else at, was, data[..])
  {
    hide Bytes, ByteOf, ShiftDown, Dword, Low2, Readable, Cast, ByteSpace;
    var reg := Card32(r - Low2(r));
    LowCleared(r);
    DwordCast(cfg, s, r - Low2(r));
    CastIsByteSpace(cfg);
    err := fails(s, reg);
    if err == 0 {
      ghost var before := data[..];
      var rval := ShiftDown(Dword(cfg, s, reg), Low2(r));
      StoreValue(data, at, rval, n);
      ChunkStored(Cast(cfg), s, r, at, n, before, data[..]);
      BytesJoin(Cast(cfg), s, from, at, n, was, before, data[..]);
      MoreRead(CastErrors(fails), s, from, r, n);
    }
  }

  lemma LowCleared(r: nat)
    ensures (r - Low2(r)) % 4 == 0
  {}

  /** pci_device_netbsd_read; fails(s, reg) is the error of the kernel's dword read, 0 if it works. */
  method NetbsdRead(cfg: ConfigSpace, fails: (Slot, nat) -> int, s: Slot, data: array<nat>, offset: nat, size: nat)
    returns (err: int, bytesRead: nat)
    requires ByteSpace(cfg) && size <= data.Length
    modifies data
    ensures bytesRead <= size
    ensures data[..] == Bytes(Cast(cfg), s, offset, bytesRead) + old(data[bytesRead..])
    ensures err == 0 ==> bytesRead == size
    ensures err != 0 ==> bytesRead < size && err == DwordError(CastErrors(fails), s, offset + bytesRead)
    ensures Readable(CastErrors(fails), s, offset, offset + bytesRead)
  {
    hide Bytes, Low2, Readable, Progress, ByteSpace, DwordError, Cast, CastErrors;
    ghost var was := data[..];
    bytesRead := 0;
    var off, left := offset, size;
    NoneRead(Cast(cfg), CastErrors(fails), s, offset, was);
    while left > 0
      invariant 0 <= left && off == offset + bytesRead && bytesRead + left == size
      invariant Progress(Cast(cfg), CastErrors(fails), s, offset, bytesRead, was, data[..])
      decreases left
    {
      var toread := if left < 4 - Low2(off) then left else 4 - Low2(off);
      err := NetbsdChunk(cfg, fails, s, off, data, bytesRead, toread, offset, was);
      if err != 0 {
        ProgressMeans(Cast(cfg), CastErrors(fails), s, offset, bytesRead, was, data[..]);
        return;
      }
      off, left, bytesRead := off + toread, left - toread, bytesRead + toread;
    }
    ProgressMeans(Cast(cfg), CastErrors(fails), s, offset, bytesRead, was, data[..]);
    err := 0;
  }

  lemma ProgressMeans(cfg: ConfigSpace, fails: (Slot, nat) -> int, s: Slot, from: nat, done: nat,
                      was: seq<nat>, now: seq<nat>)
    requires Progress(cfg, fails, s, from, done, was, now)
    ensures done <= |was| && now == Bytes(cfg, s, from, done) + was[done..] && Readable(fails, s, from, from + done)
  {}

  lemma NoneRead(cfg: ConfigSpace, fails: (Slot, nat) -> int, s: Slot, from: nat, was: seq<nat>)
    ensures Progress(cfg, fails, s, from, 0, was, was)
  {}

  lemma SameDword(off: nat, r: nat)
    requires off <= r < off + (4 - Low2(off))
    ensures r - Low2(r) == off - Low2(off)
  {}

  lemma MoreRead(fails: (Slot, nat) -> int, s: Slot, from: nat, off: nat, toread: nat)
    requires from <= off && Readable(fails, s, from, off) && toread <= 4 - Low2(off)
    requires DwordError(fails, s, off) == 0
    ensures Readable(fails, s, from, off + toread)
  {
    hide Low2;
    forall r: nat | off <= r < off + toread
      ensures DwordError(fails, s, r) == 0
    {
      SameDword(off, r);
    }
  }

  lemma DwordByte(cfg: ConfigSpace, s: Slot, off: nat, k: nat)
    requires ByteSpace(cfg) && Low2(off) + k < 4
    ensures ByteOf(ShiftDown(Dword(cfg, s, off - Low2(off)), Low2(off)), k) == cfg(s.bus, s.dev, s.func, off + k)
  {
    var reg := off - Low2(off);
    ShiftedByte(cfg(s.bus, s.dev, s.func, reg), cfg(s.bus, s.dev, s.func, reg + 1),
                cfg(s.bus, s.dev, s.func, reg + 2), cfg(s.bus, s.dev, s.func, reg + 3), Low2(off), k);
    hide ByteOf, ShiftDown;
  }

  /** The shifted dword, stored byte by byte, is the next chunk of configuration space. */
  lemma ChunkStored(cfg: ConfigSpace, s: Slot, r: nat, at: nat, m: nat, before: seq<nat>, after: seq<nat>)
    requires ByteSpace(cfg) && Low2(r) + m <= 4
    requires |after| == |before| && at + m <= |before|
    requires forall k :: at <= k < at + m ==> after[k] == ByteOf(ShiftDown(Dword(cfg, s, r - Low2(r)), Low2(r)), k - at)
    requires forall k :: 0 <= k < |before| && !(at <= k < at + m) ==> after[k] == before[k]
    ensures after == before[..at] + Bytes(cfg, s, r, m) + before[at + m..]
  {
    hide ByteOf, ShiftDown, Dword;
    var right := before[..at] + Bytes(cfg, s, r, m) + before[at + m..];
    forall k | at <= k < at + m ensures after[k] == right[k] {
      DwordByte(cfg, s, r, k - at);
    }
  }

  /** The two back ends on one buffer: they never deliver different bytes, and where the kernel refuses nothing the
      NetBSD loop differs from mechanism #1, inside a valid function, only by delivering a three-byte end as well. */
  lemma BackEndsAgree(cfg: ConfigSpace, s: Slot, offset: nat, size: nat, was: seq<nat>, x86: seq<nat>, netbsd: seq<nat>,
                      netbsdRead: nat)
    requires size <= |was| && netbsdRead <= size
    requires var n := Conf1Done(s, offset, size); x86 == Bytes(cfg, s, offset, n) + was[n..]
    requires netbsd == Bytes(Cast(cfg), s, offset, netbsdRead) + was[netbsdRead..]
    ensures forall k :: 0 <= k < netbsdRead && k < Conf1Done(s, offset, size) ==> x86[k] == netbsd[k]
    ensures netbsdRead == size && ValidSlot(s) && offset + size <= 0x100 ==>
              var n := if size >= 3 && (offset + size) % 4 == 3 then size - 3 else size;
              x86 == netbsd[..n] + was[n..size] + netbsd[size..]
  {
    hide Bytes, Conf1Done, Cast;
    var n := Conf1Done(s, offset, size);
    Conf1End(s, offset, size);
    forall k | 0 <= k < netbsdRead && k < n ensures x86[k] == netbsd[k] {
      CastLow(cfg, s, offset + k);
    }
    if netbsdRead == size && ValidSlot(s) && offset + size <= 0x100 {
      CastBytes(cfg, s, offset, size);
      PrefixBytes(cfg, s, offset, n, size);
      PrefixLeft(Bytes(cfg, s, offset, n), Bytes(cfg, s, offset, size), was);
    }
  }

  lemma PrefixBytes(cfg: ConfigSpace, s: Slot, r: nat, n: nat, m: nat)
    requires n <= m
    ensures Bytes(cfg, s, r, n) == Bytes(cfg, s, r, m)[..n]
  {
    hide Bytes;
  }

  lemma PrefixLeft(few: seq<nat>, more: seq<nat>, was: seq<nat>)
    requires |few| <= |more| <= |was| && few == more[..|few|]
    ensures var netbsd := more + was[|more|..];
            few + was[|few|..] == netbsd[..|few|] + was[|few|..|more|] + netbsd[|more|..]
  {}

  lemma CastLow(cfg: ConfigSpace, s: Slot, r: nat)
    requires r < 0x100
    ensures Cast(cfg)(s.bus, s.dev, s.func, r) == cfg(s.bus, s.dev, s.func, r)
  {
    assert Card32(r) == r;
  }

  /** Mechanism #1 delivers registers of the function only, and all but a three-byte end of a range inside it. */
  lemma Conf1End(s: Slot, offset: nat, size: nat)
    ensures Conf1Done(s, offset, size) > 0 ==> offset + Conf1Done(s, offset, size) <= 0x100
    ensures ValidSlot(s) && offset + size <= 0x100 ==>
              Conf1Done(s, offset, size) == if size >= 3 && (offset + size) % 4 == 3 then size - 3 else size
  {}
}
