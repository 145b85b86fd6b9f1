/** The recursive bus scan: which functions it lists, in what order, how often, and when it ends. */
module PciScan {
  import opened PciConfig

  const PCI_VENDOR_INVALID: nat := 0xFFFF
  const PCI_VENDOR_ID: nat := 0x00
  const PCI_CLASS: nat := 0x08
  const PCI_HDRTYPE: nat := 0x0E
  const PCI_SECONDARY_BUS: nat := 0x19
  const PCI_HDRTYPE_BRIDGE: nat := 1
  const PCI_HDRTYPE_CARDBUS: nat := 2

  datatype PciDevice = PciDevice(domain: nat, bus: nat, dev: nat, func: nat, deviceClass: nat)

  // ----- what the registers say -----

  function Header(cfg: ConfigSpace, s: Slot): nat {
    cfg(s.bus, s.dev, s.func, PCI_HDRTYPE)
  }

  /** pci_nfuncs: eight if function 0 says the device is multi-function. */
  function NFuncs(cfg: ConfigSpace, bus: nat, dev: nat): nat {
    if Header(cfg, Slot(bus, dev, 0)) / 0x80 % 2 == 1 then 8 else 1
  }

  function Vendor(cfg: ConfigSpace, s: Slot): nat {
    Dword(cfg, s, PCI_VENDOR_ID) % 0x1_0000
  }

  /** A function the scan lists: within the device's function count, and with a valid vendor. */
  predicate Found(cfg: ConfigSpace, s: Slot) {
    && s.dev < 32 && s.func < NFuncs(cfg, s.bus, s.dev)
    && Vendor(cfg, s) != PCI_VENDOR_INVALID && Vendor(cfg, s) != 0
  }

  /** A listed function that leads to another bus. */
  predicate Bridge(cfg: ConfigSpace, s: Slot) {
    Found(cfg, s) && (Header(cfg, s) % 4 == PCI_HDRTYPE_BRIDGE || Header(cfg, s) % 4 == PCI_HDRTYPE_CARDBUS)
  }

  function Secondary(cfg: ConfigSpace, s: Slot): nat {
    cfg(s.bus, s.dev, s.func, PCI_SECONDARY_BUS)
  }

  function Describe(cfg: ConfigSpace, s: Slot): PciDevice {
    PciDevice(0, s.bus, s.dev, s.func, Dword(cfg, s, PCI_CLASS) / 0x100)
  }

  function DescribeAll(cfg: ConfigSpace, ss: seq<Slot>): (ds: seq<PciDevice>)
    ensures |ds| == |ss|
    ensures forall i :: 0 <= i < |ss| ==> ds[i] == Describe(cfg, ss[i])
  {
    seq(|ss|, i requires 0 <= i < |ss| => Describe(cfg, ss[i]))
  }

  /** Functions of a bus in scan order: position 8 * dev + func. */
  function SlotAt(bus: nat, pos: nat): Slot {
    Slot(bus, pos / 8, pos % 8)
  }

  function PosOf(s: Slot): nat {
    8 * s.dev + s.func
  }

  // ----- bus numbering without loops -----

  /** `buses` is closed under bridges, and every bridge leads to a bus of smaller rank. */
  ghost predicate Ranked(cfg: ConfigSpace, buses: set<nat>, rank: nat -> nat) {
    forall s: Slot :: s.bus in buses && Bridge(cfg, s) ==>
      Secondary(cfg, s) in buses && Secondary(cfg, s) < 0x100 && rank(Secondary(cfg, s)) < rank(s.bus)
  }

  /** Depth-first order: each function of the bus from `pos` on, a bridge directly followed by all of its bus. */
  ghost function ScanFrom(cfg: ConfigSpace, buses: set<nat>, rank: nat -> nat, bus: nat, pos: nat): seq<Slot>
    requires Ranked(cfg, buses, rank) && bus in buses && pos <= 256
    decreases rank(bus), 256 - pos
  {
    if pos == 256 then []
    else At(cfg, buses, rank, bus, pos) + ScanFrom(cfg, buses, rank, bus, pos + 1)
  }

  ghost function At(cfg: ConfigSpace, buses: set<nat>, rank: nat -> nat, bus: nat, pos: nat): seq<Slot>
    requires Ranked(cfg, buses, rank) && bus in buses && pos < 256
    decreases rank(bus), 256 - pos, 0
  {
    var s := SlotAt(bus, pos);
    if !Found(cfg, s) then []
    else [s] + if Bridge(cfg, s) then ScanFrom(cfg, buses, rank, Secondary(cfg, s), 0) else []
  }

  // ----- device set-up failures -----

  /** The index of the first function whose set-up (probe) fails, or the length. */
  function FirstFailure(probe: Slot -> int, ss: seq<Slot>): (n: nat)
    ensures n <= |ss|
    ensures forall i :: 0 <= i < n ==> probe(ss[i]) == 0
    ensures n < |ss| ==> probe(ss[n]) != 0
  {
    if ss == [] || probe(ss[0]) != 0 then 0 else 1 + FirstFailure(probe, ss[1..])
  }

  predicate AllOk(probe: Slot -> int, ss: seq<Slot>) {
    forall i :: 0 <= i < |ss| ==> probe(ss[i]) == 0
  }

  lemma FailureUnique(probe: Slot -> int, ss: seq<Slot>, n: nat)
    requires n <= |ss| && AllOk(probe, ss[..n]) && (n < |ss| ==> probe(ss[n]) != 0)
    ensures FirstFailure(probe, ss) == n
  {
    forall i | 0 <= i < n ensures probe(ss[i]) == 0 {
      assert ss[..n][i] == ss[i];
    }
  }

  /** What a scan comes to: the functions set up, and the error that ended it, or 0. */
  datatype Result = Ended(slots: seq<Slot>, err: int) | TooDeep

  /** One part of a scan, and the rest of it unless the part fails. */
  function Then(here: Result, rest: Result): Result {
    if here.TooDeep? || here.err != 0 then here
    else if rest.TooDeep? then TooDeep
    else Ended(here.slots + rest.slots, rest.err)
  }

  /** The scan of a list of functions: up to the first whose set-up fails. */
  function UpToFailure(probe: Slot -> int, ss: seq<Slot>): Result {
    var n := FirstFailure(probe, ss);
    Ended(ss[..n], if n < |ss| then probe(ss[n]) else 0)
  }

  lemma {:induction false} FailureJoins(probe: Slot -> int, a: seq<Slot>, b: seq<Slot>)
    ensures UpToFailure(probe, a + b) == Then(UpToFailure(probe, a), UpToFailure(probe, b))
  {
    var m, n := FirstFailure(probe, a), FirstFailure(probe, b);
    if m < |a| {
      FailureUnique(probe, a + b, m);
      assert (a + b)[..m] == a[..m];
    } else {
      assert a[..m] == a;
      assert (a + b)[..|a| + n] == a + b[..n];
      FailureUnique(probe, a + b, |a| + n);
    }
  }

  // ----- the recursion -----

  /** The scan of a bus from position `pos` on, with at most `depth` buses open at a time. */
  function DepthScan(cfg: ConfigSpace, probe: Slot -> int, depth: nat, bus: nat, pos: nat): Result
    requires pos <= 256
    decreases depth, 256 - pos, 1
  {
    if depth == 0 then TooDeep
    else if pos == 256 then Ended([], 0)
    else Then(DepthAt(cfg, probe, depth, bus, pos), DepthScan(cfg, probe, depth, bus, pos + 1))
  }

  /** One function, and the bus behind it if it is a bridge. */
  function DepthAt(cfg: ConfigSpace, probe: Slot -> int, depth: nat, bus: nat, pos: nat): Result
    requires depth > 0 && pos < 256
    decreases depth, 256 - pos, 0
  {
    var s := SlotAt(bus, pos);
    if !Found(cfg, s) then Ended([], 0)
    else if probe(s) != 0 then Ended([], probe(s))
    else if !Bridge(cfg, s) then Ended([s], 0)
    else Then(Ended([s], 0), DepthScan(cfg, probe, depth - 1, Secondary(cfg, s), 0))
  }

  lemma DescribeJoins(cfg: ConfigSpace, a: seq<Slot>, b: seq<Slot>)
    ensures DescribeAll(cfg, a + b) == DescribeAll(cfg, a) + DescribeAll(cfg, b)
  {
    hide Describe;
  }

  /** The devices and the error that a scan leaves. */
  ghost predicate Leaves(cfg: ConfigSpace, r: Result, was: seq<PciDevice>, now: seq<PciDevice>, err: int) {
    r.Ended? && now == was + DescribeAll(cfg, r.slots) && err == r.err
  }

  /** One part more: it ends the scan if it fails, and otherwise the scan goes on behind it. */
  lemma PartDone(cfg: ConfigSpace, all: Result, done: seq<Slot>, here: Result, rest: Result,
                 was: seq<PciDevice>, before: seq<PciDevice>, now: seq<PciDevice>, err: int)
    requires all == Then(Ended(done, 0), Then(here, rest)) && before == was + DescribeAll(cfg, done)
    requires Leaves(cfg, here, before, now, err)
    ensures err != 0 ==> Leaves(cfg, all, was, now, err)
    ensures err == 0 ==> all == Then(Ended(done + here.slots, 0), rest)
    ensures err == 0 ==> now == was + DescribeAll(cfg, done + here.slots)
  {
    hide DescribeAll;
    DescribeJoins(cfg, done, here.slots);
  }

  // ----- the code -----

  /** pci_system: the host bridge's ports, and the devices found so far. `probe` stands for the set-up of one
      function (its BARs and ROM): 0, or the error it ends with. */
  class PciSystem {
    const ports: Ports
    const probe: Slot -> int
    var devices: seq<PciDevice>

    constructor (ports: Ports, probe: Slot -> int)
      ensures this.ports == ports && this.probe == probe && devices == []
    {
      this.ports, this.probe := ports, probe;
      devices := [];
    }

    /** pci_device_cfg_read_u8 and _u32: a read of 1 or 4 aligned bytes inside the 256 registers never fails. */
    method CfgRead(s: Slot, reg: nat, size: nat) returns (value: seq<nat>)
      requires ValidSlot(s) && size in {1, 4} && reg % size == 0 && reg < 0x100
      modifies ports`configAddress
      ensures value == Bytes(ports.cfg, s, reg, size)
      ensures ports.configAddress == old(ports.configAddress)
    {
      var data := new nat[size](_ => 0);
      var err, bytes := ReadConf1(ports, s, data, reg, size);
      assert err == 0 && bytes == size;
      value := data[..];
    }

    method CfgReadU8(s: Slot, reg: nat) returns (v: nat)
      requires ValidSlot(s) && reg < 0x100
      modifies ports`configAddress
      ensures v == ports.cfg(s.bus, s.dev, s.func, reg)
      ensures ports.configAddress == old(ports.configAddress)
    {
      var value := CfgRead(s, reg, 1);
      v := value[0];
    }

    method CfgReadU32(s: Slot, reg: nat) returns (v: nat)
      requires ValidSlot(s) && reg % 4 == 0 && reg < 0x100
      modifies ports`configAddress
      ensures v == Dword(ports.cfg, s, reg)
      ensures ports.configAddress == old(ports.configAddress)
    {
      var value := CfgRead(s, reg, 4);
      v := value[0] + 0x100 * value[1] + 0x1_0000 * value[2] + 0x100_0000 * value[3];
    }

    /** pci_system_x86_scan_bus: appends the bus's functions, and those of every bus below it, in depth-first order,
        up to the first one whose set-up fails. Some depth bounds the recursion: the scan comes to an end. */
    method ScanBus(bus: nat, ghost depth: nat) returns (err: int)
      requires bus < 0x100 && ByteSpace(ports.cfg) && DepthScan(ports.cfg, probe, depth, bus, 0).Ended?
      modifies this`devices, ports`configAddress
      ensures Leaves(ports.cfg, DepthScan(ports.cfg, probe, depth, bus, 0), old(devices), devices, err)
      ensures ports.configAddress == old(ports.configAddress)
      decreases depth, 1
    {
      hide *;
      ghost var cfg, was, all := ports.cfg, devices, DepthScan(ports.cfg, probe, depth, bus, 0);
      ghost var done: seq<Slot> := [];
      NothingDone(cfg, all, was);
      DepthPositive(cfg, probe, depth, bus);
      var dev := 0;
      while dev < 32
        invariant 0 <= dev <= 32
        invariant all == Then(Ended(done, 0), DepthScan(cfg, probe, depth, bus, 8 * dev))
        invariant devices == was + DescribeAll(cfg, done)
        invariant ports.configAddress == old(ports.configAddress)
      {
        SlotHere(bus, dev, 0);
        var hdr := CfgReadU8(Slot(bus, dev, 0), PCI_HDRTYPE);
        var nfuncs := if hdr / 0x80 % 2 == 1 then 8 else 1;
        NFuncsIs(cfg, bus, dev, hdr, nfuncs);
        var func := 0;
        while func < nfuncs
          invariant 0 <= func <= nfuncs
          invariant all == Then(Ended(done, 0), DepthScan(cfg, probe, depth, bus, 8 * dev + func))
          invariant devices == was + DescribeAll(cfg, done)
          invariant ports.configAddress == old(ports.configAddress)
        {
          var s := Slot(bus, dev, func);
          ghost var here := DepthAt(cfg, probe, depth, bus, 8 * dev + func);
          ghost var rest := DepthScan(cfg, probe, depth, bus, 8 * dev + func + 1);
          ghost var before := devices;
          Unfold(cfg, probe, depth, bus, 8 * dev + func, done, all);
          SlotHere(bus, dev, func);
          err := ScanFunction(s, nfuncs, depth);
          PartDone(cfg, all, done, here, rest, was, before, devices, err);
          if err != 0 {
            return;
          }
          done := done + here.slots;
          func := func + 1;
        }
        SkipFuncs(cfg, probe, depth, bus, dev, nfuncs);
        dev := dev + 1;
      }
      NothingLeft(cfg, probe, depth, bus, done, all);
      LeavesAll(cfg, all, done, was, devices);
      err := 0;
    }

    /** The body of the inner loop: list one function, and scan the bus behind it if it is a bridge. */
    method ScanFunction(s: Slot, nfuncs: nat, ghost depth: nat) returns (err: int)
      requires ValidSlot(s) && ByteSpace(ports.cfg) && depth > 0
      requires nfuncs == NFuncs(ports.cfg, s.bus, s.dev) && s.func < nfuncs
      requires DepthAt(ports.cfg, probe, depth, s.bus, PosOf(s)).Ended?
      modifies this`devices, ports`configAddress
      ensures Leaves(ports.cfg, DepthAt(ports.cfg, probe, depth, s.bus, PosOf(s)), old(devices), devices, err)
      ensures ports.configAddress == old(ports.configAddress)
      decreases depth, 0
    {
      hide Leaves, Describe, Dword, DepthScan, ByteSpace;
      ghost var cfg, was := ports.cfg, devices;
      assert SlotAt(s.bus, PosOf(s)) == s;
      var reg := CfgReadU32(s, PCI_VENDOR_ID);
      NothingLeaves(cfg, was);
      if reg % 0x1_0000 == PCI_VENDOR_INVALID || reg % 0x1_0000 == 0 {
        return 0;
      }
      reg := CfgReadU32(s, PCI_CLASS);
      var hdrtype := CfgReadU8(s, PCI_HDRTYPE);
      var d := PciDevice(0, s.bus, s.dev, s.func, reg / 0x100);
      DescribeIs(cfg, s, d);
      err := probe(s);
      if err != 0 {
        FailureLeaves(cfg, err, was);
        return;
      }
      devices := devices + [d];
      OneLeaves(cfg, s, was, devices);
      if hdrtype % 4 == PCI_HDRTYPE_BRIDGE || hdrtype % 4 == PCI_HDRTYPE_CARDBUS {
        var secbus := CfgReadU8(s, PCI_SECONDARY_BUS);
        ghost var before, below := devices, DepthScan(cfg, probe, depth - 1, secbus, 0);
        IsByte(cfg, s.bus, s.dev, s.func, PCI_SECONDARY_BUS);
        err := ScanBus(secbus, depth - 1);
        BridgeLeaves(cfg, s, below, was, before, devices, err);
      }
    }
  }

  lemma NFuncsIs(cfg: ConfigSpace, bus: nat, dev: nat, hdr: nat, nfuncs: nat)
    requires hdr == cfg(bus, dev, 0, PCI_HDRTYPE) && nfuncs == if hdr / 0x80 % 2 == 1 then 8 else 1
    ensures nfuncs == NFuncs(cfg, bus, dev) && nfuncs <= 8
  {}

  lemma SlotHere(bus: nat, dev: nat, func: nat)
    requires bus < 0x100 && dev < 32 && func < 8
    ensures ValidSlot(Slot(bus, dev, func)) && PosOf(Slot(bus, dev, func)) == 8 * dev + func
    ensures PCI_HDRTYPE < 0x100
  {}

  lemma IsByte(cfg: ConfigSpace, b: nat, d: nat, f: nat, r: nat)
    requires ByteSpace(cfg)
    ensures cfg(b, d, f, r) < 0x100
  {}

  lemma DepthPositive(cfg: ConfigSpace, probe: Slot -> int, depth: nat, bus: nat)
    requires DepthScan(cfg, probe, depth, bus, 0).Ended?
    ensures depth > 0
  {}

  lemma NothingDone(cfg: ConfigSpace, all: Result, was: seq<PciDevice>)
    ensures all == Then(Ended([], 0), all) && was == was + DescribeAll(cfg, [])
  {
    if all.Ended? { assert [] + all.slots == all.slots; }
  }

  lemma Unfold(cfg: ConfigSpace, probe: Slot -> int, depth: nat, bus: nat, pos: nat, done: seq<Slot>, all: Result)
    requires depth > 0 && pos < 256 && all.Ended?
    requires all == Then(Ended(done, 0), DepthScan(cfg, probe, depth, bus, pos))
    ensures all == Then(Ended(done, 0), Then(DepthAt(cfg, probe, depth, bus, pos),
                                             DepthScan(cfg, probe, depth, bus, pos + 1)))
    ensures DepthAt(cfg, probe, depth, bus, pos).Ended?
  {
    hide DepthAt;
  }

  lemma NothingLeft(cfg: ConfigSpace, probe: Slot -> int, depth: nat, bus: nat, done: seq<Slot>, all: Result)
    requires depth > 0 && all == Then(Ended(done, 0), DepthScan(cfg, probe, depth, bus, 256))
    ensures all == Ended(done, 0)
  {
    assert done + [] == done;
  }

  lemma LeavesAll(cfg: ConfigSpace, all: Result, done: seq<Slot>, was: seq<PciDevice>, now: seq<PciDevice>)
    requires all == Ended(done, 0) && now == was + DescribeAll(cfg, done)
    ensures Leaves(cfg, all, was, now, 0)
  {}

  lemma DescribeIs(cfg: ConfigSpace, s: Slot, d: PciDevice)
    requires d == PciDevice(0, s.bus, s.dev, s.func, Dword(cfg, s, PCI_CLASS) / 0x100)
    ensures d == Describe(cfg, s)
  {}

  lemma NothingLeaves(cfg: ConfigSpace, was: seq<PciDevice>)
    ensures Leaves(cfg, Ended([], 0), was, was, 0)
  {}

  lemma FailureLeaves(cfg: ConfigSpace, err: int, was: seq<PciDevice>)
    ensures Leaves(cfg, Ended([], err), was, was, err)
  {}

  lemma OneLeaves(cfg: ConfigSpace, s: Slot, was: seq<PciDevice>, now: seq<PciDevice>)
    requires now == was + [Describe(cfg, s)]
    ensures Leaves(cfg, Ended([s], 0), was, now, 0)
  {
    assert DescribeAll(cfg, [s]) == [Describe(cfg, s)];
  }

  lemma BridgeLeaves(cfg: ConfigSpace, s: Slot, below: Result, was: seq<PciDevice>, before: seq<PciDevice>,
                     now: seq<PciDevice>, err: int)
    requires Leaves(cfg, Ended([s], 0), was, before, 0) && Leaves(cfg, below, before, now, err)
    ensures Leaves(cfg, Then(Ended([s], 0), below), was, now, err)
  {
    hide DescribeAll;
    DescribeJoins(cfg, [s], below.slots);
  }

  /** Functions beyond the device's function count are not looked at. */
  lemma {:induction false} SkipFuncs(cfg: ConfigSpace, probe: Slot -> int, depth: nat, bus: nat, dev: nat, func: nat)
    requires depth > 0 && dev < 32 && NFuncs(cfg, bus, dev) <= func <= 8
    ensures DepthScan(cfg, probe, depth, bus, 8 * dev + func) == DepthScan(cfg, probe, depth, bus, 8 * (dev + 1))
    decreases 8 - func
  {
    hide Vendor, Bridge, NFuncs;
    if func < 8 {
      assert SlotAt(bus, 8 * dev + func) == Slot(bus, dev, func);
      SkipFuncs(cfg, probe, depth, bus, dev, func + 1);
      NothingFirst(DepthScan(cfg, probe, depth, bus, 8 * dev + func + 1));
    }
  }

  lemma NothingFirst(rest: Result)
    ensures Then(Ended([], 0), rest) == rest
  {
    if rest.Ended? { assert [] + rest.slots == rest.slots; }
  }
}
