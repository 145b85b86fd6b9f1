/** The bus scan in register numbers: what is listed, and the listings of two small machines. */
module PciRegisters {
  import opened PciConfig
  import opened PciScan
  import opened PciTopology

  // ----- the registers -----

  /** A function is present if its device has that many functions, as bit 7 of register 0x0E of function 0 says, and its
      vendor id, registers 0 and 1, is neither 0 nor 0xFFFF. */
  lemma FoundMeans(cfg: ConfigSpace, s: Slot)
    requires ByteSpace(cfg)
    ensures Found(cfg, s) <==>
              && s.dev < 32 && s.func < (if cfg(s.bus, s.dev, 0, 0x0E) % 256 >= 128 then 8 else 1)
              && cfg(s.bus, s.dev, s.func, 0) + 256 * cfg(s.bus, s.dev, s.func, 1) !in {0, 65535}
  {
    var b0, b1 := cfg(s.bus, s.dev, s.func, 0), cfg(s.bus, s.dev, s.func, 1);
    VendorBytes(b0, b1, cfg(s.bus, s.dev, s.func, 2), cfg(s.bus, s.dev, s.func, 3));
    HighBit(cfg(s.bus, s.dev, 0, 0x0E));
  }

  lemma VendorBytes(b0: nat, b1: nat, b2: nat, b3: nat)
    requires b0 < 256 && b1 < 256
    ensures (b0 + 0x100 * b1 + 0x1_0000 * b2 + 0x100_0000 * b3) % 0x1_0000 == b0 + 256 * b1
  {
    assert b0 + 0x100 * b1 + 0x1_0000 * b2 + 0x100_0000 * b3 == 0x1_0000 * (b2 + 0x100 * b3) + (b0 + 256 * b1);
  }

  lemma HighBit(v: nat)
    requires v < 256
    ensures v / 0x80 % 2 == 1 <==> v % 256 >= 128
  {}

  /** A bridge is a present function with 1 or 2 in the low bits of register 0x0E, and leads to the bus in 0x19. */
  lemma BridgeMeans(cfg: ConfigSpace, s: Slot)
    ensures Bridge(cfg, s) <==> Found(cfg, s) && cfg(s.bus, s.dev, s.func, 0x0E) % 4 in {1, 2}
    ensures Secondary(cfg, s) == cfg(s.bus, s.dev, s.func, 0x19)
  {
    hide Found;
  }

  /** A listed function is described by its place, and by the class in registers 9 to 11. */
  lemma DescribeMeans(cfg: ConfigSpace, s: Slot)
    requires ByteSpace(cfg)
    ensures Describe(cfg, s)
         == PciDevice(0, s.bus, s.dev, s.func, cfg(s.bus, s.dev, s.func, 9) + 256 * cfg(s.bus, s.dev, s.func, 10)
                                                + 65536 * cfg(s.bus, s.dev, s.func, 11))
  {
    var b0, b1, b2, b3 :=
      cfg(s.bus, s.dev, s.func, 8), cfg(s.bus, s.dev, s.func, 9), cfg(s.bus, s.dev, s.func, 10), cfg(s.bus, s.dev, s.func, 11);
    assert b0 + 0x100 * b1 + 0x1_0000 * b2 + 0x100_0000 * b3 == 0x100 * (b1 + 0x100 * b2 + 0x1_0000 * b3) + b0;
  }

  // ----- what is listed -----

  /** A scan without a failure, from a position of a bus on. */
  ghost predicate Lists(cfg: ConfigSpace, probe: Slot -> int, depth: nat, bus: nat, pos: nat, ss: seq<Slot>)
    requires pos <= 256
  {
    DepthScan(cfg, probe, depth, bus, pos) == Ended(ss, 0)
  }

  /** It lists what is at the position, all behind it if that is a bridge, and what comes after it. */
  lemma ListParts(cfg: ConfigSpace, probe: Slot -> int, depth: nat, bus: nat, pos: nat, ss: seq<Slot>)
    returns (below: seq<Slot>, rest: seq<Slot>)
    requires pos < 256 && Lists(cfg, probe, depth, bus, pos, ss)
    ensures depth > 0 && Lists(cfg, probe, depth, bus, pos + 1, rest)
    ensures ss == (if Found(cfg, SlotAt(bus, pos)) then [SlotAt(bus, pos)] else []) + below + rest
    ensures if Bridge(cfg, SlotAt(bus, pos)) then Lists(cfg, probe, depth - 1, Secondary(cfg, SlotAt(bus, pos)), 0, below)
            else below == []
  {
    hide Found;
    var here := DepthAt(cfg, probe, depth, bus, pos);
    rest := DepthScan(cfg, probe, depth, bus, pos + 1).slots;
    var s := SlotAt(bus, pos);
    BridgeIsFound(cfg, s);
    if Bridge(cfg, s) {
      below := DepthScan(cfg, probe, depth - 1, Secondary(cfg, s), 0).slots;
    } else {
      below := [];
    }
  }

  /** Every function present on the bus is listed. */
  lemma {:induction false} BusListed(cfg: ConfigSpace, probe: Slot -> int, depth: nat, bus: nat, pos: nat, ss: seq<Slot>, x: Slot)
    requires pos <= 256 && Lists(cfg, probe, depth, bus, pos, ss)
    requires Found(cfg, x) && x.bus == bus && pos <= PosOf(x)
    ensures x in ss
    decreases 256 - pos
  {
    hide Found, Bridge, Lists, SlotAt, PosOf;
    FoundPlace(cfg, x);
    var below, rest := ListParts(cfg, probe, depth, bus, pos, ss);
    if pos < PosOf(x) {
      BusListed(cfg, probe, depth, bus, pos + 1, rest, x);
    }
  }

  /** Behind a listed bridge, every function present on its bus is listed. */
  lemma {:induction false} BehindListed(cfg: ConfigSpace, probe: Slot -> int, depth: nat, bus: nat, pos: nat, ss: seq<Slot>,
                                        s: Slot, x: Slot)
    requires pos <= 256 && Lists(cfg, probe, depth, bus, pos, ss)
    requires s in ss && Bridge(cfg, s) && Found(cfg, x) && x.bus == Secondary(cfg, s)
    ensures x in ss
    decreases depth, 256 - pos
  {
    hide Found, Bridge, SlotAt, PosOf;
    if pos == 256 {
      assert false;
    } else {
      var below, rest := ListParts(cfg, probe, depth, bus, pos, ss);
      hide Lists;
      if s in below {
        BehindListed(cfg, probe, depth - 1, Secondary(cfg, SlotAt(bus, pos)), 0, below, s, x);
      } else if s in rest {
        BehindListed(cfg, probe, depth, bus, pos + 1, rest, s, x);
      } else {
        FoundPlace(cfg, x);
        NotNegative(x);
        BusListed(cfg, probe, depth - 1, Secondary(cfg, s), 0, below, x);
      }
    }
  }

  lemma NotNegative(x: Slot)
    ensures 0 <= PosOf(x)
  {}

  /** Whatever is listed is present, and on the first bus or behind a listed bridge. */
  lemma {:induction false} ListedBehind(cfg: ConfigSpace, probe: Slot -> int, depth: nat, bus: nat, pos: nat, ss: seq<Slot>, x: Slot)
    requires pos <= 256 && Lists(cfg, probe, depth, bus, pos, ss) && x in ss
    ensures Found(cfg, x)
    ensures x.bus == bus || exists s :: s in ss && Bridge(cfg, s) && Secondary(cfg, s) == x.bus
    decreases depth, 256 - pos
  {
    hide Found, Bridge, PosOf;
    if pos == 256 {
      assert false;
    } else {
      var below, rest := ListParts(cfg, probe, depth, bus, pos, ss);
      hide Lists;
      if x in below {
        ListedBehind(cfg, probe, depth - 1, Secondary(cfg, SlotAt(bus, pos)), 0, below, x);
        if x.bus != Secondary(cfg, SlotAt(bus, pos)) {
          var s :| s in below && Bridge(cfg, s) && Secondary(cfg, s) == x.bus;
          assert s in ss;
        } else {
          BridgeIsFound(cfg, SlotAt(bus, pos));
          assert SlotAt(bus, pos) in ss;
        }
      } else if x in rest {
        ListedBehind(cfg, probe, depth, bus, pos + 1, rest, x);
      }
    }
  }

  /**
   * A scan that ends without a failure lists exactly the functions present on its bus, and on each bus that is in
   * register 0x19 of a listed function with 1 or 2 in the low bits of register 0x0E.
   */
  lemma ListedExactly(cfg: ConfigSpace, probe: Slot -> int, depth: nat, root: nat, ss: seq<Slot>, x: Slot)
    requires ByteSpace(cfg) && DepthScan(cfg, probe, depth, root, 0) == Ended(ss, 0)
    ensures x in ss <==>
      && x.dev < 32 && x.func < (if cfg(x.bus, x.dev, 0, 0x0E) >= 128 then 8 else 1)
      && cfg(x.bus, x.dev, x.func, 0) + 256 * cfg(x.bus, x.dev, x.func, 1) !in {0, 65535}
      && (x.bus == root ||
          exists s :: s in ss && cfg(s.bus, s.dev, s.func, 0x0E) % 4 in {1, 2} && cfg(s.bus, s.dev, s.func, 0x19) == x.bus)
  {
    hide Found, Bridge, DepthScan;
    assert Lists(cfg, probe, depth, root, 0, ss);
    FoundMeans(cfg, x);
    assert cfg(x.bus, x.dev, 0, 0x0E) < 256;
    if x in ss {
      ListedBehind(cfg, probe, depth, root, 0, ss, x);
      if s :| x.bus != root && s in ss && Bridge(cfg, s) && Secondary(cfg, s) == x.bus {
        BridgeMeans(cfg, s);
      }
    } else if Found(cfg, x) {
      if x.bus == root {
        NotNegative(x);
        BusListed(cfg, probe, depth, root, 0, ss, x);
      }
      if s :| s in ss && cfg(s.bus, s.dev, s.func, 0x0E) % 4 in {1, 2} && cfg(s.bus, s.dev, s.func, 0x19) == x.bus {
        ListedBehind(cfg, probe, depth, root, 0, ss, s);
        BridgeMeans(cfg, s);
        BehindListed(cfg, probe, depth, root, 0, ss, s, x);
      }
    }
  }

  // ----- a machine with nested bridges -----

  /** Bridge 00:00.0 from bus 0 to bus 1 (and up to 2), bridge 01:00.0 from bus 1 to bus 2, a device 02:00 of two
      functions, and a device 00:02.0. */
  function Nested(b: nat, d: nat, f: nat, r: nat): nat {
    if (b, d, f) !in {(0, 0, 0), (1, 0, 0), (2, 0, 0), (2, 0, 1), (0, 2, 0)} then 0xFF
    else if r == 0x00 then 0x86
    else if r == 0x01 then 0x80
    else if (b, d, f) == (0, 0, 0) then Byte(r, [0x00, 0x04, 0x06], 0x01, [0, 1, 2])
    else if (b, d, f) == (1, 0, 0) then Byte(r, [0x00, 0x04, 0x06], 0x02, [1, 2, 2])
    else if (b, d, f) == (0, 2, 0) then Byte(r, [0x30, 0x03, 0x0C], 0x00, [7, 7, 7])
    else Byte(r, [0x00, 0x00, 0x02], 0x80, [9, 9, 9])
  }

  /** The class registers 9 to 11, the header type 0x0E and the bus numbers 0x18 to 0x1A. */
  function Byte(r: nat, classBytes: seq<nat>, header: nat, buses: seq<nat>): nat
    requires |classBytes| == |buses| == 3
  {
    if 9 <= r < 12 then classBytes[r - 9] else if r == 0x0E then header else if 0x18 <= r < 0x1B then buses[r - 0x18] else 0
  }

  lemma {:induction false} Gap(cfg: ConfigSpace, probe: Slot -> int, depth: nat, bus: nat, pos: nat, to: nat)
    requires depth > 0 && pos <= to <= 256 && forall p: nat :: pos <= p < to ==> !Found(cfg, SlotAt(bus, p))
    ensures DepthScan(cfg, probe, depth, bus, pos) == DepthScan(cfg, probe, depth, bus, to)
    decreases 256 - pos
  {
    hide Found, SlotAt;
    if pos < to {
      assert !Found(cfg, SlotAt(bus, pos));
      Gap(cfg, probe, depth, bus, pos + 1, to);
    }
  }

  lemma NestedFound(s: Slot)
    ensures Found(Nested, s) <==> s in {Slot(0, 0, 0), Slot(1, 0, 0), Slot(2, 0, 0), Slot(2, 0, 1), Slot(0, 2, 0)}
  {
    assert Dword(Nested, s, 0) % 0x1_0000 == Nested(s.bus, s.dev, s.func, 0) + 0x100 * Nested(s.bus, s.dev, s.func, 1);
  }

  lemma NestedAt(bus: nat, p: nat)
    ensures Found(Nested, SlotAt(bus, p)) <==> (bus == 0 && p in {0, 16}) || (bus == 1 && p == 0) || (bus == 2 && p in {0, 1})
  {
    hide Found, Nested;
    NestedFound(SlotAt(bus, p));
    assert p == 8 * (p / 8) + p % 8;
  }

  /** The listing of bus 2, of bus 1 with all below it, and of the machine; err is the error of the last set-up. */
  function Bus2(err: int): Result {
    if err == 0 then Ended([Slot(2, 0, 0), Slot(2, 0, 1)], 0) else Ended([Slot(2, 0, 0)], err)
  }

  function Bus1(err: int): Result {
    if err == 0 then Ended([Slot(1, 0, 0), Slot(2, 0, 0), Slot(2, 0, 1)], 0)
    else Ended([Slot(1, 0, 0), Slot(2, 0, 0)], err)
  }

  function Bus0(err: int): Result {
    if err == 0 then Ended([Slot(0, 0, 0), Slot(1, 0, 0), Slot(2, 0, 0), Slot(2, 0, 1), Slot(0, 2, 0)], 0)
    else Ended([Slot(0, 0, 0), Slot(1, 0, 0), Slot(2, 0, 0)], err)
  }

  lemma Joins(err: int)
    ensures Then(Then(Ended([Slot(1, 0, 0)], 0), Bus2(err)), Ended([], 0)) == Bus1(err)
    ensures Then(Then(Ended([Slot(0, 0, 0)], 0), Bus1(err)), Ended([Slot(0, 2, 0)], 0)) == Bus0(err)
    ensures Then(Ended([Slot(2, 0, 0)], 0), if err != 0 then Ended([], err) else Ended([Slot(2, 0, 1)], 0)) == Bus2(err)
  {}

  /** Two nested bridges, two functions behind them, and one function after them. */
  ghost predicate Shaped(cfg: ConfigSpace) {
    && (forall bus: nat, p: nat :: Found(cfg, SlotAt(bus, p)) <==>
          (bus == 0 && p in {0, 16}) || (bus == 1 && p == 0) || (bus == 2 && p in {0, 1}))
    && Found(cfg, Slot(0, 0, 0)) && Bridge(cfg, Slot(0, 0, 0)) && Secondary(cfg, Slot(0, 0, 0)) == 1
    && Found(cfg, Slot(1, 0, 0)) && Bridge(cfg, Slot(1, 0, 0)) && Secondary(cfg, Slot(1, 0, 0)) == 2
    && Found(cfg, Slot(2, 0, 0)) && !Bridge(cfg, Slot(2, 0, 0))
    && Found(cfg, Slot(2, 0, 1)) && !Bridge(cfg, Slot(2, 0, 1))
    && Found(cfg, Slot(0, 2, 0)) && !Bridge(cfg, Slot(0, 2, 0))
  }

  /** Its listing: depth first, by device and function; and if a set-up fails, what comes before it, and the error. */
  lemma ShapedListing(cfg: ConfigSpace, probe: Slot -> int)
    requires Shaped(cfg) && forall s: Slot :: s != Slot(2, 0, 1) ==> probe(s) == 0
    ensures DepthScan(cfg, probe, 4, 0, 0) == Bus0(probe(Slot(2, 0, 1)))
  {
    hide Found, Bridge, Secondary, DepthScan, PosOf, Bus0, Bus1, Bus2, Then;
    PositionIs(Slot(0, 0, 0), 0, 0, 0);
    PositionIs(Slot(0, 2, 0), 2, 0, 16);
    ShapedBus1(cfg, probe);
    Gap(cfg, probe, 4, 0, 1, 16);
    Gap(cfg, probe, 4, 0, 17, 256);
    Alone(cfg, probe, 4, Slot(0, 2, 0));
    ScanStep(cfg, probe, 4, Slot(0, 0, 0));
    Joins(probe(Slot(2, 0, 1)));
  }

  lemma ShapedBus1(cfg: ConfigSpace, probe: Slot -> int)
    requires Shaped(cfg) && forall s: Slot :: s != Slot(2, 0, 1) ==> probe(s) == 0
    ensures DepthScan(cfg, probe, 3, 1, 0) == Bus1(probe(Slot(2, 0, 1)))
  {
    hide Found, Bridge, Secondary, DepthScan, PosOf, Bus1, Bus2, Then;
    PositionIs(Slot(1, 0, 0), 0, 0, 0);
    ShapedBus2(cfg, probe);
    Gap(cfg, probe, 3, 1, 1, 256);
    ScanStep(cfg, probe, 3, Slot(1, 0, 0));
    Ends256(cfg, probe, 3, 1);
    Joins(probe(Slot(2, 0, 1)));
  }

  lemma ShapedBus2(cfg: ConfigSpace, probe: Slot -> int)
    requires Shaped(cfg) && forall s: Slot :: s != Slot(2, 0, 1) ==> probe(s) == 0
    ensures DepthScan(cfg, probe, 2, 2, 0) == Bus2(probe(Slot(2, 0, 1)))
  {
    hide Found, Bridge, Secondary, DepthScan, PosOf, Bus2, Then;
    PositionIs(Slot(2, 0, 0), 0, 0, 0);
    PositionIs(Slot(2, 0, 1), 0, 1, 1);
    Gap(cfg, probe, 2, 2, 2, 256);
    ScanStep(cfg, probe, 2, Slot(2, 0, 0));
    Alone(cfg, probe, 2, Slot(2, 0, 1));
    Joins(probe(Slot(2, 0, 1)));
  }

  lemma PositionIs(s: Slot, dev: nat, func: nat, pos: nat)
    requires s.dev == dev && s.func == func && pos == 8 * dev + func
    ensures PosOf(s) == pos
  {}

  lemma NestedListing(probe: Slot -> int)
    requires forall s: Slot :: s != Slot(2, 0, 1) ==> probe(s) == 0
    ensures DepthScan(Nested, probe, 4, 0, 0) == Bus0(probe(Slot(2, 0, 1)))
  {
    hide Found, Bridge, Secondary, DepthScan, Bus0, Nested;
    NestedSays();
    assert Shaped(Nested) by {
      forall bus: nat, p: nat
        ensures Found(Nested, SlotAt(bus, p)) <==>
                  (bus == 0 && p in {0, 16}) || (bus == 1 && p == 0) || (bus == 2 && p in {0, 1})
      {
        NestedAt(bus, p);
      }
    }
    ShapedListing(Nested, probe);
  }

  lemma NestedSays()
    ensures ByteSpace(Nested)
    ensures Found(Nested, Slot(0, 0, 0)) && Bridge(Nested, Slot(0, 0, 0)) && Secondary(Nested, Slot(0, 0, 0)) == 1
    ensures Found(Nested, Slot(1, 0, 0)) && Bridge(Nested, Slot(1, 0, 0)) && Secondary(Nested, Slot(1, 0, 0)) == 2
    ensures Found(Nested, Slot(2, 0, 0)) && !Bridge(Nested, Slot(2, 0, 0))
    ensures Found(Nested, Slot(2, 0, 1)) && !Bridge(Nested, Slot(2, 0, 1))
    ensures Found(Nested, Slot(0, 2, 0)) && !Bridge(Nested, Slot(0, 2, 0))
  {
    hide Found;
    NestedFound(Slot(0, 0, 0));
    NestedFound(Slot(1, 0, 0));
    NestedFound(Slot(2, 0, 0));
    NestedFound(Slot(2, 0, 1));
    NestedFound(Slot(0, 2, 0));
  }

  /** The scan from a function that is present on. */
  lemma ScanStep(cfg: ConfigSpace, probe: Slot -> int, depth: nat, s: Slot)
    requires depth > 0 && Found(cfg, s)
    ensures PosOf(s) < 256
    ensures var rest := DepthScan(cfg, probe, depth, s.bus, PosOf(s) + 1);
            DepthScan(cfg, probe, depth, s.bus, PosOf(s))
            == if probe(s) != 0 then Ended([], probe(s))
               else if !Bridge(cfg, s) then Then(Ended([s], 0), rest)
               else Then(Then(Ended([s], 0), DepthScan(cfg, probe, depth - 1, Secondary(cfg, s), 0)), rest)
  {
    hide Found, Bridge, Secondary;
    FoundPlace(cfg, s);
  }

  lemma Ends256(cfg: ConfigSpace, probe: Slot -> int, depth: nat, bus: nat)
    requires depth > 0
    ensures DepthScan(cfg, probe, depth, bus, 256) == Ended([], 0)
  {}

  /** The last function of a bus, if it is no bridge. */
  lemma Alone(cfg: ConfigSpace, probe: Slot -> int, depth: nat, s: Slot)
    requires depth > 0 && Found(cfg, s) && !Bridge(cfg, s) && PosOf(s) < 256
    requires DepthScan(cfg, probe, depth, s.bus, PosOf(s) + 1) == DepthScan(cfg, probe, depth, s.bus, 256)
    ensures DepthScan(cfg, probe, depth, s.bus, PosOf(s)) == if probe(s) != 0 then Ended([], probe(s)) else Ended([s], 0)
  {
    hide Found, Bridge, Secondary, DepthScan;
    ScanStep(cfg, probe, depth, s);
    Ends256(cfg, probe, depth, s.bus);
  }

  /** The devices that a scan of it leaves behind, with their classes. */
  lemma NestedDevices()
    ensures ByteSpace(Nested)
    ensures DescribeAll(Nested, [Slot(0, 0, 0), Slot(1, 0, 0), Slot(2, 0, 0), Slot(2, 0, 1), Slot(0, 2, 0)])
         == [PciDevice(0, 0, 0, 0, 0x06_0400), PciDevice(0, 1, 0, 0, 0x06_0400), PciDevice(0, 2, 0, 0, 0x02_0000),
             PciDevice(0, 2, 0, 1, 0x02_0000), PciDevice(0, 0, 2, 0, 0x0C_0330)]
  {
    hide Found;
    NestedSays();
    DescribeMeans(Nested, Slot(0, 0, 0));
    DescribeMeans(Nested, Slot(1, 0, 0));
    DescribeMeans(Nested, Slot(2, 0, 0));
    DescribeMeans(Nested, Slot(2, 0, 1));
    DescribeMeans(Nested, Slot(0, 2, 0));
    hide Describe;
  }

  /** The code on that machine. */
  method ScanNested(beyond: nat -> nat, probe: Slot -> int) returns (devices: seq<PciDevice>, err: int)
    requires forall s: Slot :: probe(s) == 0
    ensures err == 0
    ensures devices == [PciDevice(0, 0, 0, 0, 0x06_0400), PciDevice(0, 1, 0, 0, 0x06_0400), PciDevice(0, 2, 0, 0, 0x02_0000),
                        PciDevice(0, 2, 0, 1, 0x02_0000), PciDevice(0, 0, 2, 0, 0x0C_0330)]
  {
    hide DepthScan, Nested, DescribeAll;
    var ports := new Ports(Nested, beyond);
    var system := new PciSystem(ports, probe);
    NestedListing(probe);
    NestedDevices();
    err := system.ScanBus(0, 4);
    devices := system.devices;
  }
}
