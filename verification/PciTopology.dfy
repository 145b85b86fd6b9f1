/** How often the scan lists each function, and which bus numberings let it end. */
module PciTopology {
  import opened PciConfig
  import opened PciScan

  /** The number of ways to get from bus b to bus t through bridges. */
  ghost function Ways(cfg: ConfigSpace, buses: set<nat>, rank: nat -> nat, b: nat, t: nat): nat
    requires Ranked(cfg, buses, rank) && b in buses
    decreases rank(b), 257, 0
  {
    (if b == t then 1 else 0) + WaysFrom(cfg, buses, rank, b, 0, t)
  }

  /** Those that start at a bridge of b at position pos or later. */
  ghost function WaysFrom(cfg: ConfigSpace, buses: set<nat>, rank: nat -> nat, b: nat, pos: nat, t: nat): nat
    requires Ranked(cfg, buses, rank) && b in buses && pos <= 256
    decreases rank(b), 256 - pos, 1
  {
    if pos == 256 then 0 else WaysAt(cfg, buses, rank, b, pos, t) + WaysFrom(cfg, buses, rank, b, pos + 1, t)
  }

  ghost function WaysAt(cfg: ConfigSpace, buses: set<nat>, rank: nat -> nat, b: nat, pos: nat, t: nat): nat
    requires Ranked(cfg, buses, rank) && b in buses && pos < 256
    decreases rank(b), 256 - pos, 0
  {
    if Bridge(cfg, SlotAt(b, pos)) then Ways(cfg, buses, rank, Secondary(cfg, SlotAt(b, pos)), t) else 0
  }

  lemma FoundPlace(cfg: ConfigSpace, s: Slot)
    requires Found(cfg, s)
    ensures s.func < 8 && PosOf(s) < 256 && SlotAt(s.bus, PosOf(s)) == s
  {}

  lemma PlaceUnique(b: nat, pos: nat, s: Slot)
    requires s.func < 8
    ensures SlotAt(b, pos) == s <==> b == s.bus && pos == PosOf(s)
  {}

  /** The scan lists a function exactly once for every way from the first bus to the function's bus. */
  lemma {:induction false} ScanCounts(cfg: ConfigSpace, buses: set<nat>, rank: nat -> nat, b: nat, pos: nat, x: Slot)
    requires Ranked(cfg, buses, rank) && b in buses && pos <= 256
    ensures multiset(ScanFrom(cfg, buses, rank, b, pos))[x]
            == if Found(cfg, x)
               then WaysFrom(cfg, buses, rank, b, pos, x.bus) + (if x.bus == b && pos <= PosOf(x) then 1 else 0)
               else 0
    decreases rank(b), 256 - pos, 1
  {
    hide Ranked, Found, Bridge;
    if pos == 256 {
      if Found(cfg, x) {
        FoundPlace(cfg, x);
      }
    } else {
      AtCounts(cfg, buses, rank, b, pos, x);
      ScanCounts(cfg, buses, rank, b, pos + 1, x);
      var here, rest := At(cfg, buses, rank, b, pos), ScanFrom(cfg, buses, rank, b, pos + 1);
      assert multiset(here + rest) == multiset(here) + multiset(rest);
    }
  }

  lemma {:induction false} AtCounts(cfg: ConfigSpace, buses: set<nat>, rank: nat -> nat, b: nat, pos: nat, x: Slot)
    requires Ranked(cfg, buses, rank) && b in buses && pos < 256
    ensures multiset(At(cfg, buses, rank, b, pos))[x]
            == if Found(cfg, x)
               then WaysAt(cfg, buses, rank, b, pos, x.bus) + (if x.bus == b && pos == PosOf(x) then 1 else 0)
               else 0
    decreases rank(b), 256 - pos, 0
  {
    var s := SlotAt(b, pos);
    if Found(cfg, x) {
      FoundPlace(cfg, x);
      PlaceUnique(b, pos, x);
    }
    if Found(cfg, s) {
      var below := if Bridge(cfg, s) then ScanFrom(cfg, buses, rank, Secondary(cfg, s), 0) else [];
      if Bridge(cfg, s) {
        ScanCounts(cfg, buses, rank, Secondary(cfg, s), 0, x);
      }
      assert multiset([s] + below) == multiset([s]) + multiset(below);
    } else {
      BridgeIsFound(cfg, s);
    }
  }

  lemma BridgeIsFound(cfg: ConfigSpace, s: Slot)
    ensures Bridge(cfg, s) ==> Found(cfg, s)
  {}

  ghost predicate Reaches(cfg: ConfigSpace, buses: set<nat>, rank: nat -> nat, b: nat, t: nat)
    requires Ranked(cfg, buses, rank) && b in buses
  {
    Ways(cfg, buses, rank, b, t) > 0
  }

  /** Which functions are listed: those present on a bus that bridges lead to, and no others. */
  lemma ScanMembers(cfg: ConfigSpace, buses: set<nat>, rank: nat -> nat, root: nat, x: Slot)
    requires Ranked(cfg, buses, rank) && root in buses
    ensures x in ScanFrom(cfg, buses, rank, root, 0) <==> Found(cfg, x) && Reaches(cfg, buses, rank, root, x.bus)
    ensures Found(cfg, x) ==>
              multiset(ScanFrom(cfg, buses, rank, root, 0))[x] == Ways(cfg, buses, rank, root, x.bus)
  {
    hide Ranked, Found, Bridge, ScanFrom;
    ScanCounts(cfg, buses, rank, root, 0, x);
    assert x in ScanFrom(cfg, buses, rank, root, 0) <==> x in multiset(ScanFrom(cfg, buses, rank, root, 0));
  }

  // ----- following bridges -----

  lemma {:induction false} FirstBridge(cfg: ConfigSpace, buses: set<nat>, rank: nat -> nat, b: nat, from: nat, t: nat)
    returns (pos: nat)
    requires Ranked(cfg, buses, rank) && b in buses && from <= 256 && WaysFrom(cfg, buses, rank, b, from, t) > 0
    ensures from <= pos < 256 && WaysAt(cfg, buses, rank, b, pos, t) > 0
    decreases 256 - from
  {
    hide Ranked;
    if WaysAt(cfg, buses, rank, b, from, t) > 0 {
      pos := from;
    } else {
      pos := FirstBridge(cfg, buses, rank, b, from + 1, t);
    }
  }

  /** A way on from a bridge is a way on from its bus. */
  lemma {:induction false} WaysFromAt(cfg: ConfigSpace, buses: set<nat>, rank: nat -> nat, b: nat, from: nat, pos: nat, t: nat)
    requires Ranked(cfg, buses, rank) && b in buses && from <= pos < 256
    ensures WaysFrom(cfg, buses, rank, b, from, t) >= WaysAt(cfg, buses, rank, b, pos, t)
    decreases pos - from
  {
    hide Ranked;
    if from < pos {
      WaysFromAt(cfg, buses, rank, b, from + 1, pos, t);
    }
  }

  lemma StepReaches(cfg: ConfigSpace, buses: set<nat>, rank: nat -> nat, s: Slot, t: nat)
    requires Ranked(cfg, buses, rank) && s.bus in buses && Bridge(cfg, s)
    ensures Secondary(cfg, s) in buses && rank(Secondary(cfg, s)) < rank(s.bus)
    ensures Reaches(cfg, buses, rank, Secondary(cfg, s), t) ==> Reaches(cfg, buses, rank, s.bus, t)
  {
    FoundPlace(cfg, s);
    WaysFromAt(cfg, buses, rank, s.bus, 0, PosOf(s), t);
  }

  /** Every bus on the way has a smaller rank. */
  lemma {:induction false} RanksFall(cfg: ConfigSpace, buses: set<nat>, rank: nat -> nat, b: nat, t: nat)
    requires Ranked(cfg, buses, rank) && b in buses && Reaches(cfg, buses, rank, b, t)
    ensures t in buses && (t == b || rank(t) < rank(b))
    decreases rank(b)
  {
    hide Bridge;
    if t != b {
      var pos := FirstBridge(cfg, buses, rank, b, 0, t);
      RanksFall(cfg, buses, rank, Secondary(cfg, SlotAt(b, pos)), t);
    }
  }

  lemma SelfReaches(cfg: ConfigSpace, buses: set<nat>, rank: nat -> nat, b: nat)
    requires Ranked(cfg, buses, rank) && b in buses
    ensures Reaches(cfg, buses, rank, b, b)
  {}

  lemma {:induction false} ReachesOn(cfg: ConfigSpace, buses: set<nat>, rank: nat -> nat, a: nat, b: nat, t: nat)
    requires Ranked(cfg, buses, rank) && a in buses && Reaches(cfg, buses, rank, a, b)
    requires b in buses && Reaches(cfg, buses, rank, b, t)
    ensures Reaches(cfg, buses, rank, a, t)
    decreases rank(a)
  {
    hide Bridge;
    if a != b {
      var pos := FirstBridge(cfg, buses, rank, a, 0, b);
      var s := SlotAt(a, pos);
      ReachesOn(cfg, buses, rank, Secondary(cfg, s), b, t);
      StepReaches(cfg, buses, rank, s, t);
    }
  }

  /** The last bridge on some way to t. */
  lemma {:induction false} LastBridge(cfg: ConfigSpace, buses: set<nat>, rank: nat -> nat, c: nat, t: nat)
    returns (s: Slot)
    requires Ranked(cfg, buses, rank) && c in buses && Reaches(cfg, buses, rank, c, t) && c != t
    ensures Bridge(cfg, s) && s.bus in buses && Secondary(cfg, s) == t && Reaches(cfg, buses, rank, c, s.bus)
    decreases rank(c)
  {
    hide Bridge, Found;
    var pos := FirstBridge(cfg, buses, rank, c, 0, t);
    s := SlotAt(c, pos);
    var next := Secondary(cfg, s);
    if next == t {
      SelfReaches(cfg, buses, rank, c);
    } else {
      var first := s;
      s := LastBridge(cfg, buses, rank, next, t);
      StepReaches(cfg, buses, rank, first, s.bus);
    }
  }

  /** Two different bridges lead to the same bus u, from where t can be reached. */
  ghost predicate Shared(cfg: ConfigSpace, buses: set<nat>, rank: nat -> nat, root: nat, s1: Slot, s2: Slot, t: nat)
    requires Ranked(cfg, buses, rank) && root in buses
  {
    && s1 != s2 && Bridge(cfg, s1) && Bridge(cfg, s2) && s1.bus in buses && s2.bus in buses
    && Reaches(cfg, buses, rank, root, s1.bus) && Reaches(cfg, buses, rank, root, s2.bus)
    && Secondary(cfg, s1) == Secondary(cfg, s2)
    && Secondary(cfg, s1) in buses && Reaches(cfg, buses, rank, Secondary(cfg, s1), t)
  }

  /** Two different bridges of one bus from which t can be reached: somewhere on the way two bridges share a bus. */
  lemma {:induction false} Merge(cfg: ConfigSpace, buses: set<nat>, rank: nat -> nat, p: Slot, q: Slot, t: nat)
    returns (s1: Slot, s2: Slot)
    requires Ranked(cfg, buses, rank) && p.bus == q.bus && p.bus in buses && p != q && Bridge(cfg, p) && Bridge(cfg, q)
    requires Secondary(cfg, p) in buses && Secondary(cfg, q) in buses
    requires Reaches(cfg, buses, rank, Secondary(cfg, p), t) && Reaches(cfg, buses, rank, Secondary(cfg, q), t)
    ensures Shared(cfg, buses, rank, p.bus, s1, s2, t)
    decreases rank(p.bus) - rank(t)
  {
    hide Bridge, Found, Ways;
    var c1, c2 := Secondary(cfg, p), Secondary(cfg, q);
    SelfReaches(cfg, buses, rank, p.bus);
    RanksFall(cfg, buses, rank, c1, t);
    SelfReaches(cfg, buses, rank, t);
    RanksFall(cfg, buses, rank, c2, t);
    StepReaches(cfg, buses, rank, p, t);
    StepReaches(cfg, buses, rank, q, t);
    if c1 == c2 {
      s1, s2 := p, q;
    } else if t == c1 {
      s1 := p;
      s2 := LastBridge(cfg, buses, rank, c2, t);
      RanksFall(cfg, buses, rank, c2, s2.bus);
      StepReaches(cfg, buses, rank, q, s2.bus);
    } else if t == c2 {
      s1 := LastBridge(cfg, buses, rank, c1, t);
      s2 := q;
      RanksFall(cfg, buses, rank, c1, s1.bus);
      StepReaches(cfg, buses, rank, p, s1.bus);
    } else {
      s1 := LastBridge(cfg, buses, rank, c1, t);
      s2 := LastBridge(cfg, buses, rank, c2, t);
      StepReaches(cfg, buses, rank, p, s1.bus);
      StepReaches(cfg, buses, rank, q, s2.bus);
      if s1 == s2 {
        var last := s1;
        RanksFall(cfg, buses, rank, c1, last.bus);
        StepReaches(cfg, buses, rank, last, t);
        s1, s2 := Merge(cfg, buses, rank, p, q, last.bus);
        ReachesOn(cfg, buses, rank, Secondary(cfg, s1), last.bus, t);
      }
    }
  }

  /** More than one way to t means that two reachable bridges share a bus on the way. */
  lemma {:induction false} Forks(cfg: ConfigSpace, buses: set<nat>, rank: nat -> nat, b: nat, t: nat)
    returns (s1: Slot, s2: Slot)
    requires Ranked(cfg, buses, rank) && b in buses && Ways(cfg, buses, rank, b, t) >= 2
    ensures Shared(cfg, buses, rank, b, s1, s2, t)
    decreases rank(b)
  {
    hide Bridge, Found;
    if b == t && WaysFrom(cfg, buses, rank, b, 0, t) > 0 {
      var pos := FirstBridge(cfg, buses, rank, b, 0, t);
      StepReaches(cfg, buses, rank, SlotAt(b, pos), t);
      RanksFall(cfg, buses, rank, Secondary(cfg, SlotAt(b, pos)), t);
      assert false;
    }
    s1, s2 := ForksFrom(cfg, buses, rank, b, 0, t);
  }

  lemma {:induction false} ForksFrom(cfg: ConfigSpace, buses: set<nat>, rank: nat -> nat, b: nat, from: nat, t: nat)
    returns (s1: Slot, s2: Slot)
    requires Ranked(cfg, buses, rank) && b in buses && from <= 256 && WaysFrom(cfg, buses, rank, b, from, t) >= 2
    ensures Shared(cfg, buses, rank, b, s1, s2, t)
    decreases rank(b), 256 - from
  {
    hide Bridge, Found, Ways;
    var p := SlotAt(b, from);
    var here := WaysAt(cfg, buses, rank, b, from, t);
    if here >= 2 {
      StepReaches(cfg, buses, rank, p, t);
      s1, s2 := Forks(cfg, buses, rank, Secondary(cfg, p), t);
      StepReaches(cfg, buses, rank, p, s1.bus);
      StepReaches(cfg, buses, rank, p, s2.bus);
    } else if here == 0 {
      s1, s2 := ForksFrom(cfg, buses, rank, b, from + 1, t);
    } else {
      var pos := FirstBridge(cfg, buses, rank, b, from + 1, t);
      var q := SlotAt(b, pos);
      DifferentPlaces(b, from, pos);
      StepReaches(cfg, buses, rank, p, t);
      StepReaches(cfg, buses, rank, q, t);
      s1, s2 := Merge(cfg, buses, rank, p, q, t);
    }
  }

  lemma DifferentPlaces(b: nat, pos: nat, other: nat)
    requires pos != other
    ensures SlotAt(b, pos) != SlotAt(b, other)
  {}

  /** 1 if the bridge s sits on bus b at position pos or later. */
  function Ahead(s: Slot, b: nat, pos: nat): nat {
    if s.bus == b && pos <= PosOf(s) then 1 else 0
  }

  /** Two different bridges into t: every way to either of them goes on to t. */
  lemma {:induction false} WaysAdd(cfg: ConfigSpace, buses: set<nat>, rank: nat -> nat, b: nat, pos: nat,
                                   s1: Slot, s2: Slot)
    requires Ranked(cfg, buses, rank) && b in buses && pos <= 256
    requires s1 != s2 && Bridge(cfg, s1) && Bridge(cfg, s2) && s1.bus in buses && s2.bus in buses
    requires Secondary(cfg, s1) == Secondary(cfg, s2)
    ensures WaysFrom(cfg, buses, rank, b, pos, Secondary(cfg, s1))
            >= WaysFrom(cfg, buses, rank, b, pos, s1.bus) + WaysFrom(cfg, buses, rank, b, pos, s2.bus)
               + Ahead(s1, b, pos) + Ahead(s2, b, pos)
    decreases rank(b), 256 - pos, 1
  {
    hide Bridge, Found, Ranked, WaysAt;
    FoundBridge(cfg, s1);
    FoundBridge(cfg, s2);
    if pos < 256 {
      WaysAdd(cfg, buses, rank, b, pos + 1, s1, s2);
      PlaceUnique(b, pos, s1);
      PlaceUnique(b, pos, s2);
      WaysAddAt(cfg, buses, rank, b, pos, s1, s2);
    }
  }

  lemma {:induction false} WaysAddAt(cfg: ConfigSpace, buses: set<nat>, rank: nat -> nat, b: nat, pos: nat,
                                     s1: Slot, s2: Slot)
    requires Ranked(cfg, buses, rank) && b in buses && pos < 256
    requires s1 != s2 && Bridge(cfg, s1) && Bridge(cfg, s2) && s1.bus in buses && s2.bus in buses
    requires Secondary(cfg, s1) == Secondary(cfg, s2)
    ensures WaysAt(cfg, buses, rank, b, pos, Secondary(cfg, s1))
            >= WaysAt(cfg, buses, rank, b, pos, s1.bus) + WaysAt(cfg, buses, rank, b, pos, s2.bus)
               + if SlotAt(b, pos) == s1 || SlotAt(b, pos) == s2 then 1 else 0
    decreases rank(b), 256 - pos, 0
  {
    hide Bridge, Found, Ranked;
    var s := SlotAt(b, pos);
    if Bridge(cfg, s) {
      RankStep(cfg, buses, rank, s);
      WaysAdd(cfg, buses, rank, Secondary(cfg, s), 0, s1, s2);
    }
  }

  lemma FoundBridge(cfg: ConfigSpace, s: Slot)
    requires Bridge(cfg, s)
    ensures s.func < 8 && PosOf(s) < 256
  {}

  lemma RankStep(cfg: ConfigSpace, buses: set<nat>, rank: nat -> nat, s: Slot)
    requires Ranked(cfg, buses, rank) && s.bus in buses && Bridge(cfg, s)
    ensures Secondary(cfg, s) in buses && rank(Secondary(cfg, s)) < rank(s.bus)
  {}

  // ----- exactly once -----

  ghost predicate NoRepeats(ss: seq<Slot>) {
    forall i, j :: 0 <= i < j < |ss| ==> ss[i] != ss[j]
  }

  lemma {:induction false} CountOne(ss: seq<Slot>, x: Slot)
    requires NoRepeats(ss)
    ensures multiset(ss)[x] <= 1
  {
    if ss != [] {
      var init, last := ss[..|ss| - 1], ss[|ss| - 1];
      assert ss == init + [last];
      CountOne(init, x);
      assert last !in init by {
        forall k | 0 <= k < |init| ensures init[k] != last {
          assert init[k] == ss[k];
        }
      }
    }
  }

  lemma {:induction false} RepeatCounts(ss: seq<Slot>, i: nat, j: nat)
    requires i < j < |ss| && ss[i] == ss[j]
    ensures multiset(ss)[ss[i]] >= 2
  {
    assert ss == ss[..j] + [ss[j]] + ss[j + 1..];
    assert ss[..j][i] == ss[j];
  }

  /** Two reachable bridges lead to the same bus, and there is something on it. */
  ghost predicate SharedBus(cfg: ConfigSpace, buses: set<nat>, rank: nat -> nat, root: nat, s1: Slot, s2: Slot, x: Slot)
    requires Ranked(cfg, buses, rank) && root in buses
  {
    Shared(cfg, buses, rank, root, s1, s2, Secondary(cfg, s1)) && Found(cfg, x) && x.bus == Secondary(cfg, s1)
  }

  /** Where no set-up fails, no function is listed twice exactly if no two reachable bridges lead to the same non-empty
      bus. */
  lemma ListedOnce(cfg: ConfigSpace, buses: set<nat>, rank: nat -> nat, root: nat)
    requires Ranked(cfg, buses, rank) && root in buses
    ensures NoRepeats(ScanFrom(cfg, buses, rank, root, 0)) <==>
              forall s1, s2, x :: !SharedBus(cfg, buses, rank, root, s1, s2, x)
  {
    hide Ranked, Found, Bridge, Ways, ScanFrom, Reaches, Shared;
    var ss := ScanFrom(cfg, buses, rank, root, 0);
    if NoRepeats(ss) {
      forall s1, s2, x ensures !SharedBus(cfg, buses, rank, root, s1, s2, x) {
        if SharedBus(cfg, buses, rank, root, s1, s2, x) {
          SharedTwice(cfg, buses, rank, root, s1, s2, x);
          CountOne(ss, x);
          assert false;
        }
      }
    } else {
      var i, j :| 0 <= i < j < |ss| && ss[i] == ss[j];
      RepeatCounts(ss, i, j);
      var s1, s2, x := RepeatShares(cfg, buses, rank, root, ss[i]);
      assert SharedBus(cfg, buses, rank, root, s1, s2, x);
    }
  }

  /** A function on a shared bus is listed at least twice. */
  lemma SharedTwice(cfg: ConfigSpace, buses: set<nat>, rank: nat -> nat, root: nat, s1: Slot, s2: Slot, x: Slot)
    requires Ranked(cfg, buses, rank) && root in buses && SharedBus(cfg, buses, rank, root, s1, s2, x)
    ensures multiset(ScanFrom(cfg, buses, rank, root, 0))[x] >= 2
  {
    hide Ranked, Found, Bridge, ScanFrom, WaysFrom;
    WaysAdd(cfg, buses, rank, root, 0, s1, s2);
    ScanMembers(cfg, buses, rank, root, x);
  }

  /** A function listed at least twice is behind two bridges that share a bus. */
  lemma RepeatShares(cfg: ConfigSpace, buses: set<nat>, rank: nat -> nat, root: nat, y: Slot)
    returns (s1: Slot, s2: Slot, x: Slot)
    requires Ranked(cfg, buses, rank) && root in buses
    requires multiset(ScanFrom(cfg, buses, rank, root, 0))[y] >= 2
    ensures SharedBus(cfg, buses, rank, root, s1, s2, x)
  {
    hide Ranked, Found, Bridge, ScanFrom;
    ScanCounts(cfg, buses, rank, root, 0, y);
    ScanMembers(cfg, buses, rank, root, y);
    s1, s2 := Forks(cfg, buses, rank, root, y.bus);
    var u := Secondary(cfg, s1);
    SelfReaches(cfg, buses, rank, u);
    if u == y.bus {
      x := y;
    } else {
      var pos := FirstBridge(cfg, buses, rank, u, 0, y.bus);
      x := SlotAt(u, pos);
      BridgeIsFound(cfg, x);
    }
  }

  /** Bus numbers that grow along every bridge, and no secondary number used twice: then the scan ends, with at most
      256 buses open, and lists exactly the present functions of the buses that bridges lead to, each of them once, up
      to the first whose set-up fails. */
  lemma ProperNumbering(cfg: ConfigSpace, probe: Slot -> int, root: nat)
    requires ByteSpace(cfg) && root < 0x100
    requires forall s: Slot :: s.bus < 0x100 && Bridge(cfg, s) ==> Secondary(cfg, s) > s.bus
    requires forall s: Slot, r: Slot :: s.bus < 0x100 && r.bus < 0x100 && Bridge(cfg, s) && Bridge(cfg, r) && s != r ==>
               Secondary(cfg, s) != Secondary(cfg, r)
    ensures Ranked(cfg, AllBuses(), ByNumber)
    ensures DepthScan(cfg, probe, 256, root, 0) == UpToFailure(probe, ScanFrom(cfg, AllBuses(), ByNumber, root, 0))
    ensures NoRepeats(ScanFrom(cfg, AllBuses(), ByNumber, root, 0))
    ensures forall x: Slot :: x in ScanFrom(cfg, AllBuses(), ByNumber, root, 0) <==>
              Found(cfg, x) && Reaches(cfg, AllBuses(), ByNumber, root, x.bus)
  {
    hide Found, Bridge, ScanFrom, Reaches, NoRepeats, DepthScan, UpToFailure;
    forall s: Slot | s.bus in AllBuses() && Bridge(cfg, s)
      ensures Secondary(cfg, s) in AllBuses() && Secondary(cfg, s) < 0x100 && ByNumber(Secondary(cfg, s)) < ByNumber(s.bus)
    {
      assert cfg(s.bus, s.dev, s.func, PCI_SECONDARY_BUS) < 256;
    }
    forall x: Slot
      ensures x in ScanFrom(cfg, AllBuses(), ByNumber, root, 0) <==>
              Found(cfg, x) && Reaches(cfg, AllBuses(), ByNumber, root, x.bus)
    {
      ScanMembers(cfg, AllBuses(), ByNumber, root, x);
    }
    ListedOnce(cfg, AllBuses(), ByNumber, root);
    RankedEnds(cfg, probe, AllBuses(), ByNumber, 256, root, 0);
  }

  function AllBuses(): set<nat> {
    set b: nat | b < 0x100 && BusNumber(b)
  }

  predicate BusNumber(b: nat) {
    b < 0x100
  }

  function ByNumber(b: nat): nat {
    if b < 0x100 then 0xFF - b else 0
  }

  // ----- when the scan ends -----

  /** The recursion started on this bus comes to an end. */
  ghost predicate Ends(cfg: ConfigSpace, probe: Slot -> int, bus: nat) {
    exists depth: nat :: DepthScan(cfg, probe, depth, bus, 0).Ended?
  }

  ghost predicate NeverFails(probe: Slot -> int) {
    forall s: Slot :: probe(s) == 0
  }

  /** With a ranking the scan ends: it lists the unbounded description up to the first failure. */
  lemma {:induction false} RankedEnds(cfg: ConfigSpace, probe: Slot -> int, buses: set<nat>, rank: nat -> nat,
                                      depth: nat, bus: nat, pos: nat)
    requires Ranked(cfg, buses, rank) && bus in buses && pos <= 256 && depth > rank(bus)
    ensures DepthScan(cfg, probe, depth, bus, pos) == UpToFailure(probe, ScanFrom(cfg, buses, rank, bus, pos))
    decreases rank(bus), 256 - pos, 1
  {
    hide Ranked, At, DepthAt, UpToFailure, Then;
    if pos == 256 {
      NoSlots(probe);
    } else {
      RankedEndsAt(cfg, probe, buses, rank, depth, bus, pos);
      RankedEnds(cfg, probe, buses, rank, depth, bus, pos + 1);
      FailureJoins(probe, At(cfg, buses, rank, bus, pos), ScanFrom(cfg, buses, rank, bus, pos + 1));
    }
  }

  lemma {:induction false} RankedEndsAt(cfg: ConfigSpace, probe: Slot -> int, buses: set<nat>, rank: nat -> nat,
                                        depth: nat, bus: nat, pos: nat)
    requires Ranked(cfg, buses, rank) && bus in buses && pos < 256 && depth > rank(bus)
    ensures DepthAt(cfg, probe, depth, bus, pos) == UpToFailure(probe, At(cfg, buses, rank, bus, pos))
    decreases rank(bus), 256 - pos, 0
  {
    hide Ranked, Found, Bridge, DepthScan, UpToFailure, Then;
    var s := SlotAt(bus, pos);
    NoSlots(probe);
    BridgeIsFound(cfg, s);
    if Bridge(cfg, s) {
      RankStep(cfg, buses, rank, s);
      RankedEnds(cfg, probe, buses, rank, depth - 1, Secondary(cfg, s), 0);
      OneSlot(probe, s, ScanFrom(cfg, buses, rank, Secondary(cfg, s), 0));
    } else {
      OneSlot(probe, s, []);
    }
  }

  lemma NoSlots(probe: Slot -> int)
    ensures UpToFailure(probe, []) == Ended([], 0)
  {}

  lemma OneSlot(probe: Slot -> int, s: Slot, below: seq<Slot>)
    ensures probe(s) != 0 ==> UpToFailure(probe, [s] + below) == Ended([], probe(s))
    ensures probe(s) == 0 ==> UpToFailure(probe, [s] + below) == Then(Ended([s], 0), UpToFailure(probe, below))
    ensures probe(s) == 0 && below == [] ==> UpToFailure(probe, [s] + below) == Ended([s], 0)
  {
    if probe(s) != 0 {
      FailureUnique(probe, [s] + below, 0);
    } else {
      FailureUnique(probe, [s], 1);
      assert UpToFailure(probe, [s]) == Ended([s], 0);
      FailureJoins(probe, [s], below);
    }
  }

  // ----- deeper is the same -----

  /** A scan that ends within a depth ends in the same way within a greater one. */
  lemma {:induction false} Deeper(cfg: ConfigSpace, probe: Slot -> int, d: nat, e: nat, bus: nat, pos: nat)
    requires d <= e && pos <= 256 && DepthScan(cfg, probe, d, bus, pos).Ended?
    ensures DepthScan(cfg, probe, e, bus, pos) == DepthScan(cfg, probe, d, bus, pos)
    decreases d, 256 - pos, 1
  {
    hide DepthAt;
    if pos < 256 {
      var here := DepthAt(cfg, probe, d, bus, pos);
      DeeperAt(cfg, probe, d, e, bus, pos);
      if here.err == 0 {
        Deeper(cfg, probe, d, e, bus, pos + 1);
      }
    }
  }

  lemma {:induction false} DeeperAt(cfg: ConfigSpace, probe: Slot -> int, d: nat, e: nat, bus: nat, pos: nat)
    requires 0 < d <= e && pos < 256 && DepthAt(cfg, probe, d, bus, pos).Ended?
    ensures DepthAt(cfg, probe, e, bus, pos) == DepthAt(cfg, probe, d, bus, pos)
    decreases d, 256 - pos, 0
  {
    hide Found, Bridge, DepthScan;
    var s := SlotAt(bus, pos);
    if Found(cfg, s) && probe(s) == 0 && Bridge(cfg, s) {
      Deeper(cfg, probe, d - 1, e - 1, Secondary(cfg, s), 0);
    }
  }

  // ----- bridges that the scan passes through -----

  /** The functions of a bus before a position are scanned without a failure. */
  ghost predicate Passed(cfg: ConfigSpace, probe: Slot -> int, depth: nat, bus: nat, pos: nat)
    requires depth > 0 && pos <= 256
  {
    forall p: nat :: p < pos ==> Clean(cfg, probe, depth, bus, p)
  }

  ghost predicate Clean(cfg: ConfigSpace, probe: Slot -> int, depth: nat, bus: nat, p: nat)
    requires depth > 0 && p < 256
  {
    DepthAt(cfg, probe, depth, bus, p).Ended? && DepthAt(cfg, probe, depth, bus, p).err == 0
  }

  /** A bridge that the scan of its bus comes to and goes through: its set-up and all before it succeed. */
  ghost predicate Opened(cfg: ConfigSpace, probe: Slot -> int, s: Slot) {
    && Bridge(cfg, s) && probe(s) == 0
    && PosOf(s) < 256 && exists depth: nat :: depth > 0 && Passed(cfg, probe, depth, s.bus, PosOf(s))
  }

  lemma PassedDeeper(cfg: ConfigSpace, probe: Slot -> int, d: nat, e: nat, bus: nat, pos: nat)
    requires 0 < d <= e && pos <= 256 && Passed(cfg, probe, d, bus, pos)
    ensures Passed(cfg, probe, e, bus, pos)
  {
    hide DepthAt;
    forall p: nat | p < pos ensures Clean(cfg, probe, e, bus, p) {
      assert Clean(cfg, probe, d, bus, p);
      DeeperAt(cfg, probe, d, e, bus, p);
    }
  }

  /** What is passed is followed by the rest. */
  lemma {:induction false} PassedEnds(cfg: ConfigSpace, probe: Slot -> int, depth: nat, bus: nat, from: nat, pos: nat)
    requires depth > 0 && from <= pos <= 256 && Passed(cfg, probe, depth, bus, pos)
    ensures DepthScan(cfg, probe, depth, bus, from).Ended? <==> DepthScan(cfg, probe, depth, bus, pos).Ended?
    decreases pos - from
  {
    hide DepthAt;
    if from < pos {
      assert Clean(cfg, probe, depth, bus, from);
      PassedEnds(cfg, probe, depth, bus, from + 1, pos);
    }
  }

  /** A bus whose scan never ends has a bridge that the scan goes through, to a bus whose scan never ends. */
  lemma {:induction false} EndlessBridge(cfg: ConfigSpace, probe: Slot -> int, bus: nat, depth: nat, pos: nat)
    returns (s: Slot)
    requires !Ends(cfg, probe, bus) && depth > 0 && pos <= 256 && Passed(cfg, probe, depth, bus, pos)
    ensures s.bus == bus && Opened(cfg, probe, s) && !Ends(cfg, probe, Secondary(cfg, s))
    decreases 256 - pos
  {
    hide Found, Bridge, DepthAt, DepthScan;
    if pos == 256 {
      AllPassed(cfg, probe, depth, bus);
      assert false;
    }
    if d: nat :| d > 0 && DepthAt(cfg, probe, d, bus, pos).Ended? {
      var e := if d < depth then depth else d;
      DeeperAt(cfg, probe, d, e, bus, pos);
      PassedDeeper(cfg, probe, depth, e, bus, pos);
      if DepthAt(cfg, probe, e, bus, pos).err != 0 {
        FailureEnds(cfg, probe, e, bus, pos);
        assert false;
      }
      assert Clean(cfg, probe, e, bus, pos);
      s := EndlessBridge(cfg, probe, bus, e, pos + 1);
    } else {
      s := SlotAt(bus, pos);
      EndlessAt(cfg, probe, bus, pos);
      BridgePlace(cfg, s);
      SlotPlace(bus, pos);
    }
  }

  lemma BridgePlace(cfg: ConfigSpace, s: Slot)
    requires Bridge(cfg, s)
    ensures PosOf(s) < 256 && SlotAt(s.bus, PosOf(s)) == s
  {
    FoundPlace(cfg, s);
  }

  lemma AllPassed(cfg: ConfigSpace, probe: Slot -> int, depth: nat, bus: nat)
    requires depth > 0 && Passed(cfg, probe, depth, bus, 256)
    ensures Ends(cfg, probe, bus)
  {
    hide DepthAt;
    PassedEnds(cfg, probe, depth, bus, 0, 256);
    assert DepthScan(cfg, probe, depth, bus, 0).Ended?;
  }

  lemma FailureEnds(cfg: ConfigSpace, probe: Slot -> int, depth: nat, bus: nat, pos: nat)
    requires depth > 0 && pos < 256 && Passed(cfg, probe, depth, bus, pos)
    requires DepthAt(cfg, probe, depth, bus, pos).Ended? && DepthAt(cfg, probe, depth, bus, pos).err != 0
    ensures Ends(cfg, probe, bus)
  {
    hide DepthAt;
    PassedEnds(cfg, probe, depth, bus, 0, pos);
    assert DepthScan(cfg, probe, depth, bus, 0).Ended?;
  }

  lemma SlotPlace(bus: nat, pos: nat)
    ensures SlotAt(bus, pos).func < 8 && PosOf(SlotAt(bus, pos)) == pos
  {}

  lemma EndlessAt(cfg: ConfigSpace, probe: Slot -> int, bus: nat, pos: nat)
    requires pos < 256 && forall d: nat :: d > 0 ==> DepthAt(cfg, probe, d, bus, pos).TooDeep?
    ensures var s := SlotAt(bus, pos);
            Bridge(cfg, s) && probe(s) == 0 && !Ends(cfg, probe, Secondary(cfg, s))
  {
    hide Found, Bridge, DepthScan;
    var s := SlotAt(bus, pos);
    assert DepthAt(cfg, probe, 1, bus, pos).TooDeep?;
    forall d: nat ensures DepthScan(cfg, probe, d, Secondary(cfg, s), 0).TooDeep? {
      assert DepthAt(cfg, probe, d + 1, bus, pos).TooDeep?;
    }
  }

  /** A scan goes through every bridge it opens, and through every bridge if no set-up fails: then the scan behind
      the bridge ends as well, one level less deep. */
  lemma StepEnds(cfg: ConfigSpace, probe: Slot -> int, s: Slot, depth: nat)
    requires Bridge(cfg, s) && (NeverFails(probe) || Opened(cfg, probe, s))
    requires DepthScan(cfg, probe, depth, s.bus, 0).Ended?
    ensures depth > 0 && DepthScan(cfg, probe, depth - 1, Secondary(cfg, s), 0).Ended?
  {
    hide Bridge, DepthScan;
    BridgePlace(cfg, s);
    DepthPositive(cfg, probe, depth, s.bus);
    if NeverFails(probe) {
      BridgeEnds(cfg, probe, depth, s.bus, 0, PosOf(s));
    } else {
      var e: nat :| e > 0 && Passed(cfg, probe, e, s.bus, PosOf(s));
      var m := if e < depth then depth else e;
      PassedDeeper(cfg, probe, e, m, s.bus, PosOf(s));
      OpenedEnds(cfg, probe, depth, m, s.bus, 0, PosOf(s));
    }
  }

  lemma {:induction false} OpenedEnds(cfg: ConfigSpace, probe: Slot -> int, d: nat, m: nat, bus: nat, from: nat, pos: nat)
    requires 0 < d <= m && from <= pos < 256 && DepthScan(cfg, probe, d, bus, from).Ended?
    requires Passed(cfg, probe, m, bus, pos) && Bridge(cfg, SlotAt(bus, pos)) && probe(SlotAt(bus, pos)) == 0
    ensures DepthScan(cfg, probe, d - 1, Secondary(cfg, SlotAt(bus, pos)), 0).Ended?
    decreases pos - from
  {
    hide Found, Bridge;
    BridgeIsFound(cfg, SlotAt(bus, pos));
    if from < pos {
      assert Clean(cfg, probe, m, bus, from);
      DeeperAt(cfg, probe, d, m, bus, from);
      OpenedEnds(cfg, probe, d, m, bus, from + 1, pos);
    }
  }

  /** If the scan of a bus ends within a depth and no set-up fails, so do the scans of the buses behind it, one level
      less deep. */
  lemma {:induction false} BridgeEnds(cfg: ConfigSpace, probe: Slot -> int, depth: nat, bus: nat, from: nat, pos: nat)
    requires NeverFails(probe) && from <= pos < 256 && Bridge(cfg, SlotAt(bus, pos))
    requires DepthScan(cfg, probe, depth, bus, from).Ended?
    ensures depth > 0 && DepthScan(cfg, probe, depth - 1, Secondary(cfg, SlotAt(bus, pos)), 0).Ended?
    decreases pos - from
  {
    hide Found, Bridge;
    BridgeIsFound(cfg, SlotAt(bus, pos));
    if from < pos {
      NoError(cfg, probe, depth, bus, from);
      BridgeEnds(cfg, probe, depth, bus, from + 1, pos);
    }
  }

  /** Without failing set-ups a scan has no error. */
  lemma {:induction false} NoError(cfg: ConfigSpace, probe: Slot -> int, depth: nat, bus: nat, pos: nat)
    requires NeverFails(probe) && pos <= 256 && DepthScan(cfg, probe, depth, bus, pos).Ended?
    ensures DepthScan(cfg, probe, depth, bus, pos).err == 0
    ensures pos < 256 ==> DepthAt(cfg, probe, depth, bus, pos).err == 0
    decreases depth, 256 - pos
  {
    hide Found, Bridge;
    if pos < 256 {
      var s := SlotAt(bus, pos);
      if Found(cfg, s) && Bridge(cfg, s) {
        NoError(cfg, probe, depth - 1, Secondary(cfg, s), 0);
      }
      NoError(cfg, probe, depth, bus, pos + 1);
    }
  }

  // ----- loops -----

  /** A chain of bridges, the first one on the root bus and each other one on the bus the one before leads to. */
  ghost predicate Chain(cfg: ConfigSpace, root: nat, ss: seq<Slot>) {
    && ss != [] && ss[0].bus == root
    && (forall i :: 0 <= i < |ss| ==> Bridge(cfg, ss[i]))
    && (forall i :: 0 <= i < |ss| - 1 ==> Secondary(cfg, ss[i]) == ss[i + 1].bus)
  }

  /** It comes back to a bus that one of its bridges is on. */
  ghost predicate Loop(cfg: ConfigSpace, root: nat, ss: seq<Slot>) {
    Chain(cfg, root, ss) && exists i :: 0 <= i < |ss| && Secondary(cfg, ss[|ss| - 1]) == ss[i].bus
  }

  ghost predicate AllOpened(cfg: ConfigSpace, probe: Slot -> int, ss: seq<Slot>) {
    forall i :: 0 <= i < |ss| ==> Opened(cfg, probe, ss[i])
  }

  /** No bus of a loop that the scan goes through is scanned within any depth. */
  lemma {:induction false} LoopTooDeep(cfg: ConfigSpace, probe: Slot -> int, root: nat, ss: seq<Slot>, k: nat, depth: nat)
    requires Loop(cfg, root, ss) && (NeverFails(probe) || AllOpened(cfg, probe, ss)) && k < |ss|
    ensures DepthScan(cfg, probe, depth, ss[k].bus, 0).TooDeep?
    decreases depth
  {
    hide Bridge, DepthScan, NeverFails, Opened;
    if DepthScan(cfg, probe, depth, ss[k].bus, 0).Ended? {
      StepEnds(cfg, probe, ss[k], depth);
      var next: nat;
      if k < |ss| - 1 {
        next := k + 1;
      } else {
        next :| next < |ss| && Secondary(cfg, ss[|ss| - 1]) == ss[next].bus;
      }
      LoopTooDeep(cfg, probe, root, ss, next, depth - 1);
    }
  }

  /** An endless scan goes through chains of bridges of any length. */
  lemma {:induction false} LongChain(cfg: ConfigSpace, probe: Slot -> int, root: nat, n: nat) returns (ss: seq<Slot>)
    requires ByteSpace(cfg) && root < 0x100 && !Ends(cfg, probe, root) && n > 0
    ensures |ss| == n && Chain(cfg, root, ss) && AllOpened(cfg, probe, ss)
    ensures !Ends(cfg, probe, Secondary(cfg, ss[n - 1]))
    ensures forall i :: 0 <= i < n ==> ss[i].bus < 0x100
    decreases n
  {
    hide Bridge, DepthScan, Ends, Passed, ByteSpace;
    var bus, front := root, [];
    if n > 1 {
      front := LongChain(cfg, probe, root, n - 1);
      bus := Secondary(cfg, front[n - 2]);
      IsByte(cfg, front[n - 2].bus, front[n - 2].dev, front[n - 2].func, PCI_SECONDARY_BUS);
    }
    NothingPassed(cfg, probe, bus);
    var s := EndlessBridge(cfg, probe, bus, 1, 0);
    OpenedBridge(cfg, probe, s);
    ss := front + [s];
  }

  lemma NothingPassed(cfg: ConfigSpace, probe: Slot -> int, bus: nat)
    ensures Passed(cfg, probe, 1, bus, 0)
  {}

  lemma OpenedBridge(cfg: ConfigSpace, probe: Slot -> int, s: Slot)
    requires Opened(cfg, probe, s)
    ensures Bridge(cfg, s) && probe(s) == 0
  {}

  /** Of more than n numbers below n, two are equal. */
  lemma {:induction false} Pigeonhole(b: seq<nat>, n: nat) returns (i: nat, j: nat)
    requires |b| > n && forall k :: 0 <= k < |b| ==> b[k] < n
    ensures i < j < |b| && b[i] == b[j]
    decreases n
  {
    assert b[0] < n;
    if k: nat :| k < |b| && b[k] == n - 1 {
      if l: nat :| l < |b| && l != k && b[l] == n - 1 {
        i, j := if k < l then k else l, if k < l then l else k;
      } else {
        var rest := b[..k] + b[k + 1..];
        forall m | 0 <= m < |rest| ensures rest[m] < n - 1 {
          assert rest[m] == b[if m < k then m else m + 1];
        }
        i, j := Pigeonhole(rest, n - 1);
        i, j := if i < k then i else i + 1, if j < k then j else j + 1;
      }
    } else {
      i, j := Pigeonhole(b, n - 1);
    }
  }

  /** A chain that meets a bus twice is cut to a loop. */
  lemma CutToLoop(cfg: ConfigSpace, probe: Slot -> int, root: nat, ss: seq<Slot>, i: nat, j: nat)
    requires Chain(cfg, root, ss) && AllOpened(cfg, probe, ss) && i < j < |ss| && ss[i].bus == ss[j].bus
    ensures Loop(cfg, root, ss[..j]) && AllOpened(cfg, probe, ss[..j])
  {
    hide Bridge, Opened;
    var cut := ss[..j];
    assert Secondary(cfg, ss[j - 1]) == ss[j - 1 + 1].bus;
    assert Secondary(cfg, cut[|cut| - 1]) == cut[i].bus;
  }

  /**
   * The scan goes on for ever exactly if it goes through a chain of bridges, from the root bus on, that comes back to
   * a bus on it. A bridge it goes through is one that is set up, after every function before it on its bus.
   */
  lemma EndlessIffLoop(cfg: ConfigSpace, probe: Slot -> int, root: nat)
    requires ByteSpace(cfg) && root < 0x100
    ensures !Ends(cfg, probe, root) <==> exists ss :: Loop(cfg, root, ss) && AllOpened(cfg, probe, ss)
  {
    hide Bridge, Opened, ByteSpace, DepthScan;
    if !Ends(cfg, probe, root) {
      var ss := FindLoop(cfg, probe, root);
    }
    if ss :| Loop(cfg, root, ss) && AllOpened(cfg, probe, ss) {
      forall depth: nat ensures DepthScan(cfg, probe, depth, root, 0).TooDeep? {
        LoopTooDeep(cfg, probe, root, ss, 0, depth);
      }
    }
  }

  lemma FindLoop(cfg: ConfigSpace, probe: Slot -> int, root: nat) returns (loop: seq<Slot>)
    requires ByteSpace(cfg) && root < 0x100 && !Ends(cfg, probe, root)
    ensures Loop(cfg, root, loop) && AllOpened(cfg, probe, loop)
  {
    hide Bridge, Opened, ByteSpace, Ends, Chain, Loop, AllOpened;
    var ss := LongChain(cfg, probe, root, 257);
    var i, j := Pigeonhole(seq(257, k requires 0 <= k < 257 => ss[k].bus), 256);
    CutToLoop(cfg, probe, root, ss, i, j);
    loop := ss[..j];
  }

  /** Where no set-up fails, that is exactly if a chain of bridges from the root bus comes back to a bus on it; where
      set-ups fail, a scan that would end still does. */
  lemma EndlessIffBridgesLoop(cfg: ConfigSpace, probe: Slot -> int, root: nat)
    requires ByteSpace(cfg) && root < 0x100
    ensures NeverFails(probe) ==> (!Ends(cfg, probe, root) <==> exists ss :: Loop(cfg, root, ss))
    ensures !Ends(cfg, probe, root) ==> exists ss :: Loop(cfg, root, ss)
  {
    hide Bridge, Opened, ByteSpace, DepthScan;
    EndlessIffLoop(cfg, probe, root);
    if ss :| NeverFails(probe) && Loop(cfg, root, ss) {
      forall depth: nat ensures DepthScan(cfg, probe, depth, root, 0).TooDeep? {
        LoopTooDeep(cfg, probe, root, ss, 0, depth);
      }
    }
  }

  /** A bridge whose secondary bus is its own bus, such as one on bus 0 whose register still holds the reset value 0,
      makes the scan of that bus go on for ever, if no set-up fails. */
  lemma SelfBridgeNeverEnds(cfg: ConfigSpace, probe: Slot -> int, s: Slot)
    requires NeverFails(probe) && Bridge(cfg, s) && Secondary(cfg, s) == s.bus
    ensures !Ends(cfg, probe, s.bus)
  {
    hide Bridge, DepthScan;
    var ss := [s];
    assert Secondary(cfg, ss[|ss| - 1]) == ss[0].bus;
    assert Loop(cfg, s.bus, ss);
    forall depth: nat ensures DepthScan(cfg, probe, depth, s.bus, 0).TooDeep? {
      LoopTooDeep(cfg, probe, s.bus, ss, 0, depth);
    }
  }

  // ----- rankings -----

  /** The least depth at which the scan of a bus ends. */
  ghost function LeastDepth(cfg: ConfigSpace, probe: Slot -> int, bus: nat): (d: nat)
    requires Ends(cfg, probe, bus)
    ensures DepthScan(cfg, probe, d, bus, 0).Ended?
    ensures forall e: nat :: DepthScan(cfg, probe, e, bus, 0).Ended? ==> d <= e
  {
    var depth: nat :| DepthScan(cfg, probe, depth, bus, 0).Ended?;
    LeastUpTo(cfg, probe, bus, depth)
  }

  ghost function LeastUpTo(cfg: ConfigSpace, probe: Slot -> int, bus: nat, depth: nat): (d: nat)
    requires DepthScan(cfg, probe, depth, bus, 0).Ended?
    ensures DepthScan(cfg, probe, d, bus, 0).Ended?
    ensures forall e: nat :: DepthScan(cfg, probe, e, bus, 0).Ended? ==> d <= e
    decreases depth
  {
    if e: nat :| e < depth && DepthScan(cfg, probe, e, bus, 0).Ended? then LeastUpTo(cfg, probe, bus, e) else depth
  }

  ghost function EndingBuses(cfg: ConfigSpace, probe: Slot -> int): set<nat> {
    set b: nat | b < 0x100 && Ends(cfg, probe, b)
  }

  ghost function DepthRank(cfg: ConfigSpace, probe: Slot -> int): nat -> nat {
    b => if Ends(cfg, probe, b) then LeastDepth(cfg, probe, b) else 0
  }

  /** Where no set-up fails, a scan ends exactly if the buses it can come to have a ranking: the unbounded description
      is there whenever it can be. */
  lemma EndsIffRanked(cfg: ConfigSpace, probe: Slot -> int, root: nat)
    requires ByteSpace(cfg) && root < 0x100 && NeverFails(probe)
    ensures Ends(cfg, probe, root) <==>
              exists buses: set<nat>, rank: nat -> nat :: Ranked(cfg, buses, rank) && root in buses
  {
    hide Found, Bridge, DepthScan;
    if Ends(cfg, probe, root) {
      DepthsRank(cfg, probe);
      assert root in EndingBuses(cfg, probe);
    }
    if buses: set<nat>, rank: nat -> nat :| Ranked(cfg, buses, rank) && root in buses {
      RankedEnds(cfg, probe, buses, rank, rank(root) + 1, root, 0);
    }
  }

  lemma DepthsRank(cfg: ConfigSpace, probe: Slot -> int)
    requires ByteSpace(cfg) && NeverFails(probe)
    ensures Ranked(cfg, EndingBuses(cfg, probe), DepthRank(cfg, probe))
  {
    hide Found, Bridge, DepthScan;
    forall s: Slot | s.bus in EndingBuses(cfg, probe) && Bridge(cfg, s)
      ensures Secondary(cfg, s) in EndingBuses(cfg, probe) && Secondary(cfg, s) < 0x100
      ensures DepthRank(cfg, probe)(Secondary(cfg, s)) < DepthRank(cfg, probe)(s.bus)
    {
      StepEnds(cfg, probe, s, LeastDepth(cfg, probe, s.bus));
      IsByte(cfg, s.bus, s.dev, s.func, PCI_SECONDARY_BUS);
    }
  }

  // ----- a bus behind two bridges -----

  /** Two bridges on bus 0, both to bus 1, and one device there. */
  function TwoBridges(b: nat, d: nat, f: nat, r: nat): nat {
    if f != 0 || (b, d) !in {(0, 0), (0, 1), (1, 0)} then 0xFF
    else if r == 0 then 0x86
    else if r == 1 then 0x80
    else if r == 0x0E then (if b == 0 then 1 else 0)
    else if r == 0x19 then 1
    else 0
  }

  /** The scan lists that device twice. */
  lemma ListedTwice()
    ensures ByteSpace(TwoBridges) && Ranked(TwoBridges, AllBuses(), ByNumber)
    ensures multiset(ScanFrom(TwoBridges, AllBuses(), ByNumber, 0, 0))[Slot(1, 0, 0)] >= 2
    ensures !NoRepeats(ScanFrom(TwoBridges, AllBuses(), ByNumber, 0, 0))
  {
    hide Ways, ScanFrom, Reaches;
    TwoBridgesSay();
    var s1, s2, x := Slot(0, 0, 0), Slot(0, 1, 0), Slot(1, 0, 0);
    SelfReaches(TwoBridges, AllBuses(), ByNumber, 0);
    SelfReaches(TwoBridges, AllBuses(), ByNumber, 1);
    assert SharedBus(TwoBridges, AllBuses(), ByNumber, 0, s1, s2, x);
    SharedTwice(TwoBridges, AllBuses(), ByNumber, 0, s1, s2, x);
    if NoRepeats(ScanFrom(TwoBridges, AllBuses(), ByNumber, 0, 0)) {
      CountOne(ScanFrom(TwoBridges, AllBuses(), ByNumber, 0, 0), x);
      assert false;
    }
  }

  lemma TwoBridgesSay()
    ensures ByteSpace(TwoBridges) && Ranked(TwoBridges, AllBuses(), ByNumber)
    ensures forall s: Slot :: Bridge(TwoBridges, s) <==> s == Slot(0, 0, 0) || s == Slot(0, 1, 0)
    ensures Found(TwoBridges, Slot(1, 0, 0))
    ensures Secondary(TwoBridges, Slot(0, 0, 0)) == Secondary(TwoBridges, Slot(0, 1, 0)) == 1
  {
    forall s: Slot ensures Bridge(TwoBridges, s) <==> s == Slot(0, 0, 0) || s == Slot(0, 1, 0) {
      TwoBridgesAt(s);
    }
    TwoBridgesAt(Slot(1, 0, 0));
  }

  lemma TwoBridgesAt(s: Slot)
    ensures Found(TwoBridges, s) <==> s in {Slot(0, 0, 0), Slot(0, 1, 0), Slot(1, 0, 0)}
    ensures Bridge(TwoBridges, s) <==> s in {Slot(0, 0, 0), Slot(0, 1, 0)}
  {
    assert Dword(TwoBridges, s, 0) % 0x1_0000
        == TwoBridges(s.bus, s.dev, s.func, 0) + 0x100 * TwoBridges(s.bus, s.dev, s.func, 1);
  }
}
