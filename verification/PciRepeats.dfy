/** When a scan lists a function twice, whether or not the set-up of some function fails. */
module PciRepeats {
  import opened PciConfig
  import opened PciScan
  import opened PciTopology

  lemma Whole(cfg: ConfigSpace, buses: set<nat>, rank: nat -> nat, b: nat, pos: nat)
    requires Ranked(cfg, buses, rank) && b in buses && pos < 256
    ensures ScanFrom(cfg, buses, rank, b, pos)
         == At(cfg, buses, rank, b, pos) + ScanFrom(cfg, buses, rank, b, pos + 1)
  {}

  /** At a position there is nothing, one function, or a bridge followed by all of its bus. */
  lemma Here(cfg: ConfigSpace, buses: set<nat>, rank: nat -> nat, b: nat, pos: nat)
    requires Ranked(cfg, buses, rank) && b in buses && pos < 256 && At(cfg, buses, rank, b, pos) != []
    ensures var s, here := SlotAt(b, pos), At(cfg, buses, rank, b, pos);
            && here[0] == s && s.bus == b && PosOf(s) == pos
            && (|here| > 1 ==> Bridge(cfg, s))
            && (Bridge(cfg, s) ==>
                 && Secondary(cfg, s) in buses && rank(Secondary(cfg, s)) < rank(b)
                 && here == [s] + ScanFrom(cfg, buses, rank, Secondary(cfg, s), 0))
  {
    hide Found, ScanFrom;
    BridgeIsFound(cfg, SlotAt(b, pos));
  }

  /** What a scan of a bus lists is on the bus, from the position on, or on a bus of lower rank. */
  lemma {:induction false} OnOrBelow(cfg: ConfigSpace, buses: set<nat>, rank: nat -> nat, b: nat, pos: nat, i: nat)
    requires Ranked(cfg, buses, rank) && b in buses && pos <= 256 && i < |ScanFrom(cfg, buses, rank, b, pos)|
    ensures var y := ScanFrom(cfg, buses, rank, b, pos)[i];
            (y.bus == b && pos <= PosOf(y)) || rank(y.bus) < rank(b)
    decreases rank(b), 256 - pos, 1
  {
    hide Ranked, Found, Bridge, At, SlotAt;
    if pos < 256 {
      Whole(cfg, buses, rank, b, pos);
      hide ScanFrom;
      var here := At(cfg, buses, rank, b, pos);
      if i < |here| {
        HereOrBelow(cfg, buses, rank, b, pos, i);
      } else {
        OnOrBelow(cfg, buses, rank, b, pos + 1, i - |here|);
      }
    }
  }

  lemma {:induction false} HereOrBelow(cfg: ConfigSpace, buses: set<nat>, rank: nat -> nat, b: nat, pos: nat, i: nat)
    requires Ranked(cfg, buses, rank) && b in buses && pos < 256 && i < |At(cfg, buses, rank, b, pos)|
    ensures var y := At(cfg, buses, rank, b, pos)[i];
            if i == 0 then y.bus == b && PosOf(y) == pos else rank(y.bus) < rank(b)
    decreases rank(b), 256 - pos, 0
  {
    hide Ranked, Found, Bridge, At, SlotAt, ScanFrom;
    Here(cfg, buses, rank, b, pos);
    if i > 0 {
      OnOrBelow(cfg, buses, rank, Secondary(cfg, SlotAt(b, pos)), 0, i - 1);
    }
  }

  /** Entry e of a list is a bridge to the bus of entry i. */
  ghost predicate LeadsTo(cfg: ConfigSpace, ss: seq<Slot>, e: nat, i: nat) {
    e < |ss| && i < |ss| && Bridge(cfg, ss[e]) && Secondary(cfg, ss[e]) == ss[i].bus
  }

  lemma LeadsBefore(cfg: ConfigSpace, ss: seq<Slot>, b: seq<Slot>, e: nat, i: nat)
    requires LeadsTo(cfg, ss, e, i)
    ensures LeadsTo(cfg, ss + b, e, i)
  {
    hide Bridge;
  }

  lemma LeadsBehind(cfg: ConfigSpace, a: seq<Slot>, ss: seq<Slot>, e: nat, i: nat)
    requires LeadsTo(cfg, ss, e, i)
    ensures LeadsTo(cfg, a + ss, |a| + e, |a| + i)
  {
    hide Bridge;
  }

  /** A function on another bus comes after a bridge to that bus. */
  lemma {:induction false} Entry(cfg: ConfigSpace, buses: set<nat>, rank: nat -> nat, b: nat, pos: nat, i: nat)
    returns (e: nat)
    requires Ranked(cfg, buses, rank) && b in buses && pos <= 256 && i < |ScanFrom(cfg, buses, rank, b, pos)|
    requires ScanFrom(cfg, buses, rank, b, pos)[i].bus != b
    ensures e < i && LeadsTo(cfg, ScanFrom(cfg, buses, rank, b, pos), e, i)
    decreases rank(b), 256 - pos, 1
  {
    hide Ranked, Found, Bridge, At, SlotAt, LeadsTo;
    if pos == 256 {
      assert false;
    } else {
      Whole(cfg, buses, rank, b, pos);
      hide ScanFrom;
      var here, rest := At(cfg, buses, rank, b, pos), ScanFrom(cfg, buses, rank, b, pos + 1);
      if i < |here| {
        Here(cfg, buses, rank, b, pos);
        e := EntryHere(cfg, buses, rank, b, pos, i);
        LeadsBefore(cfg, here, rest, e, i);
      } else {
        e := Entry(cfg, buses, rank, b, pos + 1, i - |here|);
        LeadsBehind(cfg, here, rest, e, i - |here|);
        e := e + |here|;
      }
    }
  }

  /** The same for the functions behind one bridge, led by the bridge itself. */
  lemma {:induction false} EntryHere(cfg: ConfigSpace, buses: set<nat>, rank: nat -> nat, b: nat, pos: nat, i: nat)
    returns (e: nat)
    requires Ranked(cfg, buses, rank) && b in buses && pos < 256 && 0 < i < |At(cfg, buses, rank, b, pos)|
    ensures e < i && LeadsTo(cfg, At(cfg, buses, rank, b, pos), e, i)
    decreases rank(b), 256 - pos, 0
  {
    hide Ranked, Found, Bridge, At, SlotAt, ScanFrom;
    Here(cfg, buses, rank, b, pos);
    var s := SlotAt(b, pos);
    var below := ScanFrom(cfg, buses, rank, Secondary(cfg, s), 0);
    if below[i - 1].bus == Secondary(cfg, s) {
      e := 0;
    } else {
      e := Entry(cfg, buses, rank, Secondary(cfg, s), 0, i - 1);
      LeadsBehind(cfg, [s], below, e, i - 1);
      e := e + 1;
    }
  }

  /** Two entries of a list are bridges to the bus of entry i. */
  ghost predicate LeadTo(cfg: ConfigSpace, ss: seq<Slot>, d: nat, e: nat, i: nat) {
    LeadsTo(cfg, ss, d, i) && LeadsTo(cfg, ss, e, i)
  }

  lemma LeadBefore(cfg: ConfigSpace, ss: seq<Slot>, b: seq<Slot>, d: nat, e: nat, i: nat)
    requires LeadTo(cfg, ss, d, e, i)
    ensures LeadTo(cfg, ss + b, d, e, i)
  {
    hide LeadsTo;
    LeadsBefore(cfg, ss, b, d, i);
    LeadsBefore(cfg, ss, b, e, i);
  }

  lemma LeadBehind(cfg: ConfigSpace, a: seq<Slot>, ss: seq<Slot>, d: nat, e: nat, i: nat)
    requires LeadTo(cfg, ss, d, e, i)
    ensures LeadTo(cfg, a + ss, |a| + d, |a| + e, |a| + i)
  {
    hide LeadsTo;
    LeadsBehind(cfg, a, ss, d, i);
    LeadsBehind(cfg, a, ss, e, i);
  }

  /** A function that is listed twice comes after two bridges to its bus. */
  lemma {:induction false} TwoEntries(cfg: ConfigSpace, buses: set<nat>, rank: nat -> nat, b: nat, pos: nat, i: nat, j: nat)
    returns (d: nat, e: nat)
    requires Ranked(cfg, buses, rank) && b in buses && pos <= 256
    requires i < j < |ScanFrom(cfg, buses, rank, b, pos)|
    requires ScanFrom(cfg, buses, rank, b, pos)[i] == ScanFrom(cfg, buses, rank, b, pos)[j]
    ensures d < e < j && LeadTo(cfg, ScanFrom(cfg, buses, rank, b, pos), d, e, j)
    decreases rank(b), 256 - pos, 1
  {
    hide Ranked, Found, Bridge, At, SlotAt, LeadTo;
    if pos == 256 {
      assert false;
    } else {
      Whole(cfg, buses, rank, b, pos);
      hide ScanFrom;
      var here, rest := At(cfg, buses, rank, b, pos), ScanFrom(cfg, buses, rank, b, pos + 1);
      if i >= |here| {
        d, e := TwoEntries(cfg, buses, rank, b, pos + 1, i - |here|, j - |here|);
        LeadBehind(cfg, here, rest, d, e, j - |here|);
        d, e := d + |here|, e + |here|;
      } else if j < |here| {
        d, e := TwoHere(cfg, buses, rank, b, pos, i, j);
        LeadBefore(cfg, here, rest, d, e, j);
      } else {
        d, e := EntriesApart(cfg, buses, rank, b, pos, i, j - |here|);
      }
    }
  }

  /** Both times behind one bridge. */
  lemma {:induction false} TwoHere(cfg: ConfigSpace, buses: set<nat>, rank: nat -> nat, b: nat, pos: nat, i: nat, j: nat)
    returns (d: nat, e: nat)
    requires Ranked(cfg, buses, rank) && b in buses && pos < 256 && i < j < |At(cfg, buses, rank, b, pos)|
    requires At(cfg, buses, rank, b, pos)[i] == At(cfg, buses, rank, b, pos)[j]
    ensures d < e < j && LeadTo(cfg, At(cfg, buses, rank, b, pos), d, e, j)
    decreases rank(b), 256 - pos, 0
  {
    hide Ranked, Found, Bridge, At, SlotAt, ScanFrom, LeadTo;
    Here(cfg, buses, rank, b, pos);
    HereOrBelow(cfg, buses, rank, b, pos, i);
    HereOrBelow(cfg, buses, rank, b, pos, j);
    var s := SlotAt(b, pos);
    var below := ScanFrom(cfg, buses, rank, Secondary(cfg, s), 0);
    d, e := TwoEntries(cfg, buses, rank, Secondary(cfg, s), 0, i - 1, j - 1);
    LeadBehind(cfg, [s], below, d, e, j - 1);
    d, e := d + 1, e + 1;
  }

  /** Listed behind a bridge and again later on: one bridge leads there in each part. */
  lemma EntriesApart(cfg: ConfigSpace, buses: set<nat>, rank: nat -> nat, b: nat, pos: nat, i: nat, k: nat)
    returns (d: nat, e: nat)
    requires Ranked(cfg, buses, rank) && b in buses && pos < 256
    requires i < |At(cfg, buses, rank, b, pos)| && k < |ScanFrom(cfg, buses, rank, b, pos + 1)|
    requires At(cfg, buses, rank, b, pos)[i] == ScanFrom(cfg, buses, rank, b, pos + 1)[k]
    ensures var n := |At(cfg, buses, rank, b, pos)|;
            d < n <= e < n + k && LeadTo(cfg, ScanFrom(cfg, buses, rank, b, pos), d, e, n + k)
  {
    hide Ranked, Found, Bridge, At, SlotAt, LeadsTo;
    Whole(cfg, buses, rank, b, pos);
    hide ScanFrom;
    var here, rest := At(cfg, buses, rank, b, pos), ScanFrom(cfg, buses, rank, b, pos + 1);
    OnOrBelow(cfg, buses, rank, b, pos + 1, k);
    HereOrBelow(cfg, buses, rank, b, pos, i);
    d := EntryHere(cfg, buses, rank, b, pos, i);
    SameBus(cfg, here, rest, d, i, k);
    e := Entry(cfg, buses, rank, b, pos + 1, k);
    LeadsBehind(cfg, here, rest, e, k);
    e := e + |here|;
  }

  lemma SameBus(cfg: ConfigSpace, part: seq<Slot>, rest: seq<Slot>, d: nat, i: nat, k: nat)
    requires LeadsTo(cfg, part, d, i) && k < |rest| && part[i] == rest[k]
    ensures LeadsTo(cfg, part + rest, d, |part| + k)
  {
    hide Bridge;
  }

  /** Two different bridges of a list lead to one bus, and there is something on it. */
  ghost predicate BothListed(cfg: ConfigSpace, ss: seq<Slot>, i: nat, j: nat, x: Slot) {
    && i < |ss| && j < |ss| && ss[i] != ss[j] && Bridge(cfg, ss[i]) && Bridge(cfg, ss[j])
    && Secondary(cfg, ss[i]) == Secondary(cfg, ss[j]) == x.bus && Found(cfg, x)
  }

  /** Going back from a repeated function, the bridges are repeated ones until there are two different ones. */
  lemma {:induction false} RepeatBack(cfg: ConfigSpace, buses: set<nat>, rank: nat -> nat, root: nat, i: nat, j: nat)
    returns (d: nat, e: nat, x: Slot)
    requires Ranked(cfg, buses, rank) && root in buses && i < j < |ScanFrom(cfg, buses, rank, root, 0)|
    requires ScanFrom(cfg, buses, rank, root, 0)[i] == ScanFrom(cfg, buses, rank, root, 0)[j]
    ensures d < e < j && BothListed(cfg, ScanFrom(cfg, buses, rank, root, 0), d, e, x)
    decreases j
  {
    hide Ranked, Found, Bridge, ScanFrom, Reaches;
    var ss := ScanFrom(cfg, buses, rank, root, 0);
    d, e := TwoEntries(cfg, buses, rank, root, 0, i, j);
    if ss[d] == ss[e] {
      d, e, x := RepeatBack(cfg, buses, rank, root, d, e);
    } else {
      x := ss[j];
      ScanMembers(cfg, buses, rank, root, x);
    }
  }

  /** Behind entry e of a list comes the first function of the bus it leads to, if there is one. */
  ghost predicate FirstBehind(cfg: ConfigSpace, buses: set<nat>, rank: nat -> nat, ss: seq<Slot>, e: nat)
    requires Ranked(cfg, buses, rank)
  {
    && e < |ss| && Secondary(cfg, ss[e]) in buses
    && var below := ScanFrom(cfg, buses, rank, Secondary(cfg, ss[e]), 0);
       below != [] ==> e + 1 < |ss| && ss[e + 1] == below[0]
  }

  lemma FirstShifted(cfg: ConfigSpace, buses: set<nat>, rank: nat -> nat, a: seq<Slot>, ss: seq<Slot>, b: seq<Slot>, e: nat)
    requires Ranked(cfg, buses, rank) && FirstBehind(cfg, buses, rank, ss, e)
    ensures FirstBehind(cfg, buses, rank, a + ss, |a| + e) && FirstBehind(cfg, buses, rank, ss + b, e)
  {
    hide ScanFrom, Ranked;
  }

  /** Behind a bridge comes the first function of its bus. */
  lemma {:induction false} Behind(cfg: ConfigSpace, buses: set<nat>, rank: nat -> nat, b: nat, pos: nat, e: nat)
    requires Ranked(cfg, buses, rank) && b in buses && pos <= 256 && e < |ScanFrom(cfg, buses, rank, b, pos)|
    requires Bridge(cfg, ScanFrom(cfg, buses, rank, b, pos)[e])
    ensures FirstBehind(cfg, buses, rank, ScanFrom(cfg, buses, rank, b, pos), e)
    decreases rank(b), 256 - pos, 1
  {
    hide Ranked, Found, Bridge, At, SlotAt, FirstBehind;
    if pos == 256 {
      assert false;
    } else {
      Whole(cfg, buses, rank, b, pos);
      hide ScanFrom;
      var here, rest := At(cfg, buses, rank, b, pos), ScanFrom(cfg, buses, rank, b, pos + 1);
      if e < |here| {
        BehindHere(cfg, buses, rank, b, pos, e);
        FirstShifted(cfg, buses, rank, [], here, rest, e);
      } else {
        Behind(cfg, buses, rank, b, pos + 1, e - |here|);
        FirstShifted(cfg, buses, rank, here, rest, [], e - |here|);
      }
    }
  }

  lemma {:induction false} BehindHere(cfg: ConfigSpace, buses: set<nat>, rank: nat -> nat, b: nat, pos: nat, e: nat)
    requires Ranked(cfg, buses, rank) && b in buses && pos < 256 && e < |At(cfg, buses, rank, b, pos)|
    requires Bridge(cfg, At(cfg, buses, rank, b, pos)[e])
    ensures FirstBehind(cfg, buses, rank, At(cfg, buses, rank, b, pos), e)
    decreases rank(b), 256 - pos, 0
  {
    hide Ranked, Found, Bridge, At, SlotAt, ScanFrom;
    Here(cfg, buses, rank, b, pos);
    if e > 0 {
      var s := SlotAt(b, pos);
      Behind(cfg, buses, rank, Secondary(cfg, s), 0, e - 1);
      FirstShifted(cfg, buses, rank, [s], ScanFrom(cfg, buses, rank, Secondary(cfg, s), 0), [], e - 1);
    }
  }

  /**
   * Whatever set-ups fail: a scan lists a function twice exactly if it lists two different bridges to one bus on which
   * there is something.
   */
  lemma ScannedOnce(cfg: ConfigSpace, probe: Slot -> int, buses: set<nat>, rank: nat -> nat, root: nat)
    requires Ranked(cfg, buses, rank) && root in buses
    ensures var r := DepthScan(cfg, probe, rank(root) + 1, root, 0);
            r.Ended? && (NoRepeats(r.slots) <==> forall i: nat, j: nat, x :: !BothListed(cfg, r.slots, i, j, x))
  {
    hide Ranked, Found, Bridge, ScanFrom, DepthScan, BothListed;
    RankedEnds(cfg, probe, buses, rank, rank(root) + 1, root, 0);
    var all := ScanFrom(cfg, buses, rank, root, 0);
    var n := FirstFailure(probe, all);
    var ss := all[..n];
    if i, j :| 0 <= i < j < |ss| && ss[i] == ss[j] {
      var d, e, x := RepeatBack(cfg, buses, rank, root, i, j);
      ListedBefore(cfg, all, d, e, x, n);
    }
    if i: nat, j: nat, x :| BothListed(cfg, ss, i, j, x) {
      SecondTime(cfg, probe, buses, rank, root, i, j, x);
    }
  }

  lemma ListedBefore(cfg: ConfigSpace, all: seq<Slot>, d: nat, e: nat, x: Slot, n: nat)
    requires BothListed(cfg, all, d, e, x) && d < e < n <= |all|
    ensures BothListed(cfg, all[..n], d, e, x)
  {
    hide Bridge, Found;
  }

  /** The first function of the bus is listed behind both bridges: its set-up did not fail the first time. */
  lemma SecondTime(cfg: ConfigSpace, probe: Slot -> int, buses: set<nat>, rank: nat -> nat, root: nat, i: nat, j: nat, x: Slot)
    requires Ranked(cfg, buses, rank) && root in buses
    requires var all := ScanFrom(cfg, buses, rank, root, 0);
             BothListed(cfg, all[..FirstFailure(probe, all)], i, j, x)
    ensures var all := ScanFrom(cfg, buses, rank, root, 0);
            i != j && i + 1 < FirstFailure(probe, all) && j + 1 < FirstFailure(probe, all) && all[i + 1] == all[j + 1]
  {
    hide Ranked, Found, Bridge, ScanFrom, Reaches;
    var all := ScanFrom(cfg, buses, rank, root, 0);
    Behind(cfg, buses, rank, root, 0, i);
    Behind(cfg, buses, rank, root, 0, j);
    SelfReaches(cfg, buses, rank, x.bus);
    ScanMembers(cfg, buses, rank, x.bus, x);
  }

  /** With two bridges to a bus but a set-up that fails at the second, nothing is listed twice. */
  lemma OnceAfterFailure(probe: Slot -> int)
    requires probe(Slot(0, 1, 0)) != 0
    ensures Ranked(TwoBridges, AllBuses(), ByNumber)
    ensures var r := DepthScan(TwoBridges, probe, 256, 0, 0); r.Ended? && NoRepeats(r.slots)
  {
    hide Found, Bridge, ScanFrom, DepthScan, Reaches;
    TwoBridgesSay();
    ScannedOnce(TwoBridges, probe, AllBuses(), ByNumber, 0);
    RankedEnds(TwoBridges, probe, AllBuses(), ByNumber, 256, 0, 0);
    var ss := DepthScan(TwoBridges, probe, 256, 0, 0).slots;
    forall i: nat, j: nat, x ensures !BothListed(TwoBridges, ss, i, j, x) {
      assert forall k :: 0 <= k < |ss| ==> probe(ss[k]) == 0;
    }
  }
}
