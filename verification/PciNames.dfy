/** Device and vendor names read on demand from the pci.ids file. */
module PciNames {
  import opened CTypes
  import opened VendorTrie
  import CString

  /** PCI_MATCH_ANY, ~0U. */
  const ANY: nat := 0xFFFF_FFFF

  /** DO_MATCH: only the left id may be a wildcard. */
  predicate DoMatch(a: nat, b: nat) { a == ANY || a == b }

  predicate Matches(m: IdMatch, id: IdMatch) {
    && DoMatch(m.vendor, id.vendor) && DoMatch(m.device, id.device)
    && DoMatch(m.subvendor, id.subvendor) && DoMatch(m.subdevice, id.subdevice)
  }

  /** What one line of the file says. */
  datatype Line =
    | Ignored
    | VendorLine(id: nat, name: string)
    | DeviceLine(id: nat, name: string)
    | SubsystemLine(subvendor: nat, subdevice: nat, name: string)

  /** At most three leading tabs are counted. */
  function Tabs(buf: string): (n: nat)
    ensures n <= 3
  {
    if CString.CharAt(buf, 0) != '\t' then 0
    else if CString.CharAt(buf, 1) != '\t' then 1
    else if CString.CharAt(buf, 2) != '\t' then 2
    else 3
  }

  /** (unsigned) strtoul(&buf[i], NULL, 16) */
  function Id(buf: string, i: nat): nat {
    Card32(CString.Strtoul(CString.From(buf, i), true))
  }

  function ParseLine(line: string): Line {
    var n := Tabs(line);
    if !(forall i :: n <= i < n + 4 ==> CString.IsXDigit(CString.CharAt(line, i))) then Ignored
    else
      var buf := CString.CutAt(line, '\n', CString.NUL);
      if n == 0 then VendorLine(Id(buf, 0), CString.From(buf, 6))
      else if n == 1 then DeviceLine(Id(buf, 1), CString.From(buf, 7))
      else SubsystemLine(Id(buf, n), Id(buf, n + 5), CString.From(buf, n + 11))
  }

  /** The vendor and the device that the lines so far have announced. */
  datatype Context = Context(vendor: nat, device: Option<nat>)

  function Next(c: Context, l: Line): Context {
    match l
    case VendorLine(id, _) => Context(id, None)
    case DeviceLine(id, _) => c.(device := Some(id))
    case _ => c
  }

  function ContextAt(lines: seq<string>, k: nat): Context
    requires k <= |lines|
  {
    if k == 0 then Context(ANY, None) else Next(ContextAt(lines, k - 1), ParseLine(lines[k - 1]))
  }

  /** Under a 16-bit vendor, a subsystem line follows a device line of the same vendor block. */
  predicate WellFormed(lines: seq<string>) {
    forall k :: 0 <= k < |lines| ==> ParentKnown(lines, k)
  }

  predicate ParentKnown(lines: seq<string>, k: nat)
    requires k < |lines|
  {
    ParseLine(lines[k]).SubsystemLine? && ContextAt(lines, k).vendor < 0x1_0000 ==> ContextAt(lines, k).device.Some?
  }

  /** The device or subsystem that line k names. */
  function EntryAt(lines: seq<string>, k: nat): Option<DeviceLeaf>
    requires k < |lines|
  {
    var c := ContextAt(lines, k);
    match ParseLine(lines[k])
    case DeviceLine(id, name) => Some(DeviceLeaf(IdMatch(c.vendor, id, ANY, ANY), name))
    case SubsystemLine(sv, sd, name) =>
      if c.device.Some? then Some(DeviceLeaf(IdMatch(c.vendor, c.device.value, sv, sd), name)) else None
    case _ => None
  }

  /** A direct scan of the file from line k on: the name on the first line that matches. */
  function ScanDevice(lines: seq<string>, m: IdMatch, k: nat): Option<string>
    requires k <= |lines|
    decreases |lines| - k
  {
    if k == |lines| then None
    else
      var e := EntryAt(lines, k);
      if e.Some? && Matches(m, e.value.id) then Some(e.value.deviceName) else ScanDevice(lines, m, k + 1)
  }

  /** The name on the first of the first k lines that is the line of the vendor. */
  function ScanVendor(lines: seq<string>, v: nat, k: nat): Option<string>
    requires k <= |lines|
  {
    if k == 0 then None
    else if ScanVendor(lines, v, k - 1).Some? then ScanVendor(lines, v, k - 1)
    else if ParseLine(lines[k - 1]).VendorLine? && ParseLine(lines[k - 1]).id == v then Some(ParseLine(lines[k - 1]).name)
    else None
  }

  /** What the first k lines say about the devices of a vendor, in file order. */
  function Entries(lines: seq<string>, v: nat, k: nat): seq<DeviceLeaf>
    requires k <= |lines|
  {
    if k == 0 then []
    else
      var e := EntryAt(lines, k - 1);
      Entries(lines, v, k - 1) + if e.Some? && e.value.id.vendor == v then [e.value] else []
  }

  function FirstMatch(devices: seq<DeviceLeaf>, m: IdMatch): Option<string> {
    if devices == [] then None
    else if Matches(m, devices[0].id) then Some(devices[0].deviceName)
    else FirstMatch(devices[1..], m)
  }

  lemma {:induction false} FirstMatchSplits(a: seq<DeviceLeaf>, b: seq<DeviceLeaf>, m: IdMatch)
    ensures FirstMatch(a + b, m) == if FirstMatch(a, m).Some? then FirstMatch(a, m) else FirstMatch(b, m)
  {
    if a == [] {
      assert a + b == b;
    } else {
      assert (a + b)[1..] == a[1..] + b;
      FirstMatchSplits(a[1..], b, m);
    }
  }

  /** Searching the entries of a vendor gives what the direct scan gives. */
  lemma {:induction false} SearchIsScan(lines: seq<string>, m: IdMatch, k: nat)
    requires k <= |lines| && m.vendor != ANY
    ensures ScanDevice(lines, m, 0) == if FirstMatch(Entries(lines, m.vendor, k), m).Some?
                                       then FirstMatch(Entries(lines, m.vendor, k), m)
                                       else ScanDevice(lines, m, k)
  {
    hide EntryAt;
    if k > 0 {
      SearchIsScan(lines, m, k - 1);
      var e := EntryAt(lines, k - 1);
      FirstMatchSplits(Entries(lines, m.vendor, k - 1), if e.Some? && e.value.id.vendor == m.vendor then [e.value] else [], m);
    }
  }

  /** All entries of a vendor carry its id. */
  lemma {:induction false} EntriesOfVendor(lines: seq<string>, v: nat, k: nat, i: nat)
    requires k <= |lines| && i < |Entries(lines, v, k)|
    ensures Entries(lines, v, k)[i].id.vendor == v
  {
    hide EntryAt;
    if i < |Entries(lines, v, k - 1)| { EntriesOfVendor(lines, v, k - 1, i); }
  }

  lemma {:induction false} NoMatchElsewhere(devices: seq<DeviceLeaf>, m: IdMatch)
    requires m.vendor != ANY && forall i :: 0 <= i < |devices| ==> devices[i].id.vendor != m.vendor
    ensures FirstMatch(devices, m) == None
  {
    if devices != [] { NoMatchElsewhere(devices[1..], m); }
  }

  /** In a vendor's block the last entry carries the announced device, and the vendor's line has been seen. */
  lemma {:induction false} BlockSeen(lines: seq<string>, v: nat, k: nat)
    requires k <= |lines| && v < 0x1_0000 && WellFormed(lines)
    ensures ContextAt(lines, k).vendor == v ==> ScanVendor(lines, v, k).Some?
    ensures Entries(lines, v, k) != [] ==> ScanVendor(lines, v, k).Some?
    ensures ContextAt(lines, k).vendor == v && ContextAt(lines, k).device.Some? ==>
              Entries(lines, v, k) != [] &&
              Entries(lines, v, k)[|Entries(lines, v, k)| - 1].id.device == ContextAt(lines, k).device.value
  {
    hide ParseLine;
    if k > 0 {
      BlockSeen(lines, v, k - 1);
      assert ParentKnown(lines, k - 1);
    }
  }

  lemma {:induction false} VendorStable(lines: seq<string>, v: nat, k: nat, n: nat)
    requires k <= n <= |lines| && ScanVendor(lines, v, k).Some?
    ensures ScanVendor(lines, v, n) == ScanVendor(lines, v, k)
    decreases n
  {
    hide ParseLine;
    if k < n { VendorStable(lines, v, k, n - 1); }
  }

  /** How far the file has been read into a leaf. */
  ghost predicate ReadTo(leaf: PciIdLeaf, lines: seq<string>, k: nat)
    requires k <= |lines|
    reads leaf
  {
    && leaf.devices == Entries(lines, leaf.vendor, k)
    && (leaf.vendorName == None ==> ScanVendor(lines, leaf.vendor, k) == None)
    && (leaf.vendorName.Some? ==> leaf.vendorName == ScanVendor(lines, leaf.vendor, |lines|))
  }

  /** A leaf holds nothing the file does not say, and its devices only all together and with the vendor's name. */
  ghost predicate Cached(leaf: PciIdLeaf, lines: seq<string>)
    reads leaf
  {
    && (leaf.vendorName.Some? ==> leaf.vendorName == ScanVendor(lines, leaf.vendor, |lines|))
    && (leaf.devices != [] ==> leaf.devices == Entries(lines, leaf.vendor, |lines|) && leaf.vendorName.Some?)
  }

  /** The entry that a device or subsystem line adds is the one the file says. */
  lemma NextEntry(leaf: PciIdLeaf, lines: seq<string>, k: nat)
    requires k < |lines| && WellFormed(lines) && leaf.vendor < 0x1_0000 && ReadTo(leaf, lines, k)
    requires ContextAt(lines, k).vendor == leaf.vendor
    ensures ScanVendor(lines, leaf.vendor, k).Some?
    ensures ParseLine(lines[k]).SubsystemLine? ==>
              && leaf.devices != []
              && var l, last := ParseLine(lines[k]), leaf.devices[|leaf.devices| - 1].id;
              && EntryAt(lines, k) == Some(DeviceLeaf(last.(subvendor := l.subvendor, subdevice := l.subdevice), l.name))
  {
    hide ParseLine;
    BlockSeen(lines, leaf.vendor, k);
    assert ParentKnown(lines, k);
    if ParseLine(lines[k]).SubsystemLine? {
      EntriesOfVendor(lines, leaf.vendor, k, |leaf.devices| - 1);
    }
  }

  /** One line that is not the vendor's own and adds no entry. */
  lemma SameEntries(lines: seq<string>, v: nat, k: nat)
    requires k < |lines| && v != ANY
    requires ParseLine(lines[k]).Ignored? || ParseLine(lines[k]).VendorLine? || ContextAt(lines, k).vendor != v
    ensures Entries(lines, v, k + 1) == Entries(lines, v, k)
  {
    hide ParseLine;
  }

  class Names {
    /** What successive calls of pci_id_file_gets return. */
    const lines: seq<string>
    const trie: Trie

    ghost function Footprint(): set<object>
      reads trie
    {
      {trie} + trie.Repr() + set p | p in trie.leaves :: trie.leaves[p]
    }

    ghost predicate Valid()
      reads Footprint()
    {
      trie.Valid() && WellFormed(lines) && forall p :: p in trie.leaves ==> Cached(trie.leaves[p], lines)
    }

    constructor (lines: seq<string>)
      requires WellFormed(lines)
      ensures Valid() && this.lines == lines && fresh(trie) && fresh(Footprint())
    {
      this.lines := lines;
      trie := new Trie();
    }

    /** One line of the file is read into the leaf of a vendor; done tells that no more are needed. */
    method ReadLine(vend: PciIdLeaf, fillDeviceData: bool, k: nat, vendor: nat) returns (newVendor: nat, done: bool)
      requires k < |lines| && WellFormed(lines) && vend.vendor < 0x1_0000
      requires ReadTo(vend, lines, k) && vendor == ContextAt(lines, k).vendor
      requires !fillDeviceData ==> ScanVendor(lines, vend.vendor, k) == None
      modifies vend
      ensures newVendor == ContextAt(lines, k + 1).vendor && ReadTo(vend, lines, k + 1)
      ensures done <==> !fillDeviceData && ScanVendor(lines, vend.vendor, k + 1).Some?
      ensures done ==> vend.devices == old(vend.devices)
    {
      hide ParseLine, WellFormed;
      newVendor, done := vendor, false;
      var line := ParseLine(lines[k]);
      ghost var v := vend.vendor;
      if vendor == v { NextEntry(vend, lines, k); }
      match line
      case Ignored =>
        SameEntries(lines, v, k);
      case VendorLine(id, name) =>
        SameEntries(lines, v, k);
        newVendor := id;
        if vend.vendor == newVendor {
          VendorStable(lines, v, k + 1, |lines|);
          if vend.vendorName == None {
            vend.vendorName := Some(name);
          }
          done := !fillDeviceData;
        }
      case DeviceLine(id, name) =>
        if vendor == vend.vendor {
          vend.devices := vend.devices + [DeviceLeaf(IdMatch(vend.vendor, id, ANY, ANY), name)];
        } else {
          SameEntries(lines, v, k);
        }
      case SubsystemLine(subvendor, subdevice, name) =>
        if vendor == vend.vendor {
          var lastDev := vend.devices[|vend.devices| - 1];
          vend.devices := vend.devices +
            [DeviceLeaf(lastDev.id.(subvendor := subvendor, subdevice := subdevice), name)];
        } else {
          SameEntries(lines, v, k);
        }
    }

    /** Fills a leaf from the file; without fillDeviceData only as far as the vendor's own line. */
    method PopulateVendor(vend: PciIdLeaf, fillDeviceData: bool, fileOpens: bool)
      requires WellFormed(lines) && vend.vendor < 0x1_0000 && Cached(vend, lines)
      modifies vend
      ensures Cached(vend, lines)
      ensures fileOpens ==> vend.vendorName == ScanVendor(lines, vend.vendor, |lines|)
      ensures fileOpens && fillDeviceData ==> vend.devices == Entries(lines, vend.vendor, |lines|)
      ensures !fileOpens || old(vend.devices) != [] ==>
                vend.vendorName == old(vend.vendorName) && vend.devices == old(vend.devices)
    {
      hide ParseLine, WellFormed, EntryAt;
      if vend.devices != [] || !fileOpens {
        return;
      }
      var vendor, k := ANY, 0;
      while k < |lines|
        invariant k <= |lines| && vendor == ContextAt(lines, k).vendor && ReadTo(vend, lines, k)
        invariant !fillDeviceData ==> ScanVendor(lines, vend.vendor, k) == None
      {
        var done;
        BlockSeen(lines, vend.vendor, k);
        vendor, done := ReadLine(vend, fillDeviceData, k, vendor);
        k := k + 1;
        if done {
          VendorStable(lines, vend.vendor, k, |lines|);
          return;
        }
      }
      BlockSeen(lines, vend.vendor, |lines|);
    }

    /** The first entry of a leaf that matches. */
    method SearchDevices(vend: PciIdLeaf, m: IdMatch) returns (name: Option<string>)
      requires Valid()
      ensures Valid() && Footprint() == old(Footprint()) && name == FirstMatch(vend.devices, m)
    {
      hide Matches, Trie.Valid, WellFormed;
      var i := 0;
      while i < |vend.devices|
        invariant i <= |vend.devices|
        invariant FirstMatch(vend.devices, m) == FirstMatch(vend.devices[i..], m)
      {
        if Matches(m, vend.devices[i].id) {
          return Some(vend.devices[i].deviceName);
        }
        i := i + 1;
      }
      return None;
    }

    /** The leaf of a vendor in the trie. */
    method Lookup(vendor: nat) returns (vend: PciIdLeaf)
      requires Valid() && vendor < 0x1_0000
      modifies trie, trie.Repr()
      ensures Valid() && vend.vendor == vendor && Cached(vend, lines)
      ensures forall o :: o in trie.Repr() && o !in old(trie.Repr()) ==> fresh(o)
      ensures Nibbles(vendor) in trie.leaves && trie.leaves[Nibbles(vendor)] == vend
      ensures forall p :: p in trie.leaves && trie.leaves[p] != vend ==> p in old(trie.leaves) && old(trie.leaves[p]) == trie.leaves[p]
      ensures fresh(vend) || (Nibbles(vendor) in old(trie.leaves) && old(trie.leaves[Nibbles(vendor)]) == vend)
    {
      hide WellFormed, Trie.Valid, Nibbles, ScanVendor, Entries;
      trie.LeavesOutside();
      vend := trie.Insert(vendor);
      assert Cached(vend, lines);
    }

    /** The leaf of a vendor, read from the file as far as a name needs it. */
    method Leaf(vendor: nat, wantDevices: bool, fileOpens: bool) returns (vend: PciIdLeaf)
      requires Valid() && vendor < 0x1_0000
      modifies Footprint()
      ensures Valid() && forall o :: o in Footprint() && o !in old(Footprint()) ==> fresh(o)
      ensures vend.vendor == vendor && Cached(vend, lines)
      ensures fileOpens && wantDevices ==> vend.devices == Entries(lines, vendor, |lines|)
      ensures fileOpens && !wantDevices ==> vend.vendorName == ScanVendor(lines, vendor, |lines|)
    {
      hide WellFormed, Shaped, Apart, Linked, Nibbles, ScanVendor, Entries, ContextAt, EntryAt;
      vend := Lookup(vendor);
      trie.LeavesOutside();
      if if wantDevices then vend.devices == [] else vend.vendorName == None {
        PopulateVendor(vend, wantDevices, fileOpens);
      }
    }

    /** The name of a device, or of a subsystem when one is asked for. */
    method FindDeviceName(m: IdMatch, fileOpens: bool) returns (name: Option<string>)
      requires Valid()
      modifies Footprint()
      ensures Valid() && forall o :: o in Footprint() && o !in old(Footprint()) ==> fresh(o)
      ensures m.vendor >= 0x1_0000 ==> name == None
      ensures m.vendor < 0x1_0000 ==> name == None || name == ScanDevice(lines, m, 0)
      ensures m.vendor < 0x1_0000 && fileOpens ==> name == ScanDevice(lines, m, 0)
    {
      hide Valid, Trie.Valid, ScanDevice, FirstMatch, Entries;
      if m.vendor == ANY {
        return None;
      }
      var vend := Leaf(m.vendor % 0x1_0000, true, fileOpens);
      LeafSearch(vend, m);
      name := SearchDevices(vend, m);
    }

    lemma LeafSearch(vend: PciIdLeaf, m: IdMatch)
      requires Cached(vend, lines) && m.vendor != ANY && vend.vendor == m.vendor % 0x1_0000
      ensures m.vendor >= 0x1_0000 ==> FirstMatch(vend.devices, m) == None
      ensures m.vendor < 0x1_0000 && vend.devices == Entries(lines, vend.vendor, |lines|) ==>
                FirstMatch(vend.devices, m) == ScanDevice(lines, m, 0)
      ensures m.vendor < 0x1_0000 ==> FirstMatch(vend.devices, m) in {None, ScanDevice(lines, m, 0)}
    {
      hide Entries, FirstMatch, ScanDevice, ScanVendor, ContextAt, ParseLine;
      NoEntries(m);
      if vend.devices == Entries(lines, vend.vendor, |lines|) {
        if m.vendor < 0x1_0000 {
          SearchIsScan(lines, m, |lines|);
        } else {
          forall i | 0 <= i < |vend.devices| ensures vend.devices[i].id.vendor == vend.vendor {
            EntriesOfVendor(lines, vend.vendor, |lines|, i);
          }
          NoMatchElsewhere(vend.devices, m);
        }
      } else {
        assert vend.devices == [];
      }
    }

    /** Nothing matches in no entries, or behind the last line. */
    lemma NoEntries(m: IdMatch)
      ensures FirstMatch([], m) == None && ScanDevice(lines, m, |lines|) == None
    {}

    /** The name of a vendor: the id is cut to 16 bits on its way into the trie. */
    method FindVendorName(m: IdMatch, fileOpens: bool) returns (name: Option<string>)
      requires Valid()
      modifies Footprint()
      ensures Valid() && forall o :: o in Footprint() && o !in old(Footprint()) ==> fresh(o)
      ensures m.vendor == ANY ==> name == None
      ensures m.vendor != ANY ==> name == None || name == ScanVendor(lines, m.vendor % 0x1_0000, |lines|)
      ensures m.vendor != ANY && fileOpens ==> name == ScanVendor(lines, m.vendor % 0x1_0000, |lines|)
    {
      hide Valid, Trie.Valid, ScanVendor, Entries;
      if m.vendor == ANY {
        return None;
      }
      var vend := Leaf(m.vendor % 0x1_0000, false, fileOpens);
      name := vend.vendorName;
    }

    /** The four names of a match: the last two calls are given the subsystem as well. */
    method GetStrings(m: IdMatch, fileOpens: bool)
      returns (deviceName: Option<string>, vendorName: Option<string>, subdeviceName: Option<string>,
               subvendorName: Option<string>)
      requires Valid()
      modifies Footprint()
      ensures Valid() && forall o :: o in Footprint() && o !in old(Footprint()) ==> fresh(o)
      ensures m.vendor >= 0x1_0000 ==> deviceName == subdeviceName == None
      ensures m.vendor < 0x1_0000 && fileOpens ==>
                && deviceName == ScanDevice(lines, m.(subvendor := ANY, subdevice := ANY), 0)
                && subdeviceName == ScanDevice(lines, m, 0)
      ensures fileOpens ==> vendorName == subvendorName == NameOfVendor(lines, m.vendor)
    {
      hide Valid, Trie.Valid, ScanVendor, ScanDevice;
      var temp := m.(subvendor := ANY, subdevice := ANY);
      deviceName := FindDeviceName(temp, fileOpens);
      vendorName := FindVendorName(temp, fileOpens);
      subdeviceName := FindDeviceName(m, fileOpens);
      subvendorName := FindVendorName(m, fileOpens);
    }
  }

  // ----- the name of the subvendor -----

  /** What a lookup of a vendor id answers. */
  function NameOfVendor(lines: seq<string>, v: nat): Option<string> {
    if v == ANY then None else ScanVendor(lines, v % 0x1_0000, |lines|)
  }

  /** No two listed vendors have the same name. */
  ghost predicate NamesDiffer(lines: seq<string>) {
    forall v: nat, w: nat :: v < 0x1_0000 && w < 0x1_0000 && v != w && NameOfVendor(lines, v).Some? ==>
      NameOfVendor(lines, v) != NameOfVendor(lines, w)
  }

  predicate Listed(lines: seq<string>, v: nat) {
    NameOfVendor(lines, v).Some?
  }

  /**
   * The name given for a subvendor is the one the file has for it, where listed vendors differ in name, exactly if
   * the vendor and the subvendor have the same id, cut to 16 bits, or neither is listed.
   */
  lemma SubvendorNamed(lines: seq<string>, vendor: nat, subvendor: nat)
    requires NamesDiffer(lines) && vendor != ANY && subvendor != ANY
    ensures NameOfVendor(lines, vendor) == NameOfVendor(lines, subvendor) <==>
              vendor % 0x1_0000 == subvendor % 0x1_0000 || (!Listed(lines, vendor) && !Listed(lines, subvendor))
  {
    hide ScanVendor;
    var v, w := vendor % 0x1_0000, subvendor % 0x1_0000;
    CutTwice(vendor);
    CutTwice(subvendor);
    assert NameOfVendor(lines, vendor) == NameOfVendor(lines, v);
    assert NameOfVendor(lines, subvendor) == NameOfVendor(lines, w);
  }

  lemma CutTwice(v: nat)
    ensures v % 0x1_0000 % 0x1_0000 == v % 0x1_0000 < 0x1_0000
  {}

  /** Two vendors of different names in a file: each of them as the subvendor of the other gets the wrong name. */
  lemma SubvendorMisnamed(v: nat, name: string, w: nat, other: string)
    requires v < 0x1_0000 && w < 0x1_0000 && v != w && name != other
    requires '\n' !in name && CString.NUL !in name && '\n' !in other && CString.NUL !in other
    ensures var lines := [VendorText(v, name), VendorText(w, other)];
            NameOfVendor(lines, v) == Some(name) && NameOfVendor(lines, w) == Some(other)
  {
    hide ParseLine, VendorText;
    VendorLineReadBack(v, name);
    VendorLineReadBack(w, other);
    var lines := [VendorText(v, name), VendorText(w, other)];
    assert ScanVendor(lines, v, 0) == None && ScanVendor(lines, w, 0) == None;
    assert ScanVendor(lines, v, 1) == Some(name) && ScanVendor(lines, w, 1) == None;
  }

  /** Vendor lines name 16-bit ids. */
  predicate FourDigitVendors(lines: seq<string>) {
    forall k :: 0 <= k < |lines| && ParseLine(lines[k]).VendorLine? ==> ParseLine(lines[k]).id < 0x1_0000
  }

  lemma {:induction false} NoWideVendor(lines: seq<string>, v: nat, k: nat)
    requires k <= |lines| && FourDigitVendors(lines) && 0x1_0000 <= v < ANY
    ensures ScanVendor(lines, v, k) == None && ContextAt(lines, k).vendor != v
  {
    hide ParseLine;
    if k > 0 { NoWideVendor(lines, v, k - 1); }
  }

  lemma {:induction false} NoWideDevice(lines: seq<string>, m: IdMatch, k: nat)
    requires k <= |lines| && FourDigitVendors(lines) && 0x1_0000 <= m.vendor < ANY
    ensures ScanDevice(lines, m, k) == None
    decreases |lines| - k
  {
    hide ParseLine, FourDigitVendors;
    if k < |lines| {
      NoWideVendor(lines, m.vendor, k);
      NoWideDevice(lines, m, k + 1);
    }
  }

  /** Cutting the id to 16 bits finds the file's answer unless it turns a wide id into a listed one. */
  lemma CutVendor(lines: seq<string>, v: nat)
    requires FourDigitVendors(lines) && v < ANY
    ensures ScanVendor(lines, v % 0x1_0000, |lines|) == ScanVendor(lines, v, |lines|)
       <==> v < 0x1_0000 || ScanVendor(lines, v % 0x1_0000, |lines|) == None
  {
    hide ScanVendor, FourDigitVendors;
    if v >= 0x1_0000 { NoWideVendor(lines, v, |lines|); }
  }

  /** The line of a vendor, as the file writes it. */
  function VendorText(v: nat, name: string): string {
    CString.Padded(v, 4) + "  " + name
  }

  lemma VendorLineReadBack(v: nat, name: string)
    requires v < 0x1_0000 && '\n' !in name && CString.NUL !in name
    ensures ParseLine(VendorText(v, name)) == VendorLine(v, name)
  {
    hide CString.Padded, CString.Strtoul, CString.CutAt;
    var id, line := CString.Padded(v, 4), VendorText(v, name);
    assert CString.Power(true, 4) == 0x1_0000 by { assert CString.Power(true, 2) == 0x100; }
    CString.PaddedLength(v, 4, 4);
    HexLine(line, id);
    assert line == id + ("  " + name);
    CString.PaddedConverts(v, 4, "  " + name);
    HexHasNo(id, '\n');
    HexHasNo(id, CString.NUL);
    CString.CutNowhere(line, '\n', CString.NUL);
    assert line[6..] == name;
  }

  lemma HexHasNo(s: string, c: char)
    requires CString.AllInBase(s, true) && !CString.IsXDigit(c)
    ensures c !in s
  {}

  lemma HexLine(line: string, id: string)
    requires |id| == 4 && CString.AllInBase(id, true) && id <= line
    ensures Tabs(line) == 0 && forall i :: 0 <= i < 4 ==> CString.IsXDigit(CString.CharAt(line, i))
  {
    assert CString.IsXDigit(id[0]);
  }

  /** The lines of a device and of a subsystem, as the file writes them. */
  function DeviceText(d: nat, name: string): string {
    "\t" + CString.Padded(d, 4) + "  " + name
  }

  function SubsystemText(sv: nat, sd: nat, name: string): string {
    "\t\t" + CString.Padded(sv, 4) + " " + CString.Padded(sd, 4) + "  " + name
  }

  /** An id of four digits in a line. */
  lemma IdAt(before: string, x: nat, rest: string)
    requires x < 0x1_0000 && rest != [] && rest[0] == ' '
    ensures var line := before + CString.Padded(x, 4) + rest;
            && |CString.Padded(x, 4)| == 4 && Id(line, |before|) == x
            && forall i :: |before| <= i < |before| + 4 ==> CString.IsXDigit(CString.CharAt(line, i))
    ensures '\n' !in CString.Padded(x, 4) && CString.NUL !in CString.Padded(x, 4) && '\t' !in CString.Padded(x, 4)
  {
    hide CString.Padded, CString.Strtoul;
    var id := CString.Padded(x, 4);
    assert CString.Power(true, 4) == 0x1_0000 by { assert CString.Power(true, 2) == 0x100; }
    CString.PaddedLength(x, 4, 4);
    CString.PaddedConverts(x, 4, rest);
    var line := before + id + rest;
    assert line[|before|..] == id + rest;
    forall i | |before| <= i < |before| + 4 ensures CString.IsXDigit(CString.CharAt(line, i)) {
      assert line[i] == id[i - |before|];
    }
  }

  lemma DeviceLineReadBack(d: nat, name: string)
    requires d < 0x1_0000 && '\n' !in name && CString.NUL !in name
    ensures ParseLine(DeviceText(d, name)) == DeviceLine(d, name)
  {
    hide CString.Padded, CString.Strtoul, CString.CutAt, Id;
    var line := DeviceText(d, name);
    IdAt("\t", d, "  " + name);
    assert line == "\t" + CString.Padded(d, 4) + ("  " + name);
    CString.CutNowhere(line, '\n', CString.NUL);
    assert Tabs(line) == 1 by { assert line[1] == CString.Padded(d, 4)[0]; }
    assert line[7..] == name;
  }

  lemma SubsystemLineReadBack(sv: nat, sd: nat, name: string)
    requires sv < 0x1_0000 && sd < 0x1_0000 && '\n' !in name && CString.NUL !in name
    ensures ParseLine(SubsystemText(sv, sd, name)) == SubsystemLine(sv, sd, name)
  {
    hide CString.Padded, CString.Strtoul, CString.CutAt, Id;
    var line := SubsystemText(sv, sd, name);
    var s, t := CString.Padded(sv, 4), CString.Padded(sd, 4);
    IdAt("\t\t", sv, " " + t + "  " + name);
    IdAt("\t\t" + s + " ", sd, "  " + name);
    assert line == "\t\t" + s + (" " + t + "  " + name);
    assert line == "\t\t" + s + " " + t + ("  " + name);
    CString.CutNowhere(line, '\n', CString.NUL);
    assert Tabs(line) == 2 by { assert line[2] == s[0]; }
    assert line[13..] == name;
  }

  /** A line counts only if four hex digits follow its tabs, of which three are passed over. */
  lemma LineIgnored(tabs: string, text: string)
    requires |tabs| <= 3 && (forall i :: 0 <= i < |tabs| ==> tabs[i] == '\t') && (|tabs| < 3 ==> text == [] || text[0] != '\t')
    ensures ParseLine(tabs + text).Ignored? <==> |text| < 4 || !CString.AllInBase(text[..4], true)
  {
    hide CString.CutAt, Id;
    var line := tabs + text;
    assert Tabs(line) == |tabs|;
    forall i: nat ensures CString.CharAt(line, |tabs| + i) == if i < |text| then text[i] else CString.NUL {}
    if |text| >= 4 && CString.AllInBase(text[..4], true) {
      forall i | |tabs| <= i < |tabs| + 4 ensures CString.IsXDigit(CString.CharAt(line, i)) {
        assert CString.CharAt(line, |tabs| + (i - |tabs|)) == text[..4][i - |tabs|];
      }
    } else if |text| >= 4 {
      var i :| 0 <= i < 4 && !CString.IsXDigit(text[..4][i]);
      assert !CString.IsXDigit(CString.CharAt(line, |tabs| + i));
    } else {
      assert !CString.IsXDigit(CString.CharAt(line, |tabs| + 3));
    }
  }

  /** A third tab in front of a subsystem's line changes nothing. */
  lemma ThirdTab(sv: nat, sd: nat, name: string)
    requires sv < 0x1_0000 && sd < 0x1_0000 && '\n' !in name && CString.NUL !in name
    ensures ParseLine("\t" + SubsystemText(sv, sd, name)) == SubsystemLine(sv, sd, name)
  {
    hide CString.Padded, CString.Strtoul, CString.CutAt, Id;
    var line := "\t" + SubsystemText(sv, sd, name);
    var s, t := CString.Padded(sv, 4), CString.Padded(sd, 4);
    IdAt("\t\t\t", sv, " " + t + "  " + name);
    IdAt("\t\t\t" + s + " ", sd, "  " + name);
    assert line == "\t\t\t" + s + (" " + t + "  " + name);
    assert line == "\t\t\t" + s + " " + t + ("  " + name);
    CString.CutNowhere(line, '\n', CString.NUL);
    assert line[14..] == name;
  }

  /** The newline that ends a line changes nothing. */
  lemma NewlineIgnored(line: string)
    requires '\n' !in line && CString.NUL !in line
    ensures ParseLine(line + "\n") == ParseLine(line)
  {
    hide Id;
    CString.CutNowhere(line, '\n', CString.NUL);
    CString.CutThere(line, '\n', CString.NUL);
    forall i: nat
      ensures CString.CharAt(line + "\n", i) == if i == |line| then '\n' else CString.CharAt(line, i)
    {}
    assert Tabs(line + "\n") == Tabs(line);
    forall i: nat
      ensures CString.IsXDigit(CString.CharAt(line + "\n", i)) == CString.IsXDigit(CString.CharAt(line, i))
    {}
    assert line + "\n" == line + ['\n'];
  }

  /** In a file of one vendor, one device and one subsystem of it, each is found by its ids, and no other subsystem. */
  lemma ThreeLines(v: nat, vendor: string, d: nat, device: string, sv: nat, sd: nat, subsystem: string)
    requires v < 0x1_0000 && d < 0x1_0000 && sv < 0x1_0000 && sd < 0x1_0000
    requires '\n' !in vendor + device + subsystem && CString.NUL !in vendor + device + subsystem
    ensures var lines := [VendorText(v, vendor), DeviceText(d, device), SubsystemText(sv, sd, subsystem)];
            && WellFormed(lines)
            && ScanVendor(lines, v, 3) == Some(vendor)
            && ScanDevice(lines, IdMatch(v, d, 0xFFFF_FFFF, 0xFFFF_FFFF), 0) == Some(device)
            && ScanDevice(lines, IdMatch(v, 0xFFFF_FFFF, 0xFFFF_FFFF, 0xFFFF_FFFF), 0) == Some(device)
            && ScanDevice(lines, IdMatch(v, d, sv, sd), 0) == Some(subsystem)
            && ScanDevice(lines, IdMatch(v, d, 0xFFFF_FFFF, sd), 0) == Some(subsystem)
            && ScanDevice(lines, IdMatch(v, d, sv, 0xFFFF_FFFF), 0) == Some(subsystem)
            && (forall w: nat, e: nat :: w < 0x1_0000 && e < 0x1_0000 && (w, e) != (v, d) ==>
                  ScanDevice(lines, IdMatch(w, e, 0xFFFF_FFFF, 0xFFFF_FFFF), 0) == None)
            && forall sv': nat, sd': nat :: sv' < 0x1_0000 && sd' < 0x1_0000 && (sv', sd') != (sv, sd) ==>
                 ScanDevice(lines, IdMatch(v, d, sv', sd'), 0) == None
  {
    hide ParseLine, VendorText, DeviceText, SubsystemText, ScanVendor, ScanDevice;
    var lines := [VendorText(v, vendor), DeviceText(d, device), SubsystemText(sv, sd, subsystem)];
    assert '\n' !in vendor && '\n' !in device && '\n' !in subsystem by { InParts(vendor, device, subsystem, '\n'); }
    assert CString.NUL !in vendor && CString.NUL !in device && CString.NUL !in subsystem by {
      InParts(vendor, device, subsystem, CString.NUL);
    }
    VendorLineReadBack(v, vendor);
    DeviceLineReadBack(d, device);
    SubsystemLineReadBack(sv, sd, subsystem);
    assert ContextAt(lines, 1) == Context(v, None);
    assert ContextAt(lines, 2) == Context(v, Some(d));
    VendorStep(lines, v, 1);
    VendorStep(lines, v, 2);
    VendorStep(lines, v, 3);
    forall w: nat, e: nat, sv': nat, sd': nat | w < 0x1_0000
      ensures ScanDevice(lines, IdMatch(w, e, sv', sd'), 0)
           == if w != v || (e != d && e != ANY) then None
              else if sv' == ANY && sd' == ANY then Some(device)
              else if (sv' == ANY || sv' == sv) && (sd' == ANY || sd' == sd) then Some(subsystem) else None
    {
      var m := IdMatch(w, e, sv', sd');
      DeviceStep(lines, m, 0);
      DeviceStep(lines, m, 1);
      DeviceStep(lines, m, 2);
      DeviceStep(lines, m, 3);
    }
  }

  lemma InParts(a: string, b: string, c: string, x: char)
    requires x !in a + b + c
    ensures x !in a && x !in b && x !in c
  {
    assert x in a + b ==> x in a + b + c;
  }

  lemma VendorStep(lines: seq<string>, v: nat, k: nat)
    requires 0 < k <= |lines|
    ensures ScanVendor(lines, v, k - 1).Some? ==> ScanVendor(lines, v, k) == ScanVendor(lines, v, k - 1)
    ensures k == 1 && ParseLine(lines[0]).VendorLine? && ParseLine(lines[0]).id == v ==>
              ScanVendor(lines, v, 1) == Some(ParseLine(lines[0]).name)
  {
    hide ParseLine;
    assert ScanVendor(lines, v, 0) == None;
  }

  lemma DeviceStep(lines: seq<string>, m: IdMatch, k: nat)
    requires k <= |lines|
    ensures ScanDevice(lines, m, k)
         == if k == |lines| then None
            else if EntryAt(lines, k).Some? && Matches(m, EntryAt(lines, k).value.id) then Some(EntryAt(lines, k).value.deviceName)
            else ScanDevice(lines, m, k + 1)
  {
    hide EntryAt, Matches;
  }

  /** The code on that file. */
  method FindInThreeLines(v: nat, vendor: string, d: nat, device: string, sv: nat, sd: nat, subsystem: string)
    returns (deviceName: Option<string>, subsystemName: Option<string>, vendorName: Option<string>)
    requires v < 0x1_0000 && d < 0x1_0000 && sv < 0x1_0000 && sd < 0x1_0000
    requires '\n' !in vendor + device + subsystem && CString.NUL !in vendor + device + subsystem
    ensures deviceName == Some(device) && subsystemName == Some(subsystem) && vendorName == Some(vendor)
  {
    hide *;
    ThreeLines(v, vendor, d, device, sv, sd, subsystem);
    deviceName, subsystemName, vendorName :=
      FindTwo([VendorText(v, vendor), DeviceText(d, device), SubsystemText(sv, sd, subsystem)],
              IdMatch(v, d, 0xFFFF_FFFF, 0xFFFF_FFFF), IdMatch(v, d, sv, sd));
  }

  /** Two lookups of one vendor in a file, and the vendor's name. */
  method FindTwo(lines: seq<string>, first: IdMatch, second: IdMatch)
    returns (name1: Option<string>, name2: Option<string>, vendorName: Option<string>)
    requires WellFormed(lines) && first.vendor < 0x1_0000 && second.vendor < 0x1_0000
    ensures name1 == ScanDevice(lines, first, 0) && name2 == ScanDevice(lines, second, 0)
    ensures vendorName == ScanVendor(lines, first.vendor, |lines|)
  {
    hide WellFormed, ScanDevice, ScanVendor, Trie.Valid, Names.Valid, Names.Footprint;
    var names := new Names(lines);
    name1 := names.FindDeviceName(first, true);
    name2 := names.FindDeviceName(second, true);
    vendorName := names.FindVendorName(first, true);
  }

  /** In any file whose vendor ids have four digits: a wide id, which is never listed, is answered with the name of the
      listed vendor whose id is its low half. */
  lemma WideVendorMisnamed(lines: seq<string>, w: nat)
    requires FourDigitVendors(lines) && 0x1_0000 <= w < ANY && Listed(lines, w % 0x1_0000)
    ensures ScanVendor(lines, w, |lines|) == None
    ensures NameOfVendor(lines, w) == NameOfVendor(lines, w % 0x1_0000) && NameOfVendor(lines, w).Some?
  {
    hide ScanVendor, FourDigitVendors;
    NoWideVendor(lines, w, |lines|);
    CutTwice(w);
  }

  /** For instance in a file of one vendor line. */
  lemma OneVendorMisnamed(v: nat, name: string, w: nat)
    requires v < 0x1_0000 <= w < ANY && w % 0x1_0000 == v && '\n' !in name && CString.NUL !in name
    ensures ScanVendor([VendorText(v, name)], w, 1) == None
    ensures ScanVendor([VendorText(v, name)], w % 0x1_0000, 1) == Some(name)
  {
    hide ParseLine, VendorText;
    VendorLineReadBack(v, name);
    var lines := [VendorText(v, name)];
    assert ScanVendor(lines, w, 0) == None && ScanVendor(lines, v, 0) == None;
  }
}
