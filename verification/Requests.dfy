/** Requests replayed on every screen with single value-list entries rewritten: CreateWindow, ChangeGC and
    ConfigureWindow of panoramiXprocs.c. */
module Requests {
  import opened CTypes
  import opened Masks
  import opened ValueLists

  datatype Status = Success | BadLength | BadResource | BadMatch | BadAlloc | HandlerError(code: int)

  /** A resource's id on each screen: info[j].id. */
  type Ids = seq<int>

  const GCTile: bv32 := 0x400
  const GCStipple: bv32 := 0x800
  const GCClipMask: bv32 := 0x8_0000
  const CWBackPixmap: bv32 := 0x1
  const CWBorderPixmap: bv32 := 0x4
  const CWColormap: bv32 := 0x2000
  const CWX: bv32 := 0x1
  const CWY: bv32 := 0x2
  const CWSibling: bv32 := 0x20

  const NoneId: int := 0
  const ParentRelative: int := 1
  const CopyFromParent: int := 0

  /** The entry of one bit, with its value for each screen. */
  datatype Patch = Patch(bit: bv32, values: seq<int>)

  predicate SetBit(mask: bv32, r: bv32) {
    Single(r) && Has(mask, r)
  }

  ghost predicate GoodPatches(mask: bv32, patches: seq<Patch>, n: nat) {
    && (forall k :: 0 <= k < |patches| ==> SetBit(mask, patches[k].bit) && |patches[k].values| == n)
    && (forall k, m :: 0 <= k < m < |patches| ==> patches[k].bit != patches[m].bit)
  }

  ghost predicate Named(patches: seq<Patch>, r: bv32) {
    exists k :: 0 <= k < |patches| && patches[k].bit == r
  }

  /** Entries of bits no patch names read as in the original list. */
  ghost predicate Kept(mask: bv32, orig: seq<int>, now: seq<int>, patches: seq<Patch>)
    requires |orig| == Ones(mask)
  {
    && |now| == |orig|
    && forall r :: SetBit(mask, r) && !Named(patches, r) ==> Read(mask, now, r) == Read(mask, orig, r)
  }

  /** Entries of the first `done` patches read as screen j's values. */
  ghost predicate Applied(mask: bv32, now: seq<int>, patches: seq<Patch>, done: nat, j: nat)
  {
    && |now| == Ones(mask)
    && done <= |patches|
    && forall k :: 0 <= k < done ==>
         SetBit(mask, patches[k].bit) && j < |patches[k].values| && Read(mask, now, patches[k].bit) == patches[k].values[j]
  }

  /** A screen's list is the original one with exactly the patched entries set to that screen's values. */
  ghost predicate Rewritten(mask: bv32, orig: seq<int>, sent: seq<int>, patches: seq<Patch>, j: nat)
    requires |orig| == Ones(mask)
  {
    Kept(mask, orig, sent, patches) && Applied(mask, sent, patches, |patches|, j)
  }

  /** Writing the next patch's entry. */
  lemma WritePatch(mask: bv32, orig: seq<int>, now: seq<int>, patches: seq<Patch>, done: nat, n: nat, j: nat)
    requires |orig| == Ones(mask) && GoodPatches(mask, patches, n) && done < |patches| && j < n
    requires Kept(mask, orig, now, patches) && Applied(mask, now, patches, done, j)
    ensures Position(mask, patches[done].bit) < |now|
    ensures var next := now[Position(mask, patches[done].bit) := patches[done].values[j]];
            Kept(mask, orig, next, patches) && Applied(mask, next, patches, done + 1, j)
  {
    hide Has, Single, Position, Read, Ones;
    var q := patches[done].bit;
    PositionReads(mask, now, q);
    var next := now[Position(mask, q) := patches[done].values[j]];
    forall r | SetBit(mask, r) && !Named(patches, r)
      ensures Read(mask, next, r) == Read(mask, orig, r)
    {
      PositionWrites(mask, now, q, patches[done].values[j], r);
    }
    forall k | 0 <= k < done + 1
      ensures Read(mask, next, patches[k].bit) == patches[k].values[j]
    {
      PositionWrites(mask, now, q, patches[done].values[j], patches[k].bit);
    }
  }

  // ----- looking up the resource an entry names -----

  datatype Lookup = Absent | Missing | Found(ids: Ids)

  /** The resource named by a bit's entry, unless the bit is clear or the entry is one of the exempt values. */
  function NamedResource(mask: bv32, values: seq<int>, bit: bv32, exempt: set<int>, table: map<int, Ids>): Lookup
    requires |values| == Ones(mask) && Single(bit)
  {
    if !Has(mask, bit) || Read(mask, values, bit) in exempt then Absent
    else if Read(mask, values, bit) in table then Found(table[Read(mask, values, bit)])
    else Missing
  }

  method LookupEntry(mask: bv32, values: seq<int>, bit: bv32, exempt: set<int>, table: map<int, Ids>)
    returns (found: Lookup, offset: nat)
    requires |values| == Ones(mask) && Single(bit)
    ensures found == NamedResource(mask, values, bit, exempt, table)
    ensures Has(mask, bit) ==> offset == Position(mask, bit)
  {
    hide Single, Ones, Read;
    found, offset := Absent, 0;
    if mask & bit != 0 {
      offset := Ones(mask & (bit - 1));
      PositionReads(mask, values, bit);
      var tmp := values[offset];
      if tmp !in exempt {
        found := if tmp in table then Found(table[tmp]) else Missing;
      }
    }
  }

  function PatchOf(bit: bv32, found: Lookup): seq<Patch> {
    if found.Found? then [Patch(bit, found.ids)] else []
  }

  /** `if (resource) *(list + offset) = resource->info[j].id` */
  method PatchEntry(list: seq<int>, offset: nat, found: Lookup, j: nat, ghost bit: bv32, ghost mask: bv32,
                    ghost orig: seq<int>, ghost patches: seq<Patch>, ghost done: nat, ghost n: nat)
    returns (next: seq<int>)
    requires |orig| == Ones(mask) && GoodPatches(mask, patches, n) && j < n
    requires Kept(mask, orig, list, patches) && Applied(mask, list, patches, done, j)
    requires found.Found? ==> done < |patches| && patches[done] == Patch(bit, found.ids) && offset == Position(mask, bit)
    ensures Kept(mask, orig, next, patches)
    ensures Applied(mask, next, patches, done + |PatchOf(bit, found)|, j)
  {
    hide Single, Has, Ones, Read, Kept, Applied, Position;
    next := list;
    if found.Found? {
      WritePatch(mask, orig, list, patches, done, n, j);
      next := next[offset := found.ids[j]];
    }
  }

  /** Screen j's values of the three entries of a request that can name a resource. */
  method PatchEntries(list: seq<int>, offset1: nat, found1: Lookup, offset2: nat, found2: Lookup, offset3: nat,
                      found3: Lookup, j: nat, ghost bit1: bv32, ghost bit2: bv32, ghost bit3: bv32, ghost mask: bv32,
                      ghost orig: seq<int>, ghost n: nat)
    returns (next: seq<int>)
    requires |orig| == Ones(mask) && j < n
    requires GoodPatches(mask, PatchOf(bit1, found1) + PatchOf(bit2, found2) + PatchOf(bit3, found3), n)
    requires Kept(mask, orig, list, PatchOf(bit1, found1) + PatchOf(bit2, found2) + PatchOf(bit3, found3))
    requires found1.Found? ==> offset1 == Position(mask, bit1)
    requires found2.Found? ==> offset2 == Position(mask, bit2)
    requires found3.Found? ==> offset3 == Position(mask, bit3)
    ensures Rewritten(mask, orig, next, PatchOf(bit1, found1) + PatchOf(bit2, found2) + PatchOf(bit3, found3), j)
  {
    hide Has, Single, Ones, Read, Kept, Applied, Position, GoodPatches;
    ghost var patches := PatchOf(bit1, found1) + PatchOf(bit2, found2) + PatchOf(bit3, found3);
    ghost var d1 := |PatchOf(bit1, found1)|;
    ghost var d2 := d1 + |PatchOf(bit2, found2)|;
    AppliedStart(mask, orig, list, patches, j);
    next := PatchEntry(list, offset1, found1, j, bit1, mask, orig, patches, 0, n);
    next := PatchEntry(next, offset2, found2, j, bit2, mask, orig, patches, d1, n);
    next := PatchEntry(next, offset3, found3, j, bit3, mask, orig, patches, d2, n);
  }

  /** FOR_NSCREENS_BACKWARD */
  function Backward(n: nat): seq<nat> {
    seq(n, k requires 0 <= k < n => n - 1 - k)
  }

  /** FOR_NSCREENS_FORWARD */
  function Forward(n: nat): seq<nat> {
    seq(n, k requires 0 <= k < n => k)
  }

  /** The screens are sent one request each, in order, until a handler fails. */
  ghost predicate Replayed(count: nat, order: seq<nat>, handler: nat -> int, status: Status) {
    && count <= |order|
    && (forall k :: 0 <= k < count ==> handler(order[k]) == 0 || (k == count - 1 && status == HandlerError(handler(order[k]))))
    && (status == Success || (count > 0 && handler(order[count - 1]) != 0 && status == HandlerError(handler(order[count - 1]))))
    && (status == Success ==> count == |order| && forall k :: 0 <= k < count ==> handler(order[k]) == 0)
  }

  /** A replay ends well when every screen has been sent its request and none failed; otherwise the last one sent is the
      first that failed, with that screen's error. */
  lemma ReplayStops(count: nat, order: seq<nat>, handler: nat -> int, status: Status)
    requires Replayed(count, order, handler, status)
    ensures status == Success ==> count == |order| && forall k :: 0 <= k < |order| ==> handler(order[k]) == 0
    ensures status != Success ==>
      && 0 < count <= |order| && handler(order[count - 1]) != 0 && status == HandlerError(handler(order[count - 1]))
      && forall k :: 0 <= k < count - 1 ==> handler(order[k]) == 0
  {}

  datatype GCRequest = GCRequest(gc: int, values: seq<int>)

  ghost predicate GCsSent(sent: seq<GCRequest>, gc: Ids, mask: bv32, values: seq<int>, patches: seq<Patch>)
    requires |values| == Ones(mask) && |sent| <= |gc|
  {
    forall k :: 0 <= k < |sent| ==>
      && sent[k].gc == gc[Backward(|gc|)[k]]
      && Rewritten(mask, values, sent[k].values, patches, Backward(|gc|)[k])
  }

  lemma GCPatches(mask: bv32, values: seq<int>, table: map<int, Ids>, n: nat)
    requires |values| == Ones(mask) && forall id :: id in table ==> |table[id]| == n
    ensures Single(GCTile) && Single(GCStipple) && Single(GCClipMask)
    ensures GoodPatches(mask, PatchOf(GCTile, NamedResource(mask, values, GCTile, {NoneId}, table))
                              + PatchOf(GCStipple, NamedResource(mask, values, GCStipple, {NoneId}, table))
                              + PatchOf(GCClipMask, NamedResource(mask, values, GCClipMask, {NoneId}, table)), n)
  {
    hide Has, Read, Ones;
  }

  /** PanoramiXChangeGC: each screen is sent the caller's list with the tile, stipple and clip-mask entries, where
      they name a pixmap, replaced by that screen's pixmap, and nothing else changed. */
  method ChangeGC(mask: bv32, values: seq<int>, gc: Ids, pixmaps: map<int, Ids>, handler: nat -> int)
    returns (status: Status, sent: seq<GCRequest>)
    requires forall id :: id in pixmaps ==> |pixmaps[id]| == |gc|
    ensures status == BadLength <==> |values| != Ones(mask)
    ensures status in {BadLength, BadResource} ==> sent == []
    ensures |values| == Ones(mask) ==>
              var tile := NamedResource(mask, values, GCTile, {NoneId}, pixmaps);
              var stip := NamedResource(mask, values, GCStipple, {NoneId}, pixmaps);
              var clip := NamedResource(mask, values, GCClipMask, {NoneId}, pixmaps);
              && (status == BadResource <==> tile.Missing? || stip.Missing? || clip.Missing?)
              && (status != BadResource ==>
                    && Replayed(|sent|, Backward(|gc|), handler, status)
                    && GCsSent(sent, gc, mask, values,
                               PatchOf(GCTile, tile) + PatchOf(GCStipple, stip) + PatchOf(GCClipMask, clip)))
  {
    hide Has, Single, Read, Kept, Applied, Position, GoodPatches, NamedResource;
    sent := [];
    if |values| != Ones(mask) {
      return BadLength, [];
    }
    GCPatches(mask, values, pixmaps, |gc|);
    var tile, tileOffset := LookupEntry(mask, values, GCTile, {NoneId}, pixmaps);
    if tile.Missing? {
      return BadResource, [];
    }
    var stip, stipOffset := LookupEntry(mask, values, GCStipple, {NoneId}, pixmaps);
    if stip.Missing? {
      return BadResource, [];
    }
    var clip, clipOffset := LookupEntry(mask, values, GCClipMask, {NoneId}, pixmaps);
    if clip.Missing? {
      return BadResource, [];
    }
    FoundMeansSet(mask, values, GCTile, {NoneId}, pixmaps);
    FoundMeansSet(mask, values, GCStipple, {NoneId}, pixmaps);
    FoundMeansSet(mask, values, GCClipMask, {NoneId}, pixmaps);
    status, sent := SendGCs(mask, values, gc, tile, tileOffset, stip, stipOffset, clip, clipOffset, handler);
  }

  /** The screen loop of PanoramiXChangeGC. */
  method SendGCs(mask: bv32, values: seq<int>, gc: Ids, tile: Lookup, tileOffset: nat, stip: Lookup, stipOffset: nat,
                 clip: Lookup, clipOffset: nat, handler: nat -> int)
    returns (status: Status, sent: seq<GCRequest>)
    requires |values| == Ones(mask)
    requires GoodPatches(mask, PatchOf(GCTile, tile) + PatchOf(GCStipple, stip) + PatchOf(GCClipMask, clip), |gc|)
    requires tile.Found? ==> tileOffset == Position(mask, GCTile)
    requires stip.Found? ==> stipOffset == Position(mask, GCStipple)
    requires clip.Found? ==> clipOffset == Position(mask, GCClipMask)
    ensures !status.BadLength? && !status.BadResource?
    ensures Replayed(|sent|, Backward(|gc|), handler, status)
    ensures GCsSent(sent, gc, mask, values,
                    PatchOf(GCTile, tile) + PatchOf(GCStipple, stip) + PatchOf(GCClipMask, clip))
  {
    hide Has, Single, Ones, Read, Kept, Applied, Position, GoodPatches, PatchOf, Rewritten, GCsSent;
    ghost var patches := PatchOf(GCTile, tile) + PatchOf(GCStipple, stip) + PatchOf(GCClipMask, clip);
    ghost var order := Backward(|gc|);
    var list := values;
    KeptStart(mask, values, patches);
    var j := |gc|;
    status, sent := Success, [];
    NoGCs(gc, mask, values, patches);
    while j > 0
      invariant 0 <= j <= |gc| && |sent| == |gc| - j
      invariant status == Success
      invariant Kept(mask, values, list, patches)
      invariant forall k :: 0 <= k < |sent| ==> handler(order[k]) == 0
      invariant GCsSent(sent, gc, mask, values, patches)
    {
      j := j - 1;
      list := PatchEntries(list, tileOffset, tile, stipOffset, stip, clipOffset, clip, j,
                           GCTile, GCStipple, GCClipMask, mask, values, |gc|);
      OneMoreGC(sent, list, j, gc, mask, values, patches);
      sent := sent + [GCRequest(gc[j], list)];
      if handler(j) != 0 {
        status := HandlerError(handler(j));
        break;
      }
    }
  }

  lemma NoGCs(gc: Ids, mask: bv32, values: seq<int>, patches: seq<Patch>)
    requires |values| == Ones(mask)
    ensures GCsSent([], gc, mask, values, patches)
  {}

  lemma OneMoreGC(sent: seq<GCRequest>, list: seq<int>, j: nat, gc: Ids, mask: bv32, values: seq<int>, patches: seq<Patch>)
    requires |values| == Ones(mask) && |sent| < |gc| && j == |gc| - 1 - |sent|
    requires GCsSent(sent, gc, mask, values, patches) && Rewritten(mask, values, list, patches, j)
    ensures GCsSent(sent + [GCRequest(gc[j], list)], gc, mask, values, patches) && Kept(mask, values, list, patches)
  {
    hide Kept, Applied;
  }

  lemma FoundMeansSet(mask: bv32, values: seq<int>, bit: bv32, exempt: set<int>, table: map<int, Ids>)
    requires |values| == Ones(mask) && Single(bit)
    ensures NamedResource(mask, values, bit, exempt, table).Found? ==> Has(mask, bit)
  {}

  lemma KeptStart(mask: bv32, values: seq<int>, patches: seq<Patch>)
    requires |values| == Ones(mask)
    ensures Kept(mask, values, values, patches)
  {}

  lemma AppliedStart(mask: bv32, orig: seq<int>, now: seq<int>, patches: seq<Patch>, j: nat)
    requires |orig| == Ones(mask) && Kept(mask, orig, now, patches)
    ensures Applied(mask, now, patches, 0, j)
  {}

  // ----- CreateWindow -----

  /** A screen's position on the logical screen. */
  datatype Origin = Origin(x: int, y: int)

  datatype WindowRequest = WindowRequest(wid: int, parent: int, x: int, y: int, windowClass: int, visual: int,
                                         values: seq<int>)

  const InputOnly: int := 2

  /** CWWinGravity | CWOverrideRedirect | CWEventMask | CWDontPropagate | CWCursor */
  const INPUTONLY_LEGAL_MASK: bv32 := 0x5A20

  function ClassOf(r: WindowRequest, parentClass: int): int {
    if r.windowClass == CopyFromParent then parentClass else r.windowClass
  }

  /** The request that is replayed: its class filled in from the parent, and no visual for an InputOnly window. */
  function Completed(r: WindowRequest, parentClass: int): WindowRequest {
    r.(windowClass := ClassOf(r, parentClass),
       visual := if ClassOf(r, parentClass) == InputOnly then CopyFromParent else r.visual)
  }

  lemma CompletedFields(r: WindowRequest, parentClass: int)
    ensures var windowClass := if r.windowClass == 0 then parentClass else r.windowClass;
            Completed(r, parentClass)
            == WindowRequest(r.wid, r.parent, r.x, r.y, windowClass, if windowClass == 2 then 0 else r.visual, r.values)
  {}

  predicate NoInputOnlyBits(mask: bv32) {
    mask & !INPUTONLY_LEGAL_MASK == 0
  }

  /** An entry names a pixmap or a colormap that is not there. */
  predicate AnyMissing(mask: bv32, values: seq<int>, pixmaps: map<int, Ids>, colormaps: map<int, Ids>)
    requires |values| == Ones(mask)
  {
    WindowBits();
    || NamedResource(mask, values, CWBackPixmap, {NoneId, ParentRelative}, pixmaps).Missing?
    || NamedResource(mask, values, CWBorderPixmap, {CopyFromParent}, pixmaps).Missing?
    || NamedResource(mask, values, CWColormap, {CopyFromParent}, colormaps).Missing?
  }

  /** All checks of PanoramiXCreateWindow, in its order. */
  function WindowChecks(mask: bv32, r: WindowRequest, parentFound: bool, parentClass: int, pixmaps: map<int, Ids>,
                        colormaps: map<int, Ids>, hasMemory: bool): Status {
    if |r.values| != Ones(mask) then BadLength
    else if !parentFound then BadResource
    else if ClassOf(r, parentClass) == InputOnly && !NoInputOnlyBits(mask) then BadMatch
    else if AnyMissing(mask, r.values, pixmaps, colormaps) then BadResource
    else if !hasMemory then BadAlloc
    else Success
  }

  /** The list of an InputOnly window names no per-screen resource: it is sent as it is. */
  lemma InputOnlyAsIs(mask: bv32, r: WindowRequest, parentFound: bool, parentClass: int, pixmaps: map<int, Ids>,
                      colormaps: map<int, Ids>, hasMemory: bool)
    requires WindowChecks(mask, r, parentFound, parentClass, pixmaps, colormaps, hasMemory) == Success
    requires ClassOf(r, parentClass) == InputOnly
    ensures WindowPatches(mask, r.values, pixmaps, colormaps) == []
  {
    hide Read, Ones;
    NoResourceBits(mask);
  }

  lemma NoResourceBits(mask: bv32)
    requires NoInputOnlyBits(mask)
    ensures !Has(mask, CWBackPixmap) && !Has(mask, CWBorderPixmap) && !Has(mask, CWColormap)
  {}

  /** What screen j must be sent for a window given in logical-screen terms. */
  ghost predicate WindowFor(r: WindowRequest, j: nat, orig: WindowRequest, mask: bv32, wid: Ids, parent: Ids,
                            screens: seq<Origin>, parentIsRoot: bool, visualOn: (nat, int) -> int, patches: seq<Patch>)
    requires |orig.values| == Ones(mask) && j < |wid| == |parent| == |screens|
  {
    && r.wid == wid[j] && r.parent == parent[j]
    && r.x == (if parentIsRoot then Int16(orig.x - screens[j].x) else orig.x)
    && r.y == (if parentIsRoot then Int16(orig.y - screens[j].y) else orig.y)
    && r.windowClass == orig.windowClass
    && r.visual == (if orig.visual != CopyFromParent then visualOn(j, orig.visual) else orig.visual)
    && Rewritten(mask, orig.values, r.values, patches, j)
  }

  ghost predicate WindowsSent(sent: seq<WindowRequest>, orig: WindowRequest, mask: bv32, wid: Ids, parent: Ids,
                              screens: seq<Origin>, parentIsRoot: bool, visualOn: (nat, int) -> int, patches: seq<Patch>)
    requires |orig.values| == Ones(mask) && |sent| <= |wid| == |parent| == |screens|
  {
    forall k :: 0 <= k < |sent| ==>
      WindowFor(sent[k], Backward(|wid|)[k], orig, mask, wid, parent, screens, parentIsRoot, visualOn, patches)
  }

  /** The entries of a CreateWindow list that name per-screen resources. */
  ghost function WindowPatches(mask: bv32, values: seq<int>, pixmaps: map<int, Ids>, colormaps: map<int, Ids>): seq<Patch>
    requires |values| == Ones(mask)
  {
    WindowBits();
    PatchOf(CWBackPixmap, NamedResource(mask, values, CWBackPixmap, {NoneId, ParentRelative}, pixmaps))
    + PatchOf(CWBorderPixmap, NamedResource(mask, values, CWBorderPixmap, {CopyFromParent}, pixmaps))
    + PatchOf(CWColormap, NamedResource(mask, values, CWColormap, {CopyFromParent}, colormaps))
  }

  lemma WindowBits()
    ensures Single(CWBackPixmap) && Single(CWBorderPixmap) && Single(CWColormap)
    ensures Single(CWX) && Single(CWY) && Single(CWSibling)
  {}

  lemma WindowPatchesGood(mask: bv32, values: seq<int>, pixmaps: map<int, Ids>, colormaps: map<int, Ids>, n: nat)
    requires |values| == Ones(mask)
    requires forall id :: id in pixmaps ==> |pixmaps[id]| == n
    requires forall id :: id in colormaps ==> |colormaps[id]| == n
    ensures GoodPatches(mask, WindowPatches(mask, values, pixmaps, colormaps), n)
  {
    hide Has, Read, Ones;
  }

  /** PanoramiXCreateWindow: each screen gets its own ids, its own coordinates when the parent is the root, and the
      caller's value list with exactly the pixmap and colormap entries rewritten. */
  method CreateWindow(mask: bv32, orig: WindowRequest, parentFound: bool, parentClass: int, wid: Ids, parent: Ids,
                      screens: seq<Origin>, parentIsRoot: bool, visualOn: (nat, int) -> int, pixmaps: map<int, Ids>,
                      colormaps: map<int, Ids>, hasMemory: bool, handler: nat -> int)
    returns (status: Status, sent: seq<WindowRequest>)
    requires |wid| == |parent| == |screens|
    requires forall id :: id in pixmaps ==> |pixmaps[id]| == |wid|
    requires forall id :: id in colormaps ==> |colormaps[id]| == |wid|
    ensures var checks := WindowChecks(mask, orig, parentFound, parentClass, pixmaps, colormaps, hasMemory);
      && (checks != Success ==> status == checks && sent == [])
      && (checks == Success ==>
           && Replayed(|sent|, Backward(|wid|), handler, status)
           && WindowsSent(sent, Completed(orig, parentClass), mask, wid, parent, screens, parentIsRoot, visualOn,
                          WindowPatches(mask, orig.values, pixmaps, colormaps)))
  {
    hide Has, Single, Read, Kept, Applied, Position, GoodPatches, WindowPatches, AnyMissing, WindowsSent, NoInputOnlyBits;
    if |orig.values| != Ones(mask) {
      return BadLength, [];
    }
    if !parentFound {
      return BadResource, [];
    }
    var stuff := orig;
    if stuff.windowClass == CopyFromParent {
      stuff := stuff.(windowClass := parentClass);
    }
    if stuff.windowClass == InputOnly && !NoInputOnlyBits(mask) {
      return BadMatch, [];
    }
    WindowPatchesGood(mask, orig.values, pixmaps, colormaps, |wid|);
    var found, backPix, backOffset, bordPix, bordOffset, cmap, cmapOffset :=
      WindowResources(mask, stuff.values, pixmaps, colormaps);
    if !found {
      return BadResource, [];
    }
    if !hasMemory {
      return BadAlloc, [];
    }
    if stuff.windowClass == InputOnly {
      stuff := stuff.(visual := CopyFromParent);
    }
    status, sent := SendWindows(mask, stuff, wid, parent, screens, parentIsRoot, visualOn, backPix, backOffset,
                                bordPix, bordOffset, cmap, cmapOffset, handler);
  }

  /** The per-screen resources that a CreateWindow list names, as far as they are there. */
  method WindowResources(mask: bv32, values: seq<int>, pixmaps: map<int, Ids>, colormaps: map<int, Ids>)
    returns (found: bool, backPix: Lookup, backOffset: nat, bordPix: Lookup, bordOffset: nat, cmap: Lookup, cmapOffset: nat)
    requires |values| == Ones(mask)
    ensures found <==> !AnyMissing(mask, values, pixmaps, colormaps)
    ensures found ==>
      && PatchOf(CWBackPixmap, backPix) + PatchOf(CWBorderPixmap, bordPix) + PatchOf(CWColormap, cmap)
         == WindowPatches(mask, values, pixmaps, colormaps)
      && (backPix.Found? ==> backOffset == Position(mask, CWBackPixmap))
      && (bordPix.Found? ==> bordOffset == Position(mask, CWBorderPixmap))
      && (cmap.Found? ==> cmapOffset == Position(mask, CWColormap))
  {
    hide Has, Single, Read, Position, NamedResource, PatchOf;
    WindowBits();
    backPix, backOffset, bordPix, bordOffset, cmap, cmapOffset := Absent, 0, Absent, 0, Absent, 0;
    backPix, backOffset := LookupEntry(mask, values, CWBackPixmap, {NoneId, ParentRelative}, pixmaps);
    if backPix.Missing? {
      found := false;
      return;
    }
    bordPix, bordOffset := LookupEntry(mask, values, CWBorderPixmap, {CopyFromParent}, pixmaps);
    if bordPix.Missing? {
      found := false;
      return;
    }
    cmap, cmapOffset := LookupEntry(mask, values, CWColormap, {CopyFromParent}, colormaps);
    if cmap.Missing? {
      found := false;
      return;
    }
    FoundMeansSet(mask, values, CWBackPixmap, {NoneId, ParentRelative}, pixmaps);
    FoundMeansSet(mask, values, CWBorderPixmap, {CopyFromParent}, pixmaps);
    FoundMeansSet(mask, values, CWColormap, {CopyFromParent}, colormaps);
    found := true;
  }

  /** The screen loop of PanoramiXCreateWindow. */
  method SendWindows(mask: bv32, orig: WindowRequest, wid: Ids, parent: Ids, screens: seq<Origin>, parentIsRoot: bool,
                     visualOn: (nat, int) -> int, backPix: Lookup, backOffset: nat, bordPix: Lookup, bordOffset: nat,
                     cmap: Lookup, cmapOffset: nat, handler: nat -> int)
    returns (status: Status, sent: seq<WindowRequest>)
    requires |wid| == |parent| == |screens| && |orig.values| == Ones(mask)
    requires GoodPatches(mask, PatchOf(CWBackPixmap, backPix) + PatchOf(CWBorderPixmap, bordPix)
                               + PatchOf(CWColormap, cmap), |wid|)
    requires backPix.Found? ==> backOffset == Position(mask, CWBackPixmap)
    requires bordPix.Found? ==> bordOffset == Position(mask, CWBorderPixmap)
    requires cmap.Found? ==> cmapOffset == Position(mask, CWColormap)
    ensures Replayed(|sent|, Backward(|wid|), handler, status)
    ensures WindowsSent(sent, orig, mask, wid, parent, screens, parentIsRoot, visualOn,
                        PatchOf(CWBackPixmap, backPix) + PatchOf(CWBorderPixmap, bordPix) + PatchOf(CWColormap, cmap))
  {
    hide Has, Single, Ones, Read, Kept, Applied, Position, GoodPatches, WindowsSent, Int16, PatchOf, Rewritten, WindowFor;
    ghost var patches := PatchOf(CWBackPixmap, backPix) + PatchOf(CWBorderPixmap, bordPix) + PatchOf(CWColormap, cmap);
    ghost var order := Backward(|wid|);
    var stuff := orig;
    KeptStart(mask, orig.values, patches);
    var j := |wid|;
    status, sent := Success, [];
    NoWindows(orig, mask, wid, parent, screens, parentIsRoot, visualOn, patches);
    while j > 0
      invariant 0 <= j <= |wid| && |sent| == |wid| - j
      invariant status == Success
      invariant Kept(mask, orig.values, stuff.values, patches)
      invariant stuff.windowClass == orig.windowClass
      invariant !parentIsRoot ==> stuff.x == orig.x && stuff.y == orig.y
      invariant orig.visual == CopyFromParent ==> stuff.visual == orig.visual
      invariant forall k :: 0 <= k < |sent| ==> handler(order[k]) == 0
      invariant WindowsSent(sent, orig, mask, wid, parent, screens, parentIsRoot, visualOn, patches)
    {
      j := j - 1;
      stuff := stuff.(wid := wid[j], parent := parent[j]);
      if parentIsRoot {
        stuff := stuff.(x := Int16(orig.x - screens[j].x), y := Int16(orig.y - screens[j].y));
      }
      var list := PatchEntries(stuff.values, backOffset, backPix, bordOffset, bordPix, cmapOffset, cmap, j,
                               CWBackPixmap, CWBorderPixmap, CWColormap, mask, orig.values, |wid|);
      stuff := stuff.(values := list);
      if orig.visual != CopyFromParent {
        stuff := stuff.(visual := visualOn(j, orig.visual));
      }
      WindowIs(stuff, j, orig, mask, wid, parent, screens, parentIsRoot, visualOn, patches);
      OneMoreWindow(sent, stuff, j, orig, mask, wid, parent, screens, parentIsRoot, visualOn, patches);
      sent := sent + [stuff];
      if handler(j) != 0 {
        status := HandlerError(handler(j));
        break;
      }
    }
  }

  lemma NoWindows(orig: WindowRequest, mask: bv32, wid: Ids, parent: Ids, screens: seq<Origin>,
                  parentIsRoot: bool, visualOn: (nat, int) -> int, patches: seq<Patch>)
    requires |orig.values| == Ones(mask) && |wid| == |parent| == |screens|
    ensures WindowsSent([], orig, mask, wid, parent, screens, parentIsRoot, visualOn, patches)
  {}

  lemma WindowIs(r: WindowRequest, j: nat, orig: WindowRequest, mask: bv32, wid: Ids, parent: Ids, screens: seq<Origin>,
                 parentIsRoot: bool, visualOn: (nat, int) -> int, patches: seq<Patch>)
    requires |orig.values| == Ones(mask) && j < |wid| == |parent| == |screens|
    requires r.wid == wid[j] && r.parent == parent[j] && r.windowClass == orig.windowClass
    requires r.x == (if parentIsRoot then Int16(orig.x - screens[j].x) else orig.x)
    requires r.y == (if parentIsRoot then Int16(orig.y - screens[j].y) else orig.y)
    requires r.visual == if orig.visual != CopyFromParent then visualOn(j, orig.visual) else orig.visual
    requires Rewritten(mask, orig.values, r.values, patches, j)
    ensures WindowFor(r, j, orig, mask, wid, parent, screens, parentIsRoot, visualOn, patches)
    ensures Kept(mask, orig.values, r.values, patches)
  {}

  lemma OneMoreWindow(sent: seq<WindowRequest>, r: WindowRequest, j: nat, orig: WindowRequest, mask: bv32, wid: Ids,
                      parent: Ids, screens: seq<Origin>, parentIsRoot: bool, visualOn: (nat, int) -> int,
                      patches: seq<Patch>)
    requires |orig.values| == Ones(mask) && |sent| < |wid| == |parent| == |screens| && j == |wid| - 1 - |sent|
    requires WindowsSent(sent, orig, mask, wid, parent, screens, parentIsRoot, visualOn, patches)
    requires WindowFor(r, j, orig, mask, wid, parent, screens, parentIsRoot, visualOn, patches)
    ensures WindowsSent(sent + [r], orig, mask, wid, parent, screens, parentIsRoot, visualOn, patches)
  {
    hide WindowFor;
  }

  // ----- ConfigureWindow -----

  datatype ConfigureRequest = ConfigureRequest(window: int, values: seq<int>)

  /** The x and y entries sit at the front of the list: x first, y next to it or first. */
  lemma FrontEntries(mask: bv32)
    ensures Position(mask, CWX) == 0
    ensures Position(mask, CWY) == if Has(mask, CWX) then 1 else 0
  {
    UnderX(mask);
    assert Ones(0) == 0;
    assert Ones(1) == 1 by { OnesStep(1); }
  }

  lemma UnderX(mask: bv32)
    ensures Under(mask, CWX) == 0
    ensures Under(mask, CWY) == if Has(mask, CWX) then 1 else 0
    ensures DropLowest(1) == 0
  {}

  /** A coordinate entry of a root window's child: each screen gets it relative to its own origin. */
  function CoordinatePatch(mask: bv32, values: seq<int>, bit: bv32, offsets: seq<int>, rootChild: bool): Lookup
    requires |values| == Ones(mask) && Single(bit)
  {
    if rootChild && Has(mask, bit)
    then Found(seq(|offsets|, j requires 0 <= j < |offsets| => Card32(Read(mask, values, bit) - offsets[j])))
    else Absent
  }

  ghost function ConfigurePatches(mask: bv32, values: seq<int>, windows: map<int, Ids>, screens: seq<Origin>,
                                  rootChild: bool): seq<Patch>
    requires |values| == Ones(mask)
  {
    WindowBits();
    PatchOf(CWSibling, NamedResource(mask, values, CWSibling, {NoneId}, windows))
    + PatchOf(CWX, CoordinatePatch(mask, values, CWX, Xs(screens), rootChild))
    + PatchOf(CWY, CoordinatePatch(mask, values, CWY, Ys(screens), rootChild))
  }

  function Xs(screens: seq<Origin>): (xs: seq<int>)
    ensures |xs| == |screens|
  {
    seq(|screens|, j requires 0 <= j < |screens| => screens[j].x)
  }

  function Ys(screens: seq<Origin>): (ys: seq<int>)
    ensures |ys| == |screens|
  {
    seq(|screens|, j requires 0 <= j < |screens| => screens[j].y)
  }

  lemma ConfigurePatchesGood(mask: bv32, values: seq<int>, windows: map<int, Ids>, screens: seq<Origin>, rootChild: bool)
    requires |values| == Ones(mask)
    requires forall id :: id in windows ==> |windows[id]| == |screens|
    ensures GoodPatches(mask, ConfigurePatches(mask, values, windows, screens, rootChild), |screens|)
  {
    hide Has, Read, Ones;
  }

  ghost predicate ConfiguresSent(sent: seq<ConfigureRequest>, window: Ids, mask: bv32, values: seq<int>, patches: seq<Patch>)
    requires |values| == Ones(mask) && |sent| <= |window|
  {
    forall k :: 0 <= k < |sent| ==>
      sent[k].window == window[k] && Rewritten(mask, values, sent[k].values, patches, k)
  }

  /** PanoramiXConfigureWindow: the sibling entry names each screen's window, and a root child's x and y entries are
      moved by each screen's origin. */
  method ConfigureWindow(mask: bv32, values: seq<int>, window: Ids, windows: map<int, Ids>, screens: seq<Origin>,
                         rootChild: bool, handler: nat -> int)
    returns (status: Status, sent: seq<ConfigureRequest>)
    requires |window| == |screens|
    requires forall id :: id in windows ==> |windows[id]| == |screens|
    ensures status == BadLength <==> |values| != Ones(mask)
    ensures status in {BadLength, BadResource} ==> sent == []
    ensures |values| == Ones(mask) ==>
              (status == BadResource <==> NamedResource(mask, values, CWSibling, {NoneId}, windows).Missing?)
    ensures |values| == Ones(mask) && status != BadResource ==>
              && Replayed(|sent|, Forward(|window|), handler, status)
              && ConfiguresSent(sent, window, mask, values, ConfigurePatches(mask, values, windows, screens, rootChild))
  {
    hide Has, Single, Read, Kept, Applied, Position, GoodPatches, NamedResource, ConfiguresSent;
    if |values| != Ones(mask) {
      return BadLength, [];
    }
    WindowBits();
    ConfigurePatchesGood(mask, values, windows, screens, rootChild);
    var sib, sibOffset := LookupEntry(mask, values, CWSibling, {NoneId}, windows);
    if sib.Missing? {
      return BadResource, [];
    }
    FoundMeansSet(mask, values, CWSibling, {NoneId}, windows);
    FrontEntries(mask);
    HasBit(mask, CWX);
    HasBit(mask, CWY);
    var xOffset, yOffset, x, y := -1, -1, 0, 0;
    if rootChild {
      if mask & CWX != 0 {
        PositionReads(mask, values, CWX);
        xOffset, x := 0, values[0];
      }
      if mask & CWY != 0 {
        PositionReads(mask, values, CWY);
        yOffset := if xOffset == -1 then 0 else 1;
        y := values[yOffset];
      }
    }
    ghost var patches := ConfigurePatches(mask, values, windows, screens, rootChild);
    ghost var xs := CoordinatePatch(mask, values, CWX, Xs(screens), rootChild);
    ghost var ys := CoordinatePatch(mask, values, CWY, Ys(screens), rootChild);
    var list := values;
    KeptStart(mask, values, patches);
    var j := 0;
    status, sent := Success, [];
    NoConfigures(window, mask, values, patches);
    while j < |window|
      invariant 0 <= j <= |window| && |sent| == j
      invariant status == Success
      invariant Kept(mask, values, list, patches)
      invariant forall k :: 0 <= k < |sent| ==> handler(Forward(|window|)[k]) == 0
      invariant ConfiguresSent(sent, window, mask, values, patches)
    {
      AppliedStart(mask, values, list, patches, j);
      list := PatchEntry(list, sibOffset, sib, j, CWSibling, mask, values, patches, 0, |screens|);
      list := PatchCoordinate(list, xOffset, x - screens[j].x, j, xs, CWX, mask, values, patches,
                              |PatchOf(CWSibling, sib)|, |screens|);
      list := PatchCoordinate(list, yOffset, y - screens[j].y, j, ys, CWY, mask, values, patches,
                              |PatchOf(CWSibling, sib)| + |PatchOf(CWX, xs)|, |screens|);
      OneMoreConfigure(sent, ConfigureRequest(window[j], list), window, mask, values, patches);
      sent := sent + [ConfigureRequest(window[j], list)];
      if handler(j) != 0 {
        status := HandlerError(handler(j));
        break;
      }
      j := j + 1;
    }
  }

  /** `if (x_offset >= 0) *(list + x_offset) = x - origin` */
  method PatchCoordinate(list: seq<int>, offset: int, v: int, ghost j: nat, ghost found: Lookup, ghost bit: bv32,
                         ghost mask: bv32, ghost orig: seq<int>, ghost patches: seq<Patch>, ghost done: nat, ghost n: nat)
    returns (next: seq<int>)
    requires |orig| == Ones(mask) && GoodPatches(mask, patches, n) && j < n
    requires Kept(mask, orig, list, patches) && Applied(mask, list, patches, done, j)
    requires found.Found? <==> offset >= 0
    requires found.Found? ==> done < |patches| && patches[done] == Patch(bit, found.ids) && offset == Position(mask, bit)
    requires found.Found? ==> |found.ids| == n && found.ids[j] == Card32(v)
    ensures Kept(mask, orig, next, patches)
    ensures Applied(mask, next, patches, done + |PatchOf(bit, found)|, j)
  {
    hide Single, Has, Ones, Read, Kept, Applied, Position, GoodPatches;
    next := list;
    if offset >= 0 {
      WritePatch(mask, orig, list, patches, done, n, j);
      next := next[offset := Card32(v)];
    }
  }

  lemma HasBit(mask: bv32, bit: bv32)
    ensures Has(mask, bit) <==> mask & bit != 0
  {}

  lemma NoConfigures(window: Ids, mask: bv32, values: seq<int>, patches: seq<Patch>)
    requires |values| == Ones(mask)
    ensures ConfiguresSent([], window, mask, values, patches)
  {}

  lemma OneMoreConfigure(sent: seq<ConfigureRequest>, r: ConfigureRequest, window: Ids, mask: bv32, values: seq<int>,
                         patches: seq<Patch>)
    requires |values| == Ones(mask) && |sent| < |window| && ConfiguresSent(sent, window, mask, values, patches)
    requires r.window == window[|sent|] && Rewritten(mask, values, r.values, patches, |sent|)
    ensures ConfiguresSent(sent + [r], window, mask, values, patches)
  {
    hide Rewritten;
  }
}
