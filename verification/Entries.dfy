/** What each screen is sent, entry by entry, with the mask bits written out. */
module Entries {
  import opened CTypes
  import opened Masks
  import opened Requests
  import opened ValueLists

  /** An entry of a rewritten list: the screen's value of the resource found for its bit, or the caller's entry. */
  lemma EntryOfThree(mask: bv32, orig: seq<int>, sent: seq<int>, b1: bv32, f1: Lookup, b2: bv32, f2: Lookup, b3: bv32,
                     f3: Lookup, j: nat, q: bv32)
    requires |orig| == Ones(mask) && SetBit(mask, q) && b1 != b2 && b1 != b3 && b2 != b3
    requires Rewritten(mask, orig, sent, PatchOf(b1, f1) + PatchOf(b2, f2) + PatchOf(b3, f3), j)
    ensures |sent| == |orig|
    ensures q == b1 && f1.Found? ==> j < |f1.ids| && Read(mask, sent, q) == f1.ids[j]
    ensures q == b2 && f2.Found? ==> j < |f2.ids| && Read(mask, sent, q) == f2.ids[j]
    ensures q == b3 && f3.Found? ==> j < |f3.ids| && Read(mask, sent, q) == f3.ids[j]
    ensures !(q == b1 && f1.Found?) && !(q == b2 && f2.Found?) && !(q == b3 && f3.Found?) ==>
              Read(mask, sent, q) == Read(mask, orig, q)
  {
    hide Read, Ones, SetBit, Rewritten, PatchOf;
    var patches := PatchOf(b1, f1) + PatchOf(b2, f2) + PatchOf(b3, f3);
    var i1, i2, i3 := Places(b1, f1, b2, f2, b3, f3);
    if q == b1 && f1.Found? {
      Patched(mask, orig, sent, patches, j, i1);
    } else if q == b2 && f2.Found? {
      Patched(mask, orig, sent, patches, j, i2);
    } else if q == b3 && f3.Found? {
      Patched(mask, orig, sent, patches, j, i3);
    } else {
      NotPatched(mask, orig, sent, patches, j, q);
    }
    SameLength(mask, orig, sent, patches, j);
  }

  lemma Places(b1: bv32, f1: Lookup, b2: bv32, f2: Lookup, b3: bv32, f3: Lookup) returns (i1: nat, i2: nat, i3: nat)
    ensures var patches := PatchOf(b1, f1) + PatchOf(b2, f2) + PatchOf(b3, f3);
            && (f1.Found? ==> i1 < |patches| && patches[i1] == Patch(b1, f1.ids))
            && (f2.Found? ==> i2 < |patches| && patches[i2] == Patch(b2, f2.ids))
            && (f3.Found? ==> i3 < |patches| && patches[i3] == Patch(b3, f3.ids))
            && forall i :: 0 <= i < |patches| ==>
                 || (f1.Found? && patches[i].bit == b1) || (f2.Found? && patches[i].bit == b2)
                 || (f3.Found? && patches[i].bit == b3)
  {
    i1, i2, i3 := 0, |PatchOf(b1, f1)|, |PatchOf(b1, f1)| + |PatchOf(b2, f2)|;
  }

  lemma Patched(mask: bv32, orig: seq<int>, sent: seq<int>, patches: seq<Patch>, j: nat, i: nat)
    requires |orig| == Ones(mask) && Rewritten(mask, orig, sent, patches, j) && i < |patches|
    ensures |sent| == Ones(mask) && SetBit(mask, patches[i].bit)
    ensures j < |patches[i].values| && Read(mask, sent, patches[i].bit) == patches[i].values[j]
  {
    hide Read, Ones, SetBit;
  }

  lemma NotPatched(mask: bv32, orig: seq<int>, sent: seq<int>, patches: seq<Patch>, j: nat, q: bv32)
    requires |orig| == Ones(mask) && SetBit(mask, q) && Rewritten(mask, orig, sent, patches, j)
    requires forall i :: 0 <= i < |patches| ==> patches[i].bit != q
    ensures |sent| == |orig| && Read(mask, sent, q) == Read(mask, orig, q)
  {
    hide Read, Ones, SetBit;
  }

  lemma SameLength(mask: bv32, orig: seq<int>, sent: seq<int>, patches: seq<Patch>, j: nat)
    requires |orig| == Ones(mask) && Rewritten(mask, orig, sent, patches, j)
    ensures |sent| == |orig|
  {
    hide Read, Ones, SetBit;
  }

  /** An entry names a resource that the table does not hold. */
  predicate Dangling(mask: bv32, values: seq<int>, q: bv32, none: set<int>, table: map<int, Ids>)
    requires |values| == Ones(mask) && Single(q)
  {
    Has(mask, q) && Read(mask, values, q) !in none && Read(mask, values, q) !in table
  }

  lemma DanglingIsMissing(mask: bv32, values: seq<int>, q: bv32, none: set<int>, table: map<int, Ids>)
    requires |values| == Ones(mask) && Single(q)
    ensures NamedResource(mask, values, q, none, table).Missing? <==> Dangling(mask, values, q, none, table)
  {}

  // ----- ChangeGC -----

  /**
   * The entries that are ids of pixmaps are those of the bits 0x400 (tile), 0x800 (stipple) and 0x80000 (clip mask):
   * unless they are 0, request k, which goes to screen n - 1 - k, has that screen's id for them.
   */
  lemma GCEntry(mask: bv32, values: seq<int>, gc: Ids, pixmaps: map<int, Ids>, sent: seq<GCRequest>, k: nat, q: bv32)
    requires |values| == Ones(mask) && k < |sent| <= |gc| && Single(q) && Has(mask, q)
    requires Single(GCTile) && Single(GCStipple) && Single(GCClipMask)
    requires !NamedResource(mask, values, GCTile, {NoneId}, pixmaps).Missing?
    requires !NamedResource(mask, values, GCStipple, {NoneId}, pixmaps).Missing?
    requires !NamedResource(mask, values, GCClipMask, {NoneId}, pixmaps).Missing?
    requires GCsSent(sent, gc, mask, values, PatchOf(GCTile, NamedResource(mask, values, GCTile, {NoneId}, pixmaps))
                                             + PatchOf(GCStipple, NamedResource(mask, values, GCStipple, {NoneId}, pixmaps))
                                             + PatchOf(GCClipMask, NamedResource(mask, values, GCClipMask, {NoneId}, pixmaps)))
    ensures sent[k].gc == gc[|gc| - 1 - k] && |sent[k].values| == |values|
    ensures var v := Read(mask, values, q);
            if q in {0x400, 0x800, 0x8_0000} && v != 0
            then v in pixmaps && |gc| - 1 - k < |pixmaps[v]| && Read(mask, sent[k].values, q) == pixmaps[v][|gc| - 1 - k]
            else Read(mask, sent[k].values, q) == v
  {
    hide Read, Ones, Single, Has, Rewritten, PatchOf;
    EntryOfThree(mask, values, sent[k].values,
                 GCTile, NamedResource(mask, values, GCTile, {NoneId}, pixmaps),
                 GCStipple, NamedResource(mask, values, GCStipple, {NoneId}, pixmaps),
                 GCClipMask, NamedResource(mask, values, GCClipMask, {NoneId}, pixmaps), Backward(|gc|)[k], q);
  }

  // ----- CreateWindow -----

  /**
   * The entries of the bits 0x1 (background pixmap, unless 0 or 1), 0x4 (border pixmap, unless 0) and 0x2000 (colormap,
   * unless 0) are the screen's ids.
   */
  lemma WindowEntry(mask: bv32, orig: WindowRequest, wid: Ids, parent: Ids, screens: seq<Origin>, parentIsRoot: bool,
                    visualOn: (nat, int) -> int, pixmaps: map<int, Ids>, colormaps: map<int, Ids>,
                    sent: seq<WindowRequest>, k: nat, q: bv32)
    requires |orig.values| == Ones(mask) && k < |sent| <= |wid| == |parent| == |screens| && Single(q) && Has(mask, q)
    requires !AnyMissing(mask, orig.values, pixmaps, colormaps)
    requires WindowsSent(sent, orig, mask, wid, parent, screens, parentIsRoot, visualOn,
                         WindowPatches(mask, orig.values, pixmaps, colormaps))
    ensures var j := |wid| - 1 - k;
            && |sent[k].values| == |orig.values| && sent[k].wid == wid[j] && sent[k].parent == parent[j]
            && (parentIsRoot ==> sent[k].x == Int16(orig.x - screens[j].x) && sent[k].y == Int16(orig.y - screens[j].y))
            && (!parentIsRoot ==> sent[k].x == orig.x && sent[k].y == orig.y)
            && sent[k].visual == (if orig.visual == 0 then 0 else visualOn(j, orig.visual))
            && sent[k].windowClass == orig.windowClass
    ensures var j, v := |wid| - 1 - k, Read(mask, orig.values, q);
            if (q == 0x1 && v !in {0, 1}) || (q == 0x4 && v != 0)
            then v in pixmaps && j < |pixmaps[v]| && Read(mask, sent[k].values, q) == pixmaps[v][j]
            else if q == 0x2000 && v != 0
            then v in colormaps && j < |colormaps[v]| && Read(mask, sent[k].values, q) == colormaps[v][j]
            else Read(mask, sent[k].values, q) == v
  {
    hide Read, Ones, Single, Has, Rewritten, PatchOf, Int16;
    WindowBits();
    var values := orig.values;
    EntryOfThree(mask, values, sent[k].values,
                 CWBackPixmap, NamedResource(mask, values, CWBackPixmap, {NoneId, ParentRelative}, pixmaps),
                 CWBorderPixmap, NamedResource(mask, values, CWBorderPixmap, {CopyFromParent}, pixmaps),
                 CWColormap, NamedResource(mask, values, CWColormap, {CopyFromParent}, colormaps), Backward(|wid|)[k], q);
  }

  /** When a CreateWindow is refused before any screen sees it: what each error means. */
  lemma WindowOutcomes(mask: bv32, r: WindowRequest, parentFound: bool, parentClass: int, pixmaps: map<int, Ids>,
                       colormaps: map<int, Ids>, hasMemory: bool)
    ensures Single(0x1) && Single(0x4) && Single(0x2000)
    ensures var status := WindowChecks(mask, r, parentFound, parentClass, pixmaps, colormaps, hasMemory);
            var length := |r.values| == Ones(mask);
            var windowClass := if r.windowClass == 0 then parentClass else r.windowClass;
            var badMatch := windowClass == 2 && mask & 0xFFFF_A5DF != 0;
            var dangling := length && (|| Dangling(mask, r.values, 0x1, {0, 1}, pixmaps)
                                       || Dangling(mask, r.values, 0x4, {0}, pixmaps)
                                       || Dangling(mask, r.values, 0x2000, {0}, colormaps));
            && (status == BadLength <==> !length)
            && (status == BadMatch <==> length && parentFound && badMatch)
            && (status == BadResource <==> length && (!parentFound || (!badMatch && dangling)))
            && (status == BadAlloc <==> length && parentFound && !badMatch && !dangling && !hasMemory)
            && (status == Success <==> length && parentFound && !badMatch && !dangling && hasMemory)
  {
    hide Read, Ones, Single, Has, NamedResource, Dangling;
    WindowBits();
    if |r.values| == Ones(mask) {
      DanglingIsMissing(mask, r.values, 0x1, {0, 1}, pixmaps);
      DanglingIsMissing(mask, r.values, 0x4, {0}, pixmaps);
      DanglingIsMissing(mask, r.values, 0x2000, {0}, colormaps);
    }
  }

  // ----- ConfigureWindow -----

  /**
   * Request k goes to screen k. The entry of bit 0x20 (sibling, unless 0) is the screen's id; of a child of the root the
   * entries of the bits 0x1 (x) and 0x2 (y) have the screen's position taken away, modulo 2^32.
   */
  lemma ConfigureEntry(mask: bv32, values: seq<int>, window: Ids, windows: map<int, Ids>, screens: seq<Origin>,
                       rootChild: bool, sent: seq<ConfigureRequest>, k: nat, q: bv32)
    requires |values| == Ones(mask) && k < |sent| <= |window| == |screens| && Single(q) && Has(mask, q)
    requires Single(CWSibling) && !NamedResource(mask, values, CWSibling, {NoneId}, windows).Missing?
    requires ConfiguresSent(sent, window, mask, values, ConfigurePatches(mask, values, windows, screens, rootChild))
    ensures sent[k].window == window[k] && |sent[k].values| == |values|
    ensures var v := Read(mask, values, q);
            if q == 0x20 && v != 0
            then v in windows && k < |windows[v]| && Read(mask, sent[k].values, q) == windows[v][k]
            else if q == 0x1 && rootChild then Read(mask, sent[k].values, q) == (v - screens[k].x) % 0x1_0000_0000
            else if q == 0x2 && rootChild then Read(mask, sent[k].values, q) == (v - screens[k].y) % 0x1_0000_0000
            else Read(mask, sent[k].values, q) == v
  {
    hide Read, Ones, Single, Has, Rewritten, PatchOf;
    WindowBits();
    EntryOfThree(mask, values, sent[k].values,
                 CWSibling, NamedResource(mask, values, CWSibling, {NoneId}, windows),
                 CWX, CoordinatePatch(mask, values, CWX, Xs(screens), rootChild),
                 CWY, CoordinatePatch(mask, values, CWY, Ys(screens), rootChild), k, q);
  }
}
