/** Shared-memory segments: the list of segments, and who still uses each of them. */
module Shm {
  import opened Arith
  import opened Raster
  import opened ShmSizes

  type XID = nat

  class ShmDesc {
    const shmid: int
    const isFd: bool
    const writable: bool
    const size: nat
    /** The id under which a descriptor's segment was attached. */
    const resource: XID
    var refcnt: nat
    /** Whether accesses behind the end of the file are watched for. */
    var busfault: bool

    constructor (shmid: int, isFd: bool, writable: bool, size: nat, resource: XID)
      ensures this.shmid == shmid && this.isFd == isFd && this.writable == writable && this.size == size
      ensures this.resource == resource && refcnt == 1 && busfault == isFd
    {
      this.shmid, this.isFd, this.writable, this.size, this.resource := shmid, isFd, writable, size, resource;
      refcnt, busfault := 1, isFd;
    }
  }

  /** A pixmap whose bits lie in a segment: its private names the segment. */
  class Pixmap {
    const desc: ShmDesc
    var refcnt: nat

    constructor (desc: ShmDesc)
      ensures this.desc == desc && refcnt == 1
    {
      this.desc, refcnt := desc, 1;
    }
  }

  type Resources = map<XID, ShmDesc>
  type Counts = map<ShmDesc, nat>

  ghost function Holders(resources: Resources, d: ShmDesc): set<XID> {
    set x | x in resources && resources[x] == d
  }

  ghost function PixmapsOf(pixmaps: set<Pixmap>, d: ShmDesc): set<Pixmap> {
    set p | p in pixmaps && p.desc == d
  }

  /** How many segment resources and pixmaps name a segment. */
  ghost function Users(resources: Resources, pixmaps: set<Pixmap>, d: ShmDesc): nat {
    |Holders(resources, d)| + |PixmapsOf(pixmaps, d)|
  }

  function One(b: bool): nat { if b then 1 else 0 }

  lemma UsersAttach(resources: Resources, pixmaps: set<Pixmap>, x: XID, d: ShmDesc, e: ShmDesc)
    requires x !in resources
    ensures Users(resources[x := d], pixmaps, e) == Users(resources, pixmaps, e) + One(e == d)
  {
    assert Holders(resources[x := d], e) == Holders(resources, e) + if e == d then {x} else {};
  }

  lemma UsersDetach(resources: Resources, pixmaps: set<Pixmap>, x: XID, e: ShmDesc)
    requires x in resources
    ensures Users(resources - {x}, pixmaps, e) + One(e == resources[x]) == Users(resources, pixmaps, e)
  {
    assert Holders(resources, e) == Holders(resources - {x}, e) + if e == resources[x] then {x} else {};
  }

  lemma UsersPixmap(resources: Resources, pixmaps: set<Pixmap>, p: Pixmap, e: ShmDesc)
    requires p !in pixmaps
    ensures Users(resources, pixmaps + {p}, e) == Users(resources, pixmaps, e) + One(e == p.desc)
  {
    assert PixmapsOf(pixmaps + {p}, e) == PixmapsOf(pixmaps, e) + if e == p.desc then {p} else {};
  }

  /** Each count is the number of users, plus one for a segment whose user is just arriving or leaving. */
  ghost predicate Balanced(counts: Counts, resources: Resources, pixmaps: set<Pixmap>, extra: ShmDesc?) {
    forall d :: d in counts ==> counts[d] == Users(resources, pixmaps, d) + One(d == extra)
  }

  lemma OneLess(counts: Counts, resources: Resources, pixmaps: set<Pixmap>, d: ShmDesc)
    requires Balanced(counts, resources, pixmaps, d) && d in counts
    ensures counts[d] > 0 && Balanced(counts[d := counts[d] - 1], resources, pixmaps, null)
  {
    hide Users;
  }

  lemma NoUsers(counts: Counts, resources: Resources, pixmaps: set<Pixmap>, d: ShmDesc)
    requires Balanced(counts, resources, pixmaps, null) && d in counts && counts[d] == 0
    ensures Users(resources, pixmaps, d) == 0
  {
    hide Users;
  }

  lemma FewerBalanced(counts: Counts, resources: Resources, pixmaps: set<Pixmap>, d: ShmDesc)
    requires Balanced(counts, resources, pixmaps, null)
    ensures Balanced(counts - {d}, resources, pixmaps, null)
  {
    hide Users;
  }

  /** Whatever is named is in the list. */
  ghost predicate Closed(segs: seq<ShmDesc>, resources: Resources, pixmaps: set<Pixmap>) {
    (forall x :: x in resources ==> resources[x] in segs) && (forall p :: p in pixmaps ==> p.desc in segs)
  }

  /** No segment is listed twice, and no two that are not made from descriptors have the same shmid. */
  ghost predicate Unique(segs: seq<ShmDesc>) {
    forall i, j :: 0 <= i < j < |segs| ==>
      segs[i] != segs[j] && (segs[i].isFd || segs[j].isFd || segs[i].shmid != segs[j].shmid)
  }

  function Unlinked(segs: seq<ShmDesc>, i: nat): seq<ShmDesc>
    requires i < |segs|
  {
    segs[..i] + segs[i + 1..]
  }

  ghost predicate Removed(before: seq<ShmDesc>, after: seq<ShmDesc>, d: ShmDesc) {
    exists i :: 0 <= i < |before| && before[i] == d && after == Unlinked(before, i)
  }

  /** The list after a user of a segment has left. */
  ghost predicate Released(before: seq<ShmDesc>, after: seq<ShmDesc>, d: ShmDesc, refcnt: nat) {
    if refcnt == 1 then Removed(before, after, d) else after == before
  }

  lemma UnlinkedUnique(segs: seq<ShmDesc>, i: nat)
    requires i < |segs| && Unique(segs)
    ensures Unique(Unlinked(segs, i))
    ensures forall d :: d in segs ==> (d in Unlinked(segs, i) <==> d != segs[i])
    ensures forall d :: d in Unlinked(segs, i) ==> d in segs
  {
    var u := Unlinked(segs, i);
    forall k | 0 <= k < |u| ensures u[k] == segs[if k < i then k else k + 1] {}
    forall d | d in segs && d != segs[i] ensures d in u {
      var k :| 0 <= k < |segs| && segs[k] == d;
      assert u[if k < i then k else k - 1] == d;
    }
  }

  /** A segment that nothing names has no users. */
  lemma Unused(segs: seq<ShmDesc>, resources: Resources, pixmaps: set<Pixmap>, d: ShmDesc)
    requires Closed(segs, resources, pixmaps) && d !in segs
    ensures Users(resources, pixmaps, d) == 0
  {
    assert Holders(resources, d) == {} && PixmapsOf(pixmaps, d) == {};
  }

  /** A segment without users can leave the list. */
  lemma StillClosed(segs: seq<ShmDesc>, resources: Resources, pixmaps: set<Pixmap>, i: nat)
    requires Closed(segs, resources, pixmaps) && i < |segs| && Unique(segs)
    requires Users(resources, pixmaps, segs[i]) == 0
    ensures Closed(Unlinked(segs, i), resources, pixmaps)
  {
    UnlinkedUnique(segs, i);
    var d := segs[i];
    forall x | x in resources ensures resources[x] != d {
      assert x !in Holders(resources, d);
    }
    forall p | p in pixmaps ensures p.desc != d {
      assert p !in PixmapsOf(pixmaps, d);
    }
  }

  /** The place of the segment of a shmid in the list, or the length of the list. */
  function Find(segs: seq<ShmDesc>, shmid: int): (i: nat)
    ensures i <= |segs|
    ensures i < |segs| ==> segs[i].shmid == shmid && !segs[i].isFd
    ensures forall k :: 0 <= k < i ==> segs[k].isFd || segs[k].shmid != shmid
  {
    if segs == [] || (segs[0].shmid == shmid && !segs[0].isFd) then 0 else 1 + Find(segs[1..], shmid)
  }

  function AttachStatus(segs: seq<ShmDesc>, taken: bool, shmid: int, readOnly: nat, access: bool, added: bool): Status {
    if taken then BadIDChoice
    else if readOnly > 1 then BadValue
    else if Find(segs, shmid) < |segs| && readOnly == 0 && !segs[Find(segs, shmid)].writable then BadAccess
    else if Find(segs, shmid) == |segs| && !access then BadAccess
    else if added then Success else BadAlloc
  }

  /** What each answer to an attach request means: a listed segment is refused only for writing when it is read-only. */
  lemma AttachOutcomes(segs: seq<ShmDesc>, taken: bool, shmid: int, readOnly: nat, access: bool, added: bool)
    ensures var status := AttachStatus(segs, taken, shmid, readOnly, access, added);
            var i := Find(segs, shmid);
            var legal := !taken && readOnly in {0, 1};
            var refused := if i < |segs| then readOnly == 0 && !segs[i].writable else !access;
            && (status == BadIDChoice <==> taken)
            && (status == BadValue <==> !taken && readOnly !in {0, 1})
            && (status == BadAccess <==> legal && refused)
            && (status == BadAlloc <==> legal && !refused && !added)
            && (status == Success <==> legal && !refused && added)
            && (i < |segs| <==> exists d :: d in segs && !d.isFd && d.shmid == shmid)
  {
    var i := Find(segs, shmid);
    if d :| d in segs && !d.isFd && d.shmid == shmid {
      var k :| 0 <= k < |segs| && segs[k] == d;
    }
    if i < |segs| {
      assert segs[i] in segs;
    }
  }

  function AttachFdStatus(taken: bool, readOnly: nat, stated: bool, size: nat, mapped: bool, added: bool): Status {
    if taken then BadIDChoice
    else if readOnly > 1 then BadValue
    else if !stated || size == 0 then BadMatch
    else if !mapped then BadAccess
    else if added then Success else BadAlloc
  }

  lemma AttachFdOutcomes(taken: bool, readOnly: nat, stated: bool, size: nat, mapped: bool, added: bool)
    ensures var status := AttachFdStatus(taken, readOnly, stated, size, mapped, added);
            var legal := !taken && readOnly in {0, 1};
            && (status == BadIDChoice <==> taken)
            && (status == BadValue <==> !taken && readOnly !in {0, 1})
            && (status == BadMatch <==> legal && (!stated || size == 0))
            && (status == BadAccess <==> legal && stated && size > 0 && !mapped)
            && (status == BadAlloc <==> legal && stated && size > 0 && mapped && !added)
            && (status == Success <==> legal && stated && size > 0 && mapped && added)
  {}

  /** A CreatePixmap request; f is the pixel layout of its depth. */
  datatype PixmapReq = PixmapReq(f: PixelFormat, width: nat, height: nat, depth: nat, offset: nat)

  /** All checks of ProcShmCreatePixmap; drawable is the error of the drawable's lookup, or 0. */
  function CreatePixmapStatus(shared: bool, free: bool, drawable: int, allowedDepths: set<nat>, q: PixmapReq,
                              shmdesc: ShmDesc?): Status {
    if !shared then BadImplementation
    else if !free then BadIDChoice
    else if drawable != 0 then OtherError(drawable)
    else if shmdesc == null then BadShmSeg
    else if q.offset % 4 != 0 || q.offset > shmdesc.size then BadValue
    else if !shmdesc.writable then BadAccess
    else CreatePixmapChecks(q.f, q.width, q.height, q.depth, allowedDepths, q.offset, shmdesc.size)
  }

  /** What each answer to the checks means, up to those of the size. */
  lemma CreatePixmapOutcomes(shared: bool, free: bool, drawable: int, allowedDepths: set<nat>, q: PixmapReq, shmdesc: ShmDesc?)
    ensures var status := CreatePixmapStatus(shared, free, drawable, allowedDepths, q, shmdesc);
            var named := shared && free && drawable == 0 && shmdesc != null;
            var placed := named && q.offset % 4 == 0 && q.offset <= shmdesc.size;
            && (status == BadImplementation <==> !shared)
            && (status == BadIDChoice <==> shared && !free)
            && (status == OtherError(drawable) <==> shared && free && drawable != 0)
            && (status == BadShmSeg <==> shared && free && drawable == 0 && shmdesc == null)
            && (named && !placed ==> status == BadValue)
            && (placed && !shmdesc.writable ==> status == BadAccess)
            && (placed && shmdesc.writable ==>
                 status == CreatePixmapChecks(q.f, q.width, q.height, q.depth, allowedDepths, q.offset, shmdesc.size))
  {
    if shmdesc != null {
      PixmapLimits(q.f, q.width, q.height, q.depth, allowedDepths, q.offset, shmdesc.size);
    }
    hide CreatePixmapChecks;
  }

  lemma PushUnique(d: ShmDesc, segs: seq<ShmDesc>)
    requires Unique(segs) && d !in segs && (d.isFd || Find(segs, d.shmid) == |segs|)
    ensures Unique([d] + segs)
  {
    var s := [d] + segs;
    forall i, j | 0 <= i < j < |s|
      ensures s[i] != s[j] && (s[i].isFd || s[j].isFd || s[i].shmid != s[j].shmid)
    {
      if i > 0 { assert s[i] == segs[i - 1] && s[j] == segs[j - 1]; }
    }
  }

  lemma RemovedHead(d: ShmDesc, segs: seq<ShmDesc>, after: seq<ShmDesc>)
    requires Removed([d] + segs, after, d) && d !in segs
    ensures after == segs
  {}

  class Server {
    /** The list Shmsegs. */
    var segs: seq<ShmDesc>
    /** The resources of type ShmSegType. */
    var resources: Resources
    /** The pixmaps that exist and lie in a segment. */
    var pixmaps: set<Pixmap>

    ghost function CountsNow(): Counts
      reads this`segs, segs
    {
      map d | d in segs :: d.refcnt
    }

    ghost predicate ValidBut(extra: ShmDesc?)
      reads this, segs, pixmaps
    {
      && Unique(segs) && Closed(segs, resources, pixmaps) && (extra != null ==> extra in segs)
      && Balanced(CountsNow(), resources, pixmaps, extra)
      && (forall d :: d in segs ==> d.refcnt > 0)
      && (forall p :: p in pixmaps ==> p.refcnt > 0)
    }

    ghost predicate Valid()
      reads this, segs, pixmaps
    {
      ValidBut(null)
    }

    constructor ()
      ensures Valid() && segs == [] && resources == map[] && pixmaps == {}
    {
      segs, resources, pixmaps := [], map[], {};
    }

    twostate lemma CountsStep(d: ShmDesc)
      requires segs == old(segs) && d in segs && forall e :: e in segs && e != d ==> e.refcnt == old(e.refcnt)
      ensures CountsNow() == old(CountsNow())[d := d.refcnt]
    {}

    /** The delete function of a segment: one user less; the last one takes the segment off the list. */
    method ShmDetachSegment(shmdesc: ShmDesc)
      requires ValidBut(shmdesc)
      modifies this`segs, shmdesc`refcnt, shmdesc`busfault
      ensures Valid()
      ensures shmdesc.refcnt == old(shmdesc.refcnt) - 1
      ensures shmdesc.busfault == (old(shmdesc.busfault) && (shmdesc.refcnt > 0 || !shmdesc.isFd))
      ensures Released(old(segs), segs, shmdesc, old(shmdesc.refcnt))
      ensures shmdesc in segs <==> old(shmdesc.refcnt) > 1
      ensures forall d :: d != shmdesc ==> (d in segs <==> d in old(segs))
    {
      hide Unique, Closed, Users, Balanced;
      OneLess(CountsNow(), resources, pixmaps, shmdesc);
      shmdesc.refcnt := shmdesc.refcnt - 1;
      CountsStep(shmdesc);
      if shmdesc.refcnt != 0 {
        return;
      }
      label unused:
      NoUsers(CountsNow(), resources, pixmaps, shmdesc);
      shmdesc.busfault := shmdesc.busfault && !shmdesc.isFd;
      var prev := 0;
      while segs[prev] != shmdesc
        invariant prev < |segs| && shmdesc in segs[prev..]
        decreases |segs| - prev
      {
        prev := prev + 1;
      }
      StillClosed(segs, resources, pixmaps, prev);
      UnlinkedUnique(segs, prev);
      segs := Unlinked(segs, prev);
      CountsLess@unused(shmdesc);
      FewerBalanced(old@unused(CountsNow()), resources, pixmaps, shmdesc);
    }

    twostate lemma CountsLess(d: ShmDesc)
      requires forall e :: e in segs <==> e in old(segs) && e != d
      requires forall e :: e in segs ==> e.refcnt == old(e.refcnt)
      ensures CountsNow() == old(CountsNow()) - {d}
    {}

    /** A segment of the list gets one more user. */
    method AddUser(shmdesc: ShmDesc)
      requires Valid() && shmdesc in segs
      modifies shmdesc`refcnt
      ensures ValidBut(shmdesc) && shmdesc.refcnt == old(shmdesc.refcnt) + 1
    {
      hide Unique, Closed, Users;
      shmdesc.refcnt := shmdesc.refcnt + 1;
      CountsStep(shmdesc);
    }

    /** A segment with its first user is put at the head of the list. */
    method Push(shmdesc: ShmDesc)
      requires Valid() && shmdesc !in segs && shmdesc.refcnt == 1
      requires shmdesc.isFd || Find(segs, shmdesc.shmid) == |segs|
      modifies this`segs
      ensures segs == [shmdesc] + old(segs) && ValidBut(shmdesc)
    {
      hide Users;
      PushUnique(shmdesc, segs);
      Unused(segs, resources, pixmaps, shmdesc);
      segs := [shmdesc] + segs;
      assert CountsNow() == old(CountsNow())[shmdesc := 1];
    }

    /** A resource that names a segment is freed. */
    method FreeResource(x: XID)
      requires Valid() && x in resources
      modifies this`segs, this`resources, resources[x]
      ensures Valid() && resources == old(resources) - {x}
      ensures old(resources[x]).refcnt == old(resources[x].refcnt) - 1
      ensures old(resources[x]).busfault ==> old(resources[x].busfault)
      ensures Released(old(segs), segs, old(resources[x]), old(resources[x].refcnt))
    {
      hide Unique, Closed, Users;
      var shmdesc := resources[x];
      forall d: ShmDesc | d in segs
        ensures Users(resources - {x}, pixmaps, d) + One(d == shmdesc) == Users(resources, pixmaps, d)
      {
        UsersDetach(resources, pixmaps, x, d);
      }
      FewerClosed(segs, resources, pixmaps, x);
      resources := resources - {x};
      ShmDetachSegment(shmdesc);
    }

    method ProcShmDetach(x: XID) returns (status: Status)
      requires Valid()
      modifies this`segs, this`resources, if x in resources then {resources[x]} else {}
      ensures Valid() && resources == old(resources) - {x}
      ensures status == if x in old(resources) then Success else BadShmSeg
      ensures x !in old(resources) ==> segs == old(segs)
      ensures x in old(resources) ==> Released(old(segs), segs, old(resources[x]), old(resources[x].refcnt))
    {
      if x !in resources {
        return BadShmSeg;
      }
      FreeResource(x);
      status := Success;
    }

    /** AddResource for a segment that has counted the new user; its delete function runs when it fails. */
    method AddResource(x: XID, shmdesc: ShmDesc, added: bool) returns (status: Status)
      requires ValidBut(shmdesc) && x !in resources
      modifies this`segs, this`resources, shmdesc`refcnt, shmdesc`busfault
      ensures Valid() && status == if added then Success else BadAlloc
      ensures added ==> resources == old(resources)[x := shmdesc] && segs == old(segs)
      ensures added ==> shmdesc.refcnt == old(shmdesc.refcnt) && shmdesc.busfault == old(shmdesc.busfault)
      ensures !added ==> resources == old(resources) && Released(old(segs), segs, shmdesc, old(shmdesc.refcnt))
      ensures !added ==> shmdesc.refcnt == old(shmdesc.refcnt) - 1
    {
      hide Unique, Closed, Users;
      if !added {
        ShmDetachSegment(shmdesc);
        return BadAlloc;
      }
      forall d: ShmDesc | d in segs
        ensures Users(resources[x := shmdesc], pixmaps, d) == Users(resources, pixmaps, d) + One(d == shmdesc)
      {
        UsersAttach(resources, pixmaps, x, shmdesc, d);
      }
      MoreClosed(segs, resources, pixmaps, x, shmdesc);
      resources := resources[x := shmdesc];
      status := Success;
    }

    /** A client attaches a System V segment: a segment that is attached already is shared. `free` tells that the
        client may choose the id and that no resource of another type has it. */
    method ProcShmAttach(x: XID, free: bool, shmid: int, readOnly: nat, attached: bool, access: bool, size: nat, added: bool)
      returns (status: Status)
      requires Valid()
      modifies this`segs, this`resources, if Find(segs, shmid) < |segs| then {segs[Find(segs, shmid)]} else {}
      ensures Valid()
      ensures status == AttachStatus(old(segs), !free || x in old(resources), shmid, readOnly, attached && access, added)
      ensures status != Success ==> segs == old(segs) && resources == old(resources)
      ensures status != Success ==> forall d :: d in segs ==> d.refcnt == old(d.refcnt)
      ensures status == Success ==>
        && free && x !in old(resources) && readOnly in {0, 1} && x in resources
        && resources[x].shmid == shmid && !resources[x].isFd && (readOnly == 0 ==> resources[x].writable)
      ensures status == Success && Find(old(segs), shmid) < |old(segs)| ==>
        && segs == old(segs) && resources == old(resources)[x := old(segs)[Find(old(segs), shmid)]]
      ensures status == Success && Find(old(segs), shmid) == |old(segs)| ==>
        && segs != [] && fresh(segs[0]) && segs == [segs[0]] + old(segs) && resources == old(resources)[x := segs[0]]
        && segs[0].shmid == shmid && !segs[0].isFd && segs[0].writable == (readOnly == 0) && segs[0].size == size
    {
      hide Unique, Closed, Users, Balanced;
      if !free || x in resources {
        return BadIDChoice;
      }
      if readOnly != 1 && readOnly != 0 {
        return BadValue;
      }
      var i := 0;
      while i < |segs| && (segs[i].isFd || segs[i].shmid != shmid)
        invariant i <= |segs| && i + Find(segs[i..], shmid) == Find(segs, shmid)
      {
        i := i + 1;
      }
      var shmdesc;
      if i < |segs| {
        shmdesc := segs[i];
        if readOnly == 0 && !shmdesc.writable {
          return BadAccess;
        }
        AddUser(shmdesc);
      } else {
        if !attached || !access {
          return BadAccess;
        }
        shmdesc := new ShmDesc(shmid, false, readOnly == 0, size, 0);
        Push(shmdesc);
      }
      status := AddResource(x, shmdesc, added);
      if status == BadAlloc && i == |old(segs)| {
        RemovedHead(shmdesc, old(segs), segs);
      }
    }

    /** A client passes a descriptor: a segment of its own is made for it. */
    method ProcShmAttachFd(x: XID, free: bool, readOnly: nat, stated: bool, mapped: bool, watched: bool, size: nat, added: bool)
      returns (status: Status)
      requires Valid()
      modifies this`segs, this`resources
      ensures Valid()
      ensures status == AttachFdStatus(!free || x in old(resources), readOnly, stated, size, mapped, watched && added)
      ensures status != Success ==> segs == old(segs) && resources == old(resources)
      ensures status == Success <==>
                free && x !in old(resources) && readOnly in {0, 1} && stated && size > 0 && mapped && watched && added
      ensures status == BadMatch <==> free && x !in old(resources) && readOnly in {0, 1} && (!stated || size == 0)
      ensures status == Success ==>
        && segs != [] && fresh(segs[0]) && segs == [segs[0]] + old(segs) && resources == old(resources)[x := segs[0]]
        && segs[0].isFd && segs[0].writable == (readOnly == 0) && segs[0].size == size
        && segs[0].busfault && segs[0].resource == x
    {
      hide Unique, Closed, Users, Balanced;
      if !free || x in resources {
        return BadIDChoice;
      }
      if readOnly != 1 && readOnly != 0 {
        return BadValue;
      }
      if !stated || size == 0 {
        return BadMatch;
      }
      if !mapped {
        return BadAccess;
      }
      if !watched {
        return BadAlloc;
      }
      var shmdesc := new ShmDesc(0, true, readOnly == 0, size, x);
      Push(shmdesc);
      status := AddResource(x, shmdesc, added);
      if status == BadAlloc {
        RemovedHead(shmdesc, old(segs), segs);
      }
    }

    /** A client has cut short the file behind a segment that is watched: the resource with the id under which it was
        attached is freed, whichever segment that names by now. */
    method ShmBusfaultNotify(shmdesc: ShmDesc)
      requires Valid() && shmdesc in segs && shmdesc.busfault
      modifies this`segs, this`resources, shmdesc`busfault,
               if shmdesc.resource in resources then {resources[shmdesc.resource]} else {}
      ensures Valid() && !shmdesc.busfault && resources == old(resources) - {shmdesc.resource}
      ensures shmdesc.resource !in old(resources) ==> segs == old(segs)
      ensures shmdesc.resource in old(resources) ==>
                Released(old(segs), segs, old(resources[shmdesc.resource]), old(resources[shmdesc.resource].refcnt))
    {
      hide Unique, Closed, Users, Balanced;
      shmdesc.busfault := false;
      CountsSame();
      if shmdesc.resource in resources {
        FreeResource(shmdesc.resource);
      }
    }

    /** A pixmap is made of the bits in a writable segment. `created` is whether the driver makes it, `access` the error
        of the access hook, or 0. */
    method ProcShmCreatePixmap(x: XID, shared: bool, free: bool, drawable: int, allowedDepths: set<nat>, q: PixmapReq,
                               created: bool, access: int, added: bool)
      returns (status: Status, pixmap: Pixmap?)
      requires Valid()
      modifies this`segs, this`pixmaps, if x in resources then {resources[x]} else {}
      ensures Valid() && segs == old(segs)
      ensures var checks := CreatePixmapStatus(shared, free, drawable, allowedDepths, q, Named(x));
        status == if checks != Success then checks else if !created then BadAlloc
                  else if access != 0 then OtherError(access) else if added then Success else BadAlloc
      ensures status == Success ==> pixmap != null && fresh(pixmap) && x in resources && pixmap.desc == resources[x]
      ensures status == Success ==>
                pixmaps == old(pixmaps) + {pixmap} && pixmap.refcnt == 1 && resources[x].refcnt == old(resources[x].refcnt) + 1
      ensures status == Success ==>
        && shared && free && drawable == 0 && access == 0 && created && added && q.offset % 4 == 0
        && 0 < q.width <= 32767 && 0 < q.height <= 32767 && (q.depth == 1 || (q.depth > 0 && q.depth in allowedDepths))
      ensures (&& shared && free && drawable == 0 && x in resources && q.offset % 4 == 0 && q.offset <= resources[x].size
               && !resources[x].writable) ==> status == BadAccess
      ensures status == Success && (q.f.WholeBytes? ==> q.f.n <= 4) ==>
                resources[x].writable && q.offset + Mul(BytePad(q.f, q.width), q.height) <= resources[x].size
      ensures status != Success ==> pixmaps == old(pixmaps) && (x in resources ==> resources[x].refcnt == old(resources[x].refcnt))
    {
      hide Unique, Closed, Users, Balanced, CreatePixmapChecks, BytePad, Mul;
      pixmap := null;
      if !shared {
        return BadImplementation, null;
      }
      if !free {
        return BadIDChoice, null;
      }
      if drawable != 0 {
        return OtherError(drawable), null;
      }
      if x !in resources {
        return BadShmSeg, null;
      }
      var shmdesc := resources[x];
      InList(x);
      if q.offset % 4 != 0 || q.offset > shmdesc.size {
        return BadValue, null;
      }
      if !shmdesc.writable {
        return BadAccess, null;
      }
      var checks := CreatePixmapChecks(q.f, q.width, q.height, q.depth, allowedDepths, q.offset, shmdesc.size);
      PixmapLimits(q.f, q.width, q.height, q.depth, allowedDepths, q.offset, shmdesc.size);
      if checks != Success {
        return checks, null;
      }
      if q.f.WholeBytes? ==> q.f.n <= 4 {
        PixmapInside(q.f, q.width, q.height, q.depth, allowedDepths, q.offset, shmdesc.size);
      }
      if !created {
        return BadAlloc, null;
      }
      if access != 0 {
        return OtherError(access), null;
      }
      var made := new Pixmap(shmdesc);
      AddUser(shmdesc);
      AddPixmap(made);
      if !added {
        // AddResource frees the pixmap when it fails.
        ShmDestroyPixmap(made);
        assert pixmaps == old(pixmaps);
        return BadAlloc, null;
      }
      return Success, made;
    }

    /** The segment that an id names. */
    function Named(x: XID): ShmDesc?
      reads this`resources
    {
      if x in resources then resources[x] else null
    }

    /** A pixmap gets one more reference, as when a GC or a window takes it as its tile. */
    method ReferencePixmap(pixmap: Pixmap)
      requires Valid() && pixmap in pixmaps
      modifies pixmap`refcnt
      ensures Valid() && pixmap.refcnt == old(pixmap.refcnt) + 1
    {
      hide Unique, Closed, Users, Balanced;
      pixmap.refcnt := pixmap.refcnt + 1;
      CountsSame();
    }

    twostate lemma CountsSame()
      requires segs == old(segs) && forall d :: d in segs ==> d.refcnt == old(d.refcnt)
      ensures CountsNow() == old(CountsNow())
    {}

    /** The list holds exactly the segments that some resource or pixmap names, and counts them right. */
    lemma ListedIffUsed(d: ShmDesc)
      requires Valid()
      ensures d in segs <==> Users(resources, pixmaps, d) > 0
      ensures d in segs ==> d.refcnt == Users(resources, pixmaps, d)
    {
      hide Users, Unique;
      if d in segs {
        assert CountsNow()[d] == d.refcnt;
      } else {
        Unused(segs, resources, pixmaps, d);
      }
    }

    lemma InList(x: XID)
      requires Valid() && x in resources
      ensures resources[x] in segs
    {}

    /** The private of a new pixmap is set to a segment that has counted it. */
    method AddPixmap(pixmap: Pixmap)
      requires ValidBut(pixmap.desc) && pixmap !in pixmaps && pixmap.refcnt > 0
      modifies this`pixmaps
      ensures Valid() && pixmaps == old(pixmaps) + {pixmap}
    {
      hide Unique, Users;
      forall d: ShmDesc | d in segs
        ensures Users(resources, pixmaps + {pixmap}, d) == Users(resources, pixmaps, d) + One(d == pixmap.desc)
      {
        UsersPixmap(resources, pixmaps, pixmap, d);
      }
      pixmaps := pixmaps + {pixmap};
    }

    /** One reference less to a pixmap; the last one frees it and detaches its segment. */
    method ShmDestroyPixmap(pixmap: Pixmap)
      requires Valid() && pixmap in pixmaps
      modifies this`segs, this`pixmaps, pixmap, pixmap.desc
      ensures Valid() && pixmap.refcnt == old(pixmap.refcnt) - 1
      ensures pixmap.refcnt > 0 ==>
                pixmaps == old(pixmaps) && segs == old(segs) && pixmap.desc.refcnt == old(pixmap.desc.refcnt)
      ensures pixmap.refcnt == 0 ==>
                && pixmaps == old(pixmaps) - {pixmap} && pixmap.desc.refcnt == old(pixmap.desc.refcnt) - 1
                && Released(old(segs), segs, pixmap.desc, old(pixmap.desc.refcnt))
    {
      hide Unique, Users;
      if pixmap.refcnt != 1 {
        pixmap.refcnt := pixmap.refcnt - 1;
        return;
      }
      pixmap.refcnt := 0;
      var rest := pixmaps - {pixmap};
      assert pixmaps == rest + {pixmap};
      forall d: ShmDesc | d in segs
        ensures Users(resources, pixmaps, d) == Users(resources, rest, d) + One(d == pixmap.desc)
      {
        UsersPixmap(resources, rest, pixmap, d);
      }
      pixmaps := rest;
      ShmDetachSegment(pixmap.desc);
    }
  }

  lemma FewerClosed(segs: seq<ShmDesc>, resources: Resources, pixmaps: set<Pixmap>, x: XID)
    requires Closed(segs, resources, pixmaps) && x in resources
    ensures Closed(segs, resources - {x}, pixmaps) && resources[x] in segs
  {}

  lemma MoreClosed(segs: seq<ShmDesc>, resources: Resources, pixmaps: set<Pixmap>, x: XID, d: ShmDesc)
    requires Closed(segs, resources, pixmaps) && d in segs
    ensures Closed(segs, resources[x := d], pixmaps)
  {}
}
