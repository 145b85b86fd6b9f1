/** Point lists replayed on every screen: the screen loops of PolyPoint, PolyLine and FillPoly. */
module Points {
  import opened CTypes
  import opened Requests

  /** A point in a request: two INT16 coordinates. */
  datatype DDXPoint = DDXPoint(x: int, y: int)

  datatype CoordMode = CoordModeOrigin | CoordModePrevious

  /** Equal as 16-bit quantities. */
  predicate Same16(a: int, b: int) {
    (a - b) % 0x1_0000 == 0
  }

  /** The sum of the first n points. */
  function Sum(pts: seq<DDXPoint>, n: nat): DDXPoint
    requires n <= |pts|
  {
    if n == 0 then DDXPoint(0, 0)
    else DDXPoint(Sum(pts, n - 1).x + pts[n - 1].x, Sum(pts, n - 1).y + pts[n - 1].y)
  }

  /** The i-th point in absolute coordinates: in CoordModePrevious each point is relative to the one before. */
  function Absolute(mode: CoordMode, pts: seq<DDXPoint>, i: nat): DDXPoint
    requires i < |pts|
  {
    if mode == CoordModePrevious then Sum(pts, i + 1) else pts[i]
  }

  /** The first point is absolute in either mode, and relative points add up. */
  lemma AbsolutePoints(mode: CoordMode, pts: seq<DDXPoint>, i: nat)
    requires i < |pts|
    ensures Absolute(mode, pts, i) == if i == 0 || mode == CoordModeOrigin then pts[i] else
              DDXPoint(Absolute(mode, pts, i - 1).x + pts[i].x, Absolute(mode, pts, i - 1).y + pts[i].y)
  {
    assert Sum(pts, 0) == DDXPoint(0, 0);
  }

  /** Every absolute point of `sent` is the original one moved by (-dx, -dy), in 16 bits. */
  ghost predicate Shifted(mode: CoordMode, orig: seq<DDXPoint>, sent: seq<DDXPoint>, dx: int, dy: int) {
    && |sent| == |orig|
    && forall i :: 0 <= i < |orig| ==>
         && Same16(Absolute(mode, sent, i).x, Absolute(mode, orig, i).x - dx)
         && Same16(Absolute(mode, sent, i).y, Absolute(mode, orig, i).y - dy)
  }

  /** The first n points have been moved and the others have not. */
  ghost predicate Moved(orig: seq<DDXPoint>, now: seq<DDXPoint>, n: nat, dx: int, dy: int) {
    && |now| == |orig|
    && forall k :: 0 <= k < |orig| ==>
         now[k] == if k < n then DDXPoint(Int16(orig[k].x - dx), Int16(orig[k].y - dy)) else orig[k]
  }

  lemma Int16Same(v: int)
    ensures Same16(Int16(v), v)
  {}

  /** Moving the first point moves every partial sum by the same amount. */
  lemma {:induction false} SumMoves(orig: seq<DDXPoint>, now: seq<DDXPoint>, n: nat, dx: int, dy: int)
    requires 0 < n <= |orig| && Moved(orig, now, 1, dx, dy)
    ensures Sum(now, n).x - Sum(orig, n).x == now[0].x - orig[0].x
    ensures Sum(now, n).y - Sum(orig, n).y == now[0].y - orig[0].y
  {
    if n == 1 {
      assert Sum(now, 0) == Sum(orig, 0);
    } else {
      SumMoves(orig, now, n - 1, dx, dy);
    }
  }

  /** In CoordModePrevious moving the first point is enough; otherwise every point must move. */
  lemma MovedIsShifted(mode: CoordMode, orig: seq<DDXPoint>, now: seq<DDXPoint>, dx: int, dy: int)
    requires Moved(orig, now, if mode == CoordModePrevious then 1 else |orig|, dx, dy)
    ensures Shifted(mode, orig, now, dx, dy)
  {
    hide Int16;
    forall i | 0 <= i < |orig|
      ensures Same16(Absolute(mode, now, i).x, Absolute(mode, orig, i).x - dx)
      ensures Same16(Absolute(mode, now, i).y, Absolute(mode, orig, i).y - dy)
    {
      var first := if mode == CoordModePrevious then 0 else i;
      Int16Same(orig[first].x - dx);
      Int16Same(orig[first].y - dy);
      if mode == CoordModePrevious {
        SumMoves(orig, now, i + 1, dx, dy);
      }
    }
  }

  datatype PointsRequest = PointsRequest(drawable: int, gc: int, pts: seq<DDXPoint>)

  /** What each screen is sent: its own ids, and the caller's points relative to that screen if the drawable is a root. */
  ghost predicate PointsSent(sent: seq<PointsRequest>, mode: CoordMode, orig: seq<DDXPoint>, draw: Ids, gc: Ids,
                             screens: seq<Origin>, isRoot: bool)
    requires |sent| <= |draw| == |gc| == |screens|
  {
    forall k :: 0 <= k < |sent| ==>
      && sent[k].drawable == draw[k] && sent[k].gc == gc[k]
      && (if isRoot then Shifted(mode, orig, sent[k].pts, screens[k].x, screens[k].y) else sent[k].pts == orig)
  }

  /** Point by point: request k goes to screen k with its ids, and of the root every absolute point has the screen's
      position taken away, in 16 bits; of a window nothing changes. */
  lemma EachPoint(sent: seq<PointsRequest>, mode: CoordMode, orig: seq<DDXPoint>, draw: Ids, gc: Ids, screens: seq<Origin>,
                  isRoot: bool, k: nat, i: nat)
    requires |sent| <= |draw| == |gc| == |screens| && PointsSent(sent, mode, orig, draw, gc, screens, isRoot)
    requires k < |sent| && i < |orig|
    ensures sent[k].drawable == draw[k] && sent[k].gc == gc[k] && |sent[k].pts| == |orig|
    ensures isRoot ==>
      && (Absolute(mode, sent[k].pts, i).x - (Absolute(mode, orig, i).x - screens[k].x)) % 65536 == 0
      && (Absolute(mode, sent[k].pts, i).y - (Absolute(mode, orig, i).y - screens[k].y)) % 65536 == 0
    ensures !isRoot ==> sent[k].pts == orig
  {}

  /** The loop `while (i--)` over the request's points. */
  method MovePoints(stuff: array<DDXPoint>, i: nat, xOff: int, yOff: int)
    requires i <= stuff.Length
    modifies stuff
    ensures Moved(old(stuff[..]), stuff[..], i, xOff, yOff)
  {
    hide Int16;
    var p := 0;
    while p < i
      invariant 0 <= p <= i
      invariant forall k :: 0 <= k < stuff.Length ==>
                  stuff[k] == if k < p then DDXPoint(Int16(old(stuff[k]).x - xOff), Int16(old(stuff[k]).y - yOff))
                              else old(stuff[k])
    {
      stuff[p] := DDXPoint(Int16(stuff[p].x - xOff), Int16(stuff[p].y - yOff));
      p := p + 1;
    }
  }

  method Restore(stuff: array<DDXPoint>, pts: seq<DDXPoint>)
    requires |pts| == stuff.Length
    modifies stuff
    ensures stuff[..] == pts
  {
    forall k | 0 <= k < stuff.Length {
      stuff[k] := pts[k];
    }
  }

  /** The screen loop. handler(j) is the saved handler's result on screen j, and leaves(j) what it leaves in the
      request buffer. */
  method ReplayPoints(stuff: array<DDXPoint>, mode: CoordMode, draw: Ids, gc: Ids, screens: seq<Origin>, isRoot: bool,
                      handler: nat -> int, leaves: nat -> seq<DDXPoint>)
    returns (status: Status, sent: seq<PointsRequest>)
    requires |draw| == |gc| == |screens|
    requires forall j :: |leaves(j)| == stuff.Length
    modifies stuff
    ensures stuff.Length == 0 ==> status == Success && sent == []
    ensures stuff.Length > 0 ==> Replayed(|sent|, Forward(|draw|), handler, status)
    ensures |sent| <= |draw| && PointsSent(sent, mode, old(stuff[..]), draw, gc, screens, isRoot)
  {
    hide Int16, Moved, Shifted;
    status, sent := Success, [];
    var npoint := stuff.Length;
    if npoint == 0 {
      return;
    }
    var origPts := stuff[..];
    var j := 0;
    while j < |draw|
      invariant 0 <= j <= |draw| && |sent| == j && status == Success
      invariant j == 0 ==> stuff[..] == origPts
      invariant forall k :: 0 <= k < |sent| ==> handler(Forward(|draw|)[k]) == 0
      invariant PointsSent(sent, mode, origPts, draw, gc, screens, isRoot)
    {
      if j > 0 {
        Restore(stuff, origPts);
      }
      if isRoot {
        var xOff, yOff := screens[j].x, screens[j].y;
        if xOff != 0 || yOff != 0 {
          MovePoints(stuff, if mode == CoordModePrevious then 1 else npoint, xOff, yOff);
          MovedIsShifted(mode, origPts, stuff[..], xOff, yOff);
        } else {
          NoShift(mode, origPts);
        }
      }
      sent := sent + [PointsRequest(draw[j], gc[j], stuff[..])];
      if handler(j) != 0 {
        status := HandlerError(handler(j));
        break;
      }
      Restore(stuff, leaves(j));
      j := j + 1;
    }
  }

  lemma NoShift(mode: CoordMode, pts: seq<DDXPoint>)
    ensures Shifted(mode, pts, pts, 0, 0)
  {}
}
