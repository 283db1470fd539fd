/**
 * The cursor trail: on every mouse move over a viewport wider than 768
 * pixels a sample is appended, the oldest is dropped once there are more
 * than ten, and every sample 500 ms old or older is discarded.
 */
module CursorTrail {

  datatype TrailPoint = TrailPoint(x: int, y: int, time: int)

  const MaxTrailLength: nat := 10
  /** Samples younger than this many milliseconds are kept. */
  const TrailLifetime: int := 500
  /** Viewports at most this wide keep no trail. */
  const NarrowViewport: int := 768

  predicate IsRecent(p: TrailPoint, now: int) {
    now - p.time < TrailLifetime
  }

  /** `cursorTrail.filter(point => Date.now() - point.time < 500)`. */
  function KeepRecent(points: seq<TrailPoint>, now: int): (r: seq<TrailPoint>)
    ensures |r| <= |points|
    ensures forall i :: 0 <= i < |r| ==> IsRecent(r[i], now)
  {
    if points == [] then []
    else (if IsRecent(points[0], now) then [points[0]] else []) + KeepRecent(points[1..], now)
  }

  /** `if (cursorTrail.length > maxTrailLength) cursorTrail.shift()`. */
  function DropOldest(points: seq<TrailPoint>): (r: seq<TrailPoint>)
    ensures |points| - 1 <= |r| <= |points| && r == points[|points| - |r|..]
    ensures |points| <= MaxTrailLength + 1 ==> |r| <= MaxTrailLength
    ensures |points| <= MaxTrailLength ==> r == points
  {
    if |points| > MaxTrailLength then points[1..] else points
  }

  /** The trail after one mouse move. */
  function AfterMove(points: seq<TrailPoint>, x: int, y: int, innerWidth: int, now: int): seq<TrailPoint> {
    if innerWidth > NarrowViewport then KeepRecent(DropOldest(points + [TrailPoint(x, y, now)]), now)
    else points
  }

  /** `a` is `b` with some elements left out, order kept. */
  predicate IsSubsequence<T(==)>(a: seq<T>, b: seq<T>)
    decreases |b|
  {
    if a == [] then true
    else if b == [] then false
    else if a[0] == b[0] then IsSubsequence(a[1..], b[1..])
    else IsSubsequence(a, b[1..])
  }

  lemma {:induction false} KeepRecentConcat(a: seq<TrailPoint>, b: seq<TrailPoint>, now: int)
    ensures KeepRecent(a + b, now) == KeepRecent(a, now) + KeepRecent(b, now)
  {
    if a == [] {
      assert a + b == b;
    } else {
      assert (a + b)[1..] == a[1..] + b;
      KeepRecentConcat(a[1..], b, now);
    }
  }

  /** The filter keeps a sample iff it is recent. */
  lemma {:induction false} KeepRecentMembers(points: seq<TrailPoint>, now: int, p: TrailPoint)
    ensures p in KeepRecent(points, now) <==> p in points && IsRecent(p, now)
  {
    if points != [] {
      KeepRecentMembers(points[1..], now, p);
      assert points == [points[0]] + points[1..];
    }
  }

  /** The filter keeps the remaining samples in their original order. */
  lemma {:induction false} KeepRecentIsSubsequence(points: seq<TrailPoint>, now: int)
    ensures IsSubsequence(KeepRecent(points, now), points)
  {
    if points != [] {
      KeepRecentIsSubsequence(points[1..], now);
      var rest := KeepRecent(points[1..], now);
      if IsRecent(points[0], now) {
        assert KeepRecent(points, now) == [points[0]] + rest;
        assert ([points[0]] + rest)[1..] == rest;
      } else {
        assert KeepRecent(points, now) == rest;
        SubsequenceOfTail(rest, points);
      }
    }
  }

  lemma {:induction false} SubsequenceOfTail<T>(a: seq<T>, b: seq<T>)
    requires b != [] && IsSubsequence(a, b[1..])
    ensures IsSubsequence(a, b)
    decreases |b|, 1
  {
    if a != [] && a[0] == b[0] {
      SubsequenceDropHead(a, b[1..]);
    }
  }

  lemma {:induction false} SubsequenceDropHead<T>(a: seq<T>, c: seq<T>)
    requires a != [] && IsSubsequence(a, c)
    ensures IsSubsequence(a[1..], c)
    decreases |c|, 2
  {
    if a[0] == c[0] {
      SubsequenceOfTail(a[1..], c);
    } else {
      SubsequenceDropHead(a, c[1..]);
      SubsequenceOfTail(a[1..], c);
    }
  }

  /** Every move keeps the trail at ten samples or fewer. */
  lemma AfterMoveBounded(points: seq<TrailPoint>, x: int, y: int, innerWidth: int, now: int)
    requires |points| <= MaxTrailLength
    ensures |AfterMove(points, x, y, innerWidth, now)| <= MaxTrailLength
  {
  }

  /**
   * On a wide viewport the trail afterwards holds only recent samples, in
   * their order with the new sample last, and every recent sample among
   * the retained ones; on a narrow viewport nothing changes.
   */
  lemma AfterMoveWide(points: seq<TrailPoint>, x: int, y: int, innerWidth: int, now: int)
    requires innerWidth > NarrowViewport
    ensures var r := AfterMove(points, x, y, innerWidth, now);
      var p := TrailPoint(x, y, now);
      |r| >= 1 && r[|r| - 1] == p &&
      (forall i :: 0 <= i < |r| ==> IsRecent(r[i], now)) &&
      IsSubsequence(r, DropOldest(points + [p])) &&
      (forall q :: q in DropOldest(points + [p]) && IsRecent(q, now) ==> q in r)
  {
    var p := TrailPoint(x, y, now);
    var kept := DropOldest(points + [p]);
    assert kept == kept[..|kept| - 1] + [p];
    KeepRecentConcat(kept[..|kept| - 1], [p], now);
    assert KeepRecent([p], now) == [p] by {
      assert [p][1..] == [];
    }
    KeepRecentIsSubsequence(kept, now);
    forall q | q in kept && IsRecent(q, now) ensures q in KeepRecent(kept, now) {
      KeepRecentMembers(kept, now, q);
    }
  }

  /** The `mousemove` listener's state: the trail array. */
  class Trail {
    var points: seq<TrailPoint>

    ghost predicate Valid()
      reads this
    {
      |points| <= MaxTrailLength
    }

    constructor ()
      ensures Valid() && points == []
    {
      points := [];
    }

    method OnMouseMove(x: int, y: int, innerWidth: int, now: int)
      requires Valid()
      modifies this
      ensures Valid()
      ensures points == AfterMove(old(points), x, y, innerWidth, now)
      ensures innerWidth <= NarrowViewport ==> points == old(points)
      ensures innerWidth > NarrowViewport ==> |points| >= 1 && points[|points| - 1] == TrailPoint(x, y, now)
      ensures innerWidth > NarrowViewport ==> forall i :: 0 <= i < |points| ==> IsRecent(points[i], now)
    {
      if innerWidth > NarrowViewport {
        AfterMoveWide(points, x, y, innerWidth, now);
        points := points + [TrailPoint(x, y, now)];
        if |points| > MaxTrailLength {
          points := points[1..];
        }
        points := KeepRecent(points, now);
      }
    }
  }
}
