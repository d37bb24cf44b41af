/** The two capture components: DrawMode records a pointer stroke and hashes it on
    release; ClickMode records the order in which five targets are clicked and
    hashes it once all five are active. */
module Modes {
  import opened Gesture
  import Json

  // ---------------------------------------------------------------------------
  // Path capture
  // ---------------------------------------------------------------------------

  /** The surface-local position of an event: the first touch contact when the
      event has one, the mouse position otherwise, shifted by the surface's box. */
  function GetPos(e: PointerEvent, rect: Rect): (p: Point)
    ensures |e.touches| > 0 ==>
      p.x + rect.left == e.touches[0].clientX && p.y + rect.top == e.touches[0].clientY
    ensures |e.touches| == 0 ==>
      p.x + rect.left == e.clientX && p.y + rect.top == e.clientY
  {
    if |e.touches| > 0 then
      Point(e.touches[0].clientX - rect.left, e.touches[0].clientY - rect.top)
    else
      Point(e.clientX - rect.left, e.clientY - rect.top)
  }

  /** A touch is read exactly like a mouse event at the touch's position: the
      event's own mouse fields and the other contacts play no part. */
  lemma TouchReadsAsMouse(e: PointerEvent, rect: Rect)
    requires |e.touches| > 0
    ensures GetPos(e, rect) ==
            GetPos(PointerEvent(e.touches[0].clientX, e.touches[0].clientY, []), rect)
  {
  }

  /** Moving the surface and the pointer by the same offset leaves the recorded
      point unchanged: only the position relative to the surface is captured. */
  lemma GetPosRelative(e: PointerEvent, rect: Rect, dx: real, dy: real)
    requires |e.touches| == 0
    ensures GetPos(PointerEvent(e.clientX + dx, e.clientY + dy, []),
                   Rect(rect.left + dx, rect.top + dy)) == GetPos(e, rect)
  {
  }

  /** One mounted drawing surface: the closure state `drawing` and `path` of one
      run of the component's effect, with the wallet flag that run saw. */
  class DrawMode {
    const walletConnected: bool
    const keccak: Hasher
    const serializePath: seq<Point> -> string
    var drawing: bool
    var path: seq<Point>

    /** A stroke in progress always holds its first point, and nothing is
        recorded on a surface mounted without a wallet. */
    ghost predicate Valid()
      reads this
    {
      (drawing ==> |path| >= 1) &&
      (!walletConnected ==> !drawing && path == [])
    }

    constructor (walletConnected: bool, keccak: Hasher, serializePath: seq<Point> -> string)
      ensures Valid()
      ensures this.walletConnected == walletConnected
      ensures this.keccak == keccak && this.serializePath == serializePath
      ensures !drawing && path == []
    {
      this.walletConnected := walletConnected;
      this.keccak := keccak;
      this.serializePath := serializePath;
      drawing := false;
      path := [];
    }

    /** Pointer down: refused with a notice when no wallet is connected; otherwise
        a new stroke that holds only the pressed point. */
    method StartDrawing(e: PointerEvent, rect: Rect) returns (notice: Option<Notice>)
      requires Valid()
      modifies this
      ensures Valid()
      ensures !walletConnected ==>
        notice == Some(ConnectBeforeDrawing) && drawing == old(drawing) && path == old(path)
      ensures walletConnected ==>
        notice == None && drawing && path == [GetPos(e, rect)]
    {
      if !walletConnected {
        notice := Some(ConnectBeforeDrawing);
        return;
      }
      drawing := true;
      path := [];
      var pos := GetPos(e, rect);
      path := path + [pos];
      notice := None;
    }

    /** Pointer move: extends the stroke by one point at its end, only while drawing. */
    method Draw(e: PointerEvent, rect: Rect)
      requires Valid()
      modifies this
      ensures Valid()
      ensures drawing == old(drawing)
      ensures old(drawing) ==>
        |path| == |old(path)| + 1 && path[..|old(path)|] == old(path) &&
        path[|path| - 1] == GetPos(e, rect)
      ensures !old(drawing) ==> path == old(path)
    {
      if !drawing {
        return;
      }
      var pos := GetPos(e, rect);
      path := path + [pos];
    }

    /** Pointer up: ends the stroke and emits the hash of its serialisation, once;
        with no stroke in progress it emits nothing. The points are kept. */
    method EndDrawing() returns (emitted: Option<Digest>)
      requires Valid()
      modifies this
      ensures Valid()
      ensures !drawing && path == old(path)
      ensures old(drawing) ==> emitted == Some(keccak(serializePath(old(path))))
      ensures !old(drawing) ==> emitted == None
      ensures emitted.Some? ==> |path| >= 1 && walletConnected
    {
      if !drawing {
        return None;
      }
      drawing := false;
      var dataString := serializePath(path);
      emitted := Some(keccak(dataString));
    }
  }

  // ---------------------------------------------------------------------------
  // Click-sequence capture
  // ---------------------------------------------------------------------------

  const NumCircles: nat := 5

  /** No index occurs twice. */
  predicate Distinct(s: seq<nat>) {
    forall i, j :: 0 <= i < j < |s| ==> s[i] != s[j]
  }

  /** Every index names one of n targets. */
  predicate InRange(s: seq<nat>, n: nat) {
    forall i :: 0 <= i < |s| ==> s[i] < n
  }

  function Indices(n: nat): (r: set<nat>)
    ensures |r| == n
    ensures forall k: nat :: k in r <==> k < n
  {
    if n == 0 then {} else Indices(n - 1) + {n - 1}
  }

  function Elements(s: seq<nat>): set<nat> {
    set x | x in s
  }

  lemma {:induction false} DistinctElements(s: seq<nat>)
    requires Distinct(s)
    ensures |Elements(s)| == |s|
    decreases |s|
  {
    if s != [] {
      var t := s[..|s| - 1];
      DistinctElements(t);
      assert Elements(s) == Elements(t) + {s[|s| - 1]};
      assert s[|s| - 1] !in Elements(t);
    }
  }

  /** A click sequence without repeats over n targets has at most n entries. */
  lemma DistinctInRangeBounded(s: seq<nat>, n: nat)
    requires Distinct(s) && InRange(s, n)
    ensures |s| <= n
  {
    DistinctElements(s);
    var e, all := Elements(s), Indices(n);
    assert e <= all;
    assert all == e + (all - e);
  }

  /** A click sequence without repeats that has reached n entries names every
      one of the n targets: it is an ordering of 0 .. n-1. */
  lemma CompleteSequenceCoversAll(s: seq<nat>, n: nat)
    requires Distinct(s) && InRange(s, n) && |s| == n
    ensures forall k :: 0 <= k < n ==> k in s
  {
    DistinctElements(s);
    var e, all := Elements(s), Indices(n);
    assert e <= all;
    assert all == e + (all - e);
    assert all - e == {};
    forall k | 0 <= k < n
      ensures k in s
    {
      assert k in all;
    }
  }

  /** A target as the click handler sees it: the index it was created with and
      whether it carries the `active` class. */
  datatype Circle = Circle(index: nat, active: bool)

  /** The click-sequence component: the refs that hold the click order and the
      targets, which persist across runs of its effect while it stays mounted. */
  class ClickMode {
    const keccak: Hasher
    var sequence: seq<nat>
    var circles: seq<Circle>
    /** Hashes emitted since the last setup that placed targets. */
    ghost var emissions: nat

    /** The click order has no repeats, names only existing targets, marks
        exactly its targets active, never exceeds the number of targets, and has
        emitted its one hash exactly when it is complete. */
    ghost predicate Valid()
      reads this
    {
      (|circles| == 0 || |circles| == NumCircles) &&
      (forall k :: 0 <= k < |circles| ==> circles[k].index == k) &&
      Distinct(sequence) && InRange(sequence, |circles|) &&
      (forall k :: 0 <= k < |circles| ==> (circles[k].active <==> k in sequence)) &&
      |sequence| <= NumCircles &&
      emissions == (if |sequence| == NumCircles then 1 else 0)
    }

    /** Mounting: both refs start empty and no target exists yet. */
    constructor (keccak: Hasher)
      ensures Valid()
      ensures this.keccak == keccak
      ensures sequence == [] && circles == []
    {
      this.keccak := keccak;
      sequence := [];
      circles := [];
      emissions := 0;
    }

    /** One run of the effect with the wallet flag it sees: without a wallet it
        returns at once and leaves every target and the click order as they were;
        with one it clears them and creates the five targets, none active. */
    method Setup(walletConnected: bool)
      requires Valid()
      modifies this
      ensures Valid()
      ensures !walletConnected ==> unchanged(this)
      ensures walletConnected ==>
        sequence == [] && |circles| == NumCircles &&
        (forall k :: 0 <= k < NumCircles ==> circles[k] == Circle(k, false))
    {
      if !walletConnected {
        return;
      }
      sequence := [];
      circles := [];
      emissions := 0;
      for i := 0 to NumCircles
        invariant sequence == [] && emissions == 0
        invariant |circles| == i
        invariant forall k :: 0 <= k < i ==> circles[k] == Circle(k, false)
      {
        circles := circles + [Circle(i, false)];
      }
    }

    /** A click on target i: nothing happens when it is already active; otherwise
        it turns active and i is appended to the click order, and the hash of the
        order's JSON text is emitted when that append makes the order complete. */
    method Click(i: nat) returns (emitted: Option<Digest>)
      requires Valid()
      requires i < |circles|
      modifies this
      ensures Valid()
      ensures old(circles[i].active) ==>
        sequence == old(sequence) && circles == old(circles) && emitted == None
      ensures !old(circles[i].active) ==>
        sequence == old(sequence) + [i] && circles == old(circles)[i := Circle(i, true)]
      ensures emitted.Some? <==> |old(sequence)| < NumCircles == |sequence|
      ensures emitted.Some? ==> emitted.value == keccak(Json.IntArray(sequence))
    {
      if circles[i].active {
        return None;
      }
      circles := circles[i := Circle(i, true)];
      sequence := sequence + [i];
      DistinctInRangeBounded(sequence, |circles|);
      emitted := None;
      if |sequence| == NumCircles {
        emissions := emissions + 1;
        var dataString := Json.IntArray(sequence);
        emitted := Some(keccak(dataString));
      }
    }

    /** Once the order is complete every target is active, so no further click
        changes the order or emits another hash until the next setup. */
    lemma CompleteMeansAllActive()
      requires Valid() && |sequence| == NumCircles
      ensures |circles| == NumCircles
      ensures forall k :: 0 <= k < |circles| ==> circles[k].active
    {
      assert sequence[0] < |circles|;
      CompleteSequenceCoversAll(sequence, |circles|);
    }
  }
}
