/**
 * The seat mapping engine of `check_map`: keep the person detections, take
 * the normalized centre of each, credit it to the first seat of the layout
 * whose rectangle contains it, and aggregate the per-seat counts.
 */
module MappingEngine {
  import opened Wrappers
  import opened Sequences
  import opened Geometry
  import opened SeatMapStore

  /** The detector's class id for "person". */
  const PersonClass: int := 0

  /** One detector output: class id, confidence and pixel box. */
  datatype Detection = Detection(cls: int, conf: real, box: PixelBox)

  /** `{"id": ..., "occupied": ..., "count": ...}`, one per seat of the layout. */
  datatype SeatStatus = SeatStatus(id: string, occupied: bool, count: nat)

  /**
   * The report: overall occupancy, number of persons, per-seat status,
   * persons no seat contains, and (0.4 only) the requested map name.
   */
  datatype MappingResult = MappingResult(
    occupied: bool, persons: nat, seats: seq<SeatStatus>, unmapped: nat, seatMap: Option<string>)

  /**
   * `persons_xyxy`: the boxes of the person detections, in detector order,
   * the i-th box being that of the i-th person detection.
   */
  function PersonBoxes(ds: seq<Detection>): (boxes: seq<PixelBox>)
    ensures |boxes| == |Filter(ds, (d: Detection) => d.cls == PersonClass)| <= |ds|
    ensures forall i :: 0 <= i < |boxes| ==> boxes[i] == Filter(ds, (d: Detection) => d.cls == PersonClass)[i].box
    ensures forall b :: b in boxes <==> exists d :: d in ds && d.cls == PersonClass && d.box == b
  {
    var persons := Filter(ds, (d: Detection) => d.cls == PersonClass);
    var boxes := seq(|persons|, i requires 0 <= i < |persons| => persons[i].box);
    assert forall i :: 0 <= i < |persons| ==> persons[i] in persons && boxes[i] == persons[i].box;
    assert forall d :: d in persons ==> d.box in boxes by {
      forall d | d in persons
        ensures d.box in boxes
      {
        var i :| 0 <= i < |persons| && persons[i] == d;
        assert boxes[i] == d.box;
      }
    }
    boxes
  }

  /** The seat a box is credited to: the first whose rectangle holds its centre. */
  function Target(layout: seq<Seat>, b: PixelBox, w: int, h: int): Option<nat>
    requires w > 0 && h > 0
  {
    FirstWhere(layout, (s: Seat) => InRect(CentreNorm(b, w, h), s.rect))
  }

  /** How many of `boxes` are credited to `t` (a seat index, or `None` for unmapped). */
  function Hits(layout: seq<Seat>, boxes: seq<PixelBox>, w: int, h: int, t: Option<nat>): nat
    requires w > 0 && h > 0
  {
    if |boxes| == 0 then 0
    else Hits(layout, boxes[..|boxes| - 1], w, h, t)
         + (if Target(layout, boxes[|boxes| - 1], w, h) == t then 1 else 0)
  }

  /**
   * The status list the loop starts from: one entry per seat, in layout
   * order, carrying that seat's id.
   */
  function InitialStatus(layout: seq<Seat>): (st: seq<SeatStatus>)
    ensures |st| == |layout| && forall i :: 0 <= i < |layout| ==> st[i].id == layout[i].id
  {
    seq(|layout|, i requires 0 <= i < |layout| => SeatStatus(layout[i].id, false, 0))
  }

  /** The per-seat status the report should carry for `boxes`. */
  function Tally(layout: seq<Seat>, boxes: seq<PixelBox>, w: int, h: int): seq<SeatStatus>
    requires w > 0 && h > 0
  {
    seq(|layout|, i requires 0 <= i < |layout| =>
      SeatStatus(layout[i].id, Hits(layout, boxes, w, h, Some(i)) > 0, Hits(layout, boxes, w, h, Some(i))))
  }

  /** The sum of the per-seat counts. */
  function SumCounts(st: seq<SeatStatus>): nat
  {
    if |st| == 0 then 0 else SumCounts(st[..|st| - 1]) + st[|st| - 1].count
  }

  /** `any(s["occupied"] for s in seat_status)`: no list of statuses is occupied when empty. */
  predicate AnyOccupied(st: seq<SeatStatus>)
    ensures AnyOccupied(st) <==> exists s :: s in st && s.occupied
    ensures |st| == 0 ==> !AnyOccupied(st)
  {
    exists i :: 0 <= i < |st| && st[i].occupied
  }

  /** The counts sum to a positive number exactly when some count is positive. */
  lemma {:induction false} SumCountsPositive(st: seq<SeatStatus>)
    ensures SumCounts(st) > 0 <==> exists i :: 0 <= i < |st| && st[i].count > 0
  {
    if |st| > 0 {
      var init := st[..|st| - 1];
      SumCountsPositive(init);
      if exists i :: 0 <= i < |init| && init[i].count > 0 {
        var i :| 0 <= i < |init| && init[i].count > 0;
        assert st[i].count > 0;
      }
      if exists i :: 0 <= i < |st| && st[i].count > 0 {
        var i :| 0 <= i < |st| && st[i].count > 0;
        if i < |init| {
          assert init[i].count > 0;
        }
      }
    }
  }

  /** Before the first person is looked at, no seat is occupied and nothing is counted. */
  lemma {:induction false} InitialStatusIsIdle(layout: seq<Seat>)
    ensures !AnyOccupied(InitialStatus(layout))
    ensures SumCounts(InitialStatus(layout)) == 0
  {
    if |layout| > 0 {
      var st := InitialStatus(layout);
      InitialStatusIsIdle(layout[..|layout| - 1]);
      assert st[..|st| - 1] == InitialStatus(layout[..|layout| - 1]);
    }
  }

  /** One more box adds one to exactly the count of its own target. */
  lemma HitsSnoc(layout: seq<Seat>, boxes: seq<PixelBox>, b: PixelBox, w: int, h: int)
    requires w > 0 && h > 0
    ensures forall t :: Hits(layout, boxes + [b], w, h, t) ==
                        Hits(layout, boxes, w, h, t) + (if Target(layout, b, w, h) == t then 1 else 0)
  {
    assert (boxes + [b])[..|boxes|] == boxes;
  }

  /** Crediting one more box changes only the status of the seat it is credited to. */
  lemma TallyStep(layout: seq<Seat>, boxes: seq<PixelBox>, b: PixelBox, w: int, h: int)
    requires w > 0 && h > 0
    ensures Target(layout, b, w, h).None? ==>
              Tally(layout, boxes + [b], w, h) == Tally(layout, boxes, w, h)
    ensures Target(layout, b, w, h).Some? ==>
              var i := Target(layout, b, w, h).value;
              var before := Tally(layout, boxes, w, h);
              Tally(layout, boxes + [b], w, h) == before[i := before[i].(occupied := true, count := before[i].count + 1)]
  {
    HitsSnoc(layout, boxes, b, w, h);
  }

  /**
   * The inner loop of `check_map` for one person box: scan the seats in
   * layout order and credit the first whose rectangle holds the box centre,
   * then stop. `mapped` tells whether any seat held it.
   */
  method CreditOne(layout: seq<Seat>, b: PixelBox, w: int, h: int, status: seq<SeatStatus>)
    returns (status': seq<SeatStatus>, mapped: bool)
    requires w > 0 && h > 0 && |status| == |layout|
    ensures mapped <==> Target(layout, b, w, h).Some?
    ensures !mapped ==> status' == status
    ensures mapped ==>
              var i := Target(layout, b, w, h).value;
              status' == status[i := status[i].(occupied := true, count := status[i].count + 1)]
  {
    status', mapped := status, false;
    var c := CentreNorm(b, w, h);
    var i := 0;
    while i < |layout|
      invariant 0 <= i <= |layout|
      invariant forall j :: 0 <= j < i ==> !InRect(c, layout[j].rect)
      invariant !mapped && status' == status
    {
      if InRect(c, layout[i].rect) {
        status' := status[i := status[i].(occupied := true, count := status[i].count + 1)];
        mapped := true;
        FirstWhereIs(layout, (s: Seat) => InRect(CentreNorm(b, w, h), s.rect), i);
        return;
      }
      i := i + 1;
    }
  }

  /**
   * The outer loop of `check_map`: credit each person box in turn; a box no
   * seat holds is counted as unmapped.
   */
  method CreditPersons(layout: seq<Seat>, boxes: seq<PixelBox>, w: int, h: int, initial: seq<SeatStatus>)
    returns (status: seq<SeatStatus>, unmapped: nat)
    requires w > 0 && h > 0
    requires initial == InitialStatus(layout)
    ensures status == Tally(layout, boxes, w, h)
    ensures unmapped == Hits(layout, boxes, w, h, None)
  {
    status, unmapped := initial, 0;
    assert boxes[..0] == [];
    NoPersonsAllFree(layout, w, h);
    var p := 0;
    while p < |boxes|
      invariant 0 <= p <= |boxes|
      invariant status == Tally(layout, boxes[..p], w, h)
      invariant unmapped == Hits(layout, boxes[..p], w, h, None)
    {
      var mapped;
      status, mapped := CreditOne(layout, boxes[p], w, h, status);
      if !mapped {
        unmapped := unmapped + 1;
      }
      assert boxes[..p + 1] == boxes[..p] + [boxes[p]];
      TallyStep(layout, boxes[..p], boxes[p], w, h);
      HitsSnoc(layout, boxes[..p], boxes[p], w, h);
      p := p + 1;
    }
    assert boxes[..p] == boxes;
  }

  /**
   * `check_map` of the 0.4 backend, after detection and decoding: load the
   * named layout from the store, then map the person boxes onto it.
   */
  method CheckMap(store: Store, mapName: string, detections: seq<Detection>, w: int, h: int)
    returns (r: Result<MappingResult, StoreError>)
    requires w > 0 && h > 0
    ensures LoadSeatMap(store.maps, store.isAlnum, mapName).Failure? ==>
              r == Failure(LoadSeatMap(store.maps, store.isAlnum, mapName).error)
    ensures LoadSeatMap(store.maps, store.isAlnum, mapName).Success? ==> r.Success?
    ensures r.Success? ==>
      var layout := LoadSeatMap(store.maps, store.isAlnum, mapName).value.seats.seats;
      var boxes := PersonBoxes(detections);
      var res := r.value;
      && res.seats == Tally(layout, boxes, w, h)
      && res.unmapped == Hits(layout, boxes, w, h, None)
      && res.persons == |boxes|
      && res.seatMap == Some(mapName)
      && |res.seats| == |layout|
      && (forall i :: 0 <= i < |layout| ==> res.seats[i].id == layout[i].id)
      && (forall i :: 0 <= i < |layout| ==> (res.seats[i].occupied <==> res.seats[i].count > 0))
      && (res.occupied <==> exists i :: 0 <= i < |res.seats| && res.seats[i].occupied)
      && SumCounts(res.seats) + res.unmapped == res.persons
  {
    var m := LoadSeatMap(store.maps, store.isAlnum, mapName);
    if m.Failure? {
      return Failure(m.error);
    }
    var layout := m.value.seats.seats;
    var boxes := PersonBoxes(detections);
    var status, unmapped := CreditPersons(layout, boxes, w, h, InitialStatus(layout));
    Conservation(layout, boxes, w, h);
    r := Success(MappingResult(AnyOccupied(status), |boxes|, status, unmapped, Some(mapName)));
  }

  /** The sum of the counts of seats `0 .. k-1`. */
  function SumHits(layout: seq<Seat>, boxes: seq<PixelBox>, w: int, h: int, k: nat): nat
    requires w > 0 && h > 0
  {
    if k == 0 then 0 else SumHits(layout, boxes, w, h, k - 1) + Hits(layout, boxes, w, h, Some(k - 1))
  }

  lemma {:induction false} SumHitsSnoc(layout: seq<Seat>, boxes: seq<PixelBox>, b: PixelBox, w: int, h: int, k: nat)
    requires w > 0 && h > 0
    ensures SumHits(layout, boxes + [b], w, h, k) ==
            SumHits(layout, boxes, w, h, k) +
            (if Target(layout, b, w, h).Some? && Target(layout, b, w, h).value < k then 1 else 0)
  {
    HitsSnoc(layout, boxes, b, w, h);
    if k > 0 {
      SumHitsSnoc(layout, boxes, b, w, h, k - 1);
    }
  }

  lemma {:induction false} SumHitsOfNothing(layout: seq<Seat>, w: int, h: int, k: nat)
    requires w > 0 && h > 0
    ensures SumHits(layout, [], w, h, k) == 0
  {
    if k > 0 {
      SumHitsOfNothing(layout, w, h, k - 1);
    }
  }

  /** Every box is credited to exactly one seat or counted as unmapped. */
  lemma {:induction false} HitsConservation(layout: seq<Seat>, boxes: seq<PixelBox>, w: int, h: int)
    requires w > 0 && h > 0
    ensures SumHits(layout, boxes, w, h, |layout|) + Hits(layout, boxes, w, h, None) == |boxes|
  {
    if |boxes| > 0 {
      var init, last := boxes[..|boxes| - 1], boxes[|boxes| - 1];
      assert boxes == init + [last];
      HitsConservation(layout, init, w, h);
      var t := Target(layout, last, w, h);
      assert t.Some? ==> t.value < |layout|;
      SumHitsSnoc(layout, init, last, w, h, |layout|);
      HitsSnoc(layout, init, last, w, h);
      assert Hits(layout, boxes, w, h, None) == Hits(layout, init, w, h, None) + (if t.None? then 1 else 0);
    } else {
      SumHitsOfNothing(layout, w, h, |layout|);
    }
  }

  lemma {:induction false} SumCountsOfTally(layout: seq<Seat>, boxes: seq<PixelBox>, w: int, h: int, k: nat)
    requires w > 0 && h > 0 && k <= |layout|
    ensures SumCounts(Tally(layout, boxes, w, h)[..k]) == SumHits(layout, boxes, w, h, k)
  {
    if k > 0 {
      var st := Tally(layout, boxes, w, h);
      assert st[..k][..k - 1] == st[..k - 1];
      SumCountsOfTally(layout, boxes, w, h, k - 1);
    }
  }

  /**
   * The overall `occupied` flag is true exactly when at least one person was
   * credited to a seat, that is, when not every person is unmapped.
   */
  lemma OccupiedIffSomeoneSeated(layout: seq<Seat>, boxes: seq<PixelBox>, w: int, h: int)
    requires w > 0 && h > 0
    ensures AnyOccupied(Tally(layout, boxes, w, h)) <==> Hits(layout, boxes, w, h, None) < |boxes|
  {
    var st := Tally(layout, boxes, w, h);
    Conservation(layout, boxes, w, h);
    SumCountsPositive(st);
    assert forall i :: 0 <= i < |st| ==> (st[i].occupied <==> st[i].count > 0);
  }

  /**
   * Conservation: the per-seat counts and the unmapped persons add up to the
   * number of persons.
   */
  lemma Conservation(layout: seq<Seat>, boxes: seq<PixelBox>, w: int, h: int)
    requires w > 0 && h > 0
    ensures SumCounts(Tally(layout, boxes, w, h)) + Hits(layout, boxes, w, h, None) == |boxes|
  {
    var st := Tally(layout, boxes, w, h);
    assert st[..|layout|] == st;
    SumCountsOfTally(layout, boxes, w, h, |layout|);
    HitsConservation(layout, boxes, w, h);
  }

  /** Counting by targets is counting the survivors of a filter. */
  lemma {:induction false} HitsIsFilterCount(layout: seq<Seat>, boxes: seq<PixelBox>, w: int, h: int, t: Option<nat>)
    requires w > 0 && h > 0
    ensures Hits(layout, boxes, w, h, t) == |Filter(boxes, (b: PixelBox) => Target(layout, b, w, h) == t)|
  {
    if |boxes| > 0 {
      var init, last := boxes[..|boxes| - 1], boxes[|boxes| - 1];
      assert boxes == init + [last];
      HitsIsFilterCount(layout, init, w, h, t);
      FilterAppend(init, [last], (b: PixelBox) => Target(layout, b, w, h) == t);
    }
  }

  /**
   * The report does not depend on the order in which the detector lists the
   * persons: any reordering gives the same seat statuses and unmapped count.
   */
  lemma DetectionOrderIrrelevant(layout: seq<Seat>, xs: seq<PixelBox>, ys: seq<PixelBox>, w: int, h: int)
    requires w > 0 && h > 0
    requires multiset(xs) == multiset(ys)
    ensures Tally(layout, xs, w, h) == Tally(layout, ys, w, h)
    ensures Hits(layout, xs, w, h, None) == Hits(layout, ys, w, h, None)
  {
    forall t: Option<nat>
      ensures Hits(layout, xs, w, h, t) == Hits(layout, ys, w, h, t)
    {
      HitsIsFilterCount(layout, xs, w, h, t);
      HitsIsFilterCount(layout, ys, w, h, t);
      FilterCountPermutation(xs, ys, (b: PixelBox) => Target(layout, b, w, h) == t);
    }
  }

  /**
   * First match: a seat whose rectangle only ever holds centres that an
   * earlier seat also holds is never credited, however much it overlaps.
   */
  lemma {:induction false} ShadowedSeatNeverCredited(layout: seq<Seat>, boxes: seq<PixelBox>, w: int, h: int, j: nat)
    requires w > 0 && h > 0 && j < |layout|
    requires forall b :: b in boxes && InRect(CentreNorm(b, w, h), layout[j].rect) ==>
                exists i :: 0 <= i < j && InRect(CentreNorm(b, w, h), layout[i].rect)
    ensures Hits(layout, boxes, w, h, Some(j)) == 0
    ensures Tally(layout, boxes, w, h)[j] == SeatStatus(layout[j].id, false, 0)
  {
    if |boxes| > 0 {
      var init, last := boxes[..|boxes| - 1], boxes[|boxes| - 1];
      assert forall b :: b in init ==> b in boxes;
      ShadowedSeatNeverCredited(layout, init, w, h, j);
      assert last in boxes;
    }
  }

  /**
   * A person whose centre lies in two overlapping seats is credited to the
   * one listed first (when no seat before it holds the centre), and the
   * later one stays free.
   */
  lemma OverlapResolvesToFirst(layout: seq<Seat>, b: PixelBox, w: int, h: int, i: nat, j: nat)
    requires w > 0 && h > 0 && i < j < |layout|
    requires InRect(CentreNorm(b, w, h), layout[i].rect) && InRect(CentreNorm(b, w, h), layout[j].rect)
    requires forall k :: 0 <= k < i ==> !InRect(CentreNorm(b, w, h), layout[k].rect)
    ensures Tally(layout, [b], w, h)[i] == SeatStatus(layout[i].id, true, 1)
    ensures Tally(layout, [b], w, h)[j] == SeatStatus(layout[j].id, false, 0)
    ensures Hits(layout, [b], w, h, None) == 0
  {
    assert Target(layout, b, w, h) == Some(i);
    assert [b][..0] == [];
    assert Hits(layout, [b], w, h, Some(i)) == 1;
    assert Hits(layout, [b], w, h, Some(j)) == 0;
  }

  /** With no seats every person is unmapped and nothing is occupied. */
  lemma {:induction false} NoSeatsAllUnmapped(boxes: seq<PixelBox>, w: int, h: int)
    requires w > 0 && h > 0
    ensures Tally([], boxes, w, h) == []
    ensures Hits([], boxes, w, h, None) == |boxes|
  {
    if |boxes| > 0 {
      NoSeatsAllUnmapped(boxes[..|boxes| - 1], w, h);
    }
  }

  /** With no persons every seat is free and nobody is unmapped. */
  lemma NoPersonsAllFree(layout: seq<Seat>, w: int, h: int)
    requires w > 0 && h > 0
    ensures Tally(layout, [], w, h) == InitialStatus(layout)
    ensures Hits(layout, [], w, h, None) == 0
  {
  }

  /**
   * Two side-by-side seats on a 100x100 image and one person at pixels
   * 10..30 on both axes: the centre (0.2, 0.2) lands in the first seat.
   */
  lemma TwoSeatsOnePerson()
    ensures var layout := [Seat("R1C1", Rect(0.0, 0.0, 0.5, 0.5)), Seat("R1C2", Rect(0.5, 0.0, 1.0, 0.5))];
            var boxes := [PixelBox(10.0, 10.0, 30.0, 30.0)];
            && Tally(layout, boxes, 100, 100) == [SeatStatus("R1C1", true, 1), SeatStatus("R1C2", false, 0)]
            && Hits(layout, boxes, 100, 100, None) == 0
  {
    var layout := [Seat("R1C1", Rect(0.0, 0.0, 0.5, 0.5)), Seat("R1C2", Rect(0.5, 0.0, 1.0, 0.5))];
    var b := PixelBox(10.0, 10.0, 30.0, 30.0);
    assert CentreNorm(b, 100, 100) == Point(0.2, 0.2);
    assert Target(layout, b, 100, 100) == Some(0);
    assert [b][..0] == [];
  }
}
