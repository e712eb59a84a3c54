/**
 * The 0.3 backend (`v1/backend.py`): one fixed layout file, `seat_map.json`,
 * read without name sanitization, and the same mapping loop as 0.4 with the
 * status list built by an explicit append loop.
 */
module BackendV1 {
  import opened Wrappers
  import opened SeatMapStore
  import opened MappingEngine

  /** The only layout file the 0.3 backend reads. */
  const SeatMapFile: string := "seat_map.json"

  /** The exceptions `load_seat_map` raises: `FileNotFoundError` and `ValueError`. */
  datatype LoadError = FileNotFound(path: string) | ValueError

  /** `load_seat_map(path)`: the parsed file, or why it cannot be used as a layout. */
  function LoadSeatMapFile(files: map<string, Document>, path: string): (r: Result<Document, LoadError>)
    ensures path !in files <==> r == Failure(FileNotFound(path))
    ensures path in files && !files[path].seats.SeatList? <==> r == Failure(ValueError)
    ensures r.Success? <==> path in files && files[path].seats.SeatList?
    ensures r.Success? ==> r.value == files[path]
  {
    if path !in files then Failure(FileNotFound(path))
    else if !files[path].seats.SeatList? then Failure(ValueError)
    else Success(files[path])
  }

  /** Step 4 of `check_map`: one free status with count 0 per seat, in layout order. */
  method InitStatus(layout: seq<Seat>) returns (status: seq<SeatStatus>)
    ensures |status| == |layout|
    ensures forall i :: 0 <= i < |layout| ==> status[i] == SeatStatus(layout[i].id, false, 0)
  {
    status := [];
    for i := 0 to |layout|
      invariant |status| == i
      invariant forall j :: 0 <= j < i ==> status[j] == SeatStatus(layout[j].id, false, 0)
    {
      status := status + [SeatStatus(layout[i].id, false, 0)];
    }
  }

  /**
   * `check_map` of the 0.3 backend, after detection and decoding: read
   * `seat_map.json` and map the person boxes onto its seats.
   */
  method CheckMapV1(files: map<string, Document>, detections: seq<Detection>, w: int, h: int)
    returns (r: Result<MappingResult, LoadError>)
    requires w > 0 && h > 0
    ensures LoadSeatMapFile(files, SeatMapFile).Failure? ==>
              r == Failure(LoadSeatMapFile(files, SeatMapFile).error)
    ensures LoadSeatMapFile(files, SeatMapFile).Success? ==> r.Success?
    ensures r.Success? ==>
      var layout := files[SeatMapFile].seats.seats;
      var boxes := PersonBoxes(detections);
      var res := r.value;
      && res.seats == Tally(layout, boxes, w, h)
      && res.unmapped == Hits(layout, boxes, w, h, None)
      && res.persons == |boxes|
      && res.seatMap == None
      && (res.occupied <==> exists i :: 0 <= i < |res.seats| && res.seats[i].occupied)
      && SumCounts(res.seats) + res.unmapped == res.persons
      && (layout == [] ==> !res.occupied && res.unmapped == res.persons)
  {
    var m := LoadSeatMapFile(files, SeatMapFile);
    if m.Failure? {
      return Failure(m.error);
    }
    var layout := m.value.seats.seats;
    var boxes := PersonBoxes(detections);
    var initial := InitStatus(layout);
    assert initial == InitialStatus(layout);
    var status, unmapped := CreditPersons(layout, boxes, w, h, initial);
    Conservation(layout, boxes, w, h);
    if layout == [] {
      NoSeatsAllUnmapped(boxes, w, h);
    }
    r := Success(MappingResult(AnyOccupied(status), |boxes|, status, unmapped, None));
  }
}
