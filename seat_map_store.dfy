/**
 * The seat-map store of the 0.4 backend: named seat layouts kept as one JSON
 * document per sanitized name, with list/get/put/delete of whole maps and
 * patch/delete of single seats. The directory of `<name>.json` files is a map
 * from the sanitized name to the parsed document.
 */
module SeatMapStore {
  import opened Wrappers
  import opened Sequences
  import opened Geometry
  import NameOrder

  /** One seat of a layout: `{"id": ..., "rect": [x1, y1, x2, y2]}`. */
  datatype Seat = Seat(id: string, rect: Rect)

  /** The `seats` entry of a document: absent, present but not a list, or a list of seats. */
  datatype SeatsField = Missing | NotAList | SeatList(seats: seq<Seat>)

  /** A seat-map document: its `seats` entry and every other top-level entry, kept verbatim. */
  datatype Document = Document(seats: SeatsField, other: map<string, string>)

  /** The store's failures, each raised by the source as an HTTP exception. */
  datatype StoreError =
    | InvalidName   // "Invalid map name"
    | MapNotFound   // "Seat map ... not found" / "Map not found"
    | BadFormat     // "seat map json must contain 'seats' array"
    | BadBody       // "Body must contain 'seats' array"
    | SeatNotFound  // "Seat id not found"

  function StatusCode(e: StoreError): (code: int)
    ensures code == 400 || code == 404
    ensures code == 404 <==> e.MapNotFound? || e.SeatNotFound?
  {
    match e
    case InvalidName => 400
    case MapNotFound => 404
    case BadFormat => 400
    case BadBody => 400
    case SeatNotFound => 404
  }

  /** A character survives sanitization when it is alphanumeric, `-` or `_`. */
  predicate Allowed(c: char, isAlnum: char -> bool)
  {
    isAlnum(c) || c == '-' || c == '_'
  }

  /**
   * The sanitized map name: the allowed characters of `name`, in order.
   * `isAlnum` is Python's `str.isalnum` on one character.
   */
  function Sanitize(name: string, isAlnum: char -> bool): (safe: string)
    ensures forall c :: c in safe ==> Allowed(c, isAlnum)
    ensures forall c :: c in name && Allowed(c, isAlnum) ==> c in safe
    ensures |safe| <= |name|
    ensures safe == name <==> forall c :: c in name ==> Allowed(c, isAlnum)
  {
    var safe := Filter(name, c => Allowed(c, isAlnum));
    if forall c :: c in name ==> Allowed(c, isAlnum) then
      FilterKeepsAll(name, c => Allowed(c, isAlnum));
      safe
    else
      safe
  }

  /** Sanitizing an already sanitized name changes nothing. */
  lemma SanitizeIdempotent(name: string, isAlnum: char -> bool)
    ensures Sanitize(Sanitize(name, isAlnum), isAlnum) == Sanitize(name, isAlnum)
  {
    FilterIdempotent(name, c => Allowed(c, isAlnum));
  }

  /** Sanitization works character by character: it distributes over concatenation. */
  lemma SanitizeConcat(a: string, b: string, isAlnum: char -> bool)
    ensures Sanitize(a + b, isAlnum) == Sanitize(a, isAlnum) + Sanitize(b, isAlnum)
  {
    FilterAppend(a, b, c => Allowed(c, isAlnum));
  }

  /**
   * `_seatmap_path`: the storage key of a map name, refused when nothing of
   * the name survives sanitization.
   */
  function SeatMapKey(name: string, isAlnum: char -> bool): (r: Result<string, StoreError>)
    ensures r.Failure? <==> Sanitize(name, isAlnum) == []
    ensures r.Failure? ==> r.error == InvalidName
    ensures r.Success? ==> r.value == Sanitize(name, isAlnum) && |r.value| > 0
    ensures r.Success? ==> forall c :: c in r.value ==> Allowed(c, isAlnum)
  {
    var safe := Sanitize(name, isAlnum);
    if safe == [] then Failure(InvalidName) else Success(safe)
  }

  /**
   * What sanitizing is for: when `isalnum` refuses the path separators and
   * the dot, as Python's does, an accepted key holds none of them, so
   * `seatmaps/<key>.json` names a file directly inside the directory.
   */
  lemma KeyStaysInDirectory(name: string, isAlnum: char -> bool)
    requires !isAlnum('/') && !isAlnum('\\') && !isAlnum('.')
    ensures SeatMapKey(name, isAlnum).Success? ==>
              var key := SeatMapKey(name, isAlnum).value;
              '/' !in key && '\\' !in key && '.' !in key && key != []
  {
  }

  /**
   * `load_seat_map` (and `get_seatmap`): the stored document of a name, or
   * why it cannot be read.
   */
  function LoadSeatMap(maps: map<string, Document>, isAlnum: char -> bool, name: string): (r: Result<Document, StoreError>)
    ensures Sanitize(name, isAlnum) == [] ==> r == Failure(InvalidName)
    ensures Sanitize(name, isAlnum) != [] && Sanitize(name, isAlnum) !in maps ==> r == Failure(MapNotFound)
    ensures r.Success? <==> Sanitize(name, isAlnum) in maps && maps[Sanitize(name, isAlnum)].seats.SeatList?
                            && Sanitize(name, isAlnum) != []
    ensures r.Success? ==> r.value == maps[Sanitize(name, isAlnum)]
    ensures r.Failure? && Sanitize(name, isAlnum) in maps && Sanitize(name, isAlnum) != [] ==> r == Failure(BadFormat)
  {
    match SeatMapKey(name, isAlnum)
    case Failure(e) => Failure(e)
    case Success(key) =>
      if key !in maps then Failure(MapNotFound)
      else if !maps[key].seats.SeatList? then Failure(BadFormat)
      else Success(maps[key])
  }

  /** Index of the first seat carrying `seatId`. */
  function FirstSeatWithId(seats: seq<Seat>, seatId: string): Option<nat>
  {
    FirstWhere(seats, (s: Seat) => s.id == seatId)
  }

  /** The list comprehension of `delete_seat`: every seat whose id differs from `seatId`. */
  function WithoutSeat(seats: seq<Seat>, seatId: string): (kept: seq<Seat>)
    ensures forall s :: s in kept ==> s in seats && s.id != seatId
    ensures forall s :: s in seats && s.id != seatId ==> s in kept
    ensures |kept| == |seats| <==> forall s :: s in seats ==> s.id != seatId
  {
    Filter(seats, (s: Seat) => s.id != seatId)
  }

  /** Deleting an id that is already gone removes nothing more. */
  lemma WithoutSeatIdempotent(seats: seq<Seat>, seatId: string)
    ensures WithoutSeat(WithoutSeat(seats, seatId), seatId) == WithoutSeat(seats, seatId)
  {
    FilterIdempotent(seats, (s: Seat) => s.id != seatId);
  }

  /**
   * The loop of `patch_seat`: give the first seat with `seatId` the new
   * rectangle and stop; every other seat, later duplicates included, stays.
   */
  method PatchFirst(seats: seq<Seat>, seatId: string, rect: Rect) returns (patched: seq<Seat>, found: bool)
    ensures found <==> exists j :: 0 <= j < |seats| && seats[j].id == seatId
    ensures |patched| == |seats|
    ensures !found ==> patched == seats
    ensures found ==> FirstSeatWithId(seats, seatId).Some?
    ensures found ==>
      var k := FirstSeatWithId(seats, seatId).value;
      && patched[k] == Seat(seatId, rect)
      && forall j :: 0 <= j < |seats| && j != k ==> patched[j] == seats[j]
  {
    patched, found := seats, false;
    var i := 0;
    while i < |seats|
      invariant 0 <= i <= |seats|
      invariant forall j :: 0 <= j < i ==> seats[j].id != seatId
      invariant !found && patched == seats
    {
      if seats[i].id == seatId {
        patched := seats[i := seats[i].(rect := rect)];
        found := true;
        assert FirstSeatWithId(seats, seatId) == Some(i);
        break;
      }
      i := i + 1;
    }
  }

  /** The seat-map directory. */
  class Store {
    /** Python's `str.isalnum` on one character, which is Unicode-aware. */
    const isAlnum: char -> bool
    /** The documents on disk, by sanitized name. */
    var maps: map<string, Document>

    constructor(isAlnum: char -> bool, existing: map<string, Document>)
      ensures this.isAlnum == isAlnum && maps == existing
    {
      this.isAlnum := isAlnum;
      maps := existing;
    }

    /** `list_seatmaps`: every stored name, once each, in ascending order. */
    method ListSeatMaps() returns (names: seq<string>)
      ensures forall n :: n in names <==> n in maps
      ensures forall i, j :: 0 <= i < j < |names| ==> NameOrder.Less(names[i], names[j])
    {
      var listed: seq<string> := [];
      var pending := maps.Keys;
      while pending != {}
        invariant pending <= maps.Keys
        invariant forall n :: multiset(listed)[n] == if n in maps && n !in pending then 1 else 0
        decreases pending
      {
        var fn :| fn in pending;
        listed := listed + [fn];
        pending := pending - {fn};
      }
      names := NameOrder.SortNames(listed);
      assert forall n :: multiset(names)[n] == multiset(listed)[n];
      NoRepeats(names);
      NameOrder.SortedDistinctIsStrict(names);
    }

    /**
     * `put_seatmap`: refuse a body without a `seats` list, then store the
     * body as it is under the sanitized name, replacing any earlier map.
     */
    method Put(name: string, body: Document) returns (r: Result<string, StoreError>)
      modifies this`maps
      ensures !body.seats.SeatList? ==> r == Failure(BadBody) && maps == old(maps)
      ensures body.seats.SeatList? && Sanitize(name, isAlnum) == [] ==>
                r == Failure(InvalidName) && maps == old(maps)
      ensures body.seats.SeatList? && Sanitize(name, isAlnum) != [] ==>
                r == Success(name) && maps == old(maps)[Sanitize(name, isAlnum) := body]
      ensures r.Success? ==> LoadSeatMap(maps, isAlnum, name) == Success(body)
      ensures forall n :: Sanitize(n, isAlnum) != Sanitize(name, isAlnum) ==>
                LoadSeatMap(maps, isAlnum, n) == LoadSeatMap(old(maps), isAlnum, n)
    {
      if !body.seats.SeatList? {
        return Failure(BadBody);
      }
      var key := SeatMapKey(name, isAlnum);
      if key.Failure? {
        return Failure(key.error);
      }
      maps := maps[key.value := body];
      r := Success(name);
    }

    /** `delete_seatmap`: remove the document of a stored name, and nothing else. */
    method DeleteMap(name: string) returns (r: Result<(), StoreError>)
      modifies this`maps
      ensures Sanitize(name, isAlnum) == [] ==> r == Failure(InvalidName) && maps == old(maps)
      ensures Sanitize(name, isAlnum) != [] && Sanitize(name, isAlnum) !in old(maps) ==>
                r == Failure(MapNotFound) && maps == old(maps)
      ensures Sanitize(name, isAlnum) != [] && Sanitize(name, isAlnum) in old(maps) ==>
                r == Success(()) && maps == old(maps) - {Sanitize(name, isAlnum)}
    {
      var key := SeatMapKey(name, isAlnum);
      if key.Failure? {
        return Failure(key.error);
      }
      if key.value !in maps {
        return Failure(MapNotFound);
      }
      maps := maps - {key.value};
      r := Success(());
    }

    /**
     * `patch_seat`: load the map, give the first seat with `seatId` the new
     * rectangle and write the whole document back.
     */
    method PatchSeat(name: string, seatId: string, rect: Rect) returns (r: Result<(), StoreError>)
      modifies this`maps
      ensures LoadSeatMap(old(maps), isAlnum, name).Failure? ==>
                r == Failure(LoadSeatMap(old(maps), isAlnum, name).error) && maps == old(maps)
      ensures LoadSeatMap(old(maps), isAlnum, name).Success? ==>
        var doc := LoadSeatMap(old(maps), isAlnum, name).value;
        var seats := doc.seats.seats;
        match FirstSeatWithId(seats, seatId)
        case None => r == Failure(SeatNotFound) && maps == old(maps)
        case Some(k) =>
          && r == Success(())
          && maps == old(maps)[Sanitize(name, isAlnum) :=
                                 doc.(seats := SeatList(seats[k := Seat(seatId, rect)]))]
    {
      var m := LoadSeatMap(maps, isAlnum, name);
      if m.Failure? {
        return Failure(m.error);
      }
      var patched, found := PatchFirst(m.value.seats.seats, seatId, rect);
      if !found {
        return Failure(SeatNotFound);
      }
      ghost var k := FirstSeatWithId(m.value.seats.seats, seatId).value;
      assert patched == m.value.seats.seats[k := Seat(seatId, rect)];
      var key := SeatMapKey(name, isAlnum);
      maps := maps[key.value := m.value.(seats := SeatList(patched))];
      r := Success(());
    }

    /**
     * `delete_seat`: load the map and drop every seat with `seatId`; when
     * none had it, fail and write nothing.
     */
    method DeleteSeat(name: string, seatId: string) returns (r: Result<(), StoreError>)
      modifies this`maps
      ensures LoadSeatMap(old(maps), isAlnum, name).Failure? ==>
                r == Failure(LoadSeatMap(old(maps), isAlnum, name).error) && maps == old(maps)
      ensures LoadSeatMap(old(maps), isAlnum, name).Success? ==>
        var doc := LoadSeatMap(old(maps), isAlnum, name).value;
        var seats := doc.seats.seats;
        if forall s :: s in seats ==> s.id != seatId then
          r == Failure(SeatNotFound) && maps == old(maps)
        else
          && r == Success(())
          && maps == old(maps)[Sanitize(name, isAlnum) := doc.(seats := SeatList(WithoutSeat(seats, seatId)))]
    {
      var m := LoadSeatMap(maps, isAlnum, name);
      if m.Failure? {
        return Failure(m.error);
      }
      var seats2 := WithoutSeat(m.value.seats.seats, seatId);
      if |seats2| == |m.value.seats.seats| {
        return Failure(SeatNotFound);
      }
      var key := SeatMapKey(name, isAlnum);
      maps := maps[key.value := m.value.(seats := SeatList(seats2))];
      r := Success(());
    }
  }

  /** Deleting a seat id twice: the second call finds nothing to delete. */
  method DeleteSeatTwice(store: Store, name: string, seatId: string)
    returns (first: Result<(), StoreError>, second: Result<(), StoreError>)
    modifies store
    ensures first.Success? ==> second == Failure(SeatNotFound)
  {
    first := store.DeleteSeat(name, seatId);
    second := store.DeleteSeat(name, seatId);
  }

  /** Deleting a map twice: the second call finds no map. */
  method DeleteMapTwice(store: Store, name: string)
    returns (first: Result<(), StoreError>, second: Result<(), StoreError>)
    modifies store
    ensures first.Success? ==> second == Failure(MapNotFound)
  {
    first := store.DeleteMap(name);
    second := store.DeleteMap(name);
  }

  /** A map that was put is listed, under its sanitized name, until it is deleted. */
  method PutThenList(store: Store, name: string, body: Document)
    returns (put: Result<string, StoreError>, names: seq<string>)
    modifies store
    ensures put.Success? ==> Sanitize(name, store.isAlnum) in names
    ensures put.Failure? ==> forall n :: n in names <==> n in old(store.maps)
  {
    put := store.Put(name, body);
    names := store.ListSeatMaps();
  }

  /**
   * A character outside the allowed set is deleted where it stands, so
   * "a/b" and "ab" name the same map.
   */
  lemma SanitizeDropsSeparator(a: string, c: char, b: string, isAlnum: char -> bool)
    requires !Allowed(c, isAlnum)
    ensures Sanitize(a + [c] + b, isAlnum) == Sanitize(a + b, isAlnum)
  {
    SanitizeConcat(a + [c], b, isAlnum);
    SanitizeConcat(a, [c], isAlnum);
    SanitizeConcat(a, b, isAlnum);
    assert Sanitize([c], isAlnum) == [];
  }
}
