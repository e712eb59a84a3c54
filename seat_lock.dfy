/**
 * The seat-lock service of `server_protected_seatlock.js`: short leases on
 * seats, taken, extended and released by user id, with a read view that
 * hides expired leases. `db.seats` is a sequence of records; the clock
 * (`Date.now()`, milliseconds) is a parameter of every operation.
 */
module SeatLock {
  import opened Wrappers
  import opened Sequences

  /** The TTL in seconds used when neither the request nor the environment gives one. */
  const BuiltInTtl: int := 120

  /** The shortest lease a lock or refresh grants, in seconds. */
  const MinTtl: int := 10

  /**
   * One record of `db.seats`. Absent and `null` fields are `None`; fields the
   * handlers never read or write are kept, unchanged, in `rest`.
   */
  datatype SeatRec = SeatRec(
    id: string,
    roomId: Option<string>,
    lockedBy: Option<string>,
    lockedAt: Option<int>,
    holdUntil: Option<int>,
    status: Option<string>,
    rest: map<string, string>)

  /** The fields `/seats/lock` writes through `upsertSeat`. */
  datatype LockFields = LockFields(roomId: Option<string>, lockedBy: string, lockedAt: int, holdUntil: int, status: string)

  /** The handlers' answers, each with its HTTP status. */
  datatype Reply =
    | SeatBody(seat: SeatRec)                 // 200, the seat record
    | OkBody                                  // 200, {ok: true}
    | MissingFields                           // 400, "seatId and userId required"
    | AlreadyLocked(holder: string, remaining: nat) // 409, "Seat already locked"
    | NotOwner                                // 409, "Not lock owner (or lock expired)"
    | CannotUnlock                            // 403, "Cannot unlock others lock"

  function StatusCode(r: Reply): (code: int)
    ensures code in {200, 400, 403, 409}
    ensures code == 200 <==> r.SeatBody? || r.OkBody?
  {
    match r
    case SeatBody(_) => 200
    case OkBody => 200
    case MissingFields => 400
    case AlreadyLocked(_, _) => 409
    case NotOwner => 409
    case CannotUnlock => 403
  }

  /** JavaScript truthiness of an optional string: present and not empty. */
  predicate Truthy(s: Option<string>)
  {
    s.Some? && s.value != ""
  }

  /** `String(x)`; an absent field prints as "undefined". */
  function Str(s: Option<string>): string
  {
    if s.Some? then s.value else "undefined"
  }

  /**
   * `isLocked`: a holder is recorded and the hold ends after `now`. A record
   * without holder or without end is never locked, nor one whose end has
   * passed.
   */
  predicate IsLocked(s: SeatRec, now: nat)
    ensures s.lockedBy.None? || s.holdUntil.None? ==> !IsLocked(s, now)
    ensures s.holdUntil.Some? && s.holdUntil.value <= now ==> !IsLocked(s, now)
    ensures IsLocked(s, now) ==> s.lockedBy.value != "" && s.holdUntil.value - now >= 1
  {
    Truthy(s.lockedBy) && s.holdUntil.Some? && s.holdUntil.value != 0 && s.holdUntil.value > now
  }

  /**
   * The seat is under a live lock of somebody other than `userId`: a live
   * lock whose recorded holder differs from `userId`; a live lock that is
   * not held by another is held by `userId`.
   */
  predicate HeldByOther(s: SeatRec, userId: string, now: nat)
    ensures HeldByOther(s, userId, now) ==> IsLocked(s, now) && s.lockedBy.Some? && s.lockedBy.value != userId
    ensures IsLocked(s, now) && !HeldByOther(s, userId, now) ==> s.lockedBy == Some(userId)
  {
    IsLocked(s, now) && Str(s.lockedBy) != userId
  }

  /** `remaining`: whole seconds left on the hold, never negative. */
  function Remaining(s: SeatRec, now: nat): (secs: nat)
    requires s.holdUntil.Some?
    ensures s.holdUntil.value <= now ==> secs == 0
    ensures s.holdUntil.value > now ==> secs * 1000 <= s.holdUntil.value - now < (secs + 1) * 1000
  {
    var left := s.holdUntil.value - now;
    if left <= 0 then 0 else left / 1000
  }

  /**
   * `Math.max(10, parseInt(ttlSeconds || DEFAULT_TTL, 10))`: a missing or
   * zero TTL falls back to the default, and no lease is shorter than 10 s.
   */
  function Ttl(ttlSeconds: Option<int>, defaultTtl: int): (t: int)
    ensures var asked := if ttlSeconds.Some? && ttlSeconds.value != 0 then ttlSeconds.value else defaultTtl;
            t >= MinTtl && t >= asked && (t == MinTtl || t == asked)
  {
    var asked := if ttlSeconds.Some? && ttlSeconds.value != 0 then ttlSeconds.value else defaultTtl;
    if asked < MinTtl then MinTtl else asked
  }

  /**
   * A lease only runs out: a seat locked at a later instant was locked at
   * every earlier one, and once its end has passed it stays unlocked with
   * no time remaining.
   */
  lemma LeaseExpiresForGood(s: SeatRec, t1: nat, t2: nat)
    requires t1 <= t2
    ensures IsLocked(s, t2) ==> IsLocked(s, t1)
    ensures s.holdUntil.Some? && s.holdUntil.value <= t1 ==> !IsLocked(s, t2) && Remaining(s, t2) == 0
  {
  }

  /** The seat the handlers act on: the first whose id equals `seatId`. */
  function FindSeat(seats: seq<SeatRec>, seatId: string): (k: Option<nat>)
    ensures k.Some? ==> k.value < |seats| && seats[k.value].id == seatId
    ensures k.Some? ==> forall j :: 0 <= j < k.value ==> seats[j].id != seatId
    ensures k.None? <==> forall s :: s in seats ==> s.id != seatId
  {
    FirstWhere(seats, (s: SeatRec) => s.id == seatId)
  }

  /**
   * `{ ...seat, ...fields }`: the five written fields take the values of
   * `fields`; id and every other stored field are kept.
   */
  function Merge(s: SeatRec, f: LockFields): (m: SeatRec)
    ensures m.(roomId := s.roomId, lockedBy := s.lockedBy, lockedAt := s.lockedAt,
               holdUntil := s.holdUntil, status := s.status) == s
    ensures m.roomId == f.roomId && m.lockedBy == Some(f.lockedBy) && m.lockedAt == Some(f.lockedAt)
            && m.holdUntil == Some(f.holdUntil) && m.status == Some(f.status)
  {
    s.(roomId := f.roomId, lockedBy := Some(f.lockedBy), lockedAt := Some(f.lockedAt),
       holdUntil := Some(f.holdUntil), status := Some(f.status))
  }

  /**
   * `{ id: seatId, ...fields }`: the record merging `fields` into a bare
   * record with that id would give.
   */
  function NewSeat(seatId: string, f: LockFields): (n: SeatRec)
    ensures n.id == seatId && n.rest == map[]
    ensures forall s: SeatRec :: s.id == seatId && s.rest == map[] ==> Merge(s, f) == n
  {
    SeatRec(seatId, f.roomId, Some(f.lockedBy), Some(f.lockedAt), Some(f.holdUntil), Some(f.status), map[])
  }

  /** What `GET /seats` shows of a record: an expired lease has no holder and no end. */
  function Masked(s: SeatRec, now: nat): (v: SeatRec)
    ensures IsLocked(v, now) == IsLocked(s, now)
    ensures v.id == s.id && v.roomId == s.roomId && v.status == s.status
    ensures IsLocked(s, now) ==> v == s
    ensures !IsLocked(s, now) ==> v.lockedBy.None? && v.holdUntil.None?
    ensures v.(lockedBy := s.lockedBy, holdUntil := s.holdUntil) == s
  {
    if IsLocked(s, now) then s else s.(lockedBy := None, holdUntil := None)
  }

  /** The query filters of `GET /seats`; a falsy query parameter does not filter. */
  predicate Selected(s: SeatRec, roomId: Option<string>, id: Option<string>)
  {
    (Truthy(roomId) ==> Str(s.roomId) == roomId.value) && (Truthy(id) ==> s.id == id.value)
  }

  /** The two `filter` calls of `GET /seats`: by room, then by id, keeping stored order. */
  function Selection(seats: seq<SeatRec>, roomId: Option<string>, id: Option<string>): (picked: seq<SeatRec>)
    ensures |picked| <= |seats|
    ensures forall s :: s in picked <==> s in seats && Selected(s, roomId, id)
  {
    var byRoom := if Truthy(roomId) then Filter(seats, (s: SeatRec) => Str(s.roomId) == roomId.value) else seats;
    if Truthy(id) then Filter(byRoom, (s: SeatRec) => s.id == id.value) else byRoom
  }

  /** The `map` call of `GET /seats`: mask every record. */
  function MaskAll(picked: seq<SeatRec>, now: nat): (list: seq<SeatRec>)
    ensures |list| == |picked|
    ensures forall i :: 0 <= i < |picked| ==> list[i] == Masked(picked[i], now)
    ensures forall v :: v in list ==> exists s :: s in picked && v == Masked(s, now)
    ensures forall s :: s in picked ==> Masked(s, now) in list
  {
    if |picked| == 0 then []
    else [Masked(picked[0], now)] + MaskAll(picked[1..], now)
  }

  /**
   * `GET /seats`: the records selected by room and then by id, in stored
   * order, each masked.
   */
  function ViewSeats(seats: seq<SeatRec>, roomId: Option<string>, id: Option<string>, now: nat): (list: seq<SeatRec>)
    ensures |list| <= |seats|
    ensures forall v :: v in list ==> exists s :: s in seats && Selected(s, roomId, id) && v == Masked(s, now)
    ensures forall s :: s in seats && Selected(s, roomId, id) ==> Masked(s, now) in list
    ensures forall v :: v in list ==> IsLocked(v, now) || (v.lockedBy.None? && v.holdUntil.None?)
  {
    MaskAll(Selection(seats, roomId, id), now)
  }

  /** The lock database: the `seats` array of `db.integrated.json`. */
  class SeatLockDb {
    /** `DEFAULT_TTL`, read once from the environment. */
    const defaultTtl: int
    var seats: seq<SeatRec>

    /**
     * Start-up: the TTL default comes from `SEAT_LOCK_TTL` when set, and
     * `migrate` replaces a missing or non-array `seats` by an empty array.
     */
    constructor(envTtl: Option<int>, stored: Option<seq<SeatRec>>)
      ensures defaultTtl == (if envTtl.Some? then envTtl.value else BuiltInTtl)
      ensures seats == (if stored.Some? then stored.value else [])
    {
      defaultTtl := if envTtl.Some? then envTtl.value else BuiltInTtl;
      seats := if stored.Some? then stored.value else [];
    }

    /**
     * `upsertSeat`: overwrite the given fields of the first seat with that
     * id, keeping its other fields, or append a new seat when there is none.
     */
    method Upsert(seatId: string, f: LockFields) returns (updated: SeatRec)
      modifies this`seats
      ensures FindSeat(old(seats), seatId).Some? ==>
        var k := FindSeat(old(seats), seatId).value;
        && seats == old(seats)[k := Merge(old(seats)[k], f)]
        && updated == seats[k]
      ensures FindSeat(old(seats), seatId).None? ==>
        seats == old(seats) + [NewSeat(seatId, f)] && updated == NewSeat(seatId, f)
      ensures |seats| == |old(seats)| + (if FindSeat(old(seats), seatId).None? then 1 else 0)
      ensures forall j :: 0 <= j < |old(seats)| && FindSeat(old(seats), seatId) != Some(j) ==>
                seats[j] == old(seats)[j]
      ensures FindSeat(seats, seatId).Some? && seats[FindSeat(seats, seatId).value] == updated
      ensures updated.id == seatId
    {
      var idx := FindSeat(seats, seatId);
      if idx.Some? {
        seats := seats[idx.value := Merge(seats[idx.value], f)];
        FirstWhereIs(seats, (s: SeatRec) => s.id == seatId, idx.value);
        return seats[idx.value];
      }
      updated := NewSeat(seatId, f);
      seats := seats + [updated];
      FirstWhereIs(seats, (s: SeatRec) => s.id == seatId, |seats| - 1);
    }

    /**
     * `POST /seats/lock`: refuse a request without seat or user, refuse a
     * seat under somebody else's live lock, otherwise lock it for the user
     * for the requested TTL (at least 10 s), creating it if needed.
     */
    method Lock(seatId: Option<string>, roomId: Option<string>, userId: Option<string>,
                ttlSeconds: Option<int>, now: nat) returns (r: Reply)
      modifies this`seats
      ensures !Truthy(seatId) || !Truthy(userId) ==> r == MissingFields && seats == old(seats)
      ensures Truthy(seatId) && Truthy(userId) ==>
        var k := FindSeat(old(seats), seatId.value);
        if k.Some? && HeldByOther(old(seats)[k.value], userId.value, now) then
          && r == AlreadyLocked(old(seats)[k.value].lockedBy.value, Remaining(old(seats)[k.value], now))
          && seats == old(seats)
        else
          var f := LockFields(if roomId.Some? then roomId else if k.Some? then old(seats)[k.value].roomId else None,
                              userId.value, now, now + Ttl(ttlSeconds, defaultTtl) * 1000, "locked");
          && (k.Some? ==> seats == old(seats)[k.value := Merge(old(seats)[k.value], f)])
          && (k.None? ==> seats == old(seats) + [NewSeat(seatId.value, f)])
          && r.SeatBody?
      ensures r.SeatBody? ==>
        && FindSeat(seats, seatId.value).Some?
        && var s := seats[FindSeat(seats, seatId.value).value];
        && r.seat == s
        && s.lockedBy == userId && s.lockedAt == Some(now) && s.status == Some("locked")
        && s.holdUntil == Some(now + Ttl(ttlSeconds, defaultTtl) * 1000)
        && forall t: nat :: t < now + MinTtl * 1000 ==> IsLocked(s, t) && !HeldByOther(s, userId.value, t)
    {
      if !Truthy(seatId) || !Truthy(userId) {
        return MissingFields;
      }
      var k := FindSeat(seats, seatId.value);
      if k.Some? && HeldByOther(seats[k.value], userId.value, now) {
        return AlreadyLocked(seats[k.value].lockedBy.value, Remaining(seats[k.value], now));
      }
      var ttl := Ttl(ttlSeconds, defaultTtl);
      var room := if roomId.Some? then roomId else if k.Some? then seats[k.value].roomId else None;
      var updated := Upsert(seatId.value, LockFields(room, userId.value, now, now + ttl * 1000, "locked"));
      r := SeatBody(updated);
    }

    /**
     * `POST /seats/refresh`: only the holder of a live lock may extend it;
     * the new end is the requested TTL (at least 10 s) from now, and no
     * other field changes.
     */
    method Refresh(seatId: Option<string>, userId: Option<string>, ttlSeconds: Option<int>, now: nat)
      returns (r: Reply)
      modifies this`seats
      ensures !Truthy(seatId) || !Truthy(userId) ==> r == MissingFields && seats == old(seats)
      ensures Truthy(seatId) && Truthy(userId) ==>
        var k := FindSeat(old(seats), seatId.value);
        if k.None? || !IsLocked(old(seats)[k.value], now) || Str(old(seats)[k.value].lockedBy) != userId.value then
          r == NotOwner && seats == old(seats)
        else
          var s := old(seats)[k.value].(holdUntil := Some(now + Ttl(ttlSeconds, defaultTtl) * 1000));
          seats == old(seats)[k.value := s] && r == SeatBody(s)
      ensures r.SeatBody? ==> forall t: nat :: t < now + MinTtl * 1000 ==> IsLocked(r.seat, t)
    {
      if !Truthy(seatId) || !Truthy(userId) {
        return MissingFields;
      }
      var k := FindSeat(seats, seatId.value);
      if k.None? || !IsLocked(seats[k.value], now) || Str(seats[k.value].lockedBy) != userId.value {
        return NotOwner;
      }
      var ttl := Ttl(ttlSeconds, defaultTtl);
      var s := seats[k.value].(holdUntil := Some(now + ttl * 1000));
      seats := seats[k.value := s];
      r := SeatBody(s);
    }

    /**
     * `POST /seats/unlock`: an unknown seat is already unlocked; a live lock
     * of somebody else cannot be released; otherwise holder and end are
     * cleared and the seat is marked free.
     */
    method Unlock(seatId: Option<string>, userId: Option<string>, now: nat) returns (r: Reply)
      modifies this`seats
      ensures !Truthy(seatId) || !Truthy(userId) ==> r == MissingFields && seats == old(seats)
      ensures Truthy(seatId) && Truthy(userId) ==>
        var k := FindSeat(old(seats), seatId.value);
        if k.None? then
          r == OkBody && seats == old(seats)
        else if HeldByOther(old(seats)[k.value], userId.value, now) then
          r == CannotUnlock && seats == old(seats)
        else
          && r == OkBody
          && seats == old(seats)[k.value := old(seats)[k.value].(lockedBy := None, holdUntil := None, status := Some("free"))]
      ensures r == OkBody ==>
                && Truthy(seatId)
                && (match FindSeat(seats, seatId.value)
                    case None => true
                    case Some(k) => !IsLocked(seats[k], now) && seats[k].status == Some("free"))
    {
      if !Truthy(seatId) || !Truthy(userId) {
        return MissingFields;
      }
      var k := FindSeat(seats, seatId.value);
      if k.None? {
        return OkBody;
      }
      var s := seats[k.value];
      if Truthy(s.lockedBy) && Str(s.lockedBy) != userId.value && IsLocked(s, now) {
        return CannotUnlock;
      }
      seats := seats[k.value := s.(lockedBy := None, holdUntil := None, status := Some("free"))];
      FirstWhereIs(seats, (x: SeatRec) => x.id == seatId.value, k.value);
      r := OkBody;
    }
  }

  /**
   * Mutual exclusion across requests: once user `a` has locked a seat, user
   * `b` can neither lock nor refresh it during the next 10 s.
   */
  method Contend(db: SeatLockDb, seatId: string, a: string, b: string,
                 ttlA: Option<int>, ttlB: Option<int>, t0: nat, t1: nat, t2: nat)
    returns (first: Reply, second: Reply, third: Reply)
    requires seatId != "" && a != "" && b != "" && a != b
    requires t1 < t0 + MinTtl * 1000 && t2 < t0 + MinTtl * 1000
    modifies db
    ensures first.SeatBody? ==> second.AlreadyLocked? && second.holder == a && third == NotOwner
  {
    first := db.Lock(Some(seatId), None, Some(a), ttlA, t0);
    second := db.Lock(Some(seatId), None, Some(b), ttlB, t1);
    third := db.Refresh(Some(seatId), Some(b), ttlB, t2);
  }

  /** The holder may lock again while the lease lasts; the hold then runs from the new request. */
  method Relock(db: SeatLockDb, seatId: string, a: string, ttl: Option<int>, t0: nat, t1: nat)
    returns (first: Reply, second: Reply)
    requires seatId != "" && a != ""
    modifies db
    ensures first.SeatBody? ==> second.SeatBody? && second.seat.holdUntil == Some(t1 + Ttl(ttl, db.defaultTtl) * 1000)
  {
    first := db.Lock(Some(seatId), None, Some(a), ttl, t0);
    second := db.Lock(Some(seatId), None, Some(a), ttl, t1);
  }
}
