/**
  The booking list kept by the scheduling server: a booking request is checked
  for its required fields and appended, and a cancellation removes the first
  record with the given id. Persistence to disk is not modelled: the list is
  the state of a BookingStore object.
*/
module Bookings {
  import opened Wrappers

  /** The body of a booking request. Times are minutes on one common clock. */
  datatype Request = Request(
    name: Option<string>,
    email: Option<string>,
    startTime: Option<int>,
    endTime: Option<int>,
    meetingType: Option<string>,
    notes: Option<string>)

  /** A stored booking; `createdAt` is the clock reading at creation. */
  datatype Booking = Booking(
    id: string,
    name: string,
    email: string,
    startTime: int,
    endTime: int,
    meetingType: Option<string>,
    notes: Option<string>,
    createdAt: int)

  datatype Error = MissingRequiredFields | NotFound

  /** The text of the error reply the server sends for each error. */
  function Message(e: Error): (m: string)
    ensures e.MissingRequiredFields? ==> m == "Missing required fields"
    ensures e.NotFound? ==> m == "Not found"
  {
    match e
    case MissingRequiredFields => "Missing required fields"
    case NotFound => "Not found"
  }

  /** A text field counts as given when it is present and not the empty string. */
  predicate Given(f: Option<string>)
  {
    f.Some? && f.value != ""
  }

  predicate HasRequiredFields(req: Request)
  {
    Given(req.name) && Given(req.email) && req.startTime.Some? && req.endTime.Some?
  }

  /** The record the server stores for an accepted request. */
  function NewBooking(req: Request, id: string, createdAt: int): (b: Booking)
    requires HasRequiredFields(req)
    ensures b.id == id && b.createdAt == createdAt
    ensures Some(b.name) == req.name && Some(b.email) == req.email
    ensures Some(b.startTime) == req.startTime && Some(b.endTime) == req.endTime
    ensures b.meetingType == req.meetingType && b.notes == req.notes
  {
    Booking(id, req.name.value, req.email.value, req.startTime.value, req.endTime.value,
            req.meetingType, req.notes, createdAt)
  }

  predicate HasId(s: seq<Booking>, id: string)
  {
    exists j :: 0 <= j < |s| && s[j].id == id
  }

  /** `i` is the position of the first booking in `s` whose id is `id`. */
  predicate IsFirstWithId(s: seq<Booking>, id: string, i: int)
  {
    0 <= i < |s| && s[i].id == id && forall j :: 0 <= j < i ==> s[j].id != id
  }

  /** Reference definition of a cancellation: drop the first booking carrying `id`. */
  function WithoutFirst(s: seq<Booking>, id: string): seq<Booking>
  {
    if s == [] then []
    else if s[0].id == id then s[1..]
    else [s[0]] + WithoutFirst(s[1..], id)
  }

  /** Linear search for the first booking with the given id, or -1 when there is none. */
  method FindIndex(s: seq<Booking>, id: string) returns (index: int)
    ensures index == -1 <==> !HasId(s, id)
    ensures index != -1 ==> IsFirstWithId(s, id, index)
  {
    var i := 0;
    while i < |s|
      invariant 0 <= i <= |s|
      invariant forall j :: 0 <= j < i ==> s[j].id != id
    {
      if s[i].id == id {
        return i;
      }
      i := i + 1;
    }
    return -1;
  }

  /** Removing at the first match is what WithoutFirst describes. */
  lemma {:induction false} WithoutFirstAt(s: seq<Booking>, id: string, i: int)
    requires IsFirstWithId(s, id, i)
    ensures WithoutFirst(s, id) == s[..i] + s[i + 1..]
  {
    if i > 0 {
      var t := s[1..];
      assert s[0].id != id;
      forall j | 0 <= j < i - 1 ensures t[j].id != id {
        assert t[j] == s[j + 1];
      }
      assert t[i - 1] == s[i];
      WithoutFirstAt(t, id, i - 1);
      assert WithoutFirst(s, id) == [s[0]] + WithoutFirst(t, id);
      assert s[..i] == [s[0]] + t[..i - 1];
      assert s[i + 1..] == t[i..];
    } else {
      assert WithoutFirst(s, id) == s[1..];
    }
  }

  /** Cancelling an id that is not in the list changes nothing. */
  lemma {:induction false} WithoutFirstAbsent(s: seq<Booking>, id: string)
    requires !HasId(s, id)
    ensures WithoutFirst(s, id) == s
  {
    if s != [] {
      assert s[0].id != id;
      WithoutFirstAbsent(s[1..], id);
      assert s == [s[0]] + s[1..];
    }
  }

  /** A cancellation removes exactly one occurrence of the first matching booking and keeps the rest. */
  lemma WithoutFirstRemovesOne(s: seq<Booking>, id: string, i: int)
    requires IsFirstWithId(s, id, i)
    ensures |WithoutFirst(s, id)| == |s| - 1
    ensures multiset(WithoutFirst(s, id)) + multiset{s[i]} == multiset(s)
    ensures forall j :: 0 <= j < i ==> WithoutFirst(s, id)[j] == s[j]
    ensures forall j :: i <= j < |s| - 1 ==> WithoutFirst(s, id)[j] == s[j + 1]
  {
    WithoutFirstAt(s, id, i);
    var r := WithoutFirst(s, id);
    assert s == s[..i] + [s[i]] + s[i + 1..];
    assert multiset(r) == multiset(s[..i]) + multiset(s[i + 1..]);
    assert multiset(s) == multiset(s[..i]) + multiset{s[i]} + multiset(s[i + 1..]);
    forall j | i <= j < |s| - 1 ensures r[j] == s[j + 1] {
      assert r[j] == s[i + 1..][j - i];
    }
  }

  predicate UniqueIds(s: seq<Booking>)
  {
    forall i, j :: 0 <= i < j < |s| ==> s[i].id != s[j].id
  }

  /** Booking a record with a fresh id and then cancelling that id gives back the record and the old list. */
  lemma BookThenCancel(s: seq<Booking>, b: Booking)
    requires !HasId(s, b.id)
    ensures IsFirstWithId(s + [b], b.id, |s|)
    ensures WithoutFirst(s + [b], b.id) == s
    ensures UniqueIds(s) ==> UniqueIds(s + [b])
  {
    var t := s + [b];
    assert forall j :: 0 <= j < |s| ==> t[j] == s[j];
    WithoutFirstAt(t, b.id, |s|);
    assert t[..|s|] == s;
  }

  /** With unique ids, a cancelled id no longer occurs in the list. */
  lemma CancelledIdGone(s: seq<Booking>, id: string)
    requires UniqueIds(s)
    ensures !HasId(WithoutFirst(s, id), id)
  {
  }

  /** The in-memory booking list; each method is one request handler with the file I/O removed. */
  class BookingStore {
    var bookings: seq<Booking>

    constructor (initial: seq<Booking>)
      ensures bookings == initial
    {
      bookings := initial;
    }

    /** POST /api/book: reject an incomplete request, otherwise append the new record. */
    method Book(req: Request, id: string, createdAt: int) returns (r: Result<Booking, Error>)
      modifies this
      ensures r.Failure? <==> !HasRequiredFields(req)
      ensures r.Failure? ==> r.error == MissingRequiredFields && bookings == old(bookings)
      ensures r.Success? ==> r.value == NewBooking(req, id, createdAt) && bookings == old(bookings) + [r.value]
    {
      if !HasRequiredFields(req) {
        return Failure(MissingRequiredFields);
      }
      var booking := NewBooking(req, id, createdAt);
      bookings := bookings + [booking];
      return Success(booking);
    }

    /** DELETE /api/bookings/:id: remove and return the first record with the id, or report NotFound. */
    method Cancel(id: string) returns (r: Result<Booking, Error>)
      modifies this
      ensures r.Failure? <==> !HasId(old(bookings), id)
      ensures r.Failure? ==> r.error == NotFound && bookings == old(bookings)
      ensures r.Success? ==> exists i :: IsFirstWithId(old(bookings), id, i) && r.value == old(bookings)[i]
                                         && bookings == old(bookings)[..i] + old(bookings)[i + 1..]
      ensures r.Success? ==> bookings == WithoutFirst(old(bookings), id) && |bookings| == |old(bookings)| - 1
    {
      var index := FindIndex(bookings, id);
      if index == -1 {
        return Failure(NotFound);
      }
      WithoutFirstAt(bookings, id, index);
      var cancelled := bookings[index];
      bookings := bookings[..index] + bookings[index + 1..];
      return Success(cancelled);
    }
  }

  /** A client of the store: a booking made with a fresh id and cancelled right away leaves the store as it was. */
  method BookAndCancel(store: BookingStore, req: Request, id: string, createdAt: int)
    returns (booked: Result<Booking, Error>, cancelled: Result<Booking, Error>)
    requires HasRequiredFields(req) && !HasId(store.bookings, id)
    modifies store
    ensures booked.Success? && cancelled == booked
    ensures store.bookings == old(store.bookings)
  {
    ghost var before := store.bookings;
    booked := store.Book(req, id, createdAt);
    BookThenCancel(before, booked.value);
    assert HasId(store.bookings, id) by { assert store.bookings[|before|].id == id; }
    cancelled := store.Cancel(id);
    ghost var i :| IsFirstWithId(before + [booked.value], id, i) && cancelled.value == (before + [booked.value])[i];
    assert i == |before|;
  }
}
