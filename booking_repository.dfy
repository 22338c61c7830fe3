/** The booking queries of the core, as pure queries over the booking
    ledger (the rows in insertion order). */
module BookingRepository {
  import opened Types
  import opened Bookings

  /** A row counted by the confirmed-bookings queries for this user. */
  predicate ConfirmedBy(b: BookingRow, userId: int)
  {
    b.userId == userId && b.status == Confirmed
  }

  /** Positions of the ledger holding a confirmed booking of the user. */
  function ConfirmedPositions(ledger: seq<BookingRow>, userId: int): set<int>
  {
    set i | 0 <= i < |ledger| && ConfirmedBy(ledger[i], userId)
  }

  /** countConfirmedBookingsByUser: the number of the user's bookings whose
      status is CONFIRMED. */
  function CountConfirmedBookingsByUser(ledger: seq<BookingRow>, userId: int): (r: nat)
    ensures r == |ConfirmedPositions(ledger, userId)|
    ensures r <= |ledger|
  {
    if ledger == [] then 0
    else
      var n := |ledger| - 1;
      var r := CountConfirmedBookingsByUser(ledger[..n], userId)
               + if ConfirmedBy(ledger[n], userId) then 1 else 0;
      assert ConfirmedPositions(ledger, userId) ==
        ConfirmedPositions(ledger[..n], userId)
        + if ConfirmedBy(ledger[n], userId) then {n} else {};
      r
  }

  /** getTotalSpendingByUser: the sum of the final amounts of the user's
      CONFIRMED bookings, zero (not null) when there are none. */
  function GetTotalSpendingByUser(ledger: seq<BookingRow>, userId: int): (r: int)
    ensures CountConfirmedBookingsByUser(ledger, userId) == 0 ==> r == 0
    ensures (forall i :: 0 <= i < |ledger| && ConfirmedBy(ledger[i], userId) ==> ledger[i].finalAmount >= 0)
            ==> r >= 0
  {
    if ledger == [] then 0
    else
      var n := |ledger| - 1;
      GetTotalSpendingByUser(ledger[..n], userId)
      + if ConfirmedBy(ledger[n], userId) then ledger[n].finalAmount else 0
  }

  /** Appending a booking to the ledger adds it to both aggregates exactly
      when it is a confirmed booking of the user. */
  lemma AppendBooking(ledger: seq<BookingRow>, b: BookingRow, userId: int)
    ensures CountConfirmedBookingsByUser(ledger + [b], userId)
            == CountConfirmedBookingsByUser(ledger, userId) + (if ConfirmedBy(b, userId) then 1 else 0)
    ensures GetTotalSpendingByUser(ledger + [b], userId)
            == GetTotalSpendingByUser(ledger, userId) + (if ConfirmedBy(b, userId) then b.finalAmount else 0)
  {
    assert (ledger + [b])[..|ledger|] == ledger;
  }

  /** Cancelling a confirmed booking removes it from both aggregates of its
      owner and leaves every other user's aggregates as they were: cancelled
      bookings count towards neither. */
  lemma {:induction false} CancelBooking(ledger: seq<BookingRow>, i: nat, userId: int)
    requires i < |ledger| && ledger[i].status == Confirmed
    ensures var after := ledger[i := ledger[i].(status := Cancelled)];
      && CountConfirmedBookingsByUser(after, userId)
         == CountConfirmedBookingsByUser(ledger, userId) - (if ledger[i].userId == userId then 1 else 0)
      && GetTotalSpendingByUser(after, userId)
         == GetTotalSpendingByUser(ledger, userId) - (if ledger[i].userId == userId then ledger[i].finalAmount else 0)
  {
    var after := ledger[i := ledger[i].(status := Cancelled)];
    var n := |ledger| - 1;
    if i == n {
      assert after[..n] == ledger[..n];
    } else {
      CancelBooking(ledger[..n], i, userId);
      assert after[..n] == ledger[..n][i := ledger[i].(status := Cancelled)];
      assert after[n] == ledger[n];
    }
  }

  /** The user's bookings, in ledger order. */
  function BookingsOfUser(ledger: seq<BookingRow>, userId: int): (r: seq<BookingRow>)
    ensures forall b :: b in r <==> b in ledger && b.userId == userId
    ensures |r| <= |ledger|
  {
    if ledger == [] then []
    else (if ledger[0].userId == userId then [ledger[0]] else []) + BookingsOfUser(ledger[1..], userId)
  }

  predicate NewestFirst(s: seq<BookingRow>)
  {
    forall i, j :: 0 <= i < j < |s| ==> s[i].bookingTime >= s[j].bookingTime
  }

  /** A newest-first list stays newest-first when an entry at least as
      recent as all of its entries is put in front. */
  lemma PrependNewest(x: BookingRow, t: seq<BookingRow>)
    requires NewestFirst(t)
    requires forall y | y in t :: x.bookingTime >= y.bookingTime
    ensures NewestFirst([x] + t)
  {
    var s := [x] + t;
    forall i, j | 0 <= i < j < |s| ensures s[i].bookingTime >= s[j].bookingTime {
      assert s[j] == t[j - 1];
      if i > 0 { assert s[i] == t[i - 1]; } else { assert s[j] in t; }
    }
  }

  /** The head of a newest-first list is at least as recent as every entry. */
  lemma HeadIsNewest(s: seq<BookingRow>)
    requires NewestFirst(s) && s != []
    ensures forall y | y in s :: s[0].bookingTime >= y.bookingTime
  {
    forall y | y in s ensures s[0].bookingTime >= y.bookingTime {
      var k :| 0 <= k < |s| && s[k] == y;
      assert k == 0 || s[0].bookingTime >= s[k].bookingTime;
    }
  }

  lemma PrependNewer(b: BookingRow, s: seq<BookingRow>)
    requires NewestFirst(s) && (s == [] || b.bookingTime >= s[0].bookingTime)
    ensures NewestFirst([b] + s)
  {
    if s != [] { HeadIsNewest(s); }
    PrependNewest(b, s);
  }

  /** Puts a booking into a newest-first list at its place. */
  function InsertByTime(b: BookingRow, s: seq<BookingRow>): (r: seq<BookingRow>)
    requires NewestFirst(s)
    ensures NewestFirst(r)
    ensures multiset(r) == multiset(s) + multiset{b}
  {
    if s == [] || b.bookingTime >= s[0].bookingTime then
      PrependNewer(b, s);
      [b] + s
    else
      var tail := InsertByTime(b, s[1..]);
      InsertedNotNewer(b, s, tail);
      PrependNewest(s[0], tail);
      [s[0]] + tail
  }

  /** What InsertByTime puts behind the head of a list is never newer than
      that head. */
  lemma InsertedNotNewer(b: BookingRow, s: seq<BookingRow>, tail: seq<BookingRow>)
    requires NewestFirst(s) && s != [] && b.bookingTime < s[0].bookingTime
    requires multiset(tail) == multiset(s[1..]) + multiset{b}
    ensures forall y | y in tail :: s[0].bookingTime >= y.bookingTime
    ensures multiset([s[0]] + tail) == multiset(s) + multiset{b}
  {
    HeadIsNewest(s);
    assert s == [s[0]] + s[1..];
    forall y | y in tail ensures s[0].bookingTime >= y.bookingTime {
      assert y in multiset(tail);
      assert y == b || y in s[1..];
    }
  }

  function SortNewestFirst(s: seq<BookingRow>): (r: seq<BookingRow>)
    ensures NewestFirst(r)
    ensures multiset(r) == multiset(s)
  {
    if s == [] then []
    else
      assert s == [s[0]] + s[1..];
      InsertByTime(s[0], SortNewestFirst(s[1..]))
  }

  /** findByUserUserIdOrderByBookingTimeDesc: exactly the user's bookings,
      each once, most recent first. Bookings with equal times may come in
      any order in the database; the model fixes one. */
  function FindByUserUserIdOrderByBookingTimeDesc(ledger: seq<BookingRow>, userId: int): (r: seq<BookingRow>)
    ensures NewestFirst(r)
    ensures multiset(r) == multiset(BookingsOfUser(ledger, userId))
    ensures forall b :: b in r <==> b in ledger && b.userId == userId
  {
    var r := SortNewestFirst(BookingsOfUser(ledger, userId));
    assert forall b :: b in r <==> b in multiset(r);
    r
  }

  /** findByShowShowIdAndBookingStatus: exactly the bookings of the show in
      the given status, in ledger order. */
  function FindByShowShowIdAndBookingStatus(ledger: seq<BookingRow>, showId: int, status: BookingStatus): (r: seq<BookingRow>)
    ensures forall b :: b in r <==> b in ledger && b.showId == showId && b.status == status
    ensures |r| <= |ledger|
  {
    if ledger == [] then []
    else
      (if ledger[0].showId == showId && ledger[0].status == status then [ledger[0]] else [])
      + FindByShowShowIdAndBookingStatus(ledger[1..], showId, status)
  }
}
