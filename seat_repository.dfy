/** The seat queries of the core, as pure filters over the seat table
    (seat id to row). Each query returns the ids of the rows it selects. */
module SeatRepository {
  import opened Seats

  /** The distinct values of a list. */
  function Elements(s: seq<int>): set<int>
  {
    set x | x in s
  }

  predicate Distinct(s: seq<int>)
  {
    forall i, j :: 0 <= i < j < |s| ==> s[i] != s[j]
  }

  /** A list has at most as many distinct values as entries, and exactly as
      many when no value repeats. */
  lemma {:induction false} ElementsCard(s: seq<int>)
    ensures |Elements(s)| <= |s|
    ensures |Elements(s)| == |s| <==> Distinct(s)
  {
    if s != [] {
      var rest := s[1..];
      ElementsCard(rest);
      assert Elements(s) == {s[0]} + Elements(rest);
      if s[0] in Elements(rest) {
        assert Elements(s) == Elements(rest);
        var k :| 0 <= k < |rest| && rest[k] == s[0];
        assert s[0] == s[k + 1];
      } else {
        assert |Elements(s)| == 1 + |Elements(rest)|;
        if Distinct(rest) {
          forall i, j | 0 <= i < j < |s| ensures s[i] != s[j] {
            if i > 0 { assert s[i] == rest[i - 1] && s[j] == rest[j - 1]; }
            else { assert s[j] == rest[j - 1]; }
          }
        }
        if Distinct(s) {
          forall i, j | 0 <= i < j < |rest| ensures rest[i] != rest[j] {
            assert rest[i] == s[i + 1] && rest[j] == s[j + 1];
          }
        }
      }
    }
  }

  /** findAvailableSeatsWithLock: the seats whose id is in the list and
      that are not booked. The query does not look at the owning show. */
  function FindAvailableSeatsWithLock(seats: map<int, SeatRow>, seatIds: seq<int>): (r: set<int>)
    ensures r <= seats.Keys && r <= Elements(seatIds)
    ensures forall id | id in r :: !seats[id].isBooked
    ensures forall id | id in seatIds && id in seats && !seats[id].isBooked :: id in r
    ensures |r| <= |seatIds|
  {
    var r := set id | id in seatIds && id in seats && !seats[id].isBooked;
    ElementsCard(seatIds);
    assert r <= Elements(seatIds);
    SubsetCard(r, Elements(seatIds));
    r
  }

  lemma SubsetCard(a: set<int>, b: set<int>)
    requires a <= b
    ensures |a| <= |b|
    ensures |a| == |b| ==> a == b
  {
    assert b == a + (b - a);
    assert |b| == |a| + |b - a|;
    if |a| == |b| {
      assert |b - a| == 0;
      assert b - a == {};
    }
  }

  /** The query finds one row per requested id exactly when the ids are
      pairwise different, all known, and none booked. */
  lemma FindAvailableExact(seats: map<int, SeatRow>, seatIds: seq<int>)
    ensures |FindAvailableSeatsWithLock(seats, seatIds)| == |seatIds| <==>
      Distinct(seatIds) &&
      forall i :: 0 <= i < |seatIds| ==> seatIds[i] in seats && !seats[seatIds[i]].isBooked
  {
    var r := FindAvailableSeatsWithLock(seats, seatIds);
    var e := Elements(seatIds);
    ElementsCard(seatIds);
    SubsetCard(r, e);
    if Distinct(seatIds) && forall i :: 0 <= i < |seatIds| ==> seatIds[i] in seats && !seats[seatIds[i]].isBooked {
      forall id | id in e ensures id in r {
        var i :| 0 <= i < |seatIds| && seatIds[i] == id;
      }
      assert r == e;
    }
    if |r| == |seatIds| {
      assert r == e;
      forall i | 0 <= i < |seatIds|
        ensures seatIds[i] in seats && !seats[seatIds[i]].isBooked
      {
        assert seatIds[i] in e;
      }
    }
  }

  /** All seats of a show. */
  function SeatsOfShow(seats: map<int, SeatRow>, showId: int): set<int>
  {
    set id | id in seats && seats[id].showId == showId
  }

  /** The booked seats of a show. */
  function BookedSeatsOfShow(seats: map<int, SeatRow>, showId: int): set<int>
  {
    set id | id in seats && seats[id].showId == showId && seats[id].isBooked
  }

  /** findByShowShowIdAndIsBookedFalse: the unbooked seats of a show, that
      is, its seats less its booked ones. */
  function FindByShowShowIdAndIsBookedFalse(seats: map<int, SeatRow>, showId: int): (r: set<int>)
    ensures r <= seats.Keys
    ensures r == SeatsOfShow(seats, showId) - BookedSeatsOfShow(seats, showId)
  {
    set id | id in seats && seats[id].showId == showId && !seats[id].isBooked
  }

  /** countAvailableSeats: how many seats of the show are not booked. Every
      seat of a show is either counted here or booked. */
  function CountAvailableSeats(seats: map<int, SeatRow>, showId: int): (r: nat)
    ensures r == |SeatsOfShow(seats, showId)| - |BookedSeatsOfShow(seats, showId)|
    ensures r <= |SeatsOfShow(seats, showId)|
  {
    var free := FindByShowShowIdAndIsBookedFalse(seats, showId);
    var taken := BookedSeatsOfShow(seats, showId);
    assert SeatsOfShow(seats, showId) == free + taken;
    assert free !! taken;
    |free|
  }
}
