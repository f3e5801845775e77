/**
 * The two-table ride/signup store of `database.py`: a `rides` table and a
 * `signups` table with AUTOINCREMENT integer ids, held in memory as two
 * sequences in insertion (rowid) order.
 */
module Database {
  import opened Wrappers
  import opened Seqs

  // ---------- INTEGER affinity ----------

  /** A value in (or compared with) the INTEGER-affinity columns `rides.id`
    * and `signups.ride_id`: text that reads as an integer is stored as that
    * integer; any other text stays text. */
  datatype Key = IntKey(n: int) | TextKey(t: string)

  predicate IsDigit(c: char) {
    '0' <= c <= '9'
  }

  predicate AllDigits(s: string) {
    forall i :: 0 <= i < |s| ==> IsDigit(s[i])
  }

  /** An optional sign followed by at least one decimal digit. */
  predicate IsIntegerLiteral(s: string) {
    if s != [] && (s[0] == '+' || s[0] == '-') then |s| >= 2 && AllDigits(s[1..])
    else |s| >= 1 && AllDigits(s)
  }

  /** The value of a run of decimal digits, most significant first. */
  function DigitsValue(s: string): nat
    requires AllDigits(s)
  {
    if s == [] then 0 else DigitsValue(s[..|s| - 1]) * 10 + (s[|s| - 1] - '0') as int
  }

  /** The key SQLite stores or compares for a text value bound to an INTEGER column. */
  function Affinity(s: string): (k: Key)
    ensures k.TextKey? <==> !IsIntegerLiteral(s)
    ensures k.TextKey? ==> k.t == s
  {
    if !IsIntegerLiteral(s) then TextKey(s)
    else if s[0] == '-' then IntKey(-(DigitsValue(s[1..]) as int))
    else if s[0] == '+' then IntKey(DigitsValue(s[1..]))
    else IntKey(DigitsValue(s))
  }

  function DigitChar(d: nat): char
    requires d < 10
  {
    ('0' as int + d) as char
  }

  /** Python's `str(n)` for a non-negative integer. */
  function DecimalText(n: nat): (s: string)
    ensures |s| >= 1 && AllDigits(s)
  {
    if n < 10 then [DigitChar(n)] else DecimalText(n / 10) + [DigitChar(n % 10)]
  }

  /** `str(id)` read back through INTEGER affinity is the id again: the option
    * values `str(r[0])` of the ride selectors name the ride they were built from. */
  lemma {:induction false} AffinityOfDecimal(n: nat)
    ensures Affinity(DecimalText(n)) == IntKey(n)
  {
    DecimalValue(n);
  }

  lemma {:induction false} DecimalValue(n: nat)
    ensures DigitsValue(DecimalText(n)) == n
  {
    var s := DecimalText(n);
    if n >= 10 {
      DecimalValue(n / 10);
      assert s[..|s| - 1] == DecimalText(n / 10);
    }
  }

  // ---------- rows ----------

  /** One row of `rides`. */
  datatype Ride = Ride(id: int, name: string, date: string, startTime: string,
                       meetingPoint: string, routeLink: string)

  /** One row of `signups`. */
  datatype SignupRow = SignupRow(id: int, rideId: Key, fullName: string, code: string)

  /** A row of `list_rides`: (id, ride_name, ride_date). */
  datatype RideSummary = RideSummary(id: int, name: string, date: string)

  /** A row of `get_ride_details`: (ride_name, ride_date, start_time, meeting_point, route_link). */
  datatype RideDetails = RideDetails(name: string, date: string, startTime: string,
                                     meetingPoint: string, routeLink: string)

  /** A row of `roster`: (ride_name, ride_date, full_name). */
  datatype RosterRow = RosterRow(rideName: string, rideDate: string, fullName: string)

  /** `WHERE id = ?` for a ride and a bound text value. */
  predicate RideHasKey(r: Ride, k: Key) {
    IntKey(r.id) == k
  }

  /** `ON s.ride_id = r.id`. */
  predicate Joins(s: SignupRow, r: Ride) {
    s.rideId == IntKey(r.id)
  }

  // ---------- confirmation codes ----------

  predicate IsLowerHex(c: char) {
    IsDigit(c) || ('a' <= c <= 'f')
  }

  predicate IsUpperHex(c: char) {
    IsDigit(c) || ('A' <= c <= 'F')
  }

  /** The text of `str(uuid.uuid4())`: 36 characters, lower-case hex digits in
    * groups 8-4-4-4-12, version digit `4`, variant digit one of `8 9 a b`. */
  predicate IsUuid4Text(u: string) {
    && |u| == 36
    && (forall i :: 0 <= i < 36 ==> (u[i] == '-' <==> i in {8, 13, 18, 23}))
    && (forall i :: 0 <= i < 36 && i !in {8, 13, 18, 23} ==> IsLowerHex(u[i]))
    && u[14] == '4'
    && u[19] in "89ab"
  }

  /** A confirmation code as `signup` issues it: 8 characters from `[0-9A-F]`. */
  predicate IsConfirmCode(c: string) {
    |c| == 8 && forall i :: 0 <= i < 8 ==> IsUpperHex(c[i])
  }

  function UpperHex(c: char): (u: char)
    requires IsLowerHex(c)
    ensures IsUpperHex(u)
  {
    if 'a' <= c <= 'f' then (c as int - 'a' as int + 'A' as int) as char else c
  }

  function LowerHex(c: char): char {
    if 'A' <= c <= 'F' then (c as int - 'A' as int + 'a' as int) as char else c
  }

  /** `str(uuid.uuid4())[:8].upper()`. */
  function ConfirmCode(u: string): (code: string)
    requires IsUuid4Text(u)
    ensures IsConfirmCode(code)
    ensures forall i :: 0 <= i < 8 ==> LowerHex(code[i]) == u[i]
  {
    seq(8, i requires 0 <= i < 8 => UpperHex(u[i]))
  }

  // ---------- read-only queries ----------

  function Summary(r: Ride): RideSummary {
    RideSummary(r.id, r.name, r.date)
  }

  function Details(r: Ride): RideDetails {
    RideDetails(r.name, r.date, r.startTime, r.meetingPoint, r.routeLink)
  }

  function Summaries(rides: seq<Ride>): (s: seq<RideSummary>)
    ensures |s| == |rides|
    ensures forall i :: 0 <= i < |rides| ==> s[i] == Summary(rides[i])
  {
    seq(|rides|, i requires 0 <= i < |rides| => Summary(rides[i]))
  }

  /** `SELECT id, ride_name, ride_date FROM rides ORDER BY ride_date`. The order
    * among rides on the same date is not fixed by the query; this model keeps
    * one of the admissible orders. */
  function ListRides(rides: seq<Ride>): (rows: seq<RideSummary>)
    ensures multiset(rows) == multiset(Summaries(rides))
    ensures SortedBy(rows, (x: RideSummary) => x.date)
  {
    SortBy(Summaries(rides), (x: RideSummary) => x.date)
  }

  /** `SELECT ... FROM rides WHERE id=?` with `fetchone()`: the details of the
    * ride whose id matches the bound value, or `None`. */
  function GetRideDetails(rides: seq<Ride>, rideId: string): (row: Option<RideDetails>)
    ensures row.None? <==> forall i :: 0 <= i < |rides| ==> !RideHasKey(rides[i], Affinity(rideId))
    ensures row.Some? ==> exists i :: 0 <= i < |rides| && RideHasKey(rides[i], Affinity(rideId))
                                      && row.value == Details(rides[i])
  {
    if rides == [] then None
    else if RideHasKey(rides[0], Affinity(rideId)) then Some(Details(rides[0]))
    else
      var rest := GetRideDetails(rides[1..], rideId);
      assert forall i :: 1 <= i < |rides| ==> rides[i] == rides[1..][i - 1];
      rest
  }

  /** The roster rows one signup contributes: one per ride it joins. */
  function RowsFor(s: SignupRow, rides: seq<Ride>): seq<RosterRow> {
    if rides == [] then []
    else (if Joins(s, rides[0]) then [RosterRow(rides[0].name, rides[0].date, s.fullName)] else [])
         + RowsFor(s, rides[1..])
  }

  /** The inner join `signups s JOIN rides r ON s.ride_id = r.id`, before ordering. */
  function JoinRows(rides: seq<Ride>, signups: seq<SignupRow>): seq<RosterRow> {
    if signups == [] then [] else RowsFor(signups[0], rides) + JoinRows(rides, signups[1..])
  }

  /** The `roster` query: the inner join ordered by `ride_date`. The order among
    * rows on the same date is not fixed by the query; this model keeps one of
    * the admissible orders. */
  function Roster(rides: seq<Ride>, signups: seq<SignupRow>): (rows: seq<RosterRow>)
    ensures multiset(rows) == multiset(JoinRows(rides, signups))
    ensures SortedBy(rows, (x: RosterRow) => x.rideDate)
  {
    SortBy(JoinRows(rides, signups), (x: RosterRow) => x.rideDate)
  }

  /** Every roster row comes from a stored signup and a stored ride that it
    * joins, and every such pair gives a row: signups whose ride is missing
    * are left out. */
  lemma RosterIsJoin(rides: seq<Ride>, signups: seq<SignupRow>, row: RosterRow)
    ensures row in Roster(rides, signups) <==>
            exists s, r :: s in signups && r in rides && Joins(s, r)
                           && row == RosterRow(r.name, r.date, s.fullName)
  {
    assert row in Roster(rides, signups) <==> row in multiset(JoinRows(rides, signups));
    JoinRowsMembers(rides, signups, row);
  }

  lemma {:induction false} RowsForMembers(s: SignupRow, rides: seq<Ride>, row: RosterRow)
    ensures row in RowsFor(s, rides) <==>
            exists r :: r in rides && Joins(s, r) && row == RosterRow(r.name, r.date, s.fullName)
  {
    if rides != [] {
      RowsForMembers(s, rides[1..], row);
      assert forall r :: r in rides <==> r == rides[0] || r in rides[1..];
    }
  }

  lemma {:induction false} JoinRowsMembers(rides: seq<Ride>, signups: seq<SignupRow>, row: RosterRow)
    ensures row in JoinRows(rides, signups) <==>
            exists s, r :: s in signups && r in rides && Joins(s, r)
                           && row == RosterRow(r.name, r.date, s.fullName)
  {
    if signups != [] {
      JoinRowsMembers(rides, signups[1..], row);
      RowsForMembers(signups[0], rides, row);
      assert forall s :: s in signups <==> s == signups[0] || s in signups[1..];
    }
  }

  /** Rides the signup does not join can be dropped without changing its rows. */
  lemma {:induction false} RowsForIgnoresOtherRides(s: SignupRow, rides: seq<Ride>, k: Key)
    requires s.rideId != k
    ensures RowsFor(s, Filter(rides, (r: Ride) => !RideHasKey(r, k))) == RowsFor(s, rides)
  {
    if rides != [] {
      RowsForIgnoresOtherRides(s, rides[1..], k);
    }
  }

  lemma {:induction false} JoinAfterDelete(rides: seq<Ride>, signups: seq<SignupRow>, k: Key)
    requires forall i :: 0 <= i < |signups| ==> signups[i].rideId != k
    ensures JoinRows(Filter(rides, (r: Ride) => !RideHasKey(r, k)), signups) == JoinRows(rides, signups)
  {
    if signups != [] {
      RowsForIgnoresOtherRides(signups[0], rides, k);
      JoinAfterDelete(rides, signups[1..], k);
    }
  }

  /** After `delete_ride`, the roster holds exactly the join rows of the signups
    * that were not on the deleted ride: no row of the deleted ride remains and
    * no other row is lost. */
  lemma RosterAfterDelete(rides: seq<Ride>, signups: seq<SignupRow>, rideId: string)
    ensures var k := Affinity(rideId);
            var signups' := Filter(signups, (s: SignupRow) => s.rideId != k);
            multiset(Roster(Filter(rides, (r: Ride) => !RideHasKey(r, k)), signups'))
              == multiset(JoinRows(rides, signups'))
  {
    var k := Affinity(rideId);
    var signups' := Filter(signups, (s: SignupRow) => s.rideId != k);
    forall i | 0 <= i < |signups'| ensures signups'[i].rideId != k {
      assert signups'[i] in signups';
    }
    JoinAfterDelete(rides, signups', k);
  }

  /** Signups carrying `code`. */
  function CountCode(signups: seq<SignupRow>, code: string): nat {
    Count(signups, (s: SignupRow) => s.code == code)
  }

  /** `DELETE FROM signups WHERE confirm_code=?` removes exactly the counted
    * rows, and afterwards no row carries the code, so a second cancel removes 0. */
  lemma CancelRemovesCounted(signups: seq<SignupRow>, code: string)
    ensures var rest := Filter(signups, (s: SignupRow) => s.code != code);
            |rest| + CountCode(signups, code) == |signups| && CountCode(rest, code) == 0
  {
    var keep := (s: SignupRow) => s.code != code;
    FilterCount(signups, keep, (s: SignupRow) => s.code == code);
    CountAfterFilter(signups, keep, (s: SignupRow) => s.code == code);
  }

  // ---------- the store ----------

  class RideStore {
    /** The `rides` table, in rowid order. */
    var rides: seq<Ride>
    /** The `signups` table, in rowid order. */
    var signups: seq<SignupRow>
    /** `sqlite_sequence` for `rides`: the largest id ever issued. */
    var rideSeq: nat
    /** `sqlite_sequence` for `signups`. */
    var signupSeq: nat

    /** Ids are positive, unique, increasing in rowid order and never above the
      * sequence value, as AUTOINCREMENT keeps them. */
    ghost predicate Valid()
      reads this
    {
      && (forall r :: r in rides ==> 1 <= r.id <= rideSeq)
      && (forall i, j :: 0 <= i < j < |rides| ==> rides[i].id < rides[j].id)
      && (forall s :: s in signups ==> 1 <= s.id <= signupSeq)
      && (forall i, j :: 0 <= i < j < |signups| ==> signups[i].id < signups[j].id)
    }

    /** `init_db` on a fresh database file: both tables empty. */
    constructor ()
      ensures Valid()
      ensures rides == [] && signups == [] && rideSeq == 0 && signupSeq == 0
    {
      rides, signups := [], [];
      rideSeq, signupSeq := 0, 0;
    }

    /** `create_ride`: inserts one ride whose id exceeds every id issued before. */
    method CreateRide(name: string, date: string, time: string, loc: string, route: string)
      requires Valid()
      modifies this
      ensures Valid()
      ensures rides == old(rides) + [Ride(old(rideSeq) + 1, name, date, time, loc, route)]
      ensures rideSeq == old(rideSeq) + 1
      ensures forall r :: r in old(rides) ==> r.id < rides[|rides| - 1].id
      ensures signups == old(signups) && signupSeq == old(signupSeq)
    {
      rideSeq := rideSeq + 1;
      rides := rides + [Ride(rideSeq, name, date, time, loc, route)];
    }

    /** `delete_ride`: removes the ride with that id and every signup on it;
      * an id that no ride and no signup carries changes nothing (signups are
      * matched on their own, since `signup` never checks the ride exists). */
    method DeleteRide(rideId: string)
      requires Valid()
      modifies this
      ensures Valid()
      ensures var k := Affinity(rideId);
              && rides == Filter(old(rides), (r: Ride) => !RideHasKey(r, k))
              && signups == Filter(old(signups), (s: SignupRow) => s.rideId != k)
      ensures forall s :: s in signups ==> s.rideId != Affinity(rideId)
      ensures forall r :: r in rides ==> !RideHasKey(r, Affinity(rideId))
      ensures (forall r :: r in old(rides) ==> !RideHasKey(r, Affinity(rideId)))
              && (forall s :: s in old(signups) ==> s.rideId != Affinity(rideId))
              ==> rides == old(rides) && signups == old(signups)
      ensures rideSeq == old(rideSeq) && signupSeq == old(signupSeq)
    {
      var k := Affinity(rideId);
      var oldRides := rides;
      var oldSignups := signups;
      signups := Filter(signups, (s: SignupRow) => s.rideId != k);
      rides := Filter(rides, (r: Ride) => !RideHasKey(r, k));
      FilterKeepsIncreasing(oldRides, (r: Ride) => !RideHasKey(r, k), (r: Ride) => r.id);
      FilterKeepsIncreasing(oldSignups, (s: SignupRow) => s.rideId != k, (s: SignupRow) => s.id);
      FilterKeepsAll(oldRides, (r: Ride) => !RideHasKey(r, k));
      FilterKeepsAll(oldSignups, (s: SignupRow) => s.rideId != k);
    }

    /** `signup`: inserts one row for the given ride and name with a fresh
      * 8-character code and returns the code. Neither the ride nor the code's
      * uniqueness is checked. */
    method Signup(rideId: string, fullName: string, uuid: string) returns (code: string)
      requires Valid()
      requires IsUuid4Text(uuid)
      modifies this
      ensures Valid()
      ensures code == ConfirmCode(uuid) && IsConfirmCode(code)
      ensures signups == old(signups) + [SignupRow(old(signupSeq) + 1, Affinity(rideId), fullName, code)]
      ensures signupSeq == old(signupSeq) + 1
      ensures rides == old(rides) && rideSeq == old(rideSeq)
    {
      code := ConfirmCode(uuid);
      signupSeq := signupSeq + 1;
      signups := signups + [SignupRow(signupSeq, Affinity(rideId), fullName, code)];
    }

    /** `cancel_signup`: deletes every signup carrying the code and returns how
      * many it deleted. */
    method CancelSignup(code: string) returns (removed: nat)
      requires Valid()
      modifies this
      ensures Valid()
      ensures signups == Filter(old(signups), (s: SignupRow) => s.code != code)
      ensures removed == CountCode(old(signups), code)
      ensures removed == |old(signups)| - |signups|
      ensures CountCode(signups, code) == 0
      ensures rides == old(rides) && rideSeq == old(rideSeq) && signupSeq == old(signupSeq)
    {
      var oldSignups := signups;
      signups := Filter(signups, (s: SignupRow) => s.code != code);
      FilterKeepsIncreasing(oldSignups, (s: SignupRow) => s.code != code, (s: SignupRow) => s.id);
      CancelRemovesCounted(oldSignups, code);
      removed := CountCode(oldSignups, code);
    }
  }

  // ---------- what filtering keeps ----------

  /** Filtering rows with strictly increasing ids leaves ids strictly increasing. */
  lemma {:induction false} FilterKeepsIncreasing<T(!new)>(s: seq<T>, keep: T -> bool, id: T -> int)
    requires forall i, j :: 0 <= i < j < |s| ==> id(s[i]) < id(s[j])
    ensures forall i, j :: 0 <= i < j < |Filter(s, keep)| ==> id(Filter(s, keep)[i]) < id(Filter(s, keep)[j])
  {
    if s != [] {
      FilterKeepsIncreasing(s[1..], keep, id);
      var t := Filter(s[1..], keep);
      if keep(s[0]) {
        forall j | 0 <= j < |t| ensures id(s[0]) < id(t[j]) {
          assert t[j] in s[1..];
          var m :| 0 <= m < |s[1..]| && s[1..][m] == t[j];
          assert s[m + 1] == t[j];
        }
      }
    }
  }

  /** When every row passes, filtering returns the rows unchanged. */
  lemma {:induction false} FilterKeepsAll<T(!new)>(s: seq<T>, keep: T -> bool)
    ensures (forall x :: x in s ==> keep(x)) ==> Filter(s, keep) == s
  {
    if s != [] {
      FilterKeepsAll(s[1..], keep);
      assert s == [s[0]] + s[1..];
    }
  }
}
