/**
 * The handler rules of `app.py`, the ride-referencing web app: the ride
 * pickers, signup, cancel, ride creation, the admin password gate, ride
 * deletion and the team notification, over the store of `database.py`.
 *
 * Each reactive message cell of a session is a field of `Messages`; the
 * widget values a handler reads are its parameters (`None` where the widget
 * is not on the page).
 */
module RideApp {
  import opened Wrappers
  import opened Text
  import opened Seqs
  import opened Database
  import Notify

  // ---------- ride pickers ----------

  /** Python's `str(n)` for an integer. */
  function IntText(n: int): string {
    if n >= 0 then DecimalText(n) else "-" + DecimalText(-n)
  }

  /** The text key of a picker option reads back, through INTEGER affinity, as
    * the ride id it was made from. */
  lemma IntTextAffinity(n: int)
    ensures Affinity(IntText(n)) == IntKey(n)
  {
    if n >= 0 {
      AffinityOfDecimal(n);
    } else {
      var d := DecimalText(-n);
      DecimalValue(-n);
      assert ("-" + d)[1..] == d;
    }
  }

  /** The picker label of a ride: name, em dash, date. */
  function ChoiceLabel(name: string, date: string): string {
    name + " \U{2014} " + date
  }

  /** The options of the ride pickers (`ride_list`, `notify_ride_select`,
    * `admin_ride_list`): `str(id)` to label, in `list_rides` order. */
  function RideChoices(rows: seq<RideSummary>): (choices: seq<(string, string)>)
    ensures |choices| == |rows|
    ensures forall k :: 0 <= k < |rows| ==> choices[k] == (IntText(rows[k].id), ChoiceLabel(rows[k].name, rows[k].date))
  {
    seq(|rows|, k requires 0 <= k < |rows| => (IntText(rows[k].id), ChoiceLabel(rows[k].name, rows[k].date)))
  }

  /** Distinct ride ids, as the store's ids are. */
  ghost predicate DistinctIds(rides: seq<Ride>) {
    forall i, j :: 0 <= i < |rides| && 0 <= j < |rides| && i != j ==> rides[i].id != rides[j].id
  }

  /** Looking up a ride by its own id text finds that ride. */
  lemma {:induction false} LookupOwnId(rides: seq<Ride>, i: nat)
    requires i < |rides| && DistinctIds(rides)
    ensures GetRideDetails(rides, IntText(rides[i].id)) == Some(Details(rides[i]))
  {
    IntTextAffinity(rides[i].id);
    var d := GetRideDetails(rides, IntText(rides[i].id));
    assert RideHasKey(rides[i], Affinity(IntText(rides[i].id)));
    var j :| 0 <= j < |rides| && RideHasKey(rides[j], Affinity(IntText(rides[i].id))) && d.value == Details(rides[j]);
    assert rides[j].id == rides[i].id;
  }

  /** Every picker option names a stored ride: looking its key up finds a ride
    * whose name and date are the ones in the label, and there is one option
    * per stored ride. */
  lemma ChoicesResolve(rides: seq<Ride>)
    requires DistinctIds(rides)
    ensures |RideChoices(ListRides(rides))| == |rides|
    ensures forall k :: 0 <= k < |rides| ==>
              var c := RideChoices(ListRides(rides))[k];
              var d := GetRideDetails(rides, c.0);
              d.Some? && c.1 == ChoiceLabel(d.value.name, d.value.date)
  {
    var rows := ListRides(rides);
    assert |rows| == |multiset(rows)| == |multiset(Summaries(rides))| == |rides|;
    forall k | 0 <= k < |rides|
      ensures var c := RideChoices(rows)[k];
              var d := GetRideDetails(rides, c.0);
              d.Some? && c.1 == ChoiceLabel(d.value.name, d.value.date)
    {
      assert rows[k] in multiset(Summaries(rides));
      var i :| 0 <= i < |rides| && Summaries(rides)[i] == rows[k];
      LookupOwnId(rides, i);
    }
  }

  // ---------- the admin password gate ----------

  const AdminPass := "passwordmakeitsocomplicated!"

  datatype AdminView = Controls | IncorrectPassword | Blank

  /** `admin_panel`: the admin controls only for the exact password, the
    * warning for any other non-empty input, nothing for an empty one. */
  function AdminPanel(pw: string): (v: AdminView)
    ensures v == Controls <==> pw == AdminPass
    ensures v == IncorrectPassword <==> pw != "" && pw != AdminPass
    ensures v == Blank <==> pw == ""
  {
    if pw != AdminPass then (if pw != "" then IncorrectPassword else Blank) else Controls
  }

  /** The password is compared as typed: trailing whitespace is refused. */
  lemma AdminPanelDoesNotStrip()
    ensures AdminPanel(AdminPass + " ") == IncorrectPassword
  {
    assert |AdminPass + " "| != |AdminPass|;
  }

  // ---------- the session's message cells ----------

  datatype Messages = Messages(signup: string, cancel: string, admin: string, delete: string,
                               notifyGmail: string, notifyMailto: string, notifyEmails: string)

  const NoMessages := Messages("", "", "", "", "", "", "")

  const SelectRide := "Select a ride."
  const EnterName := "Enter your name."
  const EnterCode := "Enter confirmation number."
  const CodeNotFound := "Code not found."
  const RemovedFromRide := "You have been removed from the ride."
  const EnterRideName := "Enter a ride name."
  const RideDeleted := "Ride deleted."

  function ConfirmedText(code: string): string {
    "Confirmed! Your confirmation number is: " + code
  }

  function CreatedText(name: string): string {
    "Ride '" + name + "' created successfully."
  }

  /** The cancel message for a removed count. */
  function CancelText(removed: nat): (m: string)
    ensures m == CodeNotFound <==> removed == 0
  {
    if removed == 0 then CodeNotFound else RemovedFromRide
  }

  /** The values `do_notify` stores: each of the three results or `""`. */
  function NotifyCells(m: Messages, links: Option<Notify.NotifyLinks>): (r: Messages)
    ensures links.None? ==> r == m.(notifyGmail := "", notifyMailto := "", notifyEmails := "")
    ensures links.Some? ==> r == m.(notifyGmail := links.value.gmail, notifyMailto := links.value.mailto,
                                    notifyEmails := links.value.emailList)
  {
    match links
    case None => m.(notifyGmail := "", notifyMailto := "", notifyEmails := "")
    case Some(l) => m.(notifyGmail := l.gmail, notifyMailto := l.mailto, notifyEmails := l.emailList)
  }

  /** The page draws the notify panel from the three cells `do_notify` stored,
    * which is the view `Notify.PanelAfterNotify` describes. */
  lemma StoredCellsDrawPanel(m: Messages, links: Option<Notify.NotifyLinks>)
    ensures var r := NotifyCells(m, links);
            Notify.NotifyPanelOutput(r.notifyGmail, r.notifyMailto, r.notifyEmails) == Notify.PanelAfterNotify(links)
  {
  }

  /** One session of the app, with the shared store. */
  class RideServer {
    const store: RideStore
    var msgs: Messages

    ghost predicate Valid()
      reads this, store
    {
      store.Valid()
    }

    /** `server`: every message cell starts empty. */
    constructor (store: RideStore)
      requires store.Valid()
      ensures Valid()
      ensures this.store == store && msgs == NoMessages
    {
      this.store := store;
      msgs := NoMessages;
    }

    /** `do_signup`: a missing or empty selection asks for a ride, an empty
      * name (not stripped) asks for a name; otherwise one signup is stored
      * and its code shown. */
    method DoSignup(rideSelect: Option<string>, name: string, uuid: string)
      requires Valid()
      requires IsUuid4Text(uuid)
      modifies this, store
      ensures Valid()
      ensures rideSelect.None? || rideSelect.value == "" ==>
                msgs == old(msgs).(signup := SelectRide) && unchanged(store)
      ensures rideSelect.Some? && rideSelect.value != "" && name == "" ==>
                msgs == old(msgs).(signup := EnterName) && unchanged(store)
      ensures rideSelect.Some? && rideSelect.value != "" && name != "" ==>
                && msgs == old(msgs).(signup := ConfirmedText(ConfirmCode(uuid)))
                && store.signups == old(store.signups) + [SignupRow(old(store.signupSeq) + 1, Affinity(rideSelect.value), name, ConfirmCode(uuid))]
                && store.signupSeq == old(store.signupSeq) + 1
                && store.rides == old(store.rides) && store.rideSeq == old(store.rideSeq)
    {
      if rideSelect.None? || rideSelect.value == "" {
        msgs := msgs.(signup := SelectRide);
        return;
      }
      if name == "" {
        msgs := msgs.(signup := EnterName);
        return;
      }
      var code := store.Signup(rideSelect.value, name, uuid);
      msgs := msgs.(signup := ConfirmedText(code));
    }

    /** `do_cancel`: an empty code asks for one; otherwise every signup with
      * the code is removed and the message says whether any was. */
    method DoCancel(code: string)
      requires Valid()
      modifies this, store
      ensures Valid()
      ensures code == "" ==> msgs == old(msgs).(cancel := EnterCode) && unchanged(store)
      ensures code != "" ==>
                && msgs == old(msgs).(cancel := CancelText(CountCode(old(store.signups), code)))
                && store.signups == Filter(old(store.signups), (s: SignupRow) => s.code != code)
                && store.rides == old(store.rides)
                && store.rideSeq == old(store.rideSeq) && store.signupSeq == old(store.signupSeq)
    {
      if code == "" {
        msgs := msgs.(cancel := EnterCode);
        return;
      }
      var removed := store.CancelSignup(code);
      msgs := msgs.(cancel := CancelText(removed));
    }

    /** `do_create`: an empty name asks for one; otherwise one ride is stored
      * with `str()` of the date widget's value. */
    method DoCreate(name: string, date: Option<string>, time: string, loc: string, route: string)
      requires Valid()
      modifies this, store
      ensures Valid()
      ensures name == "" ==> msgs == old(msgs).(admin := EnterRideName) && unchanged(store)
      ensures name != "" ==>
                && msgs == old(msgs).(admin := CreatedText(name))
                && store.rides == old(store.rides) + [Ride(old(store.rideSeq) + 1, name, PyStr(date), time, loc, route)]
                && store.rideSeq == old(store.rideSeq) + 1
                && store.signups == old(store.signups) && store.signupSeq == old(store.signupSeq)
    {
      if name == "" {
        msgs := msgs.(admin := EnterRideName);
        return;
      }
      store.CreateRide(name, PyStr(date), time, loc, route);
      msgs := msgs.(admin := CreatedText(name));
    }

    /** `do_delete`: without the picker on the page it asks for a ride;
      * otherwise the selected ride and its signups are deleted, even for an
      * empty selection (which matches no ride). */
    method DoDelete(select: Option<string>)
      requires Valid()
      modifies this, store
      ensures Valid()
      ensures select.None? ==> msgs == old(msgs).(delete := SelectRide) && unchanged(store)
      ensures select.Some? ==>
                var k := Affinity(select.value);
                && msgs == old(msgs).(delete := RideDeleted)
                && store.rides == Filter(old(store.rides), (r: Ride) => !RideHasKey(r, k))
                && store.signups == Filter(old(store.signups), (s: SignupRow) => s.rideId != k)
                && store.rideSeq == old(store.rideSeq) && store.signupSeq == old(store.signupSeq)
    {
      if select.None? {
        msgs := msgs.(delete := SelectRide);
        return;
      }
      store.DeleteRide(select.value);
      msgs := msgs.(delete := RideDeleted);
    }

    /** `do_notify`: for a selected ride that exists, reads the contacts and
      * stores the Gmail link, the `mailto:` link and the address list (each
      * `""` when there are no contacts); otherwise nothing changes. */
    method DoNotify(notifyRideId: Option<string>, fileExists: bool, rows: seq<Notify.ContactRow>,
                    quote: string -> string, quotePlus: string -> string)
      requires Valid()
      modifies this
      ensures Valid() && unchanged(store)
      ensures notifyRideId.None? || GetRideDetails(old(store.rides), notifyRideId.value).None? ==>
                msgs == old(msgs)
      ensures notifyRideId.Some? && GetRideDetails(old(store.rides), notifyRideId.value).Some? ==>
                var d := GetRideDetails(old(store.rides), notifyRideId.value).value;
                var contacts := if fileExists then Notify.ContactsOf(rows) else [];
                msgs == NotifyCells(old(msgs), Notify.BuildNotifyUrls(contacts, d.name, d.date, d.startTime,
                                                                      d.meetingPoint, d.routeLink, quote, quotePlus))
    {
      if notifyRideId.None? {
        return;
      }
      var details := GetRideDetails(store.rides, notifyRideId.value);
      if details.None? {
        return;
      }
      var d := details.value;
      var contacts := Notify.LoadContacts(fileExists, rows);
      var links := Notify.BuildNotifyUrls(contacts, d.name, d.date, d.startTime, d.meetingPoint, d.routeLink,
                                          quote, quotePlus);
      msgs := NotifyCells(msgs, links);
    }
  }
}
