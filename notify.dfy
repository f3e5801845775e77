/**
 * The mailing-list helpers of `app.py`: reading contacts from the parsed
 * rows of `contacts.csv`, and composing the Gmail and `mailto:` links
 * (section 2 of RFC 6068) and the comma-joined address list of a ride
 * announcement.
 *
 * The percent-encoders `urllib.parse.quote` and `quote_plus` are passed in as
 * functions; only how the links are put together is modelled.
 */
module Notify {
  import opened Wrappers
  import opened Text
  import opened Seqs

  // ---------- contacts ----------

  /** A row of `csv.DictReader`: header name to cell; a row shorter than the
    * header has `None` in its missing cells. */
  type ContactRow = map<string, Option<string>>

  /** `row.get(key)`. */
  function Get(row: ContactRow, key: string): Option<string> {
    if key in row then row[key] else None
  }

  /** Python's `a or b or c or ""` over optional texts: the first non-empty one. */
  function FirstNonEmpty(xs: seq<Option<string>>): (r: string)
    ensures r == "" <==> forall i :: 0 <= i < |xs| ==> OrEmpty(xs[i]) == ""
    ensures r != "" ==> Some(r) in xs
  {
    if xs == [] then ""
    else if OrEmpty(xs[0]) != "" then xs[0].value
    else
      assert forall i :: 1 <= i < |xs| ==> xs[i] == xs[1..][i - 1];
      FirstNonEmpty(xs[1..])
  }

  /** The first non-empty text comes before every other non-empty one. */
  lemma {:induction false} FirstNonEmptyIsFirst(xs: seq<Option<string>>, i: nat)
    requires i < |xs| && OrEmpty(xs[i]) != ""
    ensures exists k :: 0 <= k <= i && xs[k] == Some(FirstNonEmpty(xs))
  {
    if OrEmpty(xs[0]) == "" {
      FirstNonEmptyIsFirst(xs[1..], i - 1);
      var k :| 0 <= k <= i - 1 && xs[1..][k] == Some(FirstNonEmpty(xs[1..]));
      assert xs[k + 1] == xs[1..][k];
    }
  }

  /** The address of a row: the first non-empty of `Email`, `email`, `EMAIL`,
    * stripped. The key is chosen before stripping. */
  function RowEmail(row: ContactRow): string {
    Strip(FirstNonEmpty([Get(row, "Email"), Get(row, "email"), Get(row, "EMAIL")]))
  }

  /** The first name of a row: the first non-empty of `First Name`, `first name`, `first`, stripped. */
  function RowFirst(row: ContactRow): string {
    Strip(FirstNonEmpty([Get(row, "First Name"), Get(row, "first name"), Get(row, "first")]))
  }

  datatype Contact = Contact(email: string, first: string)

  function HasEmail(row: ContactRow): bool {
    RowEmail(row) != ""
  }

  function ContactOf(row: ContactRow): Contact {
    Contact(RowEmail(row), RowFirst(row))
  }

  /** The contacts of the rows, in file order; rows without an address are skipped. */
  function ContactsOf(rows: seq<ContactRow>): seq<Contact> {
    if rows == [] then []
    else
      var last := rows[|rows| - 1];
      ContactsOf(rows[..|rows| - 1]) + (if HasEmail(last) then [ContactOf(last)] else [])
  }

  /** Each row read as a contact. */
  function ContactsOfAll(rows: seq<ContactRow>): (cs: seq<Contact>)
    ensures |cs| == |rows|
    ensures forall i :: 0 <= i < |rows| ==> cs[i] == ContactOf(rows[i])
  {
    seq(|rows|, i requires 0 <= i < |rows| => ContactOf(rows[i]))
  }

  /** `load_contacts`: no file gives no contacts; otherwise one contact per row
    * that has an address. */
  method LoadContacts(fileExists: bool, rows: seq<ContactRow>) returns (contacts: seq<Contact>)
    ensures contacts == if fileExists then ContactsOf(rows) else []
  {
    contacts := [];
    if !fileExists {
      return;
    }
    var i := 0;
    while i < |rows|
      invariant 0 <= i <= |rows|
      invariant contacts == ContactsOf(rows[..i])
    {
      var email := RowEmail(rows[i]);
      var first := RowFirst(rows[i]);
      if email != "" {
        contacts := contacts + [Contact(email, first)];
      }
      assert rows[..i + 1][..i] == rows[..i];
      i := i + 1;
    }
    assert rows[..i] == rows;
  }

  /** The contacts are exactly the rows with an address, kept in file order,
    * each read as its address and first name. */
  lemma {:induction false} ContactsAreRowsWithEmail(rows: seq<ContactRow>)
    ensures ContactsOf(rows) == ContactsOfAll(Filter(rows, HasEmail))
  {
    if rows != [] {
      var init, last := rows[..|rows| - 1], rows[|rows| - 1];
      ContactsAreRowsWithEmail(init);
      assert rows == init + [last];
      FilterSnoc(init, last, HasEmail);
    }
  }

  /** Every contact's address is non-empty and has no surrounding whitespace. */
  lemma {:induction false} ContactEmailsStripped(rows: seq<ContactRow>)
    ensures forall c :: c in ContactsOf(rows) ==> c.email != "" && Stripped(c.email)
  {
    if rows != [] {
      var last := rows[|rows| - 1];
      ContactEmailsStripped(rows[..|rows| - 1]);
      StripSpec(FirstNonEmpty([Get(last, "Email"), Get(last, "email"), Get(last, "EMAIL")]));
    }
  }

  /** A non-empty, whitespace-only `Email` cell wins over whatever `email` or
    * `EMAIL` holds, and the row is then skipped. */
  lemma BlankEmailHidesOtherKey(row: ContactRow, w: string)
    requires "Email" in row && row["Email"] == Some(w)
    requires w != "" && AllSpace(w)
    ensures !HasEmail(row)
    ensures ContactsOf([row]) == []
  {
    assert FirstNonEmpty([Get(row, "Email"), Get(row, "email"), Get(row, "EMAIL")]) == w;
    StripSpec(w);
    assert [row][..0] == [];
  }

  function Emails(contacts: seq<Contact>): (es: seq<string>)
    ensures |es| == |contacts|
    ensures forall i :: 0 <= i < |contacts| ==> es[i] == contacts[i].email
  {
    seq(|contacts|, i requires 0 <= i < |contacts| => contacts[i].email)
  }

  // ---------- links ----------

  const TeamLink := "https://tinyurl.com/TeamUglyRides"
  const BikeMsLink := "https://events.nationalmssociety.org/teams/TeamUgly"
  const GmailBase := "https://mail.google.com/mail/?"

  /** The announcement's subject line. */
  function Subject(name: string, date: string): string {
    "Team Ugly Training Ride: " + name + " on " + date
  }

  /** The announcement's plain-text body. */
  function Body(name: string, date: string, time: string, loc: string, route: string): string {
    "Hey Team Ugly!\n\n"
    + "A training ride has been posted:\n\n"
    + "  Ride:          " + name + "\n"
    + "  Date:          " + date + "\n"
    + "  Time:          " + time + "\n"
    + "  Meeting Point: " + loc + "\n"
    + "  GPS Route:     " + route + "\n\n"
    + "Sign up for the ride at:\n"
    + TeamLink + "\n\n"
    + "Not yet on Team Ugly for Bike MS? Join us here:\n"
    + BikeMsLink + "\n\n"
    + "See you out there!\n\U{2014} Team Ugly"
  }

  /** `urllib.parse.urlencode` of the pairs, in order, with `quote_plus`
    * applied to every name and value. */
  function UrlEncode(pairs: seq<(string, string)>, quotePlus: string -> string): (q: string) {
    Join(EncodedPairs(pairs, quotePlus), "&")
  }

  function EncodedPairs(pairs: seq<(string, string)>, quotePlus: string -> string): (r: seq<string>)
    ensures |r| == |pairs|
    ensures forall i :: 0 <= i < |pairs| ==> r[i] == quotePlus(pairs[i].0) + "=" + quotePlus(pairs[i].1)
  {
    seq(|pairs|, i requires 0 <= i < |pairs| => quotePlus(pairs[i].0) + "=" + quotePlus(pairs[i].1))
  }

  /** `build_gmail_url`. */
  function GmailUrl(emails: seq<string>, subject: string, body: string, quotePlus: string -> string): string {
    GmailBase + UrlEncode([("view", "cm"), ("to", Join(emails, ",")), ("su", subject), ("body", body)], quotePlus)
  }

  /** `build_mailto_url`: every recipient in `bcc`. */
  function MailtoUrl(emails: seq<string>, subject: string, body: string, quote: string -> string): string {
    "mailto:?bcc=" + quote(Join(emails, ",")) + "&subject=" + quote(subject) + "&body=" + quote(body)
  }

  /** The three values `build_notify_urls` returns when there are contacts. */
  datatype NotifyLinks = NotifyLinks(gmail: string, mailto: string, emailList: string)

  /** `build_notify_urls`, given the contacts `load_contacts` read: `None`
    * (the source's `(None, None, None)`) exactly when there are none. */
  function BuildNotifyUrls(contacts: seq<Contact>, name: string, date: string, time: string,
                           loc: string, route: string,
                           quote: string -> string, quotePlus: string -> string): (r: Option<NotifyLinks>)
    ensures r.None? <==> contacts == []
    ensures r.Some? ==>
              var emails := Emails(contacts);
              var subject := Subject(name, date);
              var body := Body(name, date, time, loc, route);
              && r.value.emailList == Join(emails, ", ")
              && r.value.gmail == GmailUrl(emails, subject, body, quotePlus)
              && r.value.mailto == MailtoUrl(emails, subject, body, quote)
  {
    if contacts == [] then None
    else
      var emails := Emails(contacts);
      var subject := Subject(name, date);
      var body := Body(name, date, time, loc, route);
      Some(NotifyLinks(GmailUrl(emails, subject, body, quotePlus),
                       MailtoUrl(emails, subject, body, quote),
                       Join(emails, ", ")))
  }

  /** An encoder whose output never holds `c` (percent-encoding writes `&` as `%26`). */
  ghost predicate NeverEmits(encode: string -> string, c: char) {
    forall s :: c !in encode(s)
  }

  lemma JoinThree(xs: seq<string>, sep: string)
    requires |xs| == 3
    ensures Join(xs, sep) == xs[0] + sep + xs[1] + sep + xs[2]
  {
    var tail := xs[1..];
    assert Join(tail, sep) == tail[0] + sep + Join(tail[1..], sep);
    assert tail[1..] == [xs[2]];
  }

  /** The `mailto:` query splits at `&` into exactly its three fields, in the
    * order `bcc`, `subject`, `body`. */
  lemma MailtoFields(emails: seq<string>, subject: string, body: string, quote: string -> string)
    requires NeverEmits(quote, '&')
    ensures var url := MailtoUrl(emails, subject, body, quote);
            |url| >= 8 && url[..8] == "mailto:?" &&
            Split(url[8..], '&') == ["bcc=" + quote(Join(emails, ",")),
                                     "subject=" + quote(subject),
                                     "body=" + quote(body)]
  {
    var parts := ["bcc=" + quote(Join(emails, ",")), "subject=" + quote(subject), "body=" + quote(body)];
    var url := MailtoUrl(emails, subject, body, quote);
    JoinThree(parts, "&");
    assert url == "mailto:?" + Join(parts, "&");
    assert url[8..] == Join(parts, "&");
    forall i | 0 <= i < 3 ensures '&' !in parts[i] {
      assert '&' !in quote(Join(emails, ",")) && '&' !in quote(subject) && '&' !in quote(body);
    }
    SplitJoined(parts, '&');
  }

  /** The Gmail query splits at `&` into exactly its four fields, in the order
    * `view`, `to`, `su`, `body`. */
  lemma GmailFields(emails: seq<string>, subject: string, body: string, quotePlus: string -> string)
    requires NeverEmits(quotePlus, '&')
    ensures var url := GmailUrl(emails, subject, body, quotePlus);
            |url| >= |GmailBase| && url[..|GmailBase|] == GmailBase &&
            Split(url[|GmailBase|..], '&') ==
              [quotePlus("view") + "=" + quotePlus("cm"),
               quotePlus("to") + "=" + quotePlus(Join(emails, ",")),
               quotePlus("su") + "=" + quotePlus(subject),
               quotePlus("body") + "=" + quotePlus(body)]
  {
    var pairs := [("view", "cm"), ("to", Join(emails, ",")), ("su", subject), ("body", body)];
    var parts := EncodedPairs(pairs, quotePlus);
    var url := GmailUrl(emails, subject, body, quotePlus);
    assert url == GmailBase + Join(parts, "&");
    assert url[|GmailBase|..] == Join(parts, "&");
    forall i | 0 <= i < 4 ensures '&' !in parts[i] {
      assert '&' !in quotePlus(pairs[i].0) && '&' !in quotePlus(pairs[i].1);
    }
    SplitJoined(parts, '&');
  }

  /** Decoding the `bcc` field and splitting it at ',' gives back the contacts'
    * addresses, in order, when no address holds a comma. */
  lemma BccRecoversRecipients(emails: seq<string>, quote: string -> string, unquote: string -> string)
    requires |emails| >= 1
    requires forall s :: unquote(quote(s)) == s
    requires forall i :: 0 <= i < |emails| ==> ',' !in emails[i]
    ensures Split(unquote(quote(Join(emails, ","))), ',') == emails
  {
    SplitJoined(emails, ',');
  }

  // ---------- the notify panel ----------

  /** The count `notify_panel` shows: the number of ','-separated pieces. */
  function MailingListCount(emailStr: string): nat {
    |Split(emailStr, ',')|
  }

  /** The count is the number of contacts plus the commas inside addresses,
    * so it equals the number of contacts exactly when no address holds a comma. */
  lemma NotifyCount(emails: seq<string>)
    requires |emails| >= 1
    ensures MailingListCount(Join(emails, ", ")) == |emails| + CountInAll(emails, ',')
    ensures MailingListCount(Join(emails, ", ")) == |emails| <==> forall i :: 0 <= i < |emails| ==> ',' !in emails[i]
  {
    ListCommas(emails);
    CountInAllZero(emails, ',');
  }

  lemma ListCommas(emails: seq<string>)
    requires |emails| >= 1
    ensures CountChar(Join(emails, ", "), ',') + 1 == |emails| + CountInAll(emails, ',')
    ensures MailingListCount(Join(emails, ", ")) == CountChar(Join(emails, ", "), ',') + 1
  {
    SplitCount(Join(emails, ", "), ',');
    OneCommaInSeparator();
    CountCharJoinOnce(emails, ", ", ',');
  }

  lemma OneCommaInSeparator()
    ensures CountChar(", ", ',') == 1
  {
    assert ", "[1..] == " ";
    assert " "[1..] == "";
  }

  lemma CountCharJoinOnce(xs: seq<string>, sep: string, c: char)
    requires |xs| >= 1 && CountChar(sep, c) == 1
    ensures CountChar(Join(xs, sep), c) == |xs| - 1 + CountInAll(xs, c)
  {
    CountCharJoin(xs, sep, c);
  }

  /** Splitting the copyable list at ',' and stripping each piece gives back
    * the addresses when none holds a comma. */
  lemma EmailListRecoversAddresses(emails: seq<string>)
    requires |emails| >= 1
    requires forall i :: 0 <= i < |emails| ==> ',' !in emails[i] && Stripped(emails[i])
    ensures var pieces := Split(Join(emails, ", "), ',');
            |pieces| == |emails| && forall i :: 0 <= i < |emails| ==> Strip(pieces[i]) == emails[i]
  {
    assert [','] + " " == ", ";
    SplitJoin(emails, ',', " ");
    var pieces := Split(Join(emails, ", "), ',');
    forall i | 0 <= i < |emails| ensures Strip(pieces[i]) == emails[i] {
      StripOfStripped(emails[i]);
      if i > 0 {
        assert IsSpace(' ');
        StripLeadingSpace(" ", emails[i]);
      }
    }
  }

  datatype PanelView = NoContactsNote | Buttons(count: nat, gmail: string, mailto: string, emailStr: string)

  /** `notify_panel`. */
  function NotifyPanel(gmail: string, mailto: string, emailStr: string): (v: PanelView)
    ensures v.NoContactsNote? <==> gmail == ""
  {
    if gmail == "" then NoContactsNote
    else Buttons(MailingListCount(emailStr), gmail, mailto, emailStr)
  }

  datatype OutputView = EmptyOutput | ShowPanel(panel: PanelView)

  /** `notify_panel_output`: an empty div while both the link and the list are empty. */
  function NotifyPanelOutput(gmail: string, mailto: string, emails: string): (v: OutputView)
    ensures v.EmptyOutput? <==> gmail == "" && emails == ""
  {
    if gmail == "" && emails == "" then EmptyOutput else ShowPanel(NotifyPanel(gmail, mailto, emails))
  }

  /** What the panel shows after `do_notify` stored `gmail or ""`, `mailto or ""`
    * and `emails or ""`. */
  function PanelAfterNotify(links: Option<NotifyLinks>): OutputView {
    match links
    case None => NotifyPanelOutput("", "", "")
    case Some(l) => NotifyPanelOutput(l.gmail, l.mailto, l.emailList)
  }

  /** After a notify with no contacts the panel is empty, and with contacts it
    * shows the buttons with the count: the "No contacts.csv found" note is
    * never reached this way. */
  lemma NotifyNeverShowsNoContactsNote(contacts: seq<Contact>, name: string, date: string, time: string,
                                       loc: string, route: string,
                                       quote: string -> string, quotePlus: string -> string)
    ensures var links := BuildNotifyUrls(contacts, name, date, time, loc, route, quote, quotePlus);
            && (contacts == [] ==> PanelAfterNotify(links) == EmptyOutput)
            && (contacts != [] ==> PanelAfterNotify(links).ShowPanel? && PanelAfterNotify(links).panel.Buttons?
                                   && PanelAfterNotify(links).panel.count == MailingListCount(links.value.emailList))
  {
    var links := BuildNotifyUrls(contacts, name, date, time, loc, route, quote, quotePlus);
    if contacts != [] {
      assert |links.value.gmail| >= |GmailBase|;
    }
  }
}
