/**
 * The RSVP server of `TU_Rides.py`: the e-mail check, the order of the
 * submission checks, the two ways to cancel, the admin gate, and the roster
 * table and CSV export it guards.
 *
 * The signup store and mailer that this server calls (`insert_signup`,
 * `cancel_signup_by_token`, `list_signups`, `send_confirmation_email`) are not
 * part of this model: the server records each call it makes, and what those
 * calls report back is passed in.
 */
module Rsvp {
  import opened Wrappers
  import opened Text
  import Csv
  import Database

  // ---------- e-mail check ----------

  /** A character of the class `[^@\s]`. */
  predicate IsAddressChar(c: char) {
    c != '@' && !IsSpace(c)
  }

  predicate IsAddressText(s: string) {
    forall i :: 0 <= i < |s| ==> IsAddressChar(s[i])
  }

  /** The whole of `s` matches `^[^@\s]+@[^@\s]+\.[^@\s]+$`: a split into a
    * local part, `@`, a first domain piece, `.`, and a last domain piece, all
    * three non-empty and free of `@` and whitespace. */
  ghost predicate MatchesEmailPattern(s: string) {
    exists i, j :: 0 < i && i + 1 < j && j + 1 < |s| && s[i] == '@' && s[j] == '.'
                   && IsAddressText(s[..i]) && IsAddressText(s[i + 1..j]) && IsAddressText(s[j + 1..])
  }

  /** The same check stated as a scan: exactly one `@`, not at the start, no
    * whitespace, and a `.` after the `@` that is neither the first nor the last
    * character of the domain. */
  predicate HasEmailShape(s: string) {
    var at := IndexOf(s, '@');
    && CountChar(s, '@') == 1
    && (forall i :: 0 <= i < |s| ==> !IsSpace(s[i]))
    && at > 0
    && (exists j :: at + 1 < j < |s| - 1 && s[j] == '.')
  }

  /** `is_valid_email`: false for `None`, otherwise the check on the stripped text. */
  function IsValidEmail(email: Option<string>): bool {
    email.Some? && HasEmailShape(Strip(email.value))
  }

  /** With exactly one `c`, nothing after the first `c` is another `c`. */
  lemma {:induction false} OnlyOccurrence(s: string, c: char)
    requires CountChar(s, c) == 1
    ensures forall m :: IndexOf(s, c) < m < |s| ==> s[m] != c
  {
    var t := s[1..];
    if s[0] == c {
      CountCharZero(t, c);
      forall m | 0 < m < |s| ensures s[m] != c {
        assert s[m] == t[m - 1];
      }
    } else {
      OnlyOccurrence(t, c);
      forall m | IndexOf(s, c) < m < |s| ensures s[m] != c {
        assert s[m] == t[m - 1];
      }
    }
  }

  lemma ShapeGivesPattern(s: string)
    requires HasEmailShape(s)
    ensures MatchesEmailPattern(s)
  {
    var at := IndexOf(s, '@');
    OnlyOccurrence(s, '@');
    var j :| at + 1 < j < |s| - 1 && s[j] == '.';
    assert IsAddressText(s[..at]) by {
      forall m | 0 <= m < at ensures IsAddressChar(s[..at][m]) {
        assert s[..at][m] == s[m];
      }
    }
    var b := s[at + 1..j];
    forall m | 0 <= m < |b| ensures IsAddressChar(b[m]) {
      assert b[m] == s[at + 1 + m];
    }
    var c := s[j + 1..];
    forall m | 0 <= m < |c| ensures IsAddressChar(c[m]) {
      assert c[m] == s[j + 1 + m];
    }
  }

  lemma PatternGivesShape(s: string, i: int, j: int)
    requires 0 < i && i + 1 < j && j + 1 < |s| && s[i] == '@' && s[j] == '.'
    requires IsAddressText(s[..i]) && IsAddressText(s[i + 1..j]) && IsAddressText(s[j + 1..])
    ensures HasEmailShape(s)
  {
    forall m | 0 <= m < |s| && m != i ensures IsAddressChar(s[m]) {
      if m < i { assert s[m] == s[..i][m]; }
      else if m < j { assert s[m] == s[i + 1..j][m - i - 1]; }
      else if m > j { assert s[m] == s[j + 1..][m - j - 1]; }
    }
    assert IndexOf(s, '@') == i;
    assert '@' !in s[..i];
    var after := s[i + 1..];
    forall m | 0 <= m < |after| ensures after[m] != '@' {
      assert after[m] == s[i + 1 + m];
    }
    CountCharZero(s[..i], '@');
    CountCharZero(s[i + 1..], '@');
    assert s == s[..i] + ([s[i]] + s[i + 1..]);
    CountCharAppend([s[i]], s[i + 1..], '@');
    CountCharAppend(s[..i], [s[i]] + s[i + 1..], '@');
  }

  /** The scan accepts exactly what the regular expression matches. */
  lemma EmailShapeIsPattern(s: string)
    ensures HasEmailShape(s) <==> MatchesEmailPattern(s)
  {
    if HasEmailShape(s) {
      ShapeGivesPattern(s);
    }
    if MatchesEmailPattern(s) {
      var i, j :| 0 < i && i + 1 < j && j + 1 < |s| && s[i] == '@' && s[j] == '.'
                  && IsAddressText(s[..i]) && IsAddressText(s[i + 1..j]) && IsAddressText(s[j + 1..]);
      PatternGivesShape(s, i, j);
    }
  }

  /** `is_valid_email` holds exactly when the stripped text matches the pattern. */
  lemma IsValidEmailMatchesPattern(email: Option<string>)
    ensures IsValidEmail(email) <==> email.Some? && MatchesEmailPattern(Strip(email.value))
  {
    if email.Some? {
      EmailShapeIsPattern(Strip(email.value));
    }
  }

  // ---------- submission ----------

  datatype BoxClass = OkBox | WarnBox | ErrBox

  /** A message box: its CSS class and its paragraphs. */
  datatype Notice = Notice(box: BoxClass, lines: seq<string>)

  /** The values of the RSVP form; a text box that is `None` reads as "". */
  datatype RsvpForm = RsvpForm(
    rideName: string, rideDate: Option<string>,
    startTime: Option<string>, meetingPoint: Option<string>, routeLink: Option<string>,
    fullName: Option<string>, email: Option<string>,
    phone: Option<string>, city: Option<string>, notes: Option<string>,
    acknowledge: bool)

  /** The arguments of one `insert_signup` call. */
  datatype RsvpRecord = RsvpRecord(
    createdUtc: string, rideName: string, rideDate: string,
    startTime: string, meetingPoint: string, routeLink: string,
    fullName: string, email: string, phone: string, city: string, notes: string,
    acknowledge: int, cancelToken: string)

  /** The arguments of one `send_confirmation_email` call. */
  datatype Confirmation = Confirmation(
    toEmail: string, fullName: string, rideName: string, rideDate: string,
    startTime: string, meetingPoint: string, routeLink: string, cancelLink: string)

  datatype RsvpError = NameMissing | EmailInvalid | AckMissing

  function ErrorText(e: RsvpError): string {
    match e
    case NameMissing => "Please enter your full name."
    case EmailInvalid => "Please enter a valid email."
    case AckMissing => "Please check the acknowledgement box."
  }

  /** The checks `_submit_rsvp` runs before anything is saved, in their order:
    * the name, then the e-mail, then the acknowledgement box. */
  function CheckSubmission(form: RsvpForm): (r: Option<RsvpError>)
    ensures r == Some(NameMissing) <==> Strip(OrEmpty(form.fullName)) == ""
    ensures r == Some(EmailInvalid) <==>
              Strip(OrEmpty(form.fullName)) != "" && !IsValidEmail(Some(Strip(OrEmpty(form.email))))
    ensures r == Some(AckMissing) <==>
              Strip(OrEmpty(form.fullName)) != "" && IsValidEmail(Some(Strip(OrEmpty(form.email))))
              && !form.acknowledge
  {
    if Strip(OrEmpty(form.fullName)) == "" then Some(NameMissing)
    else if !IsValidEmail(Some(Strip(OrEmpty(form.email)))) then Some(EmailInvalid)
    else if !form.acknowledge then Some(AckMissing)
    else None
  }

  /** A form that passes every check has a non-blank name, an acknowledged
    * box, and an e-mail whose stripped text matches the pattern. */
  lemma AcceptedForm(form: RsvpForm)
    ensures CheckSubmission(form) == None <==>
              && Strip(OrEmpty(form.fullName)) != ""
              && MatchesEmailPattern(Strip(OrEmpty(form.email)))
              && form.acknowledge
  {
    StripIdempotent(OrEmpty(form.email));
    IsValidEmailMatchesPattern(Some(Strip(OrEmpty(form.email))));
  }

  /** `created_utc` as `now_utc_iso` writes it: `YYYY-MM-DDTHH:MM:SSZ`. */
  predicate IsUtcStamp(t: string) {
    && |t| == 20
    && (forall i :: 0 <= i < 20 && i !in {4, 7, 10, 13, 16, 19} ==> Database.IsDigit(t[i]))
    && t[4] == '-' && t[7] == '-' && t[10] == 'T' && t[13] == ':' && t[16] == ':' && t[19] == 'Z'
  }

  /** The notice shown when the confirmation was sent (the texts are split
    * into short pieces only to keep proofs about their characters cheap). */
  const SentNotice := Notice(OkBox, ["RSVP " + "received. " + "A confirmation " + "email has " + "been sent.",
                                     "Keep that " + "email for " + "your self-" + "cancel link."])

  /** The notice shown when the confirmation could not be sent: it carries the token. */
  function SavedNotice(token: string): Notice {
    Notice(WarnBox, ["RSVP saved, but email could not be sent from the server.",
                     "Your cancellation code is: " + token])
  }

  const CancelledNotice := Notice(OkBox, ["Your RSVP has been cancelled."])

  /** `t` occurs in `line` at offset `k`. */
  predicate OccursAt(line: string, t: string, k: nat) {
    k + |t| <= |line| && line[k..k + |t|] == t
  }

  /** Some line of the notice contains `t`. */
  ghost predicate Mentions(n: Notice, t: string) {
    exists i, k: nat :: 0 <= i < |n.lines| && OccursAt(n.lines[i], t, k)
  }

  /** A version-4 token fits in `line` only where its marker digit 4 lands on
    * a 4 of the line. */
  lemma TokenNeedsFour(line: string, token: string, k: nat)
    requires Database.IsUuid4Text(token) && OccursAt(line, token, k)
    ensures k + 14 < |line| && line[k + 14] == '4'
  {
    assert line[k..k + |token|][14] == token[14];
  }

  /** The token is shown when the confirmation could not be sent, and only then. */
  lemma NoticeShowsTokenOnlyOnFailure(token: string)
    requires Database.IsUuid4Text(token)
    ensures Mentions(SavedNotice(token), token)
    ensures !Mentions(SentNotice, token)
  {
    var line := SavedNotice(token).lines[1];
    assert OccursAt(line, token, |"Your cancellation code is: "|);
    var sent := SentNotice.lines;
    assert forall j :: 0 <= j < |sent[0]| ==> sent[0][j] != '4';
    assert forall j :: 0 <= j < |sent[1]| ==> sent[1][j] != '4';
    forall i, k: nat | 0 <= i < |sent| ensures !OccursAt(sent[i], token, k) {
      if OccursAt(sent[i], token, k) {
        TokenNeedsFour(sent[i], token, k);
        assert false;
      }
    }
  }

  // ---------- cancellation ----------

  /** The first value of the `cancel` query parameter, if it has one. */
  function QueryToken(query: map<string, seq<string>>): (t: Option<string>)
    ensures t.Some? <==> "cancel" in query && |query["cancel"]| > 0
    ensures t.Some? ==> t.value == query["cancel"][0]
  {
    if "cancel" in query && |query["cancel"]| > 0 then Some(query["cancel"][0]) else None
  }

  /** One piece of a query string as `parse_qs` reads it: split at its first
    * `=`; a piece without `=` or with an empty value is dropped. */
  function QueryPair(piece: string): (p: Option<(string, string)>)
    ensures p.Some? <==> exists k :: 0 <= k < |piece| - 1 && piece[k] == '=' && '=' !in piece[..k]
    ensures p.Some? ==> piece == p.value.0 + "=" + p.value.1 && '=' !in p.value.0 && p.value.1 != ""
  {
    var k := IndexOf(piece, '=');
    if k + 1 < |piece| then
      assert piece == piece[..k] + "=" + piece[k + 1..];
      Some((piece[..k], piece[k + 1..]))
    else
      None
  }

  /** `parse_qs` over the `&`-separated pieces: each kept pair appends its
    * value to its key's list, keys and values taken verbatim. */
  function Collect(pieces: seq<string>): map<string, seq<string>>
  {
    if pieces == [] then map[]
    else
      var m := Collect(pieces[..|pieces| - 1]);
      match QueryPair(pieces[|pieces| - 1])
      case None => m
      case Some(kv) => m[kv.0 := (if kv.0 in m then m[kv.0] else []) + [kv.1]]
  }

  /** The values given to `key`, piece by piece, in order. */
  function ValuesOf(pieces: seq<string>, key: string): (vs: seq<string>)
    ensures forall i :: 0 <= i < |vs| ==> vs[i] != ""
  {
    if pieces == [] then []
    else
      var p := QueryPair(pieces[0]);
      (if p.Some? && p.value.0 == key then [p.value.1] else []) + ValuesOf(pieces[1..], key)
  }

  lemma {:induction false} ValuesOfSnoc(pieces: seq<string>, piece: string, key: string)
    ensures ValuesOf(pieces + [piece], key)
         == ValuesOf(pieces, key) + (var p := QueryPair(piece); if p.Some? && p.value.0 == key then [p.value.1] else [])
  {
    if pieces != [] {
      assert (pieces + [piece])[1..] == pieces[1..] + [piece];
      ValuesOfSnoc(pieces[1..], piece, key);
    }
  }

  /** The map built piece by piece holds, under each key, exactly that key's
    * values in order, and holds no key without a value. */
  lemma {:induction false} CollectValues(pieces: seq<string>, key: string)
    ensures key in Collect(pieces) <==> ValuesOf(pieces, key) != []
    ensures key in Collect(pieces) ==> Collect(pieces)[key] == ValuesOf(pieces, key)
  {
    if pieces != [] {
      var init := pieces[..|pieces| - 1];
      var last := pieces[|pieces| - 1];
      assert pieces == init + [last];
      CollectValues(init, key);
      ValuesOfSnoc(init, last, key);
    }
  }

  /** `parse_qs(search)` with its default arguments. */
  function ParseQs(search: string): map<string, seq<string>> {
    Collect(Split(search, '&'))
  }

  /** The query the page hands to `parse_qs`, with the `?` that the browser's
    * search string starts with taken off. */
  function UrlQuery(search: string): map<string, seq<string>> {
    ParseQs(if search != [] && search[0] == '?' then search[1..] else search)
  }

  /** The token the URL handler cancels: the first non-empty `cancel` value. */
  function UrlToken(search: string): (t: Option<string>)
    ensures var pieces := Split(if search != [] && search[0] == '?' then search[1..] else search, '&');
            && (t.Some? <==> ValuesOf(pieces, "cancel") != [])
            && (t.Some? ==> t.value == ValuesOf(pieces, "cancel")[0] && t.value != "")
  {
    var pieces := Split(if search != [] && search[0] == '?' then search[1..] else search, '&');
    CollectValues(pieces, "cancel");
    QueryToken(UrlQuery(search))
  }

  lemma NoAmpersandInUuid(t: string)
    requires Database.IsUuid4Text(t)
    ensures '&' !in t
  {
    forall i | 0 <= i < |t| ensures t[i] != '&' {
      if i !in {8, 13, 18, 23} { assert Database.IsLowerHex(t[i]); }
    }
  }

  /** Text without the separator splits to itself. */
  lemma SplitWithout(x: string, c: char)
    requires c !in x
    ensures Split(x, c) == [x]
  {
    SplitJoined([x], c);
  }

  /** `name=value` is read back as the pair when the name holds no `=`. */
  lemma PairOfPiece(name: string, value: string)
    requires '=' !in name && value != ""
    ensures QueryPair(name + "=" + value) == Some((name, value))
  {
    var x := name + "=" + value;
    assert x[|name|] == '=';
    assert forall m :: 0 <= m < |name| ==> x[m] == name[m];
    assert IndexOf(x, '=') == |name|;
    assert x[..|name|] == name && x[|name| + 1..] == value;
  }

  /** A search string that is one `name=value` piece parses to that one pair. */
  lemma OnePieceQuery(name: string, value: string)
    requires '&' !in name && '&' !in value && '=' !in name && value != ""
    ensures ParseQs(name + "=" + value) == map[name := [value]]
  {
    var x := name + "=" + value;
    assert '&' !in x;
    SplitWithout(x, '&');
    PairOfPiece(name, value);
    var none: seq<string> := [];
    assert [x][..0] == none;
    assert Collect([x][..0]) == map[];
    assert none + [value] == [value];
    assert Collect([x]) == map[][name := none + [value]];
  }

  /** As `TU_Rides.py` is written, `parse_qs` sees the search string with its
    * `?`, so the e-mailed link `?cancel=<token>` yields the name `?cancel` and
    * no token at all. */
  lemma MarkedLinkHasNoToken(token: string)
    requires Database.IsUuid4Text(token)
    ensures QueryToken(ParseQs("?cancel=" + token)) == None
  {
    assert "?cancel=" + token == "?cancel" + "=" + token;
    NoAmpersandInUuid(token);
    OnePieceQuery("?cancel", token);
    assert "?cancel" != "cancel" by { assert |"?cancel"| != |"cancel"|; }
  }

  /** With the `?` taken off, the e-mailed link yields exactly its token. */
  lemma CancelLinkYieldsToken(token: string)
    requires Database.IsUuid4Text(token)
    ensures UrlToken("?cancel=" + token) == Some(token)
  {
    var search := "?cancel=" + token;
    assert search[1..] == "cancel" + "=" + token;
    NoAmpersandInUuid(token);
    OnePieceQuery("cancel", token);
  }

  // ---------- admin gate ----------

  /** `_unlock_admin`'s test: the stripped password is non-empty and equals the secret. */
  function UnlockGranted(pwInput: Option<string>, secret: string): bool {
    var pw := Strip(OrEmpty(pwInput));
    pw != "" && pw == secret
  }

  /** Some password unlocks exactly when the configured secret is non-empty and
    * has no surrounding whitespace; whatever is typed is compared stripped. */
  lemma UnlockReachable(secret: string)
    ensures (exists pw: string :: UnlockGranted(Some(pw), secret)) <==> secret != "" && Stripped(secret)
  {
    if secret != "" && Stripped(secret) {
      StripOfStripped(secret);
      assert UnlockGranted(Some(secret), secret);
    }
    if exists pw: string :: UnlockGranted(Some(pw), secret) {
      var pw: string :| UnlockGranted(Some(pw), secret);
      StripSpec(pw);
    }
  }

  // ---------- roster table and CSV export ----------

  /** A row of `list_signups`; `r.get(...)` of a NULL column is `None`. */
  datatype LedgerRow = LedgerRow(
    createdUtc: Option<string>, rideName: Option<string>, rideDate: Option<string>,
    startTime: Option<string>, meetingPoint: Option<string>, routeLink: Option<string>,
    fullName: Option<string>, email: Option<string>, phone: Option<string>,
    city: Option<string>, notes: Option<string>, status: Option<string>)

  /** The twelve columns of the unlocked export, in order. */
  const ExportColumns: seq<string> := ["created_utc", "ride_name", "ride_date", "start_time",
                                       "meeting_point", "route_link", "full_name", "email",
                                       "phone", "city", "notes", "status"]

  /** The eleven columns of the locked export's header and of the roster table:
    * the export's columns without `route_link`. */
  const TableColumns: seq<string> := ["created_utc", "ride_name", "ride_date", "start_time",
                                      "meeting_point", "full_name", "email",
                                      "phone", "city", "notes", "status"]

  /** A row's values in the export's column order. */
  function ExportFields(r: LedgerRow): (f: seq<Option<string>>)
    ensures |f| == |ExportColumns|
  {
    [r.createdUtc, r.rideName, r.rideDate, r.startTime, r.meetingPoint, r.routeLink,
     r.fullName, r.email, r.phone, r.city, r.notes, r.status]
  }

  /** A row's values in the roster table's column order. */
  function TableFields(r: LedgerRow): (f: seq<Option<string>>)
    ensures |f| == |TableColumns|
  {
    [r.createdUtc, r.rideName, r.rideDate, r.startTime, r.meetingPoint,
     r.fullName, r.email, r.phone, r.city, r.notes, r.status]
  }

  /** The roster table holds the export's columns and values except `route_link`. */
  lemma TableDropsRouteLink(r: LedgerRow)
    ensures TableColumns == ExportColumns[..5] + ExportColumns[6..]
    ensures TableFields(r) == ExportFields(r)[..5] + ExportFields(r)[6..]
  {
  }

  function HeaderLine(columns: seq<string>): string {
    Join(columns, ",") + "\n"
  }

  /** One export line per row, in the order `list_signups` returned them. */
  function Lines(rows: seq<LedgerRow>): string {
    if rows == [] then "" else Csv.Record(ExportFields(rows[0])) + Lines(rows[1..])
  }

  /** The file `download_csv` produces: only the eleven-column header while
    * locked; the twelve-column header and one line per row while unlocked. */
  function CsvDocument(unlocked: bool, rows: seq<LedgerRow>): string {
    if unlocked then HeaderLine(ExportColumns) + Lines(rows) else HeaderLine(TableColumns)
  }

  /** `download_csv`: writes the header, then one line per row. */
  method ExportCsv(unlocked: bool, rows: seq<LedgerRow>) returns (doc: string)
    ensures doc == CsvDocument(unlocked, rows)
  {
    if !unlocked {
      doc := HeaderLine(TableColumns);
    } else {
      doc := WriteLines(HeaderLine(ExportColumns), rows);
    }
  }

  /** The row loop of `download_csv`: after what was written so far, one line per row, in order. */
  method WriteLines(written: string, rows: seq<LedgerRow>) returns (doc: string)
    ensures doc == written + Lines(rows)
  {
    doc := written;
    var i := 0;
    while i < |rows|
      invariant 0 <= i <= |rows|
      invariant doc == written + Lines(rows[..i])
    {
      LinesPrefixStep(written, rows, i);
      doc := doc + Csv.Record(ExportFields(rows[i]));
      i := i + 1;
    }
    assert rows[..i] == rows;
  }

  lemma LinesPrefixStep(header: string, rows: seq<LedgerRow>, i: nat)
    requires i < |rows|
    ensures header + Lines(rows[..i + 1]) == header + Lines(rows[..i]) + Csv.Record(ExportFields(rows[i]))
  {
    assert rows[..i + 1] == rows[..i] + [rows[i]];
    LinesSnoc(rows[..i], rows[i]);
  }

  /** The lines of the rows with one more row at the end. */
  lemma {:induction false} LinesSnoc(rows: seq<LedgerRow>, row: LedgerRow)
    ensures Lines(rows + [row]) == Lines(rows) + Csv.Record(ExportFields(row))
  {
    if rows == [] {
      assert [row][1..] == [];
    } else {
      assert (rows + [row])[1..] == rows[1..] + [row];
      LinesSnoc(rows[1..], row);
    }
  }

  lemma ColumnsAreBare()
    ensures forall i :: 0 <= i < |ExportColumns| ==> Csv.IsBare(ExportColumns[i])
    ensures forall i :: 0 <= i < |TableColumns| ==> Csv.IsBare(TableColumns[i])
  {
    forall i | 0 <= i < |ExportColumns| ensures Csv.IsBare(ExportColumns[i]) {
      NameIsBare(ExportColumns[i]);
    }
    forall i | 0 <= i < |TableColumns| ensures Csv.IsBare(TableColumns[i]) {
      assert TableColumns[i] in ExportColumns;
    }
  }

  /** Column names use only lower-case letters and '_'. */
  predicate IsColumnName(s: string) {
    forall i :: 0 <= i < |s| ==> 'a' <= s[i] <= 'z' || s[i] == '_'
  }

  lemma NameIsBare(s: string)
    requires s in ExportColumns
    ensures Csv.IsBare(s)
  {
    assert IsColumnName(s);
  }

  /** What a reader gets back for each row: its twelve values' texts. */
  function RowTexts(rows: seq<LedgerRow>): (r: seq<seq<string>>)
    ensures |r| == |rows|
  {
    if rows == [] then [] else [Csv.Texts(ExportFields(rows[0]))] + RowTexts(rows[1..])
  }

  lemma {:induction false} LinesRoundTrip(rows: seq<LedgerRow>)
    ensures Csv.ReadRecords(Lines(rows)) == Some(RowTexts(rows))
  {
    if rows != [] {
      Csv.RecordRoundTrip(ExportFields(rows[0]), Lines(rows[1..]));
      LinesRoundTrip(rows[1..]);
    }
  }

  /** Reading the unlocked export back with an RFC 4180 reader gives the
    * twelve column names and then, for each row, exactly its twelve values as
    * text (`None` as ""), whatever commas, quotes or line breaks they hold. */
  lemma ExportRoundTrip(rows: seq<LedgerRow>)
    ensures Csv.ReadRecords(CsvDocument(true, rows)) == Some([ExportColumns] + RowTexts(rows))
    ensures forall i :: 0 <= i < |rows| ==> |RowTexts(rows)[i]| == 12
  {
    ColumnsAreBare();
    Csv.HeaderRoundTrip(ExportColumns, Lines(rows));
    LinesRoundTrip(rows);
    RowTextsWidth(rows);
  }

  lemma {:induction false} RowTextsWidth(rows: seq<LedgerRow>)
    ensures forall i :: 0 <= i < |rows| ==> |RowTexts(rows)[i]| == 12
  {
    if rows != [] {
      RowTextsWidth(rows[1..]);
      assert forall i :: 1 <= i < |rows| ==> RowTexts(rows)[i] == RowTexts(rows[1..])[i - 1];
    }
  }

  /** While locked, the export reads back as the eleven-column header alone,
    * whatever the rows are. */
  lemma LockedExport(rows: seq<LedgerRow>)
    ensures Csv.ReadRecords(CsvDocument(false, rows)) == Some([TableColumns])
  {
    ColumnsAreBare();
    Csv.HeaderRoundTrip(TableColumns, "");
    var t := HeaderLine(TableColumns);
    assert t + "" == t;
    assert t != [];
    assert Csv.ReadRecord(t) == Some((TableColumns, ""));
    assert Csv.ReadRecords("") == Some([]);
    assert [TableColumns] + [] == [TableColumns];
  }

  /** What `roster_table` renders: a one-cell "Locked." grid, or one row of
    * eleven values per signup. */
  datatype Grid = LockedGrid | RosterGrid(columns: seq<string>, cells: seq<seq<Option<string>>>)

  function RosterTable(unlocked: bool, rows: seq<LedgerRow>): (g: Grid)
    ensures g.LockedGrid? <==> !unlocked
    ensures g.RosterGrid? ==> g.columns == TableColumns && |g.cells| == |rows|
                              && forall i :: 0 <= i < |rows| ==> g.cells[i] == TableFields(rows[i])
  {
    if !unlocked then LockedGrid
    else RosterGrid(TableColumns, seq(|rows|, i requires 0 <= i < |rows| => TableFields(rows[i])))
  }

  /** While locked, neither the table nor the export depends on the signups. */
  lemma LockedOutputsHideRows(rows1: seq<LedgerRow>, rows2: seq<LedgerRow>)
    ensures RosterTable(false, rows1) == RosterTable(false, rows2)
    ensures CsvDocument(false, rows1) == CsvDocument(false, rows2)
  {
  }

  // ---------- the server session ----------

  class RsvpServer {
    /** `APP_URL`, from the environment. */
    const appUrl: string
    /** `ADMIN_PASSWORD`, from the environment. */
    const adminPassword: string

    var publicMsg: Option<Notice>
    var cancelMsg: Option<Notice>
    var adminUnlocked: bool
    var adminMsg: string

    /** Every `insert_signup` call made, in order. */
    var inserted: seq<RsvpRecord>
    /** Every token passed to `cancel_signup_by_token`, in order. */
    var cancelRequests: seq<string>
    /** Every `send_confirmation_email` call made, in order. */
    var mailAttempts: seq<Confirmation>

    constructor (appUrl: string, adminPassword: string)
      ensures this.appUrl == appUrl && this.adminPassword == adminPassword
      ensures publicMsg == None && cancelMsg == None
      ensures !adminUnlocked && adminMsg == "Locked."
      ensures inserted == [] && cancelRequests == [] && mailAttempts == []
    {
      this.appUrl := appUrl;
      this.adminPassword := adminPassword;
      publicMsg, cancelMsg := None, None;
      adminUnlocked, adminMsg := false, "Locked.";
      inserted, cancelRequests, mailAttempts := [], [], [];
    }

    /** `_submit_rsvp`. A form that fails a check gets that check's error and
      * nothing is saved or sent. A valid form is saved once with the stripped
      * fields and `acknowledge=1`, a confirmation with the link
      * `APP_URL?cancel=<token>` is attempted, and the notice shows the token
      * only when the send failed; the save stands either way. */
    method SubmitRsvp(form: RsvpForm, token: string, createdUtc: string, sendSucceeds: bool)
      requires Database.IsUuid4Text(token) && IsUtcStamp(createdUtc)
      modifies this
      ensures cancelMsg == old(cancelMsg) && adminUnlocked == old(adminUnlocked) && adminMsg == old(adminMsg)
      ensures cancelRequests == old(cancelRequests)
      ensures CheckSubmission(form).Some? ==>
                && publicMsg == Some(Notice(ErrBox, [ErrorText(CheckSubmission(form).value)]))
                && inserted == old(inserted) && mailAttempts == old(mailAttempts)
      ensures CheckSubmission(form).None? ==>
                var name := Strip(OrEmpty(form.fullName));
                var email := Strip(OrEmpty(form.email));
                var link := appUrl + "?cancel=" + token;
                && inserted == old(inserted) + [RsvpRecord(
                     createdUtc, form.rideName, PyStr(form.rideDate),
                     Strip(OrEmpty(form.startTime)), Strip(OrEmpty(form.meetingPoint)),
                     Strip(OrEmpty(form.routeLink)), name, email,
                     Strip(OrEmpty(form.phone)), Strip(OrEmpty(form.city)), Strip(OrEmpty(form.notes)),
                     1, token)]
                && mailAttempts == old(mailAttempts) + [Confirmation(
                     email, name, form.rideName, PyStr(form.rideDate),
                     Strip(OrEmpty(form.startTime)), Strip(OrEmpty(form.meetingPoint)),
                     Strip(OrEmpty(form.routeLink)), link)]
                && publicMsg == Some(if sendSucceeds then SentNotice else SavedNotice(token))
    {
      publicMsg := None;
      var check := CheckSubmission(form);
      if check.Some? {
        publicMsg := Some(Notice(ErrBox, [ErrorText(check.value)]));
        return;
      }
      var name := Strip(OrEmpty(form.fullName));
      var email := Strip(OrEmpty(form.email));
      var rideDate := PyStr(form.rideDate);
      var startTime := Strip(OrEmpty(form.startTime));
      var meetingPoint := Strip(OrEmpty(form.meetingPoint));
      var routeLink := Strip(OrEmpty(form.routeLink));
      inserted := inserted + [RsvpRecord(
        createdUtc, form.rideName, rideDate, startTime, meetingPoint, routeLink,
        name, email, Strip(OrEmpty(form.phone)), Strip(OrEmpty(form.city)), Strip(OrEmpty(form.notes)),
        1, token)];
      var cancelLink := appUrl + "?cancel=" + token;
      mailAttempts := mailAttempts + [Confirmation(
        email, name, form.rideName, rideDate, startTime, meetingPoint, routeLink, cancelLink)];
      if sendSucceeds {
        publicMsg := Some(SentNotice);
      } else {
        publicMsg := Some(SavedNotice(token));
      }
    }

    /** `_cancel_manual`: a blank pasted code is refused without asking the
      * store; otherwise the stripped code is sent to the store once and the
      * notice says "cancelled" exactly when the store reported success. */
    method CancelManual(tokenInput: Option<string>, storeReports: bool)
      modifies this
      ensures publicMsg == old(publicMsg) && adminUnlocked == old(adminUnlocked) && adminMsg == old(adminMsg)
      ensures inserted == old(inserted) && mailAttempts == old(mailAttempts)
      ensures var token := Strip(OrEmpty(tokenInput));
              if token == "" then
                && cancelMsg == Some(Notice(ErrBox, ["Please paste your cancellation code."]))
                && cancelRequests == old(cancelRequests)
              else
                && cancelRequests == old(cancelRequests) + [token]
                && cancelMsg == Some(if storeReports then CancelledNotice
                                     else Notice(WarnBox, ["Not found or already cancelled."]))
    {
      var token := Strip(OrEmpty(tokenInput));
      if token == "" {
        cancelMsg := Some(Notice(ErrBox, ["Please paste your cancellation code."]));
        return;
      }
      cancelRequests := cancelRequests + [token];
      if storeReports {
        cancelMsg := Some(CancelledNotice);
      } else {
        cancelMsg := Some(Notice(WarnBox, ["Not found or already cancelled."]));
      }
    }

    /** `_handle_url_cancel`: the first `cancel` value of the page's query, if
      * present and non-empty (not stripped), is sent to the store once;
      * without one nothing happens at all. The query is read with the search
      * string's leading `?` taken off (see `MarkedLinkHasNoToken`). The test
      * on an empty token mirrors the source's `if token:`; `UrlToken` never
      * yields one. */
    method HandleUrlCancel(urlSearch: Option<string>, storeReports: bool)
      modifies this
      ensures publicMsg == old(publicMsg) && adminUnlocked == old(adminUnlocked) && adminMsg == old(adminMsg)
      ensures inserted == old(inserted) && mailAttempts == old(mailAttempts)
      ensures var token := UrlToken(OrEmpty(urlSearch));
              if token.None? || token.value == "" then
                cancelMsg == old(cancelMsg) && cancelRequests == old(cancelRequests)
              else
                && cancelRequests == old(cancelRequests) + [token.value]
                && cancelMsg == Some(if storeReports then CancelledNotice
                                     else Notice(WarnBox, ["Cancel link already used or not found."]))
    {
      var token := UrlToken(OrEmpty(urlSearch));
      if token.Some? && token.value != "" {
        cancelRequests := cancelRequests + [token.value];
        if storeReports {
          cancelMsg := Some(CancelledNotice);
        } else {
          cancelMsg := Some(Notice(WarnBox, ["Cancel link already used or not found."]));
        }
      }
    }

    /** `_unlock_admin`: unlocks exactly when the stripped password is non-empty
      * and equals `ADMIN_PASSWORD`; any other attempt locks again. */
    method UnlockAdmin(pwInput: Option<string>)
      modifies this
      ensures adminUnlocked == UnlockGranted(pwInput, adminPassword)
      ensures adminMsg == if adminUnlocked then "Unlocked." else "Locked. Incorrect password."
      ensures publicMsg == old(publicMsg) && cancelMsg == old(cancelMsg)
      ensures inserted == old(inserted) && cancelRequests == old(cancelRequests)
      ensures mailAttempts == old(mailAttempts)
    {
      if UnlockGranted(pwInput, adminPassword) {
        adminUnlocked, adminMsg := true, "Unlocked.";
      } else {
        adminUnlocked, adminMsg := false, "Locked. Incorrect password.";
      }
    }

    /** `roster_table` for this session. */
    function ShownRoster(rows: seq<LedgerRow>): (g: Grid)
      reads this
      ensures g.LockedGrid? <==> !adminUnlocked
    {
      RosterTable(adminUnlocked, rows)
    }

    /** `download_csv` for this session. */
    method DownloadCsv(rows: seq<LedgerRow>) returns (doc: string)
      ensures doc == CsvDocument(adminUnlocked, rows)
    {
      doc := ExportCsv(adminUnlocked, rows);
    }
  }

  /**
   * The session as `TU_Rides.py` registers its handlers. `_unlock_admin`,
   * `_submit_rsvp` and `_cancel_manual` carry `@reactive.event` but not
   * `@reactive.effect`, so nothing ever runs them; `_handle_url_cancel` is the
   * only effect. Whatever search strings the session sees, the roster stays
   * locked, the CSV download is the bare header, and nothing is saved or mailed.
   */
  method AsWrittenSession(appUrl: string, adminPassword: string, searches: seq<Option<string>>,
                          storeReports: seq<bool>, rows: seq<LedgerRow>)
      returns (grid: Grid, doc: string, saved: seq<RsvpRecord>, mailed: seq<Confirmation>)
    requires |storeReports| == |searches|
    ensures grid == LockedGrid
    ensures doc == HeaderLine(TableColumns)
    ensures saved == [] && mailed == []
  {
    var server := new RsvpServer(appUrl, adminPassword);
    var i := 0;
    while i < |searches|
      invariant 0 <= i <= |searches|
      invariant !server.adminUnlocked && server.inserted == [] && server.mailAttempts == []
    {
      server.HandleUrlCancel(searches[i], storeReports[i]);
      i := i + 1;
    }
    grid := server.ShownRoster(rows);
    doc := server.DownloadCsv(rows);
    saved, mailed := server.inserted, server.mailAttempts;
  }
}
