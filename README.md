# Team Ugly training rides: a verified model

This project models the logic of the Team Ugly training-ride RSVP apps in
Dafny and proves what they promise.

- `database.py` is a two-table SQLite store of rides and signups.
  `Database.RideStore` models it as a class with the two tables as sequence
  fields and the two AUTOINCREMENT counters as integer fields. Its methods
  insert and delete rows. Its read-only queries (`list_rides`,
  `get_ride_details`, `roster`) are functions of those tables.
- `TU_Rides.py` is the RSVP app. `Rsvp` models its email check and its
  submission checks in their fixed order. It also models the confirmation
  notices, cancellation from the form and from the `?cancel=` link, the admin
  unlock, the roster grid and the CSV export. The export uses the field escaper
  `esc`. `Csv` holds a reader for section 2 of RFC 4180 so that the export can
  be read back.
- `app.py` is the ride-referencing app. `Notify` models reading
  `contacts.csv`, the announcement subject and body, the Gmail and `mailto:`
  links (section 2 of RFC 6068) and the mailing-list count. `RideApp` models
  the ride pickers, the admin password gate and the handlers `do_signup`,
  `do_cancel`, `do_create`, `do_delete` and `do_notify` over the shared store.
- `Text` and `Seqs` hold the Python text semantics the model needs:
  `str.strip` with Python's whitespace set, `split`, `join`, `x or ""` and
  `str(None)`. They also hold SQLite's BINARY text order and a stable sort
  used for `ORDER BY`.

Calls into code the model cannot see become parameters or logs.
`insert_signup`, `cancel_signup_by_token` and `send_confirmation_email` come
from modules that are not part of this model. Each call is appended to a log
field of `Rsvp.RsvpServer`. What the call reported back (cancelled or not, sent
or raised) is a boolean parameter. `uuid.uuid4()` and `now_utc_iso()` are
parameters constrained by their formats (`IsUuid4Text`, `IsUtcStamp`).
`urllib.parse.quote` and `quote_plus` are function parameters. The rows of
`contacts.csv` and of `list_signups` are parameters too.

Where the code does something a reader may not expect, the model follows the code:
- After `do_notify`, the "No contacts.csv found" note of `notify_panel` can
  never be shown (`Notify.NotifyNeverShowsNoContactsNote`). With no contacts,
  all three cells are set to `""`, so `notify_panel_output` draws an empty
  block. With contacts, the Gmail link is never empty.
- The locked CSV export is a header of 11 columns without `route_link`. The
  unlocked export has 12 columns (`Rsvp.LockedExport`, `Rsvp.ExportRoundTrip`).
- In `app.py` the roster table is not behind the password gate.
- The 8-character confirmation code is not checked for uniqueness. Cancelling
  one code removes every signup that carries it.

## Model

| member | source | states |
|---|---|---|
| Database.Affinity | database.py:26-32 | A value bound to an INTEGER column becomes an integer exactly when its text is an optional sign followed by digits; any other text stays that same text |
| Database.AffinityOfDecimal | database.py:64-74 | The decimal text of a non-negative id is looked up as that integer id |
| Database.ConfirmCode | database.py:89 | The code is 8 upper-case hex digits, and the k-th is the upper-cased k-th character of the uuid4 text |
| Database.ListRides | database.py:52-61 | One (id, name, date) per stored ride and nothing else, as a permutation of the table, sorted by date compared as text |
| Database.GetRideDetails | database.py:64-74 | None exactly when no ride's id matches the bound value; otherwise the five details of a ride whose id matches |
| Database.Roster | database.py:115-128 | A permutation of the inner-join rows, sorted by ride date |
| Database.RosterIsJoin | database.py:115-128 | A row is in the roster exactly when some stored signup joins some stored ride and the row holds that ride's name and date and the signup's name; signups without a ride give no row |
| Database.RosterAfterDelete | database.py:77-83 | After the cascade delete, the roster is exactly the join of the remaining signups with the original rides, so no other signup's row is lost |
| Database.CancelRemovesCounted | database.py:102-112 | The delete removes exactly the counted rows, and no row with the code remains |
| Database.RideStore.constructor | database.py:13-35 | A fresh store has empty tables and both counters at zero |
| Database.RideStore.CreateRide | database.py:40-49 | Exactly one ride with the five given fields is appended; its id is the next counter value and exceeds every earlier id; signups are unchanged |
| Database.RideStore.DeleteRide | database.py:77-83 | Removes the rides whose id matches and the signups whose ride id matches, and nothing else; an id that no ride and no signup carries changes nothing |
| Database.RideStore.Signup | database.py:88-99 | Appends exactly one signup with the given ride id (after affinity), the name and the returned code; rides are unchanged |
| Database.RideStore.CancelSignup | database.py:102-112 | Removes exactly the signups with the code and returns how many there were; rides are unchanged; a repeat returns 0 |
| Seqs.SortBy | database.py:58 | The result is a permutation of the input, sorted by the key under SQLite's BINARY text order |
| Text.TextLeTotal | database.py:58 | SQLite's BINARY order on texts compares any two texts |
| Text.StripSpec | TU_Rides.py:34 | `strip` returns the middle slice of the text with no surrounding whitespace, cuts only whitespace off either end, and is empty exactly for all-whitespace text |
| Text.SplitCount | app.py:104 | `split` on one character gives one more piece than the character's occurrences |
| Csv.EscRoundTrip | TU_Rides.py:358-361 | Reading an escaped field back gives `str(x)`, or "" for None, and stops right after the closing quote |
| Csv.RecordRoundTrip | TU_Rides.py:363-379 | A line of escaped values joined by ',' reads back as the values' texts |
| Csv.HeaderRoundTrip | TU_Rides.py:355 | A header of bare column names reads back as those names |
| Rsvp.EmailShapeIsPattern | TU_Rides.py:35 | The regex match is the same as: exactly one '@', no whitespace, a non-empty local part, and a '.' after the '@' that is neither first nor last in the domain |
| Rsvp.IsValidEmailMatchesPattern | TU_Rides.py:31-35 | None is invalid; otherwise valid exactly when the stripped text matches the pattern |
| Rsvp.CheckSubmission | TU_Rides.py:231-242 | The name error exactly when the stripped name is blank; the email error exactly when the name is present and the email invalid; the acknowledgement error exactly when both pass and the box is unchecked |
| Rsvp.AcceptedForm | TU_Rides.py:231-242 | A form is accepted exactly when the stripped name is non-empty, the email is valid and the box is checked |
| Rsvp.NoticeShowsTokenOnlyOnFailure | TU_Rides.py:292-307 | The notice after a failed send contains the cancellation token; the notice after a successful send never does |
| Rsvp.QueryToken | TU_Rides.py:190-193 | The token is present exactly when the query has a non-empty list under `cancel`, and then it is the first value |
| Rsvp.QueryPair | TU_Rides.py:190 | A piece yields a pair exactly when it has an '=' followed by a non-empty value; the name is the text before the first '=' and the value is all the text after it |
| Rsvp.CollectValues | TU_Rides.py:190 | The parsed query holds a name exactly when some piece gives it a value, and then holds that name's values in piece order |
| Rsvp.UrlToken | TU_Rides.py:190-193 | With the leading '?' removed, the token is present exactly when some piece gives `cancel` a value, and then it is the first such value, never empty |
| Rsvp.MarkedLinkHasNoToken | TU_Rides.py:190-193 | As written, the search string `?cancel=<token>` of the e-mailed link parses to no token at all |
| Rsvp.CancelLinkYieldsToken | TU_Rides.py:190-193 | With the '?' removed, the search string of the e-mailed link yields exactly its token |
| Rsvp.UnlockReachable | TU_Rides.py:218-225 | Some password unlocks exactly when the configured password is non-empty and has no surrounding whitespace |
| Rsvp.TableDropsRouteLink | TU_Rides.py:328-343 | The grid's columns and cells are the export's with `route_link` removed |
| Rsvp.ExportCsv | TU_Rides.py:349-379 | Locked, the document is the bare table header; unlocked, it is the export header followed by exactly one CSV record per ledger row, in order |
| Rsvp.WriteLines | TU_Rides.py:363-379 | Appending the rows one at a time leaves what was written followed by every row's CSV record, in row order |
| Rsvp.LinesSnoc | TU_Rides.py:363-379 | Adding a row to the ledger adds exactly that row's record at the end of the lines |
| Rsvp.LinesRoundTrip | TU_Rides.py:363-379 | The emitted lines read back as each row's texts, in order |
| Rsvp.ExportRoundTrip | TU_Rides.py:354-379 | The unlocked export reads back as the 12-column header followed by each row's 12 texts |
| Rsvp.LockedExport | TU_Rides.py:350-352 | The locked export reads back as the 11-column header alone |
| Rsvp.RosterTable | TU_Rides.py:324-345 | The locked grid exactly when not unlocked; otherwise the 11 table columns and one cell row per signup |
| Rsvp.LockedOutputsHideRows | TU_Rides.py:324-352 | While locked, the grid and the export are the same whatever the stored rows are |
| Rsvp.RsvpServer.constructor | TU_Rides.py:181-185 | No messages, locked, admin message "Locked.", and nothing saved, cancelled or sent |
| Rsvp.RsvpServer.SubmitRsvp | TU_Rides.py:228-307 | A failing form shows its error and saves and sends nothing; a valid one is saved once with stripped fields and acknowledge 1, a confirmation with link APP_URL?cancel=token is attempted, and the notice depends only on whether the send succeeded |
| Rsvp.RsvpServer.CancelManual | TU_Rides.py:310-320 | A blank stripped code shows an error and makes no cancel call; otherwise exactly one call with the stripped code, and the "cancelled" notice exactly when it reported success |
| Rsvp.RsvpServer.HandleUrlCancel | TU_Rides.py:189-200 | Reading the search string without its '?': no call and no change without a non-empty `cancel` value; otherwise one call with the first one and the matching notice |
| Rsvp.RsvpServer.UnlockAdmin | TU_Rides.py:218-225 | Unlocked exactly when the stripped input is non-empty and equals the configured password; the message follows; nothing else changes |
| Rsvp.AsWrittenSession | TU_Rides.py:217-228 | With the handlers registered as written, only the URL cancel runs: whatever the session sees, the roster stays locked, the CSV is the bare 11-column header, and nothing is saved or mailed |
| Rsvp.RsvpServer.ShownRoster | TU_Rides.py:324-326 | The session sees the locked grid exactly when it is not unlocked |
| Rsvp.RsvpServer.DownloadCsv | TU_Rides.py:349-352 | The download is the export for the session's unlock state |
| Notify.FirstNonEmpty | app.py:47-48 | Empty exactly when every candidate is missing or empty; otherwise one of the candidates |
| Notify.FirstNonEmptyIsFirst | app.py:47-48 | The chosen value comes no later than any non-empty candidate |
| Notify.LoadContacts | app.py:40-51 | No file gives no contacts; otherwise the loop gives one contact per row with an address, in file order |
| Notify.ContactsAreRowsWithEmail | app.py:45-50 | The contacts are exactly the rows whose stripped address is non-empty, in file order, each read as address and first name |
| Notify.ContactEmailsStripped | app.py:47-49 | Every contact's address is non-empty and has no surrounding whitespace |
| Notify.BlankEmailHidesOtherKey | app.py:47-49 | For every row, a non-empty whitespace-only `Email` cell hides whatever `email` or `EMAIL` holds, and the row is skipped |
| Notify.BuildNotifyUrls | app.py:72-96 | None exactly when there are no contacts; otherwise the address list is the addresses joined by ", " in contact order, and the links are built from the subject and body |
| Notify.MailtoFields | app.py:64-69 | Given an encoder that never writes '&', the `mailto:` query splits into exactly bcc, subject and body, in that order |
| Notify.GmailFields | app.py:54-61 | Given an encoder that never writes '&', the Gmail query splits into exactly view=cm, to, su and body, in that order |
| Notify.BccRecoversRecipients | app.py:64-66 | Decoding `bcc` and splitting at ',' gives back the addresses in order when none contains a comma |
| Notify.NotifyCount | app.py:100-104 | The count is the number of contacts plus the commas inside addresses, so it equals the number of contacts exactly when no address has a comma |
| Notify.EmailListRecoversAddresses | app.py:95 | Splitting the copyable list at ',' and stripping each piece gives back the addresses when none contains a comma |
| Notify.NotifyPanel | app.py:100-104 | The "no contacts" note exactly when the Gmail link is empty |
| Notify.NotifyPanelOutput | app.py:697-702 | An empty block exactly when both the link and the list are empty |
| Notify.NotifyNeverShowsNoContactsNote | app.py:681-702 | After a notify, no contacts give the empty block and contacts give the buttons with the count; the "no contacts" note never appears |
| RideApp.IntTextAffinity | app.py:493 | A picker key `str(id)` is looked up as that integer id |
| RideApp.RideChoices | app.py:488-494 | One option per listed ride, keyed by `str(id)` and labelled name, em dash, date, in list order |
| RideApp.LookupOwnId | app.py:510-517 | With distinct ids, looking a ride up by its own id text returns that ride's details |
| RideApp.ChoicesResolve | app.py:488-517 | Every picker option resolves to a stored ride whose name and date are those in its label, and there is one option per ride |
| RideApp.AdminPanel | app.py:615-620 | The controls exactly for the exact password; "Incorrect password." exactly for any other non-empty input; nothing for empty input |
| RideApp.AdminPanelDoesNotStrip | app.py:616-617 | The password followed by a space is refused |
| RideApp.CancelText | app.py:588 | "Code not found." exactly when nothing was removed |
| RideApp.NotifyCells | app.py:690-692 | The three notify cells get the results, or "" when there are none; the other cells keep their values |
| RideApp.StoredCellsDrawPanel | app.py:690-702 | The panel drawn from the cells `do_notify` stored is the one `Notify.PanelAfterNotify` describes, so the no-note result holds for the server's own state |
| RideApp.RideServer.constructor | app.py:477-483 | Every message cell starts empty |
| RideApp.RideServer.DoSignup | app.py:537-550 | A missing or empty selection gives "Select a ride.", then an empty (unstripped) name gives "Enter your name.", and the store is untouched; otherwise exactly one signup is stored and its code is shown |
| RideApp.RideServer.DoCancel | app.py:582-588 | An empty code gives a prompt and the store is untouched; otherwise the code's signups are removed and "Code not found." exactly when there were none |
| RideApp.RideServer.DoCreate | app.py:598-605 | An empty name gives a prompt and creates nothing; otherwise exactly one ride with `str()` of the date is created and named in the message |
| RideApp.RideServer.DoDelete | app.py:727-732 | Without the picker, a prompt and no change; otherwise the cascade delete of the selected id and "Ride deleted." |
| RideApp.RideServer.DoNotify | app.py:681-692 | Nothing changes without a selection or for an unknown ride; otherwise the cells hold the links and list built from that ride's details and the file's contacts; the store is untouched |

## Left out

- SQLite connection handling (`connect`, `makedirs`, `init_db`'s file, `commit`, `close`) is not modelled. The tables live in memory.
- Database.Affinity: covers bare integer texts only. It does not model SQLite's trimming of surrounding whitespace, reals such as `"1.0"`, or integers beyond 64 bits. The callers pass ids that `str(int)` produced.
- Database.RideStore.CreateRide: does not model AUTOINCREMENT reaching the largest 64-bit id (SQLITE_FULL).
- Database.ListRides: the order among rides with the same date is not fixed by the query. The lemmas state only sortedness and the permutation. Database.Roster is the same.
- The unseen `.database` and `.email_utils` modules (`insert_signup`, `cancel_signup_by_token`, `list_signups`, `send_confirmation_email`) are not part of this model. Their calls are logged, their outcomes are parameters, and the rows `list_signups` returns are given.
- `uuid.uuid4()` and the clock are parameters constrained by their formats. Randomness and the uniqueness of tokens are not modelled.
- `urllib.parse.quote`, `quote_plus` and `urlencode` are not modelled at byte level (UTF-8 percent-encoding per section 2.1 of RFC 3986). The encoders are function parameters, and only how the links are assembled is proved.
- Notify.MailtoFields: proved only for encoders that never write '&', which is what percent-encoding guarantees.
- Rsvp.QueryPair: names and values are kept verbatim. `parse_qs`'s percent-decoding, its `+`-to-space rule and its `max_num_fields` and `strict_parsing` options are not modelled. The name `cancel` and uuid4 tokens contain no '%' or '+'.
- Rsvp.RsvpServer.HandleUrlCancel: follows the corrected reading below, with the '?' removed, rather than the code as written.
- Rsvp.RsvpServer.UnlockAdmin, Rsvp.RsvpServer.SubmitRsvp and Rsvp.RsvpServer.CancelManual: model the bodies of `_unlock_admin`, `_submit_rsvp` and `_cancel_manual` as if each ran on its button, as effects. The source gives them `@reactive.event` without `@reactive.effect`, so as written they never run (`Rsvp.AsWrittenSession`, and the finding below).
- `csv.DictReader` parsing of `contacts.csv` and the file-existence check are inputs: a flag and the parsed rows.
- Shiny UI construction, CSS, the sidebar and banner, the clipboard script, `encode_image`, the `ride_details` rendering and pandas DataFrame rendering are presentation only.
- Reactive scheduling, reactive-value plumbing across sessions and concurrency between sessions are not modelled. Each handler that runs is one atomic method call.
- Date widgets are modelled as optional texts. `str()` of a date is taken to be its text, and `str(None)` is `"None"`.

## Findings

| source | as written | input that shows it | evidently intended | confidence | as-written member | corrected member |
|---|---|---|---|---|---|---|
| TU_Rides.py:190-193 | `parse_qs` is given Shiny's `url_search`, which keeps the browser's leading '?', so the first name becomes `?cancel` and `"cancel" in qs` fails | the search string `?cancel=<token>` of the link built at TU_Rides.py:274, for any uuid4 token | the '?' is removed before parsing, so the e-mailed link cancels the RSVP | medium: rests on `url_search` keeping the '?' as `window.location.search` does; not executed | Rsvp.MarkedLinkHasNoToken | Rsvp.CancelLinkYieldsToken |
| TU_Rides.py:217-228 | `_unlock_admin` (line 217), `_submit_rsvp` (line 227) and `_cancel_manual` (line 309) carry `@reactive.event` but no `@reactive.effect`, so they are never run: the buttons do nothing | any session: clicking Unlock with the right password, or submitting a valid form | each handler registered as an effect on its button, as `_handle_url_cancel` and every handler of `app.py` are | medium: rests on `reactive.event` alone not scheduling the function; not executed | Rsvp.AsWrittenSession | Rsvp.RsvpServer.UnlockAdmin |
