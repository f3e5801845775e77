/**
 * CSV text as the roster export writes it, and a reader for it that follows
 * section 2 of RFC 4180 (fields separated by commas, records ended by a line
 * break, a field in double quotes may hold commas, line breaks and doubled
 * quotes). Line breaks are written as LF, as the export does.
 */
module Csv {
  import opened Wrappers
  import opened Text

  /** `s.replace('"', '""')`. */
  function DoubleQuotes(s: string): string {
    if s == [] then ""
    else (if s[0] == '"' then "\"\"" else [s[0]]) + DoubleQuotes(s[1..])
  }

  /** The export's `esc`: `None` becomes `""`, anything else its text in quotes
    * with every inner quote doubled (rules 5 to 7 of RFC 4180, section 2). */
  function Esc(x: Option<string>): string {
    "\"" + DoubleQuotes(OrEmpty(x)) + "\""
  }

  /** `esc` applied to each value. */
  function EscAll(xs: seq<Option<string>>): (r: seq<string>)
    ensures |r| == |xs|
  {
    if xs == [] then [] else [Esc(xs[0])] + EscAll(xs[1..])
  }

  /** The texts a reader gets back for the values: `None` reads as "". */
  function Texts(xs: seq<Option<string>>): (r: seq<string>)
    ensures |r| == |xs|
  {
    if xs == [] then [] else [OrEmpty(xs[0])] + Texts(xs[1..])
  }

  /** One record: the values escaped, joined by ',' and ended by a line break. */
  function Record(xs: seq<Option<string>>): string {
    Join(EscAll(xs), ",") + "\n"
  }

  // ---------- the reader ----------

  /** Reads the rest of a quoted field (the opening quote already consumed):
    * its value and the text after the closing quote, or `None` if the quote
    * is never closed. */
  function ReadQuoted(t: string): (r: Option<(string, string)>)
    ensures r.Some? ==> |r.value.1| < |t|
  {
    if t == [] then None
    else if t[0] == '"' then
      if |t| >= 2 && t[1] == '"' then
        match ReadQuoted(t[2..])
        case None => None
        case Some((v, rest)) => Some(("\"" + v, rest))
      else Some(("", t[1..]))
    else
      match ReadQuoted(t[1..])
      case None => None
      case Some((v, rest)) => Some(([t[0]] + v, rest))
  }

  /** Reads an unquoted field: everything up to the next ',' or line break. */
  function ReadBare(t: string): (r: (string, string))
    ensures r.0 + r.1 == t
  {
    if t == [] || t[0] == ',' || t[0] == '\n' then ("", t)
    else
      var (v, rest) := ReadBare(t[1..]);
      assert [t[0]] + v + rest == [t[0]] + (v + rest);
      ([t[0]] + v, rest)
  }

  /** Reads one field, quoted or not. */
  function ReadField(t: string): (r: Option<(string, string)>)
    ensures r.Some? ==> |r.value.1| <= |t|
  {
    if t != [] && t[0] == '"' then ReadQuoted(t[1..])
    else
      var (v, rest) := ReadBare(t);
      Some((v, rest))
  }

  /** Reads one record: its fields and the text after its line break (a last
    * record may also end with the text). */
  function ReadRecord(t: string): (r: Option<(seq<string>, string)>)
    ensures r.Some? ==> |r.value.1| < |t| || (t == [] && r.value.1 == [])
    decreases |t|
  {
    match ReadField(t)
    case None => None
    case Some((v, rest)) =>
      if rest == [] then Some(([v], []))
      else if rest[0] == '\n' then Some(([v], rest[1..]))
      else if rest[0] == ',' then
        match ReadRecord(rest[1..])
        case None => None
        case Some((vs, after)) => Some(([v] + vs, after))
      else None
  }

  /** Reads a whole document into its records. */
  function ReadRecords(t: string): Option<seq<seq<string>>>
    decreases |t|
  {
    if t == [] then Some([])
    else
      match ReadRecord(t)
      case None => None
      case Some((fields, rest)) =>
        match ReadRecords(rest)
        case None => None
        case Some(records) => Some([fields] + records)
  }

  // ---------- round trips ----------

  /** The closing quote of an escaped value is found where the value ends:
    * reading it back un-doubles the quotes and recovers the value. */
  lemma {:induction false} ReadQuotedDoubleQuotes(s: string, rest: string)
    requires rest == [] || rest[0] != '"'
    ensures ReadQuoted(DoubleQuotes(s) + "\"" + rest) == Some((s, rest))
  {
    var t := DoubleQuotes(s) + "\"" + rest;
    if s == [] {
      assert t == "\"" + rest;
      assert t[1..] == rest;
    } else if s[0] == '"' {
      assert t == "\"\"" + (DoubleQuotes(s[1..]) + "\"" + rest);
      assert t[2..] == DoubleQuotes(s[1..]) + "\"" + rest;
      ReadQuotedDoubleQuotes(s[1..], rest);
      assert "\"" + s[1..] == s;
    } else {
      assert t == [s[0]] + (DoubleQuotes(s[1..]) + "\"" + rest);
      assert t[1..] == DoubleQuotes(s[1..]) + "\"" + rest;
      ReadQuotedDoubleQuotes(s[1..], rest);
      assert [s[0]] + s[1..] == s;
    }
  }

  /** A single escaped value reads back as its text: removing the outer quotes
    * and un-doubling the inner ones recovers `str(x)`, and "" for `None`. */
  lemma EscRoundTrip(x: Option<string>, rest: string)
    requires rest == [] || rest[0] != '"'
    ensures ReadField(Esc(x) + rest) == Some((OrEmpty(x), rest))
  {
    var t := Esc(x) + rest;
    assert t[1..] == DoubleQuotes(OrEmpty(x)) + "\"" + rest;
    ReadQuotedDoubleQuotes(OrEmpty(x), rest);
  }

  /** A record of escaped values reads back as the values' texts, and the
    * reader stops right after its line break. */
  lemma {:induction false} RecordRoundTrip(xs: seq<Option<string>>, rest: string)
    requires |xs| >= 1
    ensures ReadRecord(Record(xs) + rest) == Some((Texts(xs), rest))
  {
    var t := Record(xs) + rest;
    if |xs| == 1 {
      assert EscAll(xs) == [Esc(xs[0])] + EscAll([]);
      assert t == Esc(xs[0]) + ("\n" + rest);
      EscRoundTrip(xs[0], "\n" + rest);
      assert ReadField(t) == Some((OrEmpty(xs[0]), "\n" + rest));
      assert ("\n" + rest)[0] == '\n' && ("\n" + rest)[1..] == rest;
      assert xs[1..] == [];
      assert Texts(xs) == [OrEmpty(xs[0])];
    } else {
      var tail := Record(xs[1..]) + rest;
      assert EscAll(xs)[1..] == EscAll(xs[1..]);
      assert t == Esc(xs[0]) + ("," + tail);
      EscRoundTrip(xs[0], "," + tail);
      assert ("," + tail)[1..] == tail;
      RecordRoundTrip(xs[1..], rest);
      assert ("," + tail)[0] == ',';
    }
  }

  /** A field that needs no quotes: no comma, line break or quote in it. */
  predicate IsBare(s: string) {
    forall i :: 0 <= i < |s| ==> s[i] != ',' && s[i] != '\n' && s[i] != '"'
  }

  lemma {:induction false} ReadBareStops(s: string, rest: string)
    requires IsBare(s)
    requires rest == [] || rest[0] == ',' || rest[0] == '\n'
    ensures ReadBare(s + rest) == (s, rest)
  {
    if s == [] {
      assert s + rest == rest;
    } else {
      assert (s + rest)[1..] == s[1..] + rest;
      ReadBareStops(s[1..], rest);
      assert [s[0]] + s[1..] == s;
    }
  }

  /** A header line of bare names reads back as those names. */
  lemma {:induction false} HeaderRoundTrip(names: seq<string>, rest: string)
    requires |names| >= 1
    requires forall i :: 0 <= i < |names| ==> IsBare(names[i])
    ensures ReadRecord(Join(names, ",") + "\n" + rest) == Some((names, rest))
  {
    var t := Join(names, ",") + "\n" + rest;
    if |names| == 1 {
      assert t == names[0] + ("\n" + rest);
      ReadBareStops(names[0], "\n" + rest);
      assert names == [names[0]];
      assert t != [] ==> t[0] != '"';
      assert ReadField(t) == Some((names[0], "\n" + rest));
      assert ("\n" + rest)[1..] == rest;
    } else {
      var tail := Join(names[1..], ",") + "\n" + rest;
      assert t == names[0] + ("," + tail);
      ReadBareStops(names[0], "," + tail);
      assert ("," + tail)[1..] == tail;
      HeaderRoundTrip(names[1..], rest);
      assert ("," + tail)[0] == ',';
      assert [names[0]] + names[1..] == names;
    }
  }
}
