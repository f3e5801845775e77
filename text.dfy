/**
 * String helpers with Python's semantics: `str.strip()`, `sep.join(xs)`,
 * `s.split(c)`, and the text ordering that SQLite's BINARY collation applies
 * to TEXT columns (which, over UTF-8, is code-point order).
 */
module Text {
  import opened Wrappers

  /** The characters Python's `str.isspace()` accepts; `str.strip()` removes
    * them and the regular-expression class `\s` matches them. */
  predicate IsSpace(c: char) {
    || ('\t' <= c <= '\r')
    || ('\U{1C}' <= c <= '\U{1F}')
    || c == ' '
    || c == '\U{85}'
    || c == '\U{A0}'
    || c == '\U{1680}'
    || ('\U{2000}' <= c <= '\U{200A}')
    || c == '\U{2028}'
    || c == '\U{2029}'
    || c == '\U{202F}'
    || c == '\U{205F}'
    || c == '\U{3000}'
  }

  predicate AllSpace(s: string) {
    forall i :: 0 <= i < |s| ==> IsSpace(s[i])
  }

  /** Neither end of `s` is whitespace: `s.strip()` would leave it as it is. */
  predicate Stripped(s: string) {
    s == [] || (!IsSpace(s[0]) && !IsSpace(s[|s| - 1]))
  }

  /** Python's `x or ""` on an optional string. */
  function OrEmpty(x: Option<string>): string {
    x.GetOr("")
  }

  /** Python's `str(x)` for an optional string: `None` prints as "None". */
  function PyStr(x: Option<string>): string {
    x.GetOr("None")
  }

  /** Python's `s.lstrip()`. */
  function TrimLeft(s: string): (r: string)
    ensures |r| <= |s|
  {
    if s != [] && IsSpace(s[0]) then TrimLeft(s[1..]) else s
  }

  /** Python's `s.rstrip()`. */
  function TrimRight(s: string): (r: string)
    ensures |r| <= |s|
  {
    if s != [] && IsSpace(s[|s| - 1]) then TrimRight(s[..|s| - 1]) else s
  }

  /** `lstrip` drops the longest whitespace prefix. */
  lemma {:induction false} TrimLeftSpec(s: string)
    ensures TrimLeft(s) == s[|s| - |TrimLeft(s)|..]
    ensures AllSpace(s[..|s| - |TrimLeft(s)|])
    ensures TrimLeft(s) == [] || !IsSpace(TrimLeft(s)[0])
  {
    if s != [] && IsSpace(s[0]) {
      TrimLeftSpec(s[1..]);
      var k := |s| - |TrimLeft(s)|;
      forall i | 0 <= i < k ensures IsSpace(s[..k][i]) {
        if i > 0 { assert s[..k][i] == s[1..][..k - 1][i - 1]; }
      }
    }
  }

  /** `rstrip` drops the longest whitespace suffix. */
  lemma {:induction false} TrimRightSpec(s: string)
    ensures TrimRight(s) == s[..|TrimRight(s)|]
    ensures AllSpace(s[|TrimRight(s)|..])
    ensures TrimRight(s) == [] || !IsSpace(TrimRight(s)[|TrimRight(s)| - 1])
  {
    if s != [] && IsSpace(s[|s| - 1]) {
      var t := s[..|s| - 1];
      TrimRightSpec(t);
      var k := |TrimRight(s)|;
      assert s[..k] == t[..k];
      forall i | k <= i < |s| ensures IsSpace(s[i]) {
        if i < |s| - 1 { assert s[i] == t[k..][i - k]; }
      }
    }
  }

  /** Python's `s.strip()`. */
  function Strip(s: string): string {
    TrimRight(TrimLeft(s))
  }

  /** How many leading whitespace characters `s.strip()` drops. */
  function LeadingSpace(s: string): (k: nat)
    ensures k <= |s|
  {
    |s| - |TrimLeft(s)|
  }

  /** `s.strip()` is the piece of `s` after its leading whitespace that starts
    * and ends with non-whitespace, only whitespace is cut off either end, and
    * it is empty exactly when `s` is all whitespace. */
  lemma StripSpec(s: string)
    ensures Stripped(Strip(s))
    ensures Strip(s) == s[LeadingSpace(s)..LeadingSpace(s) + |Strip(s)|]
    ensures Strip(s) == [] <==> AllSpace(s)
    ensures AllSpace(s[..LeadingSpace(s)]) && AllSpace(s[LeadingSpace(s) + |Strip(s)|..])
  {
    var l := TrimLeft(s);
    var r := TrimRight(l);
    var k := |s| - |l|;
    TrimLeftSpec(s);
    TrimRightSpec(l);
    if r == [] {
      assert l[|r|..] == l;
      assert l == [];
      assert s[..k] == s;
    } else {
      assert !IsSpace(r[0]) by { assert r[0] == l[0]; }
      assert !IsSpace(s[k]);
    }
  }

  /** Stripping leaves an already stripped string alone, so `strip` is idempotent. */
  lemma {:induction false} StripOfStripped(s: string)
    requires Stripped(s)
    ensures Strip(s) == s
  {
  }

  lemma StripIdempotent(s: string)
    ensures Strip(Strip(s)) == Strip(s)
  {
    StripSpec(s);
    StripOfStripped(Strip(s));
  }

  /** Leading whitespace never survives `strip`. */
  lemma {:induction false} StripLeadingSpace(p: string, s: string)
    requires AllSpace(p)
    ensures Strip(p + s) == Strip(s)
  {
    if p != [] {
      assert (p + s)[1..] == p[1..] + s;
      StripLeadingSpace(p[1..], s);
    } else {
      assert p + s == s;
    }
  }

  /** Python's `sep.join(xs)`. */
  function Join(xs: seq<string>, sep: string): string {
    if xs == [] then ""
    else if |xs| == 1 then xs[0]
    else xs[0] + sep + Join(xs[1..], sep)
  }

  /** Python's `s.split(c)` for a one-character separator: the pieces between
    * occurrences of `c`; there is always at least one piece. */
  function Split(s: string, c: char): (r: seq<string>)
    ensures |r| >= 1
  {
    if s == [] then [""]
    else
      var rest := Split(s[1..], c);
      if s[0] == c then [""] + rest else [[s[0]] + rest[0]] + rest[1..]
  }

  /** The number of occurrences of `c` in `s`. */
  function CountChar(s: string, c: char): nat {
    if s == [] then 0 else (if s[0] == c then 1 else 0) + CountChar(s[1..], c)
  }

  /** The index of the first `c` in `s`, or `|s|` when there is none. */
  function IndexOf(s: string, c: char): (k: nat)
    ensures k <= |s|
    ensures forall m :: 0 <= m < k ==> s[m] != c
    ensures k < |s| ==> s[k] == c
  {
    if s == [] then 0 else if s[0] == c then 0 else 1 + IndexOf(s[1..], c)
  }

  lemma {:induction false} CountCharAppend(a: string, b: string, c: char)
    ensures CountChar(a + b, c) == CountChar(a, c) + CountChar(b, c)
  {
    if a == [] {
      assert a + b == b;
    } else {
      assert (a + b)[1..] == a[1..] + b;
      CountCharAppend(a[1..], b, c);
    }
  }

  lemma {:induction false} CountCharZero(s: string, c: char)
    ensures CountChar(s, c) == 0 <==> c !in s
  {
    if s != [] {
      CountCharZero(s[1..], c);
      assert c in s <==> s[0] == c || c in s[1..];
    }
  }

  /** `s.split(c)` has one piece more than `s` has separators. */
  lemma {:induction false} SplitCount(s: string, c: char)
    ensures |Split(s, c)| == CountChar(s, c) + 1
  {
    if s != [] {
      SplitCount(s[1..], c);
    }
  }

  /** Splitting a text that starts with a separator-free `t` glues `t` to the first piece. */
  lemma {:induction false} SplitPrefix(t: string, u: string, c: char)
    requires c !in t
    ensures Split(t + u, c) == [t + Split(u, c)[0]] + Split(u, c)[1..]
  {
    if t != [] {
      assert (t + u)[1..] == t[1..] + u;
      SplitPrefix(t[1..], u, c);
      assert [t[0]] + (t[1..] + Split(u, c)[0]) == t + Split(u, c)[0];
    } else {
      assert t + u == u;
      var p := Split(u, c);
      assert t + p[0] == p[0];
      assert [p[0]] + p[1..] == p;
    }
  }

  /** Splitting `x + [c] + u`, where `x` holds no separator, yields `x` and then the pieces of `u`. */
  lemma SplitAtSeparator(x: string, u: string, c: char)
    requires c !in x
    ensures Split(x + [c] + u, c) == [x] + Split(u, c)
  {
    assert x + [c] + u == x + ([c] + u);
    SplitPrefix(x, [c] + u, c);
    assert ([c] + u)[0] == c && ([c] + u)[1..] == u;
    assert Split([c] + u, c) == [""] + Split(u, c);
    assert x + "" == x;
    assert ([""] + Split(u, c))[1..] == Split(u, c);
  }

  /**
   * Splitting `xs` joined with the separator `[c] + t` recovers the parts: the
   * first as it was, each later one behind the filler `t` (for `", ".join` split
   * on `','`, behind a space), provided no part and not `t` contains `c`.
   */
  lemma {:induction false} SplitJoin(xs: seq<string>, c: char, t: string)
    requires |xs| >= 1
    requires c !in t
    requires forall i :: 0 <= i < |xs| ==> c !in xs[i]
    ensures |Split(Join(xs, [c] + t), c)| == |xs|
    ensures Split(Join(xs, [c] + t), c)[0] == xs[0]
    ensures forall i :: 1 <= i < |xs| ==> Split(Join(xs, [c] + t), c)[i] == t + xs[i]
  {
    if |xs| == 1 {
      SplitPrefix(xs[0], "", c);
      assert xs[0] + "" == xs[0];
    } else {
      var rest := Join(xs[1..], [c] + t);
      SplitJoin(xs[1..], c, t);
      assert Join(xs, [c] + t) == xs[0] + [c] + (t + rest);
      SplitAtSeparator(xs[0], t + rest, c);
      SplitPrefix(t, rest, c);
      var r := Split(rest, c);
      var whole := Split(Join(xs, [c] + t), c);
      assert whole == [xs[0]] + ([t + r[0]] + r[1..]);
      forall i | 1 <= i < |xs| ensures whole[i] == t + xs[i] {
        if i > 1 {
          assert whole[i] == r[i - 1];
          assert xs[1..][i - 1] == xs[i];
        }
      }
    }
  }

  /** Splitting parts joined by a one-character separator they do not contain gives them back. */
  lemma SplitJoined(xs: seq<string>, c: char)
    requires |xs| >= 1
    requires forall i :: 0 <= i < |xs| ==> c !in xs[i]
    ensures Split(Join(xs, [c]), c) == xs
  {
    assert [c] + "" == [c];
    SplitJoin(xs, c, "");
    var r := Split(Join(xs, [c]), c);
    forall i | 1 <= i < |xs| ensures r[i] == xs[i] {
      assert "" + xs[i] == xs[i];
    }
  }

  /** The separators in `", ".join(xs)`-style text: one per gap plus those inside the parts. */
  function CountInAll(xs: seq<string>, c: char): nat {
    if xs == [] then 0 else CountChar(xs[0], c) + CountInAll(xs[1..], c)
  }

  lemma {:induction false} CountCharJoin(xs: seq<string>, sep: string, c: char)
    requires |xs| >= 1
    ensures CountChar(Join(xs, sep), c) == (|xs| - 1) * CountChar(sep, c) + CountInAll(xs, c)
  {
    if |xs| > 1 {
      CountCharJoin(xs[1..], sep, c);
      CountCharAppend(xs[0], sep, c);
      CountCharAppend(xs[0] + sep, Join(xs[1..], sep), c);
    }
  }

  lemma {:induction false} CountInAllZero(xs: seq<string>, c: char)
    ensures CountInAll(xs, c) == 0 <==> forall i :: 0 <= i < |xs| ==> c !in xs[i]
  {
    if xs != [] {
      CountInAllZero(xs[1..], c);
      CountCharZero(xs[0], c);
      if CountInAll(xs, c) == 0 {
        forall i | 0 <= i < |xs| ensures c !in xs[i] {
          if i > 0 { assert xs[i] == xs[1..][i - 1]; }
        }
      } else if CountChar(xs[0], c) == 0 {
        var i :| 0 <= i < |xs[1..]| && c in xs[1..][i];
        assert c in xs[i + 1];
      }
    }
  }

  /**
   * Text order of SQLite's BINARY collation (UTF-8 bytes compared with memcmp,
   * which orders like code points): a proper prefix sorts first.
   */
  predicate TextLe(a: string, b: string) {
    a == [] || (b != [] && (a[0] < b[0] || (a[0] == b[0] && TextLe(a[1..], b[1..]))))
  }

  lemma {:induction false} TextLeTotal(a: string, b: string)
    ensures TextLe(a, b) || TextLe(b, a)
  {
    if a != [] && b != [] && a[0] == b[0] {
      TextLeTotal(a[1..], b[1..]);
    }
  }

  lemma {:induction false} TextLeTransitive(a: string, b: string, c: string)
    requires TextLe(a, b) && TextLe(b, c)
    ensures TextLe(a, c)
  {
    if a != [] && b != [] && c != [] && a[0] == b[0] && b[0] == c[0] {
      TextLeTransitive(a[1..], b[1..], c[1..]);
    }
  }
}
