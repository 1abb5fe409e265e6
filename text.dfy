/** String helpers shared by both analyzers: the parts of .NET's `string`
    API the source relies on (Trim, Replace, StartsWith, EndsWith, Contains),
    decimal rendering and `int.Parse`, and the two-column CSV line that both
    reports are made of. Strings are sequences of UTF-16 code units, as in
    .NET; `Trim()` is modelled on the ASCII whitespace characters. */
module Text {

  datatype Option<T> = None | Some(value: T)

  /** The characters `string.Trim()` removes in this model. */
  const Whitespace: set<char> := {' ', '\t', '\n', '\r', '\U{B}', '\U{C}'}

  predicate NoDup<T(==)>(s: seq<T>) {
    forall i, j :: 0 <= i < j < |s| ==> s[i] != s[j]
  }

  // ---------------------------------------------------------------------
  // Trimming, character removal, prefix/suffix/infix tests

  /** `s` with every leading character in `cs` removed. */
  function TrimStart(s: string, cs: set<char>): (r: string)
    ensures |r| <= |s| && r == s[|s| - |r|..]
    ensures r == [] || r[0] !in cs
    ensures forall i :: 0 <= i < |s| - |r| ==> s[i] in cs
  {
    if s == [] || s[0] !in cs then s else TrimStart(s[1..], cs)
  }

  /** `s` with every trailing character in `cs` removed. */
  function TrimEnd(s: string, cs: set<char>): (r: string)
    ensures |r| <= |s| && r == s[..|r|]
    ensures r == [] || r[|r| - 1] !in cs
    ensures forall i :: |r| <= i < |s| ==> s[i] in cs
  {
    if s == [] || s[|s| - 1] !in cs then s else TrimEnd(s[..|s| - 1], cs)
  }

  /** `s.Trim(cs)`: both ends stripped of the characters in `cs`. */
  function TrimSet(s: string, cs: set<char>): string {
    TrimEnd(TrimStart(s, cs), cs)
  }

  /** `s.Trim()`. */
  function Trim(s: string): string {
    TrimSet(s, Whitespace)
  }

  predicate IsBlank(s: string) {
    forall i :: 0 <= i < |s| ==> s[i] in Whitespace
  }

  /** `s.Trim() == ""` holds exactly for the strings made only of whitespace. */
  lemma TrimEmptyIffBlank(s: string)
    ensures Trim(s) == "" <==> IsBlank(s)
  {
    var t := TrimStart(s, Whitespace);
    if !IsBlank(s) {
      var i :| 0 <= i < |s| && s[i] !in Whitespace;
      assert |t| > 0;
      assert t[0] !in Whitespace;
      assert TrimEnd(t, Whitespace) != [];
    }
  }

  /** `s.Trim() == ""`, characterised by its meaning. */
  function TrimsToEmpty(s: string): (b: bool)
    ensures b <==> IsBlank(s)
  {
    TrimEmptyIffBlank(s);
    Trim(s) == ""
  }

  /** `s.Replace(c.ToString(), "")`. */
  function RemoveAll(s: string, c: char): (r: string)
    ensures c !in r
    ensures forall x :: x in r ==> x in s
    ensures forall x :: x != c ==> multiset(r)[x] == multiset(s)[x]
  {
    if s == [] then []
    else
      assert s == [s[0]] + s[1..];
      if s[0] == c then RemoveAll(s[1..], c)
      else [s[0]] + RemoveAll(s[1..], c)
  }

  /** Removing from a concatenation removes from each part and keeps the
      parts in order. */
  lemma {:induction false} RemoveAllAppend(a: string, b: string, c: char)
    ensures RemoveAll(a + b, c) == RemoveAll(a, c) + RemoveAll(b, c)
    decreases |a|
  {
    if a == [] {
      assert a + b == b;
    } else {
      assert (a + b)[0] == a[0] && (a + b)[1..] == a[1..] + b;
      RemoveAllAppend(a[1..], b, c);
    }
  }

  /** One character is dropped exactly when it is `c`. With
      `RemoveAllAppend`, the other characters are kept in their order. */
  lemma RemoveAllSingle(x: char, c: char)
    ensures RemoveAll([x], c) == if x == c then [] else [x]
  {
    assert [x][1..] == [];
  }

  predicate StartsWith(s: string, prefix: string) {
    |prefix| <= |s| && s[..|prefix|] == prefix
  }

  predicate EndsWith(s: string, suffix: string) {
    |suffix| <= |s| && s[|s| - |suffix|..] == suffix
  }

  /** `part` occurs in `s` starting at position `i`. */
  predicate OccursAt(s: string, part: string, i: int) {
    0 <= i && i + |part| <= |s| && s[i..i + |part|] == part
  }

  predicate Contains(s: string, part: string) {
    exists i | 0 <= i <= |s| :: OccursAt(s, part, i)
  }

  // ---------------------------------------------------------------------
  // Decimal numbers

  predicate IsDigit(c: char) { '0' as int <= c as int <= '9' as int }

  predicate IsDigits(s: string) {
    |s| > 0 && forall i :: 0 <= i < |s| ==> IsDigit(s[i])
  }

  /** Decimal rendering of a count, as string interpolation does it. */
  function NatToString(n: nat): (r: string)
    ensures IsDigits(r)
  {
    if n < 10 then [(('0' as int) + n) as char]
    else NatToString(n / 10) + [(('0' as int) + n % 10) as char]
  }

  /** The value of a string of decimal digits. */
  function DigitsValue(s: string): nat
    requires forall i :: 0 <= i < |s| ==> IsDigit(s[i])
  {
    if s == [] then 0
    else
      assert IsDigit(s[|s| - 1]);
      DigitsValue(s[..|s| - 1]) * 10 + ((s[|s| - 1] as int) - ('0' as int))
  }

  lemma {:induction false} DigitsValueOfNatToString(n: nat)
    ensures DigitsValue(NatToString(n)) == n
  {
    if n >= 10 {
      var s := NatToString(n);
      assert s[..|s| - 1] == NatToString(n / 10);
      DigitsValueOfNatToString(n / 10);
    }
  }

  const Int32Max: nat := 0x7FFF_FFFF

  /** `int.Parse(s)` restricted to unsigned decimal numbers: surrounding
      whitespace is allowed, anything else that is not digits, or a value
      beyond `int.MaxValue`, makes it throw (None). */
  function ParseInt(s: string): (r: Option<nat>)
    ensures r.Some? ==> r.value <= Int32Max
    ensures r.Some? <==> IsDigits(Trim(s)) && DigitsValue(Trim(s)) <= Int32Max
  {
    var t := Trim(s);
    if IsDigits(t) && DigitsValue(t) <= Int32Max then Some(DigitsValue(t)) else None
  }

  /** Rendering a count and parsing it back gives the count. */
  lemma ParseIntOfNatToString(n: nat)
    requires n <= Int32Max
    ensures ParseInt(NatToString(n)) == Some(n)
  {
    var s := NatToString(n);
    assert TrimStart(s, Whitespace) == s by {
      assert s[0] !in Whitespace;
    }
    assert TrimEnd(s, Whitespace) == s by {
      assert s[|s| - 1] !in Whitespace;
    }
    DigitsValueOfNatToString(n);
  }

  // ---------------------------------------------------------------------
  // The two-column report line shared by both analyzers

  /** `$"\"{a}\", \"{b}\"\r\n"`. */
  function CsvLine(a: string, b: string): string {
    "\"" + a + "\", \"" + b + "\"\r\n"
  }

  /** Index of the first `c` in `s`, or `|s|` when there is none. */
  function IndexOf(s: string, c: char): (k: nat)
    ensures k <= |s|
    ensures k < |s| ==> s[k] == c
    ensures forall i :: 0 <= i < k ==> s[i] != c
  {
    if s == [] then 0 else if s[0] == c then 0 else 1 + IndexOf(s[1..], c)
  }

  lemma IndexOfAfter(a: string, c: char, rest: string)
    requires c !in a
    ensures IndexOf(a + [c] + rest, c) == |a|
  {
    var s := a + [c] + rest;
    assert s[|a|] == c;
    assert forall i :: 0 <= i < |a| ==> s[i] == a[i];
  }

  /** Reads one report line back: the two quoted fields and what follows. */
  function ParseCsvLine(s: string): Option<(string, string, string)> {
    if |s| < 1 || s[0] != '"' then None
    else
      var t := s[1..];
      var i := IndexOf(t, '"');
      if i + 4 > |t| || t[i..i + 4] != "\", \"" then None
      else
        var u := t[i + 4..];
        var j := IndexOf(u, '"');
        if j + 3 > |u| || u[j..j + 3] != "\"\r\n" then None
        else Some((t[..i], u[..j], u[j + 3..]))
  }

  /** A line whose fields hold no quote reads back as its two fields. */
  lemma CsvLineRoundTrip(a: string, b: string, rest: string)
    requires '"' !in a && '"' !in b
    ensures ParseCsvLine(CsvLine(a, b) + rest) == Some((a, b, rest))
  {
    var s := CsvLine(a, b) + rest;
    var tail := b + "\"\r\n" + rest;
    assert s[1..] == a + "\", \"" + tail;
    QuotedField(a, "\", \"", tail);
    QuotedField(b, "\"\r\n", rest);
  }

  /** A quote-free field followed by a separator that opens with a quote
      splits back into the field, the separator and what follows. */
  lemma QuotedField(a: string, sep: string, tail: string)
    requires '"' !in a && |sep| > 0 && sep[0] == '"'
    ensures var t := a + sep + tail;
            && IndexOf(t, '"') == |a|
            && t[..|a|] == a && t[|a|..|a| + |sep|] == sep && t[|a| + |sep|..] == tail
  {
    var t := a + sep + tail;
    assert t == a + [sep[0]] + (sep[1..] + tail);
    IndexOfAfter(a, '"', sep[1..] + tail);
  }

  /** Concatenation of the lines of a two-column report. */
  function CsvReport(rows: seq<(string, string)>): string {
    if rows == [] then ""
    else CsvReport(rows[..|rows| - 1]) + CsvLine(rows[|rows| - 1].0, rows[|rows| - 1].1)
  }

  /** Splits a report back into its rows; None when it is not well-formed. */
  function ParseCsv(s: string): Option<seq<(string, string)>>
    decreases |s|
  {
    if s == [] then Some([])
    else match ParseCsvLine(s)
      case None => None
      case Some((a, b, rest)) =>
        if |rest| >= |s| then None
        else match ParseCsv(rest)
          case None => None
          case Some(rows) => Some([(a, b)] + rows)
  }

  predicate QuoteFree(rows: seq<(string, string)>) {
    forall i :: 0 <= i < |rows| ==> '"' !in rows[i].0 && '"' !in rows[i].1
  }

  function CsvReportFront(rows: seq<(string, string)>): string {
    if rows == [] then "" else CsvLine(rows[0].0, rows[0].1) + CsvReportFront(rows[1..])
  }

  lemma {:induction false} CsvReportFrontEq(rows: seq<(string, string)>)
    ensures CsvReport(rows) == CsvReportFront(rows)
    decreases |rows|
  {
    if rows != [] {
      var n := |rows|;
      if n == 1 {
        assert rows[..0] == [];
        assert rows[1..] == [];
      } else {
        CsvReportFrontEq(rows[..n - 1]);
        CsvReportFrontEq(rows[1..]);
        CsvReportFrontEq(rows[1..][..n - 2]);
        assert rows[..n - 1][1..] == rows[1..][..n - 2];
        assert rows[..n - 1][0] == rows[0];
        assert CsvReportFront(rows[..n - 1]) == CsvLine(rows[0].0, rows[0].1) + CsvReportFront(rows[1..][..n - 2]);
      }
    }
  }

  /** Every row of a quote-free report reads back, in order and nothing more:
      the report has exactly one line per row and no header. */
  lemma {:induction false} CsvReportRoundTrip(rows: seq<(string, string)>)
    requires QuoteFree(rows)
    ensures ParseCsv(CsvReport(rows)) == Some(rows)
  {
    CsvReportFrontEq(rows);
    CsvReportFrontRoundTrip(rows);
  }

  lemma {:induction false} CsvReportFrontRoundTrip(rows: seq<(string, string)>)
    requires QuoteFree(rows)
    ensures ParseCsv(CsvReportFront(rows)) == Some(rows)
    decreases |rows|
  {
    if rows != [] {
      var rest := CsvReportFront(rows[1..]);
      CsvLineRoundTrip(rows[0].0, rows[0].1, rest);
      CsvReportFrontRoundTrip(rows[1..]);
      assert [rows[0]] + rows[1..] == rows;
    }
  }
}
