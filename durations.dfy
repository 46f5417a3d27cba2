/**
 * `load_durations`: choosing the duration column of a CSV file, reading each
 * row's field as a number or a clock time, and converting it to seconds.
 * The file itself is not read here: its header line and data rows, as
 * `csv.DictReader` delivers them, are the inputs.
 */
module Durations {
  import opened Wrappers
  import opened Text

  /** A data row as `csv.DictReader` gives it: the field values by header. */
  type Row = map<string, string>

  /** `row.get(key, "")`. */
  function Field(row: Row, key: string): string {
    if key in row then row[key] else ""
  }

  // ------------------------------------------------------------ one value

  /** The cleaning of a raw field: stripped, then every double quote and every comma deleted. */
  function Clean(raw: string): string {
    RemoveAll(RemoveAll(Strip(raw), '"'), ',')
  }

  /** The cleaned field has no double quote and no comma. */
  lemma CleanDeletes(raw: string)
    ensures '"' !in Clean(raw) && ',' !in Clean(raw)
  {
    var u := RemoveAll(Strip(raw), '"');
    RemoveAllCounts(Strip(raw), '"');
    RemoveAllCounts(u, ',');
    RemoveAllKeeps(u, ',');
    assert multiset(Clean(raw))['"'] == multiset(u)['"'];
  }

  /** The cleaned field keeps every other character of the stripped field, as often as it occurs there. */
  lemma CleanKeeps(raw: string, c: char)
    requires c != '"' && c != ','
    ensures multiset(Clean(raw))[c] == multiset(Strip(raw))[c]
  {
    var u := RemoveAll(Strip(raw), '"');
    RemoveAllKeeps(Strip(raw), '"');
    RemoveAllKeeps(u, ',');
    assert multiset(u)[c] == multiset(Strip(raw))[c];
  }

  /** The clock forms `m:s` (minutes and seconds) and `h:m:s`; anything else between the colons gives 0. */
  function ParseClock(s: string): real {
    var parts := Split(s, ':');
    if |parts| == 2 then
      match (ParseInt(parts[0]), ParseFloat(parts[1]))
      case (Some(m), Some(sec)) => m as real * 60.0 + sec
      case _ => 0.0
    else if |parts| == 3 then
      match (ParseInt(parts[0]), ParseInt(parts[1]), ParseFloat(parts[2]))
      case (Some(h), Some(m), Some(sec)) => h as real * 3600.0 + m as real * 60.0 + sec
      case _ => 0.0
    else 0.0
  }

  /** A cleaned field in the file's unit: a number, else a clock form when there is a colon, else 0. */
  function ParseDuration(s: string): real {
    match ParseFloat(s)
    case Some(v) => v
    case None => if ':' in s then ParseClock(s) else 0.0
  }

  /** Conversion to seconds: `ms` and `min` are recognised, any other unit is taken as seconds. */
  function ToSeconds(v: real, unit: string): real {
    if unit == "ms" then v / 1000.0
    else if unit == "min" then v * 60.0
    else v
  }

  /** The duration in seconds that one raw field contributes. */
  function ParseValue(raw: string, unit: string): real {
    ToSeconds(ParseDuration(Clean(raw)), unit)
  }

  /** The conversion keeps the order of values and scales with them. */
  lemma ToSecondsMonotone(v: real, w: real, unit: string)
    requires v <= w
    ensures ToSeconds(v, unit) <= ToSeconds(w, unit)
    ensures v >= 0.0 ==> ToSeconds(v, unit) >= 0.0
  {
  }

  /** How much a value in each unit is worth in seconds: one minute is sixty thousand milliseconds. */
  lemma UnitsAgree(v: real)
    ensures ToSeconds(v * 60000.0, "ms") == ToSeconds(v, "min")
    ensures ToSeconds(v * 1000.0, "ms") == ToSeconds(v, "s")
  {
  }

  /** A string of digits holds no colon, quote, comma, point or whitespace. */
  lemma DigitsArePlain(s: string)
    requires AllDigits(s)
    ensures ':' !in s && '"' !in s && ',' !in s && '.' !in s
    ensures forall k :: 0 <= k < |s| ==> !IsSpace(s[k])
  {
    AllDigitsMeans(s);
  }

  /** A field with no surrounding whitespace, quote or comma comes out of the cleaning as it went in. */
  lemma CleanIsIdentity(s: string)
    requires s == [] || (!IsSpace(s[0]) && !IsSpace(s[|s| - 1]))
    requires '"' !in s && ',' !in s
    ensures Clean(s) == s
  {
    RemoveAllCounts(s, '"');
    RemoveAllCounts(s, ',');
  }

  /** A printed number of the file's unit reads back as that number, converted to seconds. */
  lemma NumberRoundTrip(n: nat, unit: string)
    ensures ParseValue(ShowNat(n), unit) == ToSeconds(n as real, unit)
  {
    var s := ShowNat(n);
    DigitsArePlain(s);
    CleanIsIdentity(s);
    ShowNatRoundTrip(n);
  }

  /** A field without surrounding whitespace, quotes or commas but with a colon: cleaning keeps it and it is no float. */
  lemma ClockTextIsClean(s: string)
    requires s != [] && !IsSpace(s[0]) && !IsSpace(s[|s| - 1]) && '"' !in s && ',' !in s && ':' in s
    ensures Clean(s) == s && ParseFloat(s).None?
  {
    CleanIsIdentity(s);
    ForeignIsNotNumeric(s, ':');
  }

  /** Digit strings joined by colons: no surrounding whitespace, no quote or comma, and a colon. */
  lemma TwoFieldsPlain(a: string, b: string)
    requires a != [] && b != [] && AllDigits(a) && AllDigits(b)
    ensures var s := a + [':'] + b;
      !IsSpace(s[0]) && !IsSpace(s[|s| - 1]) && '"' !in s && ',' !in s && ':' in s
  {
    var s := a + [':'] + b;
    DigitsArePlain(a);
    DigitsArePlain(b);
    assert s[0] == a[0] && s[|s| - 1] == b[|b| - 1];
    assert s[|a|] == ':';
  }

  lemma ThreeFieldsPlain(a: string, b: string, c: string)
    requires a != [] && b != [] && c != [] && AllDigits(a) && AllDigits(b) && AllDigits(c)
    ensures var s := a + [':'] + b + [':'] + c;
      !IsSpace(s[0]) && !IsSpace(s[|s| - 1]) && '"' !in s && ',' !in s && ':' in s
  {
    var s := a + [':'] + b + [':'] + c;
    DigitsArePlain(a);
    DigitsArePlain(b);
    DigitsArePlain(c);
    assert s[0] == a[0] && s[|s| - 1] == c[|c| - 1];
    assert s[|a|] == ':';
  }

  /** Colon-free fields joined by colons split back into those fields. */
  lemma TwoFieldsSplit(a: string, b: string)
    requires ':' !in a && ':' !in b
    ensures Split(a + [':'] + b, ':') == [a, b]
  {
    SplitFields(b, ':');
    SplitAtSeparator(a, b, ':');
  }

  lemma ThreeFieldsSplit(a: string, b: string, c: string)
    requires ':' !in a && ':' !in b && ':' !in c
    ensures Split(a + [':'] + b + [':'] + c, ':') == [a, b, c]
  {
    TwoFieldsSplit(b, c);
    SplitAtSeparator(a, b + [':'] + c, ':');
    assert a + [':'] + b + [':'] + c == a + [':'] + (b + [':'] + c);
  }

  /** A field splitting at its colons into two digit strings: cleaning keeps it and it is no float. */
  lemma TwoFieldsAreClean(s: string, a: string, b: string)
    requires a != [] && b != [] && AllDigits(a) && AllDigits(b) && Split(s, ':') == [a, b]
    ensures Clean(s) == s && ParseFloat(s).None? && ':' in s
  {
    JoinSplit(s, ':');
    assert [a, b][1..] == [b];
    assert Join([a, b], ':') == a + [':'] + b;
    TwoFieldsPlain(a, b);
    ClockTextIsClean(s);
  }

  /** A field splitting at its colons into three digit strings: cleaning keeps it and it is no float. */
  lemma ThreeFieldsAreClean(s: string, a: string, b: string, c: string)
    requires a != [] && b != [] && c != [] && AllDigits(a) && AllDigits(b) && AllDigits(c)
    requires Split(s, ':') == [a, b, c]
    ensures Clean(s) == s && ParseFloat(s).None? && ':' in s
  {
    JoinSplit(s, ':');
    assert [a, b, c][1..] == [b, c] && [b, c][1..] == [c];
    assert Join([b, c], ':') == b + [':'] + c;
    assert Join([a, b, c], ':') == a + [':'] + (b + [':'] + c);
    assert a + [':'] + (b + [':'] + c) == a + [':'] + b + [':'] + c;
    ThreeFieldsPlain(a, b, c);
    ClockTextIsClean(s);
  }

  /** A field that cleaning keeps is read as its duration. */
  lemma ValueOfClean(s: string, unit: string)
    requires Clean(s) == s
    ensures ParseValue(s, unit) == ToSeconds(ParseDuration(s), unit)
  {
  }

  /** A field that is no float but has a colon is read as a clock value. */
  lemma DurationOfClock(s: string)
    requires ParseFloat(s).None? && ':' in s
    ensures ParseDuration(s) == ParseClock(s)
  {
  }

  /** A field that cleaning keeps and that is a clock value, converted to seconds. */
  lemma ValueOfClock(s: string, unit: string, v: real)
    requires Clean(s) == s && ParseFloat(s).None? && ':' in s && ParseClock(s) == v
    ensures ParseValue(s, unit) == ToSeconds(v, unit)
  {
    ValueOfClean(s, unit);
    DurationOfClock(s);
  }

  /** Two fields, a whole number of minutes and a number of seconds, are `60 m + s` seconds. */
  lemma ClockOfTwo(s: string, p: string, q: string, m: int, sec: real)
    requires Split(s, ':') == [p, q] && ParseInt(p) == Some(m) && ParseFloat(q) == Some(sec)
    ensures ParseClock(s) == m as real * 60.0 + sec
  {
  }

  /** Three fields, whole hours, whole minutes and seconds, are `3600 h + 60 m + s` seconds. */
  lemma ClockOfThree(s: string, p: string, q: string, r: string, h: int, m: int, sec: real)
    requires Split(s, ':') == [p, q, r] && ParseInt(p) == Some(h) && ParseInt(q) == Some(m) && ParseFloat(r) == Some(sec)
    ensures ParseClock(s) == h as real * 3600.0 + m as real * 60.0 + sec
  {
  }

  /** The colon-separated parts of a field that the clock forms do not accept. */
  predicate ClockUnreadable(p: seq<string>) {
    || |p| !in {2, 3}
    || (|p| == 2 && (ParseInt(p[0]).None? || ParseFloat(p[1]).None?))
    || (|p| == 3 && (ParseInt(p[0]).None? || ParseInt(p[1]).None? || ParseFloat(p[2]).None?))
  }

  /** Anything but two or three colon-separated parts, or any part that does not parse, gives 0. */
  lemma ClockFallsBack(s: string)
    requires ClockUnreadable(Split(s, ':'))
    ensures ParseClock(s) == 0.0
  {
  }

  /** A field that cleans to no number and has no colon is read as 0 seconds, whatever the unit. */
  lemma NoNumberNoColon(raw: string, unit: string)
    requires ParseFloat(Clean(raw)).None? && ':' !in Clean(raw)
    ensures ParseValue(raw, unit) == 0.0
  {
  }

  /** A word is read as 0 seconds. */
  lemma WordIsZero()
    ensures ParseValue("abc", "s") == 0.0
  {
    CleanIsIdentity("abc");
    ForeignIsNotNumeric("abc", 'a');
    NoNumberNoColon("abc", "s");
  }

  /** Two digit strings are whole minutes and seconds. */
  lemma ClockOfTwoDigits(s: string, a: string, b: string)
    requires a != [] && b != [] && AllDigits(a) && AllDigits(b) && Split(s, ':') == [a, b]
    ensures ParseClock(s) == (60 * DigitsValue(a) + DigitsValue(b)) as real
  {
    DigitsRead(a);
    DigitsRead(b);
    ClockOfTwo(s, a, b, DigitsValue(a), DigitsValue(b) as real);
  }

  /** Three digit strings are whole hours, minutes and seconds. */
  lemma ClockOfThreeDigits(s: string, a: string, b: string, c: string)
    requires a != [] && b != [] && c != [] && AllDigits(a) && AllDigits(b) && AllDigits(c)
    requires Split(s, ':') == [a, b, c]
    ensures ParseClock(s) == (3600 * DigitsValue(a) + 60 * DigitsValue(b) + DigitsValue(c)) as real
  {
    DigitsRead(a);
    DigitsRead(b);
    DigitsRead(c);
    ClockOfThree(s, a, b, c, DigitsValue(a), DigitsValue(b), DigitsValue(c) as real);
  }

  /** A field splitting at its colons into digit strings `m` and `s` reads as `60 m + s` seconds of the file's unit. */
  lemma MinutesSecondsSplit(s: string, a: string, b: string, unit: string)
    requires a != [] && b != [] && AllDigits(a) && AllDigits(b) && Split(s, ':') == [a, b]
    ensures ParseValue(s, unit) == ToSeconds((60 * DigitsValue(a) + DigitsValue(b)) as real, unit)
  {
    TwoFieldsAreClean(s, a, b);
    ClockOfTwoDigits(s, a, b);
    ValueOfClock(s, unit, (60 * DigitsValue(a) + DigitsValue(b)) as real);
  }

  /** A field splitting into digit strings `h`, `m` and `s` reads as `3600 h + 60 m + s` seconds of the file's unit. */
  lemma HoursMinutesSecondsSplit(s: string, a: string, b: string, c: string, unit: string)
    requires a != [] && b != [] && c != [] && AllDigits(a) && AllDigits(b) && AllDigits(c)
    requires Split(s, ':') == [a, b, c]
    ensures ParseValue(s, unit) == ToSeconds((3600 * DigitsValue(a) + 60 * DigitsValue(b) + DigitsValue(c)) as real, unit)
  {
    ThreeFieldsAreClean(s, a, b, c);
    ClockOfThreeDigits(s, a, b, c);
    ValueOfClock(s, unit, (3600 * DigitsValue(a) + 60 * DigitsValue(b) + DigitsValue(c)) as real);
  }

  /** Digits `m:s` read back as `60 m + s` seconds of the file's unit, leading zeros or not. */
  lemma MinutesSecondsRead(a: string, b: string, unit: string)
    requires a != [] && b != [] && AllDigits(a) && AllDigits(b)
    ensures ParseValue(a + [':'] + b, unit) == ToSeconds((60 * DigitsValue(a) + DigitsValue(b)) as real, unit)
  {
    DigitsArePlain(a);
    DigitsArePlain(b);
    TwoFieldsSplit(a, b);
    MinutesSecondsSplit(a + [':'] + b, a, b, unit);
  }

  /** Digits `h:m:s` read back as `3600 h + 60 m + s` seconds of the file's unit, leading zeros or not. */
  lemma HoursMinutesSecondsRead(a: string, b: string, c: string, unit: string)
    requires a != [] && b != [] && c != [] && AllDigits(a) && AllDigits(b) && AllDigits(c)
    ensures ParseValue(a + [':'] + b + [':'] + c, unit)
            == ToSeconds((3600 * DigitsValue(a) + 60 * DigitsValue(b) + DigitsValue(c)) as real, unit)
  {
    DigitsArePlain(a);
    DigitsArePlain(b);
    DigitsArePlain(c);
    ThreeFieldsSplit(a, b, c);
    HoursMinutesSecondsSplit(a + [':'] + b + [':'] + c, a, b, c, unit);
  }

  /** A digit string in double quotes has no surrounding whitespace and no comma. */
  lemma QuotedDigitsPlain(d: string)
    requires d != [] && AllDigits(d)
    ensures Strip(['"'] + d + ['"']) == ['"'] + d + ['"']
    ensures RemoveAll(['"'] + d + ['"'], ',') == ['"'] + d + ['"']
  {
    var q := ['"'] + d + ['"'];
    DigitsArePlain(d);
    assert q[0] == '"' && q[|q| - 1] == '"';
    RemoveAllCounts(q, ',');
  }

  /** Deleting the double quotes around a digit string leaves the digits. */
  lemma QuotedDigitsUnquote(d: string)
    requires d != [] && AllDigits(d)
    ensures RemoveAll(['"'] + d + ['"'], '"') == d
  {
    DigitsArePlain(d);
    RemoveAllCounts(d, '"');
    RemoveAllAppend(['"'] + d, ['"'], '"');
    RemoveAllAppend(['"'], d, '"');
    assert ['"'][..0] == [];
    assert RemoveAll(['"'], '"') == [];
  }

  /** The value cleaning turns a quoted digit string into the digits. */
  lemma QuotedDigitsClean(d: string)
    requires d != [] && AllDigits(d)
    ensures Clean(['"'] + d + ['"']) == d
  {
    QuotedDigitsPlain(d);
    QuotedDigitsUnquote(d);
    DigitsArePlain(d);
    RemoveAllCounts(d, ',');
  }

  /**
   * A number in double quotes: the value cleaning deletes the quotes and reads
   * the number, but the numeric test of the column search keeps them and
   * refuses it.
   */
  lemma QuotedNumber(row: Row, h: string, d: string, unit: string)
    requires d != [] && AllDigits(d)
    requires h in row && row[h] == ['"'] + d + ['"']
    ensures ParseValue(Field(row, h), unit) == ToSeconds(DigitsValue(d) as real, unit)
    ensures !LooksNumeric(row, h)
  {
    var q := Field(row, h);
    assert q == ['"'] + d + ['"'];
    QuotedDigitsClean(d);
    DigitsRead(d);
    assert ParseDuration(d) == DigitsValue(d) as real;
    assert ParseValue(q, unit) == ToSeconds(ParseDuration(d), unit);
    QuotedDigitsPlain(d);
    assert RemoveAll(Strip(q), ',') == q;
    assert q[0] == '"';
    ForeignIsNotNumeric(q, '"');
  }

  // ------------------------------------------------------------ the column

  /**
   * `{key(h): h for h in headers[:n]}`: the headers by key, a later header
   * winning a clash.
   */
  function KeyedBy(headers: seq<string>, key: string -> string, n: nat): map<string, string>
    requires n <= |headers|
  {
    if n == 0 then map[] else KeyedBy(headers, key, n - 1)[key(headers[n - 1]) := headers[n - 1]]
  }

  /**
   * Every header's key is in the map, and each key maps to a header with that
   * key after which no header has it: of several headers with one key, the
   * last wins.
   */
  lemma {:induction false} KeyedByLastWins(headers: seq<string>, key: string -> string, n: nat)
    requires n <= |headers|
    ensures forall j :: 0 <= j < n ==> key(headers[j]) in KeyedBy(headers, key, n)
    ensures forall name :: name in KeyedBy(headers, key, n) ==>
              exists j :: 0 <= j < n && KeyedBy(headers, key, n)[name] == headers[j] && key(headers[j]) == name
                          && forall i :: j < i < n ==> key(headers[i]) != name
  {
    if n > 0 {
      KeyedByLastWins(headers, key, n - 1);
      var m := KeyedBy(headers, key, n - 1);
      var last := key(headers[n - 1]);
      var full := KeyedBy(headers, key, n);
      assert full == m[last := headers[n - 1]];
      forall j | 0 <= j < n
        ensures key(headers[j]) in full
      {
        if j < n - 1 {
          assert key(headers[j]) in m;
        }
      }
      forall name | name in full
        ensures exists j :: 0 <= j < n && full[name] == headers[j] && key(headers[j]) == name
                            && forall i :: j < i < n ==> key(headers[i]) != name
      {
        if name == last {
          assert full[name] == headers[n - 1];
        } else {
          assert name in m;
          var j :| 0 <= j < n - 1 && m[name] == headers[j] && key(headers[j]) == name
                   && forall i :: j < i < n - 1 ==> key(headers[i]) != name;
          assert full[name] == headers[j];
          assert forall i :: j < i < n ==> key(headers[i]) != name;
        }
      }
    }
  }

  /** `h.lower()`, as a function value. */
  function LowerName(): string -> string {
    h => Lower(h)
  }

  /** `{h.lower(): h for h in headers}`. */
  function HeaderMap(headers: seq<string>): map<string, string> {
    KeyedBy(headers, LowerName(), |headers|)
  }

  /**
   * The numeric test of the column search: the first row's field, stripped and
   * with its commas deleted, parses as a float. Unlike the value cleaning it
   * does not delete double quotes, so a quoted number is not numeric here.
   */
  predicate LooksNumeric(row: Row, h: string) {
    ParseFloat(RemoveAll(Strip(Field(row, h)), ',')).Some?
  }

  /** The numeric test for `row`, as a function value on headers. */
  function NumericIn(row: Row): string -> bool {
    h => LooksNumeric(row, h)
  }

  /** The position of the first header from position `i` on that satisfies `p`, or `|headers|`. */
  function FirstWhere(headers: seq<string>, p: string -> bool, i: nat): (k: nat)
    requires i <= |headers|
    ensures i <= k <= |headers|
    ensures k < |headers| ==> p(headers[k])
    ensures forall j :: i <= j < k ==> !p(headers[j])
    decreases |headers| - i
  {
    if i == |headers| then i
    else if p(headers[i]) then i
    else FirstWhere(headers, p, i + 1)
  }

  /** The search stops exactly at the first header from `i` on that satisfies `p`. */
  lemma {:induction false} FirstWhereIsFirst(headers: seq<string>, p: string -> bool, i: nat, k: nat)
    requires i <= k <= |headers|
    requires k < |headers| ==> p(headers[k])
    requires forall j :: i <= j < k ==> !p(headers[j])
    ensures FirstWhere(headers, p, i) == k
    decreases k - i
  {
    if i < k {
      FirstWhereIsFirst(headers, p, i + 1, k);
    }
  }

  /**
   * The column `load_durations` reads: the one asked for; else the last
   * header called `duration` in any case; else the first header whose value
   * in the first row looks numeric; else the first header. With no column
   * asked for and no headers there is none.
   */
  function ChosenColumn(headers: seq<string>, first: Row, col: Option<string>): Option<string> {
    if col.Some? then col
    else
      var byName := HeaderMap(headers);
      if "duration" in byName then Some(byName["duration"])
      else
        var k := FirstWhere(headers, NumericIn(first), 0);
        if k < |headers| then Some(headers[k])
        else if headers != [] then Some(headers[0])
        else None
  }

  /** A column is found unless none is asked for and there are no headers; one asked for is used as given. */
  lemma ChosenColumnExists(headers: seq<string>, first: Row, col: Option<string>)
    ensures ChosenColumn(headers, first, col).None? <==> col.None? && headers == []
    ensures col.Some? ==> ChosenColumn(headers, first, col) == col
    ensures col.None? && headers != [] ==>
              exists j :: 0 <= j < |headers| && ChosenColumn(headers, first, col) == Some(headers[j])
  {
    if col.None? && headers != [] {
      var byName := HeaderMap(headers);
      KeyedByLastWins(headers, LowerName(), |headers|);
      if "duration" in byName {
        var j :| 0 <= j < |headers| && byName["duration"] == headers[j];
        assert ChosenColumn(headers, first, col) == Some(headers[j]);
      } else {
        var k := FirstWhere(headers, NumericIn(first), 0);
        if k < |headers| {
          assert ChosenColumn(headers, first, col) == Some(headers[k]);
        } else {
          assert ChosenColumn(headers, first, col) == Some(headers[0]);
        }
      }
    }
  }

  /** With no column asked for, a header called `duration` in any case wins, and the last of several does. */
  lemma DurationHeaderWins(headers: seq<string>, first: Row, j: nat)
    requires j < |headers| && Lower(headers[j]) == "duration"
    ensures exists d :: 0 <= d < |headers| && ChosenColumn(headers, first, None) == Some(headers[d])
                        && Lower(headers[d]) == "duration"
                        && forall i :: d < i < |headers| ==> Lower(headers[i]) != "duration"
  {
    var byName := HeaderMap(headers);
    KeyedByLastWins(headers, LowerName(), |headers|);
    assert LowerName()(headers[j]) == "duration";
    var d :| 0 <= d < |headers| && byName["duration"] == headers[d] && LowerName()(headers[d]) == "duration"
             && forall i :: d < i < |headers| ==> LowerName()(headers[i]) != "duration";
    assert ChosenColumn(headers, first, None) == Some(headers[d]);
  }

  /**
   * With no column asked for and no header called `duration`, the first
   * header whose first-row value looks numeric is chosen, and the first header
   * when none does.
   */
  lemma FirstNumericColumnWins(headers: seq<string>, first: Row, k: nat)
    requires forall j :: 0 <= j < |headers| ==> Lower(headers[j]) != "duration"
    requires k <= |headers|
    requires k < |headers| ==> LooksNumeric(first, headers[k])
    requires forall j :: 0 <= j < k ==> !LooksNumeric(first, headers[j])
    ensures k < |headers| ==> ChosenColumn(headers, first, None) == Some(headers[k])
    ensures k == |headers| > 0 ==> ChosenColumn(headers, first, None) == Some(headers[0])
  {
    var byName := HeaderMap(headers);
    KeyedByLastWins(headers, LowerName(), |headers|);
    assert "duration" !in byName;
    FirstWhereIsFirst(headers, NumericIn(first), 0, k);
  }

  /** A row without the column, like an empty field, contributes 0 whatever the unit. */
  lemma MissingFieldIsZero(row: Row, column: string, unit: string)
    requires column !in row || row[column] == ""
    ensures ParseValue(Field(row, column), unit) == 0.0
  {
    assert Strip("") == "";
    assert RemoveAll("", '"') == "" && RemoveAll("", ',') == "";
    assert IndexOf("", '.') == 0;
  }

  /** `1:30` is ninety seconds, or ninety minutes read in `min`, or 0.09 seconds read in `ms`. */
  lemma ClockExample()
    ensures ParseValue("1:30", "s") == 90.0
    ensures ParseValue("1:30", "min") == 5400.0
    ensures ParseValue("1:30", "ms") == 0.09
  {
    assert AllDigits("3") && AllDigits("30");
    assert "30"[..1] == "3" && "3"[..0] == "";
    assert DigitsValue("1") == 1 && DigitsValue("30") == 30;
    assert "1" + [':'] + "30" == "1:30";
    MinutesSecondsRead("1", "30", "s");
    MinutesSecondsRead("1", "30", "min");
    MinutesSecondsRead("1", "30", "ms");
  }

  /** The first row of the example below: a word, and a number in double quotes. */
  function QuotedRow(): Row {
    map["name" := "x", "dur" := "\"90\""]
  }

  /** Neither field of that row looks numeric to the search, though the second is read as 90. */
  lemma QuotedRowFields()
    ensures !LooksNumeric(QuotedRow(), "name") && !LooksNumeric(QuotedRow(), "dur")
    ensures ParseValue(Field(QuotedRow(), "dur"), "s") == 90.0
  {
    var row := QuotedRow();
    NinetyDigits();
    QuotedNumber(row, "dur", "90", "s");
    assert Field(row, "name") == ['x'];
    LetterIsNotNumeric(row, "name", 'x');
  }

  /** The digit string "90", and its quoted form. */
  lemma NinetyDigits()
    ensures AllDigits("90") && DigitsValue("90") == 90
    ensures "\"90\"" == ['"'] + "90" + ['"']
  {
    assert "90"[..1] == "9" && "9"[..0] == "";
  }

  /** A one-letter field is not numeric. */
  lemma LetterIsNotNumeric(row: Row, h: string, c: char)
    requires Field(row, h) == [c]
    requires !IsDigit(c) && c != '.' && !IsSign(c) && !IsSpace(c) && c != ','
    ensures !LooksNumeric(row, h)
  {
    assert Strip([c]) == [c];
    RemoveAllCounts([c], ',');
    ForeignIsNotNumeric([c], c);
  }

  /** No header shorter or longer than eight characters is called `duration` in any case. */
  lemma OtherLengthsAreNotDuration(headers: seq<string>)
    requires forall j :: 0 <= j < |headers| ==> |headers[j]| != 8
    ensures forall j :: 0 <= j < |headers| ==> Lower(headers[j]) != "duration"
  {
    forall j | 0 <= j < |headers| ensures Lower(headers[j]) != "duration" {
      assert |Lower(headers[j])| != |"duration"|;
    }
  }

  /** With headers `name` and `dur` and a first row where neither looks numeric, `name` is chosen. */
  lemma NameDurFallsBack(row: Row)
    requires !LooksNumeric(row, "name") && !LooksNumeric(row, "dur")
    ensures ChosenColumn(["name", "dur"], row, None) == Some("name")
  {
    var headers := ["name", "dur"];
    OtherLengthsAreNotDuration(headers);
    FirstNumericColumnWins(headers, row, 2);
  }

  /**
   * With headers `name` and `dur` and the first row above, no column is
   * numeric by the search's test, so the first header `name` is chosen, even
   * though the cleaning would read the `dur` field as 90.
   */
  lemma QuotedColumnExample()
    ensures ChosenColumn(["name", "dur"], QuotedRow(), None) == Some("name")
    ensures ParseValue(Field(QuotedRow(), "dur"), "s") == 90.0
  {
    QuotedRowFields();
    NameDurFallsBack(QuotedRow());
  }

  // ------------------------------------------------------------ the whole read

  /** Why `load_durations` gives up: no data rows, or no column asked for and no headers to choose from. */
  datatype LoadError = NoDataRows | NoColumn

  /** What `load_durations` returns: the durations in seconds, row by row, and the column they came from. */
  datatype Loaded = Loaded(durations: seq<real>, column: string)

  /** The search loop of the column choice, with its `break` at the first header satisfying `p`. */
  method FindFirst(headers: seq<string>, p: string -> bool) returns (chosen: Option<string>)
    ensures chosen.None? <==> FirstWhere(headers, p, 0) == |headers|
    ensures chosen.Some? ==> chosen.value == headers[FirstWhere(headers, p, 0)]
  {
    chosen := None;
    for k := 0 to |headers|
      invariant forall j :: 0 <= j < k ==> !p(headers[j])
    {
      if p(headers[k]) {
        assert FirstWhere(headers, p, 0) == k;
        chosen := Some(headers[k]);
        break;
      }
    }
  }

  /** The column choice of `load_durations`. */
  method SelectColumn(headers: seq<string>, first: Row, col: Option<string>) returns (column: Option<string>)
    ensures column == ChosenColumn(headers, first, col)
  {
    if col.Some? {
      return col;
    }
    var byName := HeaderMap(headers);
    if "duration" in byName {
      return Some(byName["duration"]);
    }
    var chosen := FindFirst(headers, NumericIn(first));
    if chosen.Some? {
      column := chosen;
    } else if headers != [] {
      column := Some(headers[0]);
    } else {
      column := None;
    }
  }

  /** The value in seconds that a row contributes from `column`, as a function value. */
  function ValueIn(column: string, unit: string): Row -> real {
    row => ParseValue(Field(row, column), unit)
  }

  /** The conversion loop of `load_durations`: one value per row, appended in row order. */
  method ConvertRows(rows: seq<Row>, value: Row -> real) returns (durations: seq<real>)
    ensures |durations| == |rows|
    ensures forall i :: 0 <= i < |rows| ==> durations[i] == value(rows[i])
  {
    durations := [];
    for i := 0 to |rows|
      invariant |durations| == i
      invariant forall j :: 0 <= j < i ==> durations[j] == value(rows[j])
    {
      durations := durations + [value(rows[i])];
    }
  }

  /** `load_durations` once the file is read: refuse an empty file, choose the column, convert every row. */
  method LoadDurations(headers: seq<string>, rows: seq<Row>, col: Option<string>, unit: string)
    returns (result: Result<Loaded, LoadError>)
    ensures result == Failure(NoDataRows) <==> rows == []
    ensures result == Failure(NoColumn) <==> rows != [] && col.None? && headers == []
    ensures result.Success? ==>
              && Some(result.value.column) == ChosenColumn(headers, rows[0], col)
              && |result.value.durations| == |rows|
              && forall i :: 0 <= i < |rows| ==>
                   result.value.durations[i] == ParseValue(Field(rows[i], result.value.column), unit)
  {
    if rows == [] {
      return Failure(NoDataRows);
    }
    var column := SelectColumn(headers, rows[0], col);
    ChosenColumnExists(headers, rows[0], col);
    if column.None? {
      return Failure(NoColumn);
    }
    var durations := ConvertRows(rows, ValueIn(column.value, unit));
    return Success(Loaded(durations, column.value));
  }
}
