/**
 * The string operations the duration parser relies on, in Python's terms:
 * `str.strip()`, `str.replace(c, '')`, `str.split(sep)`, `str.lower()`, and
 * the part of `int()` and `float()` that reads a plain decimal numeral.
 */
module Text {
  import opened Wrappers

  /** The characters for which Python's `str.isspace()` holds, and which `str.strip()` removes. */
  predicate IsSpace(c: char) {
    || c == ' '
    || ('\t' <= c <= '\r')
    || ('\U{1C}' <= c <= '\U{1F}')
    || c == '\U{85}' || c == '\U{A0}' || c == '\U{1680}'
    || ('\U{2000}' <= c <= '\U{200A}')
    || c == '\U{2028}' || c == '\U{2029}' || c == '\U{202F}' || c == '\U{205F}' || c == '\U{3000}'
  }

  /** The end of the run of whitespace in `s` that starts at position `i`. */
  function SpacesFrom(s: string, i: nat): (n: nat)
    requires i <= |s|
    ensures i <= n <= |s|
    ensures n < |s| ==> !IsSpace(s[n])
    decreases |s| - i
  {
    if i < |s| && IsSpace(s[i]) then SpacesFrom(s, i + 1) else i
  }

  /** The start of the run of whitespace in `s` that ends at position `j`, going no lower than `lo`. */
  function SpacesUntil(s: string, lo: nat, j: nat): (n: nat)
    requires lo <= j <= |s|
    ensures lo <= n <= j
    ensures n > lo ==> !IsSpace(s[n - 1])
  {
    if j > lo && IsSpace(s[j - 1]) then SpacesUntil(s, lo, j - 1) else j
  }

  lemma {:induction false} SpacesFromAreSpaces(s: string, i: nat)
    requires i <= |s|
    ensures forall k :: i <= k < SpacesFrom(s, i) ==> IsSpace(s[k])
    decreases |s| - i
  {
    if i < |s| && IsSpace(s[i]) {
      SpacesFromAreSpaces(s, i + 1);
    }
  }

  lemma {:induction false} SpacesUntilAreSpaces(s: string, lo: nat, j: nat)
    requires lo <= j <= |s|
    ensures forall k :: SpacesUntil(s, lo, j) <= k < j ==> IsSpace(s[k])
  {
    if j > lo && IsSpace(s[j - 1]) {
      SpacesUntilAreSpaces(s, lo, j - 1);
    }
  }

  /** `s.strip()`: whitespace removed at both ends; a string without surrounding whitespace is left as it is. */
  function Strip(s: string): (r: string)
    ensures |r| <= |s|
    ensures r == [] || (!IsSpace(r[0]) && !IsSpace(r[|r| - 1]))
    ensures (s == [] || (!IsSpace(s[0]) && !IsSpace(s[|s| - 1]))) ==> r == s
  {
    var a := SpacesFrom(s, 0);
    s[a..SpacesUntil(s, a, |s|)]
  }

  /** `strip()` only removes whitespace: every other character of `s` is still there. */
  lemma {:induction false} StripKeepsText(s: string)
    ensures forall k :: 0 <= k < |s| && !IsSpace(s[k]) ==> s[k] in Strip(s)
  {
    var a := SpacesFrom(s, 0);
    var b := SpacesUntil(s, a, |s|);
    SpacesFromAreSpaces(s, 0);
    SpacesUntilAreSpaces(s, a, |s|);
    forall k | 0 <= k < |s| && !IsSpace(s[k]) ensures s[k] in Strip(s) {
      assert a <= k < b;
      assert Strip(s)[k - a] == s[k];
    }
  }

  /** `strip()` is a trim: the result is a slice of `s`, and everything cut off on either side is whitespace. */
  lemma {:induction false} StripIsTrim(s: string)
    ensures exists a, b :: 0 <= a <= b <= |s| && Strip(s) == s[a..b]
                        && (forall k :: 0 <= k < a ==> IsSpace(s[k]))
                        && (forall k :: b <= k < |s| ==> IsSpace(s[k]))
  {
    var a := SpacesFrom(s, 0);
    var b := SpacesUntil(s, a, |s|);
    SpacesFromAreSpaces(s, 0);
    SpacesUntilAreSpaces(s, a, |s|);
    assert Strip(s) == s[a..b];
  }

  /** `s.replace(c, '')`: every `c` deleted, every other character kept in order. */
  function RemoveAll(s: string, c: char): string {
    if s == [] then []
    else
      var n := |s| - 1;
      assert s == s[..n] + [s[n]];
      RemoveAll(s[..n], c) + (if s[n] == c then [] else [s[n]])
  }

  /** Deleting `c` leaves no `c`, and changes nothing when there is no `c`. */
  lemma {:induction false} RemoveAllCounts(s: string, c: char)
    ensures c !in RemoveAll(s, c)
    ensures c !in s ==> RemoveAll(s, c) == s
  {
    if s != [] {
      var n := |s| - 1;
      RemoveAllCounts(s[..n], c);
      assert s == s[..n] + [s[n]];
    }
  }

  /** Every other character keeps its number of occurrences. */
  lemma {:induction false} RemoveAllKeeps(s: string, c: char)
    ensures forall x :: x != c ==> multiset(RemoveAll(s, c))[x] == multiset(s)[x]
  {
    if s != [] {
      var n := |s| - 1;
      RemoveAllKeeps(s[..n], c);
      assert s == s[..n] + [s[n]];
    }
  }

  /** Deleting from a concatenation deletes from each part. */
  lemma {:induction false} RemoveAllAppend(x: string, y: string, c: char)
    ensures RemoveAll(x + y, c) == RemoveAll(x, c) + RemoveAll(y, c)
    decreases |y|
  {
    if y != [] {
      var n := |y| - 1;
      assert (x + y)[..|x + y| - 1] == x + y[..n];
      RemoveAllAppend(x, y[..n], c);
    } else {
      assert x + y == x;
    }
  }

  /** `str.lower()` on the ASCII letters. */
  function LowerChar(c: char): char {
    if 'A' <= c <= 'Z' then (c as int + 32) as char else c
  }

  function Lower(s: string): (r: string)
    ensures |r| == |s|
  {
    seq(|s|, k requires 0 <= k < |s| => LowerChar(s[k]))
  }

  /** `s.split(sep)`: the fields between occurrences of `sep`, empty ones included. */
  function Split(s: string, sep: char): (parts: seq<string>)
    ensures |parts| >= 1
  {
    if s == [] then [[]]
    else
      var rest := Split(s[1..], sep);
      if s[0] == sep then [[]] + rest
      else [[s[0]] + rest[0]] + rest[1..]
  }

  /** No field holds the separator, and there is more than one field exactly when the separator occurs. */
  lemma {:induction false} SplitFields(s: string, sep: char)
    ensures forall k :: 0 <= k < |Split(s, sep)| ==> sep !in Split(s, sep)[k]
    ensures sep !in s <==> Split(s, sep) == [s]
  {
    if s != [] {
      var rest := Split(s[1..], sep);
      SplitFields(s[1..], sep);
      assert s == [s[0]] + s[1..];
      var parts := Split(s, sep);
      if s[0] != sep {
        forall k | 0 <= k < |parts| ensures sep !in parts[k] {
          if k > 0 { assert parts[k] == rest[k]; }
        }
        if sep !in s {
          assert sep !in s[1..];
          assert rest == [s[1..]];
          assert parts == [s];
        }
        if parts == [s] {
          assert |parts| == 1 + |rest[1..]|;
          assert |rest| == 1;
          assert parts[0] == [s[0]] + rest[0];
          assert [s[0]] + rest[0] == s;
          assert rest[0] == s[1..];
          assert rest == [s[1..]];
          assert sep !in s[1..];
        }
      } else {
        assert |parts| >= 2;
      }
    }
  }


  /** `sep.join(parts)`. */
  function Join(parts: seq<string>, sep: char): string
    requires |parts| >= 1
  {
    if |parts| == 1 then parts[0] else parts[0] + [sep] + Join(parts[1..], sep)
  }

  /** Joining the fields of a split gives back the string. */
  lemma {:induction false} JoinSplit(s: string, sep: char)
    ensures Join(Split(s, sep), sep) == s
  {
    if s != [] {
      var rest := Split(s[1..], sep);
      JoinSplit(s[1..], sep);
      if s[0] == sep {
        assert ([[]] + rest)[1..] == rest;
      } else if |rest| > 1 {
        var parts := [[s[0]] + rest[0]] + rest[1..];
        assert parts[1..] == rest[1..];
      }
    }
  }

  lemma {:induction false} SplitPrefix(p: string, t: string, sep: char)
    requires sep !in p
    ensures Split(p + t, sep) == [p + Split(t, sep)[0]] + Split(t, sep)[1..]
  {
    var x := Split(t, sep);
    if p != [] {
      assert (p + t)[0] == p[0];
      assert (p + t)[1..] == p[1..] + t;
      SplitPrefix(p[1..], t, sep);
      assert [p[0]] + (p[1..] + x[0]) == p + x[0];
    } else {
      assert p + t == t;
      assert p + x[0] == x[0];
      assert x == [x[0]] + x[1..];
    }
  }

  /** A separator-free field followed by the separator splits off as the first field. */
  lemma SplitAtSeparator(p: string, t: string, sep: char)
    requires sep !in p
    ensures Split(p + [sep] + t, sep) == [p] + Split(t, sep)
  {
    var u := [sep] + t;
    assert u[0] == sep && u[1..] == t;
    assert Split(u, sep) == [[]] + Split(t, sep);
    SplitPrefix(p, u, sep);
    assert p + [sep] + t == p + u;
    assert p + [] == p;
  }

  /** Splitting a join of separator-free fields gives back the fields. */
  lemma {:induction false} SplitJoin(parts: seq<string>, sep: char)
    requires |parts| >= 1
    requires forall k :: 0 <= k < |parts| ==> sep !in parts[k]
    ensures Split(Join(parts, sep), sep) == parts
  {
    if |parts| == 1 {
      SplitPrefix(parts[0], [], sep);
      assert parts[0] + [] == parts[0];
    } else {
      var tail := Join(parts[1..], sep);
      SplitJoin(parts[1..], sep);
      assert parts[0] + [sep] + tail == parts[0] + ([sep] + tail);
      assert ([sep] + tail)[0] == sep;
      assert ([sep] + tail)[1..] == tail;
      assert Split([sep] + tail, sep) == [[]] + parts[1..];
      SplitPrefix(parts[0], [sep] + tail, sep);
      assert parts[0] + [] == parts[0];
      assert parts == [parts[0]] + parts[1..];
    }
  }

  // ---------------------------------------------------------------- numerals

  predicate IsDigit(c: char) { '0' <= c <= '9' }

  predicate AllDigits(s: string) {
    s == [] || (AllDigits(s[..|s| - 1]) && IsDigit(s[|s| - 1]))
  }

  /** `AllDigits` says what its name says. */
  lemma {:induction false} AllDigitsMeans(s: string)
    ensures AllDigits(s) <==> forall k :: 0 <= k < |s| ==> IsDigit(s[k])
  {
    if s != [] {
      var n := |s| - 1;
      AllDigitsMeans(s[..n]);
      assert forall k :: 0 <= k < n ==> s[..n][k] == s[k];
    }
  }

  /** The value of a string of decimal digits, most significant first. */
  function DigitsValue(s: string): nat
    requires AllDigits(s)
  {
    if s == [] then 0 else DigitsValue(s[..|s| - 1]) * 10 + (s[|s| - 1] as int - '0' as int)
  }

  /** The value of the digits after a decimal point: `0.d1 d2 ...` is `(d1 + 0.d2 ...) / 10`. */
  function FractionValue(s: string): real {
    if s == [] then 0.0 else ((s[0] as int - '0' as int) as real + FractionValue(s[1..])) / 10.0
  }

  /** The first position of `c` in `s`, or `|s|` when there is none. */
  function IndexOf(s: string, c: char): (k: nat)
    ensures k <= |s|
    ensures k < |s| ==> s[k] == c
  {
    IndexFrom(s, c, 0)
  }

  /** The first position of `c` in `s` from position `i` on, or `|s|`. */
  function IndexFrom(s: string, c: char, i: nat): (k: nat)
    requires i <= |s|
    ensures i <= k <= |s|
    ensures k < |s| ==> s[k] == c
    decreases |s| - i
  {
    if i == |s| || s[i] == c then i else IndexFrom(s, c, i + 1)
  }

  /** Every position `IndexFrom` passes over holds some other character. */
  lemma {:induction false} IndexFromSkips(s: string, c: char, i: nat)
    requires i <= |s|
    ensures forall j :: i <= j < IndexFrom(s, c, i) ==> s[j] != c
    decreases |s| - i
  {
    if i < |s| && s[i] != c {
      IndexFromSkips(s, c, i + 1);
    }
  }

  function ParseNatural(s: string): Option<nat> {
    if s != [] && AllDigits(s) then Some(DigitsValue(s)) else None
  }

  /** A decimal numeral without sign: `d+`, `d+.`, `.d+` or `d+.d+`. */
  function ParseUnsignedDecimal(s: string): Option<real> {
    var dot := IndexOf(s, '.');
    if dot == |s| then
      match ParseNatural(s)
      case Some(n) => Some(n as real)
      case None => None
    else
      var whole, frac := s[..dot], s[dot + 1..];
      if AllDigits(whole) && AllDigits(frac) && |whole| + |frac| > 0 then
        Some(DigitsValue(whole) as real + FractionValue(frac))
      else None
  }

  predicate IsSign(c: char) { c == '+' || c == '-' }

  /** Python's `int(x)` on a decimal numeral with an optional sign and surrounding whitespace. */
  function ParseInt(x: string): Option<int> {
    var s := Strip(x);
    var signed := s != [] && IsSign(s[0]);
    match ParseNatural(if signed then s[1..] else s)
    case None => None
    case Some(n) => Some(if signed && s[0] == '-' then -(n as int) else n)
  }

  /** Python's `float(x)` on a decimal numeral with an optional sign and surrounding whitespace. */
  function ParseFloat(x: string): Option<real> {
    var s := Strip(x);
    var signed := s != [] && IsSign(s[0]);
    match ParseUnsignedDecimal(if signed then s[1..] else s)
    case None => None
    case Some(v) => Some(if signed && s[0] == '-' then -v else v)
  }

  /** A numeral that `int()` accepts means the same to `float()`. */
  lemma {:induction false} IntIsFloat(x: string)
    ensures ParseInt(x).Some? ==> ParseFloat(x) == Some(ParseInt(x).value as real)
  {
    var s := Strip(x);
    var t := if s != [] && IsSign(s[0]) then s[1..] else s;
    if ParseInt(x).Some? {
      AllDigitsMeans(t);
      IndexFromSkips(t, '.', 0);
      assert IndexOf(t, '.') == |t|;
    }
  }

  /** A character that is no digit and no point stops an unsigned numeral from parsing. */
  lemma {:induction false} ForeignIsNotUnsigned(t: string, c: char)
    requires c in t && !IsDigit(c) && c != '.'
    ensures ParseNatural(t).None? && ParseUnsignedDecimal(t).None?
  {
    var j :| 0 <= j < |t| && t[j] == c;
    AllDigitsMeans(t);
    var dot := IndexOf(t, '.');
    if dot < |t| {
      if j < dot {
        assert t[..dot][j] == c;
        AllDigitsMeans(t[..dot]);
      } else {
        assert j != dot;
        assert t[dot + 1..][j - dot - 1] == c;
        AllDigitsMeans(t[dot + 1..]);
      }
    }
  }

  /**
   * Neither `int()` nor `float()` accepts a string holding a character that
   * is no digit, point, sign or whitespace, such as a colon or a double quote.
   */
  lemma {:induction false} ForeignIsNotNumeric(x: string, c: char)
    requires c in x && !IsDigit(c) && c != '.' && !IsSign(c) && !IsSpace(c)
    ensures ParseFloat(x).None? && ParseInt(x).None?
  {
    var s := Strip(x);
    StripKeepsText(x);
    assert c in s;
    var t := if s != [] && IsSign(s[0]) then s[1..] else s;
    assert c in t by {
      if s != [] && IsSign(s[0]) {
        assert s == [s[0]] + t;
      }
    }
    ForeignIsNotUnsigned(t, c);
  }

  // ---------------------------------------------------------------- printing

  /** The decimal numeral of `n` without sign or leading zeros. */
  function ShowNat(n: nat): (s: string)
    ensures s != [] && AllDigits(s)
  {
    var d := [('0' as int + n % 10) as char];
    if n < 10 then d else ShowNat(n / 10) + d
  }

  lemma {:induction false} ShowNatValue(n: nat)
    ensures DigitsValue(ShowNat(n)) == n
  {
    var s := ShowNat(n);
    if n >= 10 {
      ShowNatValue(n / 10);
      assert s[..|s| - 1] == ShowNat(n / 10);
    }
  }

  /** A non-empty string of digits reads as its value, for `int()` as for `float()`. */
  lemma DigitsRead(s: string)
    requires s != [] && AllDigits(s)
    ensures ParseInt(s) == Some(DigitsValue(s) as int)
    ensures ParseFloat(s) == Some(DigitsValue(s) as real)
  {
    AllDigitsMeans(s);
    assert IsDigit(s[0]) && IsDigit(s[|s| - 1]);
    assert Strip(s) == s;
    IntIsFloat(s);
  }

  /** Reading back a printed natural gives the natural, for `int()` as for `float()`. */
  lemma ShowNatRoundTrip(n: nat)
    ensures ParseInt(ShowNat(n)) == Some(n)
    ensures ParseFloat(ShowNat(n)) == Some(n as real)
  {
    ShowNatValue(n);
    DigitsRead(ShowNat(n));
  }
}
