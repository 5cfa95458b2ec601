/**
 * Session timestamps: the `YYYY MM DD HH:MM` (or `HH/MM`) pattern searched
 * for in a prefix, the range checks of the `datetime` constructor, and the
 * `%Y%m%d` rendering used to name the date directory.
 */
module Dates {
  import opened Wrappers
  import opened Text

  /** A `datetime` to the minute; the fields are whatever the pattern gave. */
  datatype DateTime = DateTime(year: nat, month: nat, day: nat, hour: nat, minute: nat)

  predicate IsLeapYear(y: nat) {
    y % 4 == 0 && (y % 100 != 0 || y % 400 == 0)
  }

  function DaysInMonth(y: nat, m: nat): nat
    requires 1 <= m <= 12
  {
    if m == 2 then (if IsLeapYear(y) then 29 else 28)
    else if m == 4 || m == 6 || m == 9 || m == 11 then 30
    else 31
  }

  /** The checks the `datetime` constructor makes; failing one raises ValueError. */
  predicate IsValid(d: DateTime) {
    && 1 <= d.year <= 9999
    && 1 <= d.month <= 12
    && 1 <= d.day <= DaysInMonth(d.year, d.month)
    && d.hour <= 23
    && d.minute <= 59
  }

  /** The character class `[:/]` between hour and minute. */
  predicate IsSeparator(c: char) {
    c == ':' || c == '/'
  }

  /** `n` ASCII digits start at index `i`. */
  predicate DigitsAt(s: string, i: nat, n: nat) {
    i + n <= |s| && (n == 0 || (IsDigit(s[i + n - 1]) && DigitsAt(s, i, n - 1)))
  }

  lemma {:induction false} DigitsAtFirst(s: string, i: nat, n: nat)
    requires n > 0 && DigitsAt(s, i, n)
    ensures IsDigit(s[i])
  {
    if n > 1 {
      DigitsAtFirst(s, i, n - 1);
    }
  }

  /** `int()` of the `n` digits starting at index `i`. */
  function NumberAt(s: string, i: nat, n: nat): nat
    requires DigitsAt(s, i, n)
  {
    if n == 0 then 0 else 10 * NumberAt(s, i, n - 1) + DigitValue(s[i + n - 1])
  }

  /** Where a greedy `\s*` starting at `i` stops. */
  function SpacesEnd(s: string, i: nat): (j: nat)
    requires i <= |s|
    ensures i <= j <= |s|
    decreases |s| - i
  {
    if i < |s| && IsSpace(s[i]) then SpacesEnd(s, i + 1) else i
  }

  /** After index `j`: `\s+` and then a two-digit group; gives where the
      group starts. Backtracking never helps `\s+` here, because the token
      after it is a digit, never whitespace. */
  function SpacedField(s: string, j: nat): (r: Option<nat>)
    requires j <= |s|
    ensures r.Some? ==> j < r.value && DigitsAt(s, r.value, 2)
  {
    var a := SpacesEnd(s, j);
    if a == j || !DigitsAt(s, a, 2) then None else Some(a)
  }

  /** The spaced two-digit group that follows the group at `f`, if any. */
  function NextField(s: string, f: Option<nat>): (r: Option<nat>)
    requires f.Some? ==> DigitsAt(s, f.value, 2)
    ensures r.Some? ==> f.Some? && DigitsAt(s, r.value, 2)
  {
    match f
    case None => None
    case Some(a) => SpacedField(s, a + 2)
  }

  /** The end of the pattern once the hour group is found at `c`: `[:/]`, the
      minute group, and the five groups converted with `int`. */
  function Finish(s: string, i: nat, a: nat, b: nat, c: nat): Option<DateTime>
    requires DigitsAt(s, i, 4) && DigitsAt(s, a, 2) && DigitsAt(s, b, 2) && DigitsAt(s, c, 2)
  {
    if !(c + 2 < |s| && IsSeparator(s[c + 2]) && DigitsAt(s, c + 3, 2)) then None
    else
      Some(DateTime(NumberAt(s, i, 4), NumberAt(s, a, 2), NumberAt(s, b, 2),
                    NumberAt(s, c, 2), NumberAt(s, c + 3, 2)))
  }

  /** The pattern `(\d{4})\s+(\d{2})\s+(\d{2})\s+(\d{2})[:/](\d{2})` tried
      at index `i`. */
  function MatchAt(s: string, i: nat): Option<DateTime>
    requires i <= |s|
  {
    if !DigitsAt(s, i, 4) then None
    else
      var month := SpacedField(s, i + 4);
      var day := NextField(s, month);
      var hour := NextField(s, day);
      if hour.None? then None
      else Finish(s, i, month.value, day.value, hour.value)
  }

  /** `re.search`: the leftmost match at or after index `i`. */
  function Search(s: string, i: nat): Option<DateTime>
    requires i <= |s|
    decreases |s| - i
  {
    match MatchAt(s, i)
    case Some(d) => Some(d)
    case None => if i == |s| then None else Search(s, i + 1)
  }

  /** `RecordingSet.extract_date_from_prefix`: the leftmost match, if it
      names a real calendar minute; an invalid match gives no date (the
      ValueError is caught) and later matches are not tried. */
  function ExtractDate(prefix: string): (r: Option<DateTime>)
    ensures r.Some? ==> IsValid(r.value)
  {
    match Search(prefix, 0)
    case None => None
    case Some(d) => if IsValid(d) then Some(d) else None
  }

  // ---------------------------------------------------------------------------
  // Both hour/minute separators are read alike.

  /** `t` is `s` with some `:` and `/` exchanged for one another. */
  predicate SameUpToSeparators(s: string, t: string) {
    |s| == |t| && forall k :: 0 <= k < |s| ==> s[k] == t[k] || (IsSeparator(s[k]) && IsSeparator(t[k]))
  }

  lemma {:induction false} DigitsAgree(s: string, t: string, i: nat, n: nat)
    requires SameUpToSeparators(s, t)
    ensures DigitsAt(s, i, n) <==> DigitsAt(t, i, n)
    ensures DigitsAt(s, i, n) ==> NumberAt(s, i, n) == NumberAt(t, i, n)
  {
    if n > 0 && i + n <= |s| {
      DigitsAgree(s, t, i, n - 1);
      assert IsDigit(s[i + n - 1]) ==> s[i + n - 1] == t[i + n - 1];
      assert IsDigit(t[i + n - 1]) ==> s[i + n - 1] == t[i + n - 1];
    }
  }

  lemma {:induction false} SpacesEndAgree(s: string, t: string, i: nat)
    requires SameUpToSeparators(s, t) && i <= |s|
    ensures SpacesEnd(s, i) == SpacesEnd(t, i)
    decreases |s| - i
  {
    if i < |s| {
      assert IsSpace(s[i]) ==> s[i] == t[i];
      assert IsSpace(t[i]) ==> s[i] == t[i];
      SpacesEndAgree(s, t, i + 1);
    }
  }

  lemma SpacedFieldAgrees(s: string, t: string, j: nat)
    requires SameUpToSeparators(s, t) && j <= |s|
    ensures SpacedField(s, j) == SpacedField(t, j)
  {
    SpacesEndAgree(s, t, j);
    DigitsAgree(s, t, SpacesEnd(s, j), 2);
  }

  lemma NextFieldAgrees(s: string, t: string, f: Option<nat>)
    requires SameUpToSeparators(s, t) && (f.Some? ==> DigitsAt(s, f.value, 2))
    ensures f.Some? ==> DigitsAt(t, f.value, 2)
    ensures NextField(s, f) == NextField(t, f)
  {
    if f.Some? {
      DigitsAgree(s, t, f.value, 2);
      SpacedFieldAgrees(s, t, f.value + 2);
    }
  }

  lemma FinishAgrees(s: string, t: string, i: nat, a: nat, b: nat, c: nat)
    requires SameUpToSeparators(s, t)
    requires DigitsAt(s, i, 4) && DigitsAt(s, a, 2) && DigitsAt(s, b, 2) && DigitsAt(s, c, 2)
    ensures DigitsAt(t, i, 4) && DigitsAt(t, a, 2) && DigitsAt(t, b, 2) && DigitsAt(t, c, 2)
    ensures Finish(s, i, a, b, c) == Finish(t, i, a, b, c)
  {
    DigitsAgree(s, t, i, 4);
    DigitsAgree(s, t, a, 2);
    DigitsAgree(s, t, b, 2);
    DigitsAgree(s, t, c, 2);
    DigitsAgree(s, t, c + 3, 2);
    assert c + 2 < |s| ==> (IsSeparator(s[c + 2]) <==> IsSeparator(t[c + 2]));
  }

  lemma MatchAtAgrees(s: string, t: string, i: nat)
    requires SameUpToSeparators(s, t) && i <= |s|
    ensures MatchAt(s, i) == MatchAt(t, i)
  {
    DigitsAgree(s, t, i, 4);
    if DigitsAt(s, i, 4) {
      var month := SpacedField(s, i + 4);
      SpacedFieldAgrees(s, t, i + 4);
      var day := NextField(s, month);
      NextFieldAgrees(s, t, month);
      var hour := NextField(s, day);
      NextFieldAgrees(s, t, day);
      if hour.Some? {
        FinishAgrees(s, t, i, month.value, day.value, hour.value);
      }
    }
  }

  /** `re.search` only looks at where matches start and what they give. */
  lemma {:induction false} SearchAgrees(s: string, t: string, i: nat)
    requires |s| == |t| && i <= |s|
    requires forall j :: i <= j <= |s| ==> MatchAt(s, j) == MatchAt(t, j)
    ensures Search(s, i) == Search(t, i)
    decreases |s| - i
  {
    if i < |s| {
      SearchAgrees(s, t, i + 1);
    }
  }

  /** A prefix whose separators differ only in `:` versus `/` gives the
      identical date (or no date in both cases). */
  lemma SeparatorInsensitive(s: string, t: string)
    requires SameUpToSeparators(s, t)
    ensures ExtractDate(s) == ExtractDate(t)
  {
    forall j | 0 <= j <= |s|
      ensures MatchAt(s, j) == MatchAt(t, j)
    {
      MatchAtAgrees(s, t, j);
    }
    SearchAgrees(s, t, 0);
  }

  /** Writing `HH/MM` for `HH:MM` anywhere in a prefix changes nothing. */
  lemma ColonOrSlash(s: string, k: nat)
    requires k < |s| && s[k] == ':'
    ensures ExtractDate(s[k := '/']) == ExtractDate(s)
  {
    SeparatorInsensitive(s[k := '/'], s);
  }

  // ---------------------------------------------------------------------------
  // Fixed-width decimal rendering.

  function Pow10(w: nat): (r: nat)
    ensures r >= 1
  {
    if w == 0 then 1 else 10 * Pow10(w - 1)
  }

  function DigitChar(d: nat): (c: char)
    requires d < 10
    ensures IsDigit(c) && DigitValue(c) == d
  {
    ('0' as int + d) as char
  }

  /** `n` zero-padded to `w` digits (only its last `w` digits when it is wider). */
  function Pad(n: nat, w: nat): (r: string)
    ensures |r| == w
  {
    if w == 0 then "" else Pad(n / 10, w - 1) + [DigitChar(n % 10)]
  }

  /** Reading back a zero-padded number gives the number, when it fits. */
  lemma {:induction false} PadNumber(s: string, i: nat, n: nat, w: nat)
    requires n < Pow10(w) && i + w <= |s|
    requires forall k :: 0 <= k < w ==> s[i + k] == Pad(n, w)[k]
    ensures DigitsAt(s, i, w) && NumberAt(s, i, w) == n
  {
    if w > 0 {
      var r := Pad(n, w);
      var q := Pad(n / 10, w - 1);
      assert r == q + [DigitChar(n % 10)];
      forall k | 0 <= k < w - 1
        ensures s[i + k] == q[k]
      {
        assert s[i + k] == r[k];
      }
      assert s[i + w - 1] == r[w - 1] == DigitChar(n % 10);
      PadNumber(s, i, n / 10, w - 1);
    }
  }

  /** `strftime("%Y%m%d")`, the name of the date directory. */
  function DayName(d: DateTime): (r: string)
    ensures |r| == 8
  {
    Pad(d.year, 4) + Pad(d.month, 2) + Pad(d.day, 2)
  }

  /** The directory name gives back the year, month and day of a valid date. */
  lemma DayNameRoundTrip(d: DateTime)
    requires IsValid(d)
    ensures DigitsAt(DayName(d), 0, 4) && NumberAt(DayName(d), 0, 4) == d.year
    ensures DigitsAt(DayName(d), 4, 2) && NumberAt(DayName(d), 4, 2) == d.month
    ensures DigitsAt(DayName(d), 6, 2) && NumberAt(DayName(d), 6, 2) == d.day
  {
    var r := DayName(d);
    PadNumber(r, 0, d.year, 4);
    PadNumber(r, 4, d.month, 2);
    PadNumber(r, 6, d.day, 2);
  }

  /** Two valid dates share a date directory exactly when they fall on the same day. */
  lemma DayNameSameDay(d: DateTime, e: DateTime)
    requires IsValid(d) && IsValid(e)
    ensures DayName(d) == DayName(e) <==> (d.year, d.month, d.day) == (e.year, e.month, e.day)
  {
    DayNameRoundTrip(d);
    DayNameRoundTrip(e);
  }

  // ---------------------------------------------------------------------------
  // A well-formed timestamp is found.

  /** `YYYY MM DD HH<sep>MM`, single spaces, zero-padded. */
  function Render(d: DateTime, sep: char): string {
    Pad(d.year, 4) + " " + Pad(d.month, 2) + " " + Pad(d.day, 2) + " " + Pad(d.hour, 2) + [sep] + Pad(d.minute, 2)
  }

  predicate NoDigits(p: string) {
    forall k :: 0 <= k < |p| ==> !IsDigit(p[k])
  }

  predicate Fits(d: DateTime) {
    d.year < 10000 && d.month < 100 && d.day < 100 && d.hour < 100 && d.minute < 100
  }

  /** `re.search` passes over start positions where the pattern fails. */
  lemma {:induction false} SkipNoMatch(s: string, i: nat, k: nat)
    requires i <= k <= |s|
    requires forall j :: i <= j < k ==> MatchAt(s, j).None?
    ensures Search(s, i) == Search(s, k)
    decreases k - i
  {
    if i < k {
      SkipNoMatch(s, i + 1, k);
    }
  }

  lemma RenderLayout(d: DateTime, sep: char)
    ensures |Render(d, sep)| == 16
    ensures forall k :: 0 <= k < 4 ==> Render(d, sep)[k] == Pad(d.year, 4)[k]
    ensures forall k :: 0 <= k < 2 ==> Render(d, sep)[5 + k] == Pad(d.month, 2)[k]
    ensures forall k :: 0 <= k < 2 ==> Render(d, sep)[8 + k] == Pad(d.day, 2)[k]
    ensures forall k :: 0 <= k < 2 ==> Render(d, sep)[11 + k] == Pad(d.hour, 2)[k]
    ensures forall k :: 0 <= k < 2 ==> Render(d, sep)[14 + k] == Pad(d.minute, 2)[k]
    ensures Render(d, sep)[4] == ' ' && Render(d, sep)[7] == ' ' && Render(d, sep)[10] == ' '
    ensures Render(d, sep)[13] == sep
  {
  }

  lemma MatchRendered(s: string, i: nat, d: DateTime, sep: char)
    requires Fits(d) && IsSeparator(sep)
    requires i + 16 <= |s| && s[i..i + 16] == Render(d, sep)
    ensures MatchAt(s, i) == Some(d)
  {
    RenderLayout(d, sep);
    var r := Render(d, sep);
    assert forall k :: 0 <= k < 16 ==> s[i + k] == r[k];
    PadNumber(s, i, d.year, 4);
    PadNumber(s, i + 5, d.month, 2);
    PadNumber(s, i + 8, d.day, 2);
    PadNumber(s, i + 11, d.hour, 2);
    PadNumber(s, i + 14, d.minute, 2);
    DigitsAtFirst(s, i + 5, 2);
    DigitsAtFirst(s, i + 8, 2);
    DigitsAtFirst(s, i + 11, 2);
    assert s[i + 4] == ' ' && s[i + 7] == ' ' && s[i + 10] == ' ' && s[i + 13] == sep;
    assert SpacesEnd(s, i + 4) == i + 5;
    assert SpacedField(s, i + 4) == Some(i + 5);
    assert SpacesEnd(s, i + 7) == i + 8;
    assert NextField(s, Some(i + 5)) == Some(i + 8);
    assert SpacesEnd(s, i + 10) == i + 11;
    assert NextField(s, Some(i + 8)) == Some(i + 11);
    assert Finish(s, i, i + 5, i + 8, i + 11) == Some(d);
  }

  /** A prefix holding a well-formed timestamp after a title in which no
      match of the pattern starts yields that timestamp, with either
      separator and whatever follows it; out-of-range fields yield no date. */
  lemma ExtractRendered(p: string, d: DateTime, sep: char, q: string)
    requires Fits(d) && IsSeparator(sep)
    requires forall j :: 0 <= j < |p| ==> MatchAt(p + Render(d, sep) + q, j).None?
    ensures ExtractDate(p + Render(d, sep) + q) == if IsValid(d) then Some(d) else None
  {
    var s := p + Render(d, sep) + q;
    RenderLayout(d, sep);
    SkipNoMatch(s, 0, |p|);
    assert s[|p|..|p| + 16] == Render(d, sep);
    MatchRendered(s, |p|, d, sep);
  }

  /** In particular a digit-free title (a meeting name) is passed over. */
  lemma ExtractRenderedTitle(p: string, d: DateTime, sep: char, q: string)
    requires NoDigits(p) && Fits(d) && IsSeparator(sep)
    ensures ExtractDate(p + Render(d, sep) + q) == if IsValid(d) then Some(d) else None
  {
    var s := p + Render(d, sep) + q;
    forall j | 0 <= j < |p|
      ensures MatchAt(s, j).None?
    {
      assert s[j] == p[j];
      if DigitsAt(s, j, 4) {
        DigitsAtFirst(s, j, 4);
      }
    }
    ExtractRendered(p, d, sep, q);
  }
}
