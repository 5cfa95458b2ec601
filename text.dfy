/**
 * The pieces of Python's `str` and `pathlib.PurePath` that the recording
 * mover relies on: whitespace, ASCII digits, lower-casing, substring search,
 * `strip`, and a path's name, suffix and `with_suffix`.
 */
module Text {

  /** `str.isspace()` (and the regular-expression class `\s`): the characters
      whose bidirectional class is WS, B or S, or whose category is Zs. */
  predicate IsSpace(c: char) {
    || c == ' '
    || ('\t' <= c <= '\r')
    || ('\U{1C}' <= c <= '\U{1F}')
    || c == '\U{85}' || c == '\U{A0}' || c == '\U{1680}'
    || ('\U{2000}' <= c <= '\U{200A}')
    || c == '\U{2028}' || c == '\U{2029}' || c == '\U{202F}' || c == '\U{205F}'
    || c == '\U{3000}'
  }

  /** The regular-expression class `\d`, restricted to ASCII digits. */
  predicate IsDigit(c: char) {
    '0' <= c <= '9'
  }

  function DigitValue(c: char): (d: nat)
    requires IsDigit(c)
    ensures d < 10
  {
    c as int - '0' as int
  }

  /** Lower-casing of one character, restricted to ASCII letters. */
  function LowerChar(c: char): char {
    if 'A' <= c <= 'Z' then (c as int + 32) as char else c
  }

  function Lower(s: string): (r: string)
    ensures |r| == |s|
  {
    seq(|s|, i requires 0 <= i < |s| => LowerChar(s[i]))
  }

  /** `t` occurs in `s` starting at index `i`. */
  predicate At(s: string, i: nat, t: string) {
    i + |t| <= |s| && s[i..i + |t|] == t
  }

  /** Python's `t in s`. */
  predicate Contains(s: string, t: string) {
    exists i :: 0 <= i <= |s| - |t| && At(s, i, t)
  }

  lemma AtFirst(s: string, i: nat, t: string)
    requires |t| > 0 && At(s, i, t)
    ensures s[i] == t[0]
  {
    assert s[i..i + |t|][0] == s[i];
  }

  lemma ContainsWithin(s: string, i: nat, j: nat, t: string)
    requires i <= j <= |s| && Contains(s[i..j], t)
    ensures Contains(s, t)
  {
    var k :| 0 <= k <= |s[i..j]| - |t| && At(s[i..j], k, t);
    forall m | 0 <= m < |t|
      ensures s[i + k + m] == t[m]
    {
      assert t[m] == s[i..j][k..k + |t|][m];
    }
    assert s[i + k..i + k + |t|] == t;
    assert At(s, i + k, t);
  }

  /** Number of leading whitespace characters. */
  function LeadingSpaces(s: string): (n: nat)
    ensures n <= |s|
    ensures forall k :: 0 <= k < n ==> IsSpace(s[k])
    ensures n < |s| ==> !IsSpace(s[n])
  {
    if |s| > 0 && IsSpace(s[0]) then 1 + LeadingSpaces(s[1..]) else 0
  }

  /** Number of trailing whitespace characters. */
  function TrailingSpaces(s: string): (n: nat)
    ensures n <= |s|
    ensures forall k :: |s| - n <= k < |s| ==> IsSpace(s[k])
    ensures n < |s| ==> !IsSpace(s[|s| - n - 1])
  {
    if |s| > 0 && IsSpace(s[|s| - 1]) then 1 + TrailingSpaces(s[..|s| - 1]) else 0
  }

  /** `str.strip()`: the text left after removing whitespace at both ends. */
  function Strip(s: string): (r: string)
    ensures |r| <= |s|
    ensures r == "" || (!IsSpace(r[0]) && !IsSpace(r[|r| - 1]))
    ensures r == "" <==> forall k :: 0 <= k < |s| ==> IsSpace(s[k])
    ensures r != "" ==> exists i :: (0 <= i <= |s| - |r| && At(s, i, r)
      && (forall k :: 0 <= k < i ==> IsSpace(s[k]))
      && (forall k :: i + |r| <= k < |s| ==> IsSpace(s[k])))
  {
    var i := LeadingSpaces(s);
    var rest := s[i..];
    var j := TrailingSpaces(rest);
    var r := rest[..|rest| - j];
    assert r == s[i..i + |r|];
    assert At(s, i, r);
    assert r == "" ==> i == |s|;
    r
  }

  // ---------------------------------------------------------------------------
  // Paths

  /** A file-system path: an opaque directory reference (a source directory
      or a destination from the configuration) or an entry below a path. */
  datatype Path = Root(id: string) | Child(parent: Path, name: string)

  /** `PurePath.name`; an opaque directory reference has no name of its own. */
  function Name(p: Path): string {
    match p
    case Root(_) => ""
    case Child(_, n) => n
  }

  /** `str.rfind(c)`: the last index holding `c`, or -1. */
  function RFind(s: string, c: char): (r: int)
    ensures -1 <= r < |s|
  {
    if |s| == 0 then -1
    else if s[|s| - 1] == c then |s| - 1
    else RFind(s[..|s| - 1], c)
  }

  /** `rfind` finds the last occurrence, and -1 only when there is none. */
  lemma {:induction false} RFindSpec(s: string, c: char)
    ensures RFind(s, c) >= 0 ==> s[RFind(s, c)] == c
    ensures forall k :: RFind(s, c) < k < |s| ==> s[k] != c
    decreases |s|
  {
    if |s| > 0 && s[|s| - 1] != c {
      var init := s[..|s| - 1];
      RFindSpec(init, c);
      assert forall k :: 0 <= k < |init| ==> init[k] == s[k];
    }
  }

  /** `PurePath.suffix` of a name: from the last dot on, if that dot is
      neither the first nor the last character; otherwise empty. */
  function Suffix(name: string): (r: string)
    ensures |r| <= |name|
  {
    var i := RFind(name, '.');
    if 0 < i < |name| - 1 then name[i..] else ""
  }

  /** A suffix is a dot and at least one more character, ends the name and
      holds no other dot; there is none only when the name has no dot after
      its first character or ends in a dot. */
  lemma SuffixSpec(name: string)
    ensures var r := Suffix(name);
      && (r != "" ==> r[0] == '.' && |r| >= 2 && r == name[|name| - |r|..] && '.' !in r[1..] && |r| < |name|)
      && (r == "" ==> ((|name| > 0 && name[|name| - 1] == '.')
           || forall k :: 0 < k < |name| ==> name[k] != '.'))
  {
    RFindSpec(name, '.');
    var i := RFind(name, '.');
    if 0 < i < |name| - 1 {
      var r := name[i..];
      assert forall k :: 0 <= k < |r[1..]| ==> r[1..][k] == name[i + 1 + k];
    }
  }

  /** The name without its suffix (`PurePath.stem`). */
  /** The suffix of `t.u`, with no dot in `u`, is `.u`, and its stem `t`. */
  lemma SuffixAfterLastDot(t: string, u: string)
    requires |t| > 0 && |u| > 0 && '.' !in u
    ensures Suffix(t + "." + u) == "." + u
    ensures Stem(t + "." + u) == t
  {
    var n := t + "." + u;
    RFindSpec(n, '.');
    assert n[|t|] == '.';
    assert forall k :: |t| < k < |n| ==> n[k] == u[k - |t| - 1];
    assert n[|t|..] == "." + u;
  }

  function Stem(name: string): string
    requires |Suffix(name)| <= |name|
  {
    name[..|name| - |Suffix(name)|]
  }

  /** A suffix `with_suffix` accepts and `suffix` can give back. */
  predicate ProperSuffix(s: string) {
    |s| >= 2 && s[0] == '.' && '.' !in s[1..]
  }

  /** `PurePath.with_suffix(s)`: the sibling whose name has the suffix
      replaced by `s` (or `s` appended when there is no suffix). */
  function WithSuffix(p: Path, s: string): Path
    requires p.Child? && p.name != ""
  {
    Child(p.parent, Stem(p.name) + s)
  }

  /** `with_suffix` replaces the suffix: the new path is a sibling with the
      same stem, and its suffix is exactly the one given. */
  lemma {:induction false} WithSuffixReplaces(p: Path, s: string)
    requires p.Child? && p.name != "" && ProperSuffix(s)
    ensures WithSuffix(p, s).parent == p.parent
    ensures Suffix(Name(WithSuffix(p, s))) == s
    ensures Stem(Name(WithSuffix(p, s))) == Stem(p.name)
  {
    var stem := Stem(p.name);
    var n := stem + s;
    assert |stem| > 0 by {
      if Suffix(p.name) != "" {
        var i := RFind(p.name, '.');
        assert Suffix(p.name) == p.name[i..];
      }
    }
    assert n[|stem|] == '.';
    forall k | |stem| < k < |n|
      ensures n[k] != '.'
    {
      assert n[k] == s[1..][k - |stem| - 1];
    }
    RFindSpec(n, '.');
    assert RFind(n, '.') == |stem|;
    assert n[..|n| - |s|] == stem;
  }
}
