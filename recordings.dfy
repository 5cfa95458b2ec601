/**
 * Recording sets as values: the session prefix taken from a file name,
 * the role a file plays, the set's fields and status line, and the order
 * in which a scan lists sets.
 */
module Recordings {
  import opened Wrappers
  import opened Text
  import opened Dates

  // ---------------------------------------------------------------------------
  // Session prefix: `re.search(r'(.+?)(?:～Recording|～Chat)', filename)`,
  // group 1, stripped.

  /** The markers; `～` is the fullwidth tilde U+FF5E. */
  const RecordingMarker: string := "～Recording"
  const ChatMarker: string := "～Chat"

  predicate MarkerAt(s: string, j: nat) {
    At(s, j, RecordingMarker) || At(s, j, ChatMarker)
  }

  /** The lazy group `(.+?)` has consumed up to index `j` (at least one
      character): grow it one character at a time until a marker follows.
      `.` matches anything but a newline. */
  function LazyEnd(s: string, j: nat): (r: Option<nat>)
    requires 0 < j <= |s|
    ensures r.Some? ==> j <= r.value <= |s| && MarkerAt(s, r.value)
    decreases |s| - j
  {
    if s[j - 1] == '\n' then None
    else if MarkerAt(s, j) then Some(j)
    else if j == |s| then None
    else LazyEnd(s, j + 1)
  }

  /** The leftmost match at or after index `i`: where group 1 starts and ends. */
  function PrefixMatch(s: string, i: nat): (r: Option<(nat, nat)>)
    requires i <= |s|
    ensures r.Some? ==> i <= r.value.0 < r.value.1 <= |s| && MarkerAt(s, r.value.1)
    decreases |s| - i
  {
    if i == |s| then None
    else match LazyEnd(s, i + 1)
      case Some(j) => Some((i, j))
      case None => PrefixMatch(s, i + 1)
  }

  /** `RecordingScanner._extract_prefix`. */
  function ExtractPrefix(name: string): Option<string> {
    match PrefixMatch(name, 0)
    case None => None
    case Some((i, j)) => Some(Strip(name[i..j]))
  }

  lemma {:induction false} LazyEndWalk(s: string, k: nat, j: nat)
    requires 0 < k <= j <= |s| && MarkerAt(s, j)
    requires forall m :: 0 <= m < j ==> s[m] != '\n'
    requires forall m :: k <= m < j ==> !MarkerAt(s, m)
    ensures LazyEnd(s, k) == Some(j)
    decreases j - k
  {
    if k < j {
      LazyEndWalk(s, k + 1, j);
    }
  }

  /** On a name without newlines, the prefix is the stripped text before the
      earliest marker that has at least one character in front of it. */
  lemma PrefixBeforeFirstMarker(s: string, j: nat)
    requires 1 <= j <= |s| && MarkerAt(s, j)
    requires forall m :: 0 <= m < j ==> s[m] != '\n'
    requires forall m :: 1 <= m < j ==> !MarkerAt(s, m)
    ensures ExtractPrefix(s) == Some(Strip(s[..j]))
  {
    LazyEndWalk(s, 1, j);
  }

  lemma {:induction false} LazyEndNone(s: string, k: nat)
    requires 0 < k <= |s|
    requires forall m :: 1 <= m <= |s| ==> !MarkerAt(s, m)
    ensures LazyEnd(s, k).None?
    decreases |s| - k
  {
    if k < |s| {
      LazyEndNone(s, k + 1);
    }
  }

  lemma {:induction false} PrefixMatchNone(s: string, i: nat)
    requires i <= |s|
    requires forall m :: 1 <= m <= |s| ==> !MarkerAt(s, m)
    ensures PrefixMatch(s, i).None?
    decreases |s| - i
  {
    if i < |s| {
      LazyEndNone(s, i + 1);
      PrefixMatchNone(s, i + 1);
    }
  }

  /** A name with no marker after its first character yields no prefix. */
  lemma NoMarkerNoPrefix(s: string)
    requires forall m :: 1 <= m <= |s| ==> !MarkerAt(s, m)
    ensures ExtractPrefix(s).None?
  {
    PrefixMatchNone(s, 0);
  }

  // ---------------------------------------------------------------------------
  // Roles

  datatype Role = Video | Transcript | Chat | Unmatched

  const VideoSuffix: string := ".mp4"
  const GdocSuffix: string := ".gdoc"
  const DocxSuffix: string := ".docx"
  const MemoToken: string := "Gemini によるメモ"
  const RecordingToken: string := "Recording"
  const ChatSuffix: string := ".txt"
  const ChatToken: string := "Chat"
  const ChatWord: string := "chat"

  /** The role a file takes in `_group_files_into_sets`: video first, then
      transcript, then chat. */
  function Classify(name: string): Role {
    var ext := Lower(Suffix(name));
    if ext == VideoSuffix || Contains(name, RecordingToken) then Video
    else if ext == GdocSuffix || Contains(name, MemoToken) then Transcript
    else if (ext == ChatSuffix && Contains(Lower(name), ChatWord)) || Contains(name, ChatToken) then Chat
    else Unmatched
  }

  /** A name holding the recording marker is a video, whatever its suffix. */
  lemma RecordingTokenIsVideo(name: string)
    requires Contains(name, RecordingToken)
    ensures Classify(name) == Video
  {
  }

  lemma MarkerContainsToken(s: string, j: nat)
    requires MarkerAt(s, j)
    ensures Contains(s, RecordingToken) || Contains(s, ChatToken)
  {
    if At(s, j, RecordingMarker) {
      assert s[j + 1..j + 10] == RecordingMarker[1..];
      assert At(s, j + 1, RecordingToken);
    } else {
      assert s[j + 1..j + 5] == ChatMarker[1..];
      assert At(s, j + 1, ChatToken);
    }
  }

  /** Every name that yields a prefix gets a role. */
  lemma PrefixedNameHasRole(name: string)
    requires ExtractPrefix(name).Some?
    ensures Classify(name) != Unmatched
  {
    var m := PrefixMatch(name, 0).value;
    MarkerContainsToken(name, m.1);
  }

  /** The prefix a name yields occurs in that name, so the file joins its
      own group. */
  lemma PrefixOccursInName(name: string)
    requires ExtractPrefix(name).Some?
    ensures Contains(name, ExtractPrefix(name).value)
  {
    var m := PrefixMatch(name, 0).value;
    var p := ExtractPrefix(name).value;
    var g := name[m.0..m.1];
    if p == "" {
      assert At(name, 0, p);
    } else {
      var i :| 0 <= i <= |g| - |p| && At(g, i, p);
      assert Contains(g, p);
      ContainsWithin(name, m.0, m.1, p);
    }
  }

  /** Whether `f` qualifies for `role` in the group of `prefix`. */
  predicate Qualifies(prefix: string, f: Path, role: Role) {
    Contains(Name(f), prefix) && Classify(Name(f)) == role
  }

  /** The last element of `xs` that satisfies `p`. */
  function LastWhere<T>(xs: seq<T>, p: T -> bool): Option<T>
    decreases |xs|
  {
    if |xs| == 0 then None
    else if p(xs[|xs| - 1]) then Some(xs[|xs| - 1])
    else LastWhere(xs[..|xs| - 1], p)
  }

  /** `LastWhere` finds nothing exactly when no element satisfies `p`;
      otherwise it finds one that does, with none satisfying `p` after it. */
  lemma {:induction false} LastWhereSpec<T>(xs: seq<T>, p: T -> bool)
    ensures LastWhere(xs, p).None? <==> forall k :: 0 <= k < |xs| ==> !p(xs[k])
    ensures LastWhere(xs, p).Some? ==> exists k :: (0 <= k < |xs| && xs[k] == LastWhere(xs, p).value && p(xs[k])
      && forall m :: k < m < |xs| ==> !p(xs[m]))
    decreases |xs|
  {
    if |xs| > 0 && !p(xs[|xs| - 1]) {
      var init := xs[..|xs| - 1];
      LastWhereSpec(init, p);
      assert forall k :: 0 <= k < |init| ==> init[k] == xs[k];
    }
  }

  /** The file the inner loop leaves in the variable for `role`: the LAST
      file of the listing that qualifies (later files overwrite earlier). */
  function Pick(prefix: string, files: seq<Path>, role: Role): Option<Path> {
    LastWhere(files, f => Qualifies(prefix, f, role))
  }

  /** What `Pick` promises: no qualifying file gives none; otherwise the
      chosen file qualifies and no later file does. */
  lemma PickIsLastQualifying(prefix: string, files: seq<Path>, role: Role)
    ensures Pick(prefix, files, role).None? <==> forall k :: 0 <= k < |files| ==> !Qualifies(prefix, files[k], role)
    ensures Pick(prefix, files, role).Some? ==> exists k :: (0 <= k < |files|
      && files[k] == Pick(prefix, files, role).value && Qualifies(prefix, files[k], role)
      && forall m :: k < m < |files| ==> !Qualifies(prefix, files[m], role))
  {
    var p := (f: Path) => Qualifies(prefix, f, role);
    LastWhereSpec(files, p);
    assert forall f :: p(f) == Qualifies(prefix, f, role);
  }

  /** Extending the listing by one file: the way the inner loop updates. */
  lemma PickStep(prefix: string, files: seq<Path>, f: Path, role: Role)
    ensures Pick(prefix, files + [f], role)
      == if Qualifies(prefix, f, role) then Some(f) else Pick(prefix, files, role)
  {
    assert (files + [f])[..|files|] == files;
  }

  // ---------------------------------------------------------------------------
  // Recording sets

  /** The fields of a `RecordingSet`. */
  datatype Recording = Recording(
    prefix: string,
    video: Option<Path>,
    transcript: Option<Path>,
    chat: Option<Path>,
    date: Option<DateTime>)
  {
    /** `is_complete`: a set counts once it has a video. */
    predicate IsComplete() {
      video.Some?
    }
  }

  /** `RecordingSet.__init__`: the date is taken from the prefix only when
      none is passed. */
  function NewRecording(prefix: string, video: Option<Path>, transcript: Option<Path>,
                        chat: Option<Path>, date: Option<DateTime>): (r: Recording)
    ensures (r.prefix, r.video, r.transcript, r.chat) == (prefix, video, transcript, chat)
    ensures date.Some? ==> r.date == date
    ensures date.None? ==> r.date == ExtractDate(prefix)
    ensures r.date.Some? ==> IsValid(r.date.value) || r.date == date
  {
    Recording(prefix, video, transcript, chat, if date.Some? then date else ExtractDate(prefix))
  }

  /** The set `_group_files_into_sets` builds for `prefix` from `files`. */
  function GroupFor(prefix: string, files: seq<Path>): Recording {
    NewRecording(prefix, Pick(prefix, files, Video), Pick(prefix, files, Transcript),
                 Pick(prefix, files, Chat), None)
  }

  /** Total length of some strings. */
  function TotalLength(parts: seq<string>): nat {
    if |parts| == 0 then 0 else |parts[0]| + TotalLength(parts[1..])
  }

  lemma {:induction false} TotalLengthAppend(a: seq<string>, b: seq<string>)
    ensures TotalLength(a + b) == TotalLength(a) + TotalLength(b)
    decreases |a|
  {
    if |a| > 0 {
      assert (a + b)[1..] == a[1..] + b;
      TotalLengthAppend(a[1..], b);
    } else {
      assert a + b == b;
    }
  }

  function Count(b: bool): nat {
    if b then 1 else 0
  }

  const VideoLabel: string := "動画"
  const TranscriptLabel: string := "議事録"
  const ChatLabel: string := "チャット"

  predicate IsLabel(x: string) {
    x == VideoLabel || x == TranscriptLabel || x == ChatLabel
  }

  /** The labels `get_status` collects: one per role present, each exactly
      when its role is present, video first and chat last. */
  function StatusParts(r: Recording): (parts: seq<string>)
    ensures |parts| == Count(r.video.Some?) + Count(r.transcript.Some?) + Count(r.chat.Some?)
    ensures TotalLength(parts) == 2 * Count(r.video.Some?) + 3 * Count(r.transcript.Some?) + 4 * Count(r.chat.Some?)
    ensures forall k :: 0 <= k < |parts| ==> IsLabel(parts[k])
    ensures VideoLabel in parts <==> r.video.Some?
    ensures TranscriptLabel in parts <==> r.transcript.Some?
    ensures ChatLabel in parts <==> r.chat.Some?
    ensures VideoLabel in parts ==> parts[0] == VideoLabel
    ensures ChatLabel in parts ==> parts[|parts| - 1] == ChatLabel
  {
    var v: seq<string> := if r.video.Some? then [VideoLabel] else [];
    var t: seq<string> := if r.transcript.Some? then [TranscriptLabel] else [];
    var c: seq<string> := if r.chat.Some? then [ChatLabel] else [];
    TotalLengthAppend(v, t);
    TotalLengthAppend(v + t, c);
    v + t + c
  }

  /** `', '.join(parts)`. */
  function Join(parts: seq<string>): (s: string)
    ensures |s| == if |parts| == 0 then 0 else TotalLength(parts) + 2 * (|parts| - 1)
  {
    if |parts| == 0 then "" else if |parts| == 1 then parts[0] else parts[0] + ", " + Join(parts[1..])
  }

  /** `get_status`: the labels of the roles present, in brackets. */
  function GetStatus(r: Recording): (s: string)
    ensures |s| >= 2 && s[0] == '[' && s[|s| - 1] == ']'
  {
    "[" + Join(StatusParts(r)) + "]"
  }

  /** A character of `', '.join(parts)` other than the separator's comes
      from one of the parts. */
  lemma {:induction false} JoinChars(parts: seq<string>, c: char)
    requires c != ',' && c != ' '
    ensures c in Join(parts) <==> exists k :: 0 <= k < |parts| && c in parts[k]
    decreases |parts|
  {
    if |parts| > 1 {
      var tail := parts[1..];
      JoinChars(tail, c);
      assert Join(parts) == parts[0] + ", " + Join(tail);
      if exists k :: 0 <= k < |tail| && c in tail[k] {
        var k :| 0 <= k < |tail| && c in tail[k];
        assert parts[k + 1] == tail[k];
      }
      if exists k :: 0 <= k < |parts| && c in parts[k] {
        var k :| 0 <= k < |parts| && c in parts[k];
        if k > 0 {
          assert tail[k - 1] == parts[k];
        }
      }
    }
  }

  /** Every part occurs in `', '.join(parts)`. */
  lemma {:induction false} JoinContainsPart(parts: seq<string>, k: nat)
    requires k < |parts|
    ensures Contains(Join(parts), parts[k])
    decreases |parts|
  {
    var s := Join(parts);
    if |parts| == 1 {
      assert At(s, 0, parts[0]);
    } else {
      var head := parts[0];
      var tail := parts[1..];
      assert s == head + ", " + Join(tail);
      if k == 0 {
        assert s[..|head|] == head;
        assert At(s, 0, head);
      } else {
        JoinContainsPart(tail, k - 1);
        assert s[|head| + 2..|s|] == Join(tail);
        assert tail[k - 1] == parts[k];
        ContainsWithin(s, |head| + 2, |s|, parts[k]);
      }
    }
  }

  /** The three labels start with three characters that occur in no other label. */
  lemma LabelByFirstChar(x: string, y: string)
    requires IsLabel(x) && IsLabel(y) && y[0] in x
    ensures x == y
  {
  }

  /** A label occurs in the status line exactly when it was collected. */
  lemma StatusShowsLabel(r: Recording, tag: string)
    requires IsLabel(tag)
    ensures Contains(GetStatus(r), tag) <==> tag in StatusParts(r)
  {
    var parts := StatusParts(r);
    var s := GetStatus(r);
    assert s == "[" + Join(parts) + "]";
    assert s[1..|s| - 1] == Join(parts);
    if tag in parts {
      var k :| 0 <= k < |parts| && parts[k] == tag;
      JoinContainsPart(parts, k);
      ContainsWithin(s, 1, |s| - 1, tag);
    }
    if Contains(s, tag) {
      var i :| 0 <= i <= |s| - |tag| && At(s, i, tag);
      var c := tag[0];
      AtFirst(s, i, tag);
      assert c != '[' && c != ']' && c != ',' && c != ' ';
      assert c in Join(parts) by {
        assert 0 < i < |s| - 1;
        assert Join(parts)[i - 1] == c;
      }
      JoinChars(parts, c);
      var k :| 0 <= k < |parts| && c in parts[k];
      LabelByFirstChar(parts[k], tag);
    }
  }

  /** The status line names a role exactly when the set has it. */
  lemma StatusShowsRoles(r: Recording)
    ensures Contains(GetStatus(r), VideoLabel) <==> r.video.Some?
    ensures Contains(GetStatus(r), TranscriptLabel) <==> r.transcript.Some?
    ensures Contains(GetStatus(r), ChatLabel) <==> r.chat.Some?
  {
    StatusShowsLabel(r, VideoLabel);
    StatusShowsLabel(r, TranscriptLabel);
    StatusShowsLabel(r, ChatLabel);
  }

  /** The status line tells exactly which roles a set holds. */
  lemma StatusDeterminesRoles(a: Recording, b: Recording)
    requires GetStatus(a) == GetStatus(b)
    ensures a.video.Some? == b.video.Some?
    ensures a.transcript.Some? == b.transcript.Some?
    ensures a.chat.Some? == b.chat.Some?
  {
    assert |GetStatus(a)| == |GetStatus(b)|;
  }

  // ---------------------------------------------------------------------------
  // Scan order: `(-timestamp or +inf, prefix)` ascending, i.e. later dates
  // first, undated sets last, equal dates by prefix.

  /** Python's `<` on `str`: lexicographic by code point. */
  predicate StrLess(a: string, b: string)
    decreases |a|
  {
    |b| > 0 && (|a| == 0 || a[0] < b[0] || (a[0] == b[0] && StrLess(a[1..], b[1..])))
  }

  /** `d` is strictly earlier than `e`. */
  predicate Earlier(d: DateTime, e: DateTime) {
    || d.year < e.year
    || (d.year == e.year && d.month < e.month)
    || (d.year == e.year && d.month == e.month && d.day < e.day)
    || (d.year == e.year && d.month == e.month && d.day == e.day && d.hour < e.hour)
    || (d.year == e.year && d.month == e.month && d.day == e.day && d.hour == e.hour && d.minute < e.minute)
  }

  /** `a` comes before `b` in the list a scan returns. */
  predicate SortsBefore(a: Recording, b: Recording) {
    || (a.date.Some? && b.date.None?)
    || (a.date.Some? && b.date.Some? && Earlier(b.date.value, a.date.value))
    || (a.date == b.date && StrLess(a.prefix, b.prefix))
  }

  lemma {:induction false} StrLessIrreflexive(a: string)
    ensures !StrLess(a, a)
    decreases |a|
  {
    if |a| > 0 {
      StrLessIrreflexive(a[1..]);
    }
  }

  lemma {:induction false} StrLessAsymmetric(a: string, b: string)
    ensures StrLess(a, b) ==> !StrLess(b, a)
    decreases |a|
  {
    if |a| > 0 && |b| > 0 && a[0] == b[0] {
      StrLessAsymmetric(a[1..], b[1..]);
    }
  }

  lemma {:induction false} StrLessTransitive(a: string, b: string, c: string)
    requires StrLess(a, b) && StrLess(b, c)
    ensures StrLess(a, c)
    decreases |a|
  {
    if |a| > 0 && a[0] == b[0] && b[0] == c[0] {
      StrLessTransitive(a[1..], b[1..], c[1..]);
    }
  }

  lemma {:induction false} StrLessTotal(a: string, b: string)
    requires a != b
    ensures StrLess(a, b) || StrLess(b, a)
    decreases |a|
  {
    if |a| > 0 && |b| > 0 && a[0] == b[0] {
      assert a == [a[0]] + a[1..] && b == [b[0]] + b[1..];
      StrLessTotal(a[1..], b[1..]);
    }
  }

  /** The scan order is a strict order: irreflexive, asymmetric, transitive... */
  lemma SortsBeforeStrict(a: Recording, b: Recording, c: Recording)
    ensures !SortsBefore(a, a)
    ensures SortsBefore(a, b) ==> !SortsBefore(b, a)
    ensures SortsBefore(a, b) && SortsBefore(b, c) ==> SortsBefore(a, c)
  {
    StrLessIrreflexive(a.prefix);
    StrLessAsymmetric(a.prefix, b.prefix);
    if SortsBefore(a, b) && SortsBefore(b, c) && a.date == b.date == c.date {
      StrLessTransitive(a.prefix, b.prefix, c.prefix);
    }
  }

  /** ... and total on sets with different prefixes. */
  lemma SortsBeforeTotal(a: Recording, b: Recording)
    requires a.prefix != b.prefix
    ensures SortsBefore(a, b) || SortsBefore(b, a)
  {
    StrLessTotal(a.prefix, b.prefix);
  }
}
