/**
 * The move side of `RecordingSet`: giving the video an `.mp4` suffix,
 * converting a `.gdoc` transcript, and moving the set into a dated
 * directory below the destination.
 *
 * Each step is first stated as a function on a `State` (the set's fields,
 * the existing paths and the calls made so far); the methods of the class
 * `RecordingSet` do the same work on a `FileSystem` and are proved to agree
 * with those functions.
 */
module Mover {
  import opened Wrappers
  import opened Text
  import opened Dates
  import opened Recordings
  import opened Files

  const UnknownDate: string := "unknown_date"

  /** A path that names a file: every path the scan hands to a set. */
  predicate IsFile(p: Path) {
    p.Child? && p.name != ""
  }

  /** An optional path that, when present, names a file. */
  predicate FileOpt(p: Option<Path>) {
    p.Some? ==> IsFile(p.value)
  }

  predicate FilePaths(r: Recording) {
    FileOpt(r.video) && FileOpt(r.transcript) && FileOpt(r.chat)
  }

  /** `p.suffix.lower() == suffix`. */
  predicate HasSuffix(p: Path, suffix: string) {
    Lower(Suffix(Name(p))) == suffix
  }

  /** The transcript is a Google Docs stub, which `move_to` converts. */
  predicate NeedsConversion(t: Option<Path>) {
    t.Some? && HasSuffix(t.value, GdocSuffix)
  }

  /** `with_suffix` of a file names a file. */
  lemma WithSuffixIsFile(p: Path, s: string)
    requires IsFile(p) && s != ""
    ensures IsFile(WithSuffix(p, s))
  {
  }

  /** What `with_suffix` puts on is what `HasSuffix` then sees. */
  lemma WithSuffixHas(p: Path, s: string)
    requires IsFile(p) && (s == VideoSuffix || s == DocxSuffix)
    ensures IsFile(WithSuffix(p, s)) && HasSuffix(WithSuffix(p, s), s)
    ensures WithSuffix(p, s).parent == p.parent && Stem(Name(WithSuffix(p, s))) == Stem(p.name)
  {
    assert ProperSuffix(s) by {
      assert s[1..] == if s == VideoSuffix then "mp4" else "docx";
    }
    assert Lower(s) == s;
    WithSuffixReplaces(p, s);
  }

  /** The name of the dated directory: `YYYYMMDD`, or `unknown_date`. */
  function DateDirName(date: Option<DateTime>): (r: string)
    ensures date.None? ==> r == UnknownDate
    ensures date.Some? ==> |r| == 8 && forall k :: 0 <= k < 8 ==> IsDigit(r[k])
  {
    match date
    case None => UnknownDate
    case Some(d) =>
      DayNameDigits(d);
      DayName(d)
  }

  lemma DayNameDigits(d: DateTime)
    ensures |DayName(d)| == 8 && forall k :: 0 <= k < 8 ==> IsDigit(DayName(d)[k])
  {
    PadDigits(d.year, 4);
    PadDigits(d.month, 2);
    PadDigits(d.day, 2);
    var a, b, c := Pad(d.year, 4), Pad(d.month, 2), Pad(d.day, 2);
    assert DayName(d) == a + b + c;
    forall k | 0 <= k < 8
      ensures IsDigit(DayName(d)[k])
    {
      if k < 4 {
        assert DayName(d)[k] == a[k];
      } else if k < 6 {
        assert DayName(d)[k] == b[k - 4];
      } else {
        assert DayName(d)[k] == c[k - 6];
      }
    }
  }

  lemma {:induction false} PadDigits(n: nat, w: nat)
    ensures |Pad(n, w)| == w && forall k :: 0 <= k < w ==> IsDigit(Pad(n, w)[k])
    decreases w
  {
    if w > 0 {
      PadDigits(n / 10, w - 1);
      var q := Pad(n / 10, w - 1);
      assert Pad(n, w) == q + [DigitChar(n % 10)];
      assert forall k :: 0 <= k < w - 1 ==> Pad(n, w)[k] == q[k];
    }
  }

  /** `destination / date_str`. */
  function DateDir(dest: Path, date: Option<DateTime>): Path {
    Child(dest, DateDirName(date))
  }

  /** A dated directory is a fresh child of the destination: creating the
      destination with its parents never creates it. */
  lemma DateDirNotInLineage(dest: Path, date: Option<DateTime>)
    ensures DateDir(dest, date) !in Lineage(dest)
  {
    assert Depth(DateDir(dest, date)) == Depth(dest) + 1;
  }

  // ---------------------------------------------------------------------------
  // The steps as functions

  /** The set's fields, the existing paths and every call made so far. */
  datatype State = State(rec: Recording, paths: set<Path>, ops: seq<Op>)

  /** What a step returns, and the state after it. */
  datatype Step<T> = Step(value: T, state: State)

  function WithOp(s: State, paths: set<Path>, op: Op): State {
    State(s.rec, paths, s.ops + [op])
  }

  /** The outcome of each call `move_to` makes. */
  datatype Oracle = Oracle(
    mkdirDest: bool,
    mkdirDate: bool,
    renameVideo: bool,
    conversion: Conversion,
    moveVideo: bool,
    moveTranscript: bool,
    moveChat: bool,
    unlinkGdoc: bool)
  {
    function Allows(role: Role): bool {
      match role
      case Video => moveVideo
      case Transcript => moveTranscript
      case Chat => moveChat
      case Unmatched => true
    }
  }

  /** The mkdir that `if not p.exists(): p.mkdir(parents=True)` makes, if
      any. */
  function MkdirCalls(paths: set<Path>, p: Path, allow: bool): seq<Op> {
    if p in paths then [] else [Mkdir(p, allow)]
  }

  /** `if not p.exists(): p.mkdir(parents=True)`; `false` when the mkdir
      failed, which raises out of `move_to`. */
  function EnsureDir(s: State, p: Path, allow: bool): (r: Step<bool>)
    ensures r.value <==> p in s.paths || allow
    ensures r.value ==> p in r.state.paths
    ensures r.state.rec == s.rec
    ensures r.state.paths == s.paths + (if p !in s.paths && allow then Lineage(p) else {})
    ensures r.state.ops == s.ops + MkdirCalls(s.paths, p, allow)
  {
    if p in s.paths then Step(true, s)
    else Step(allow, WithOp(s, if allow then s.paths + Lineage(p) else s.paths, Mkdir(p, allow)))
  }

  /** The video path after `ensure_video_extension`: the `.mp4` sibling
      when the suffix was something else and the rename worked. */
  function RenamedVideo(v: Option<Path>, allow: bool): (r: Option<Path>)
    requires FileOpt(v)
    ensures FileOpt(r) && (r.Some? <==> v.Some?)
  {
    if v.Some? && !HasSuffix(v.value, VideoSuffix) && allow then
      WithSuffixIsFile(v.value, VideoSuffix);
      Some(WithSuffix(v.value, VideoSuffix))
    else v
  }

  /** The rename `ensure_video_extension` attempts, if any. */
  function RenameCalls(v: Option<Path>, allow: bool): seq<Op>
    requires FileOpt(v)
  {
    if v.Some? && !HasSuffix(v.value, VideoSuffix)
    then [Rename(v.value, WithSuffix(v.value, VideoSuffix), allow)]
    else []
  }

  /** The existing paths after the rename `ensure_video_extension` attempts. */
  function RenamedPaths(paths: set<Path>, v: Option<Path>, allow: bool): set<Path>
    requires FileOpt(v)
  {
    if v.Some? && !HasSuffix(v.value, VideoSuffix)
    then Moved(paths, v.value, WithSuffix(v.value, VideoSuffix), allow)
    else paths
  }

  /** `ensure_video_extension`. The path returned is the set's video path
      afterwards; a rename is tried only when the suffix is not already
      `.mp4`, and the field moves only if it worked. */
  function EnsureExtension(s: State, allow: bool): (r: Step<Option<Path>>)
    requires FilePaths(s.rec)
    ensures r.value == RenamedVideo(s.rec.video, allow)
    ensures r.state.rec == s.rec.(video := r.value)
    ensures r.state.paths == RenamedPaths(s.paths, s.rec.video, allow)
    ensures r.state.ops == s.ops + RenameCalls(s.rec.video, allow)
  {
    match s.rec.video
    case None => Step(None, s)
    case Some(v) =>
      if HasSuffix(v, VideoSuffix) then Step(Some(v), s)
      else
        var n := WithSuffix(v, VideoSuffix);
        var t := WithOp(s, Moved(s.paths, v, n, allow), Rename(v, n, allow));
        if allow then Step(Some(n), t.(rec := s.rec.(video := Some(n)))) else Step(Some(v), t)
  }

  /** After `ensure_video_extension` succeeded, or found the suffix already
      right, the video has the `.mp4` suffix, the same stem and the same
      directory; a failed rename changes no path. */
  lemma EnsureExtensionRenames(s: State, allow: bool)
    requires FilePaths(s.rec) && s.rec.video.Some?
    ensures var r := EnsureExtension(s, allow);
      && (allow || HasSuffix(s.rec.video.value, VideoSuffix) ==>
            && HasSuffix(r.value.value, VideoSuffix) && r.value.value.parent == s.rec.video.value.parent
            && Stem(Name(r.value.value)) == Stem(Name(s.rec.video.value)))
      && (allow && !HasSuffix(s.rec.video.value, VideoSuffix) ==>
            r.state.paths == Moved(s.paths, s.rec.video.value, WithSuffix(s.rec.video.value, VideoSuffix), true))
      && (!allow ==> r.value == s.rec.video && r.state.paths == s.paths)
  {
    if !HasSuffix(s.rec.video.value, VideoSuffix) {
      WithSuffixHas(s.rec.video.value, VideoSuffix);
    }
  }

  /** `with_suffix` replaces whatever follows the last dot: a video with no
      extension whose title holds a dot loses the text after that dot. */
  lemma DottedTitleRename(dir: Path)
    ensures RenamedVideo(Some(Child(dir, "Sprint 3.1 review～Recording")), true)
      == Some(Child(dir, "Sprint 3.mp4"))
  {
    var t, u := "Sprint 3", "1 review～Recording";
    assert t + "." + u == "Sprint 3.1 review～Recording";
    SuffixAfterLastDot(t, u);
    assert |Lower("." + u)| != |VideoSuffix|;
    assert t + VideoSuffix == "Sprint 3.mp4";
  }

  /** Applying `ensure_video_extension` again after it succeeded, or when
      the suffix was already `.mp4`, changes nothing and makes no call. */
  lemma EnsureExtensionIdempotent(s: State, allow: bool, again: bool)
    requires FilePaths(s.rec)
    requires s.rec.video.Some? ==> allow || HasSuffix(s.rec.video.value, VideoSuffix)
    ensures var r := EnsureExtension(s, allow);
      EnsureExtension(r.state, again) == Step(r.value, r.state)
  {
    if s.rec.video.Some? {
      EnsureExtensionRenames(s, allow);
    }
  }

  /** How a run of the external converter ends. It opens the `.docx` for
      writing only when it got as far as the download. */
  datatype Conversion = Converted | FailedBeforeWrite | FailedAfterWrite

  /** The transcript path after `convert_transcript_to_docx`: the `.docx`
      sibling when a `.gdoc` was converted. */
  function ConvertedTranscript(t: Option<Path>, c: Conversion): (r: Option<Path>)
    requires FileOpt(t)
    ensures FileOpt(r) && (r.Some? <==> t.Some?)
  {
    if NeedsConversion(t) && c == Converted then
      WithSuffixIsFile(t.value, DocxSuffix);
      Some(WithSuffix(t.value, DocxSuffix))
    else t
  }

  /** The file the converter creates, if any. */
  function CreateCalls(t: Option<Path>, c: Conversion): seq<Op>
    requires FileOpt(t)
  {
    if NeedsConversion(t) && c != FailedBeforeWrite
    then [Create(WithSuffix(t.value, DocxSuffix))]
    else []
  }

  /** The existing paths once the converter has run: the `.docx` is there
      as soon as the converter opened it. */
  function CreatedPaths(paths: set<Path>, t: Option<Path>, c: Conversion): set<Path>
    requires FileOpt(t)
  {
    if NeedsConversion(t) && c != FailedBeforeWrite
    then paths + {WithSuffix(t.value, DocxSuffix)}
    else paths
  }

  /** `convert_transcript_to_docx`. Only a `.gdoc` transcript is converted;
      the transcript becomes the `.docx` sibling exactly when the converter
      succeeds, and the new path is returned. */
  function ConvertTranscript(s: State, c: Conversion): (r: Step<Option<Path>>)
    requires FilePaths(s.rec)
    ensures r.value.Some? <==> NeedsConversion(s.rec.transcript) && c == Converted
    ensures r.value.Some? ==> r.value == r.state.rec.transcript
    ensures r.state.rec == s.rec.(transcript := ConvertedTranscript(s.rec.transcript, c))
    ensures r.state.paths == CreatedPaths(s.paths, s.rec.transcript, c)
    ensures r.state.ops == s.ops + CreateCalls(s.rec.transcript, c)
  {
    if !NeedsConversion(s.rec.transcript) then Step(None, s)
    else
      var docx := WithSuffix(s.rec.transcript.value, DocxSuffix);
      var written := if c == FailedBeforeWrite then s else WithOp(s, s.paths + {docx}, Create(docx));
      var returned := if c == Converted then Some(docx) else None;
      if returned.Some? && returned.value in written.paths then
        Step(returned, written.(rec := s.rec.(transcript := returned)))
      else Step(None, written)
  }

  /** The converted transcript is the `.docx` beside the stub, with the same
      stem; a conversion that got as far as the download leaves that file
      behind even when it failed. */
  lemma ConvertTranscriptSibling(s: State, c: Conversion)
    requires FilePaths(s.rec) && NeedsConversion(s.rec.transcript)
    ensures var r := ConvertTranscript(s, c); var d := WithSuffix(s.rec.transcript.value, DocxSuffix);
      && HasSuffix(d, DocxSuffix) && d.parent == s.rec.transcript.value.parent
      && Stem(Name(d)) == Stem(Name(s.rec.transcript.value))
      && (r.value.Some? ==> r.value.value == d)
      && (c != FailedBeforeWrite ==> d in r.state.paths)
      && (c == FailedBeforeWrite ==> r.state.paths == s.paths)
  {
    WithSuffixHas(s.rec.transcript.value, DocxSuffix);
  }

  /** The set's fields after `move_to`: the video renamed if that worked,
      the transcript replaced by the `.docx` if the conversion worked; the
      moves themselves do not update the fields. */
  function Prepared(r: Recording, o: Oracle): (p: Recording)
    requires FilePaths(r)
    ensures FilePaths(p)
  {
    r.(video := RenamedVideo(r.video, o.renameVideo), transcript := ConvertedTranscript(r.transcript, o.conversion))
  }

  /** The part of `move_to` before the moves: the video's suffix, then the
      conversion of a `.gdoc` transcript; `false` when that conversion
      failed. */
  function Prepare(s: State, o: Oracle): (r: Step<bool>)
    requires FilePaths(s.rec)
    ensures r.value <==> (NeedsConversion(s.rec.transcript) ==> o.conversion == Converted)
    ensures r.state.rec == Prepared(s.rec, o)
    ensures r.state.paths == CreatedPaths(RenamedPaths(s.paths, s.rec.video, o.renameVideo), s.rec.transcript, o.conversion)
    ensures r.state.ops == s.ops + RenameCalls(s.rec.video, o.renameVideo) + CreateCalls(s.rec.transcript, o.conversion)
  {
    var s1 := if s.rec.video.Some? then EnsureExtension(s, o.renameVideo).state else s;
    var needs := NeedsConversion(s1.rec.transcript);
    var conv := if needs then ConvertTranscript(s1, o.conversion) else Step(None, s1);
    assert s.rec.video.None? ==> s1.ops == s.ops + RenameCalls(s.rec.video, o.renameVideo);
    assert !needs ==> conv.state.ops == s1.ops + CreateCalls(s.rec.transcript, o.conversion);
    Step(!needs || conv.value.Some?, conv.state)
  }

  /** One entry of `files_to_move`. */
  datatype Item = Item(role: Role, path: Path)

  function PathFor(r: Recording, role: Role): Option<Path> {
    match role
    case Video => r.video
    case Transcript => r.transcript
    case Chat => r.chat
    case Unmatched => None
  }

  function Rank(role: Role): nat {
    match role
    case Video => 0
    case Transcript => 1
    case Chat => 2
    case Unmatched => 3
  }

  /** `files_to_move`. */
  function FilesToMove(r: Recording): seq<Item> {
    (if r.video.Some? then [Item(Video, r.video.value)] else [])
    + (if r.transcript.Some? then [Item(Transcript, r.transcript.value)] else [])
    + (if r.chat.Some? then [Item(Chat, r.chat.value)] else [])
  }

  /** Each file the set has is moved once, in the order video, transcript,
      chat, and nothing else is. */
  lemma FilesToMoveSpec(r: Recording)
    ensures var items := FilesToMove(r);
      && (forall k :: 0 <= k < |items| ==> PathFor(r, items[k].role) == Some(items[k].path))
      && (forall i, j :: 0 <= i < j < |items| ==> Rank(items[i].role) < Rank(items[j].role))
      && (forall role :: PathFor(r, role).Some? ==> Item(role, PathFor(r, role).value) in items)
  {
    var items := FilesToMove(r);
    forall role | PathFor(r, role).Some?
      ensures Item(role, PathFor(r, role).value) in items
    {
    }
  }

  /** Every move of `files_to_move` is allowed exactly when the move of each
      file the set has is. */
  lemma MovesAllowed(r: Recording, o: Oracle)
    ensures (forall k :: 0 <= k < |FilesToMove(r)| ==> o.Allows(FilesToMove(r)[k].role))
      <==> (r.video.Some? ==> o.moveVideo) && (r.transcript.Some? ==> o.moveTranscript) && (r.chat.Some? ==> o.moveChat)
  {
    var items := FilesToMove(r);
    FilesToMoveSpec(r);
    if forall k :: 0 <= k < |items| ==> o.Allows(items[k].role) {
      forall role | PathFor(r, role).Some?
        ensures o.Allows(role)
      {
        var k :| 0 <= k < |items| && items[k] == Item(role, PathFor(r, role).value);
      }
      assert PathFor(r, Video) == r.video && PathFor(r, Transcript) == r.transcript && PathFor(r, Chat) == r.chat;
    }
  }

  function Target(dateDir: Path, src: Path): Path {
    Child(dateDir, Name(src))
  }

  /** The calls of the move loop: one per entry, in order, each to the
      dated directory under the file's own name. */
  function MoveCalls(dateDir: Path, items: seq<Item>, o: Oracle): (r: seq<Op>)
    ensures |r| == |items|
  {
    seq(|items|, k requires 0 <= k < |items| => Move(items[k].path, Target(dateDir, items[k].path), o.Allows(items[k].role)))
  }

  /** The move loop: every entry is attempted whatever happened to the ones
      before it; the value is whether every move succeeded. */
  function MoveAll(s: State, dateDir: Path, items: seq<Item>, o: Oracle): Step<bool>
    decreases |items|
  {
    if items == [] then Step(true, s)
    else
      var prev := MoveAll(s, dateDir, items[..|items| - 1], o);
      var it := items[|items| - 1];
      var allow := o.Allows(it.role);
      var dst := Target(dateDir, it.path);
      Step(prev.value && allow, WithOp(prev.state, Moved(prev.state.paths, it.path, dst, allow), Move(it.path, dst, allow)))
  }

  /** The loop succeeds exactly when every move is allowed, leaves the
      set's fields alone and makes exactly the calls of `MoveCalls`. */
  lemma {:induction false} MoveAllSpec(s: State, dateDir: Path, items: seq<Item>, o: Oracle)
    ensures var r := MoveAll(s, dateDir, items, o);
      && (r.value <==> forall k :: 0 <= k < |items| ==> o.Allows(items[k].role))
      && r.state.rec == s.rec
      && r.state.ops == s.ops + MoveCalls(dateDir, items, o)
    decreases |items|
  {
    if items != [] {
      var init := items[..|items| - 1];
      MoveAllSpec(s, dateDir, init, o);
      var it := items[|items| - 1];
      assert MoveCalls(dateDir, items, o) == MoveCalls(dateDir, init, o) + [Move(it.path, Target(dateDir, it.path), o.Allows(it.role))];
      assert forall k :: 0 <= k < |init| ==> init[k] == items[k];
    }
  }

  /** `p` is not directly inside `dir`, so no move into `dir` lands on it. */
  predicate Outside(p: Path, dir: Path) {
    !(p.Child? && p.parent == dir)
  }

  /** The files to move have distinct names and none is in the dated
      directory already: no move then lands on another file or on another
      move's target. */
  predicate Separate(dateDir: Path, items: seq<Item>) {
    && (forall k :: 0 <= k < |items| ==> Outside(items[k].path, dateDir))
    && (forall i, j :: 0 <= i < j < |items| ==> Name(items[i].path) != Name(items[j].path))
  }

  /** `q` is neither a file the loop moves nor one of its targets. */
  predicate Untouched(q: Path, dateDir: Path, items: seq<Item>) {
    forall k :: 0 <= k < |items| ==> q != items[k].path && q != Target(dateDir, items[k].path)
  }

  /** Where the loop leaves the files: a file whose move worked is in the
      dated directory under its own name and gone from where it was; a file
      whose move failed is where it was; every other path is as before. */
  lemma {:induction false} MoveAllPaths(s: State, dateDir: Path, items: seq<Item>, o: Oracle)
    requires Separate(dateDir, items)
    ensures var r := MoveAll(s, dateDir, items, o).state.paths;
      && (forall k :: 0 <= k < |items| ==>
            if o.Allows(items[k].role) then Target(dateDir, items[k].path) in r && items[k].path !in r
            else (items[k].path in r <==> items[k].path in s.paths))
      && (forall q :: Untouched(q, dateDir, items) ==> (q in r <==> q in s.paths))
    decreases |items|
  {
    if items != [] {
      var n := |items| - 1;
      var init := items[..n];
      assert forall k :: 0 <= k < n ==> init[k] == items[k];
      MoveAllPaths(s, dateDir, init, o);
      var it := items[n];
      var dst := Target(dateDir, it.path);
      forall k | 0 <= k < n
        ensures items[k].path != it.path && items[k].path != dst
        ensures Target(dateDir, items[k].path) != it.path && Target(dateDir, items[k].path) != dst
      {
      }
      forall q | Untouched(q, dateDir, items)
        ensures Untouched(q, dateDir, init) && q != it.path && q != dst
      {
      }
    }
  }

  /** Removing the original `.gdoc` once everything else succeeded; its
      outcome is not reported. */
  function Cleanup(s: State, gdoc: Path, allow: bool): State {
    WithOp(s, if allow then s.paths - {gdoc} else s.paths, Unlink(gdoc, allow))
  }

  /** Everything `move_to` does once both directories exist. */
  function Transfer(s: State, dateDir: Path, o: Oracle): Step<bool>
    requires FilePaths(s.rec)
  {
    var p := Prepare(s, o);
    var moved := MoveAll(p.state, dateDir, FilesToMove(p.state.rec), o);
    var success := p.value && moved.value;
    if NeedsConversion(s.rec.transcript) && success
    then Step(success, Cleanup(moved.state, s.rec.transcript.value, o.unlinkGdoc))
    else Step(success, moved.state)
  }

  /** What `move_to` returns: its boolean, or the error a failed mkdir
      raises. */
  datatype Outcome = Finished(success: bool) | DirectoryError

  /** `move_to(destination)`. */
  function MoveToRun(s: State, dest: Path, o: Oracle): Step<Outcome>
    requires FilePaths(s.rec)
  {
    var d := EnsureDir(s, dest, o.mkdirDest);
    if !d.value then Step(DirectoryError, d.state)
    else
      var dateDir := DateDir(dest, s.rec.date);
      var e := EnsureDir(d.state, dateDir, o.mkdirDate);
      if !e.value then Step(DirectoryError, e.state)
      else
        var t := Transfer(e.state, dateDir, o);
        Step(Finished(t.value), t.state)
  }

  // ---------------------------------------------------------------------------
  // What the steps add up to

  /** The move succeeds exactly when a needed conversion worked and every
      file the set has was moved. */
  predicate TransferOk(r: Recording, o: Oracle) {
    && (NeedsConversion(r.transcript) ==> o.conversion == Converted)
    && (r.video.Some? ==> o.moveVideo)
    && (r.transcript.Some? ==> o.moveTranscript)
    && (r.chat.Some? ==> o.moveChat)
  }

  /** The fields after a transfer, and its result in terms of the calls'
      outcomes. */
  lemma TransferShape(s: State, dateDir: Path, o: Oracle)
    requires FilePaths(s.rec)
    ensures Transfer(s, dateDir, o).state.rec == Prepared(s.rec, o)
    ensures Transfer(s, dateDir, o).value <==> TransferOk(s.rec, o)
  {
    var p := Prepare(s, o);
    MoveAllSpec(p.state, dateDir, FilesToMove(p.state.rec), o);
    MovesAllowed(Prepared(s.rec, o), o);
  }

  /** The result of a transfer is true exactly when no move failed and no
      needed conversion failed; the `.mp4` rename and the unlink of the
      `.gdoc` do not enter into it. */
  lemma TransferResult(s: State, dateDir: Path, o: Oracle, renameVideo: bool, unlinkGdoc: bool)
    requires FilePaths(s.rec)
    ensures Transfer(s, dateDir, o).value <==> TransferOk(s.rec, o)
    ensures Transfer(s, dateDir, o).value == Transfer(s, dateDir, o.(renameVideo := renameVideo, unlinkGdoc := unlinkGdoc)).value
  {
    TransferShape(s, dateDir, o);
    TransferShape(s, dateDir, o.(renameVideo := renameVideo, unlinkGdoc := unlinkGdoc));
  }

  /** The video is the first file moved: under its old name when the rename
      failed (or was not needed), under its `.mp4` name when it worked. */
  lemma VideoMovedFirst(r: Recording, dateDir: Path, o: Oracle)
    requires FilePaths(r) && r.video.Some?
    ensures var v := r.video.value; var m := MoveCalls(dateDir, FilesToMove(Prepared(r, o)), o);
      && |m| > 0
      && (!o.renameVideo || HasSuffix(v, VideoSuffix) ==> m[0] == Move(v, Target(dateDir, v), o.moveVideo))
      && (o.renameVideo && !HasSuffix(v, VideoSuffix) ==>
            m[0] == Move(WithSuffix(v, VideoSuffix), Target(dateDir, WithSuffix(v, VideoSuffix)), o.moveVideo))
  {
    var items := FilesToMove(Prepared(r, o));
    assert items[0] == Item(Video, Prepared(r, o).video.value);
  }

  /** The unlink of the original stub, when a transfer makes it. */
  function UnlinkCalls(t: Option<Path>, success: bool, o: Oracle): seq<Op> {
    if success && NeedsConversion(t) then [Unlink(t.value, o.unlinkGdoc)] else []
  }

  /** The calls of a transfer: the rename, the converter's file, the moves
      of the prepared set's files, then the unlink of the `.gdoc`, made only
      when the transfer succeeded. */
  function TransferOps(r: Recording, dateDir: Path, o: Oracle, success: bool): seq<Op>
    requires FilePaths(r)
  {
    RenameCalls(r.video, o.renameVideo) + CreateCalls(r.transcript, o.conversion)
    + MoveCalls(dateDir, FilesToMove(Prepared(r, o)), o) + UnlinkCalls(r.transcript, success, o)
  }

  /** Every call of a transfer, in order. */
  lemma TransferLog(s: State, dateDir: Path, o: Oracle)
    requires FilePaths(s.rec)
    ensures var t := Transfer(s, dateDir, o);
      t.state.ops == s.ops + TransferOps(s.rec, dateDir, o, t.value)
  {
    var t := Transfer(s, dateDir, o);
    var p := Prepare(s, o);
    var moved := MoveAll(p.state, dateDir, FilesToMove(p.state.rec), o);
    MoveAllSpec(p.state, dateDir, FilesToMove(p.state.rec), o);
    var a := RenameCalls(s.rec.video, o.renameVideo);
    var b := CreateCalls(s.rec.transcript, o.conversion);
    var m := MoveCalls(dateDir, FilesToMove(Prepared(s.rec, o)), o);
    var u := UnlinkCalls(s.rec.transcript, t.value, o);
    if !(t.value && NeedsConversion(s.rec.transcript)) {
      assert moved.state.ops + [] == moved.state.ops;
    }
    assert t.state.ops == s.ops + a + b + m + u;
    Regroup(s.ops, a, b, m, u);
  }

  lemma Regroup<T>(x: seq<T>, a: seq<T>, b: seq<T>, m: seq<T>, u: seq<T>)
    ensures x + a + b + m + u == x + (a + b + m + u)
  {
  }

  /** `move_to` raises exactly when a directory it had to create could not
      be created; otherwise it returns the transfer's result. */
  lemma MoveToResult(s: State, dest: Path, o: Oracle)
    requires FilePaths(s.rec)
    ensures var dateDir := DateDir(dest, s.rec.date);
      MoveToRun(s, dest, o).value
      == if (dest in s.paths || o.mkdirDest) && (dateDir in s.paths || o.mkdirDate)
         then Finished(TransferOk(s.rec, o)) else DirectoryError
  {
    DateDirNotInLineage(dest, s.rec.date);
    var d := EnsureDir(s, dest, o.mkdirDest);
    if d.value {
      TransferShape(EnsureDir(d.state, DateDir(dest, s.rec.date), o.mkdirDate).state, DateDir(dest, s.rec.date), o);
    }
  }

  /** Every call of `move_to`, in order: the mkdir of the destination if it
      was missing, that of the dated directory if it was missing and the
      destination exists by then, and the transfer's calls if no mkdir
      failed. */
  lemma MoveToLog(s: State, dest: Path, o: Oracle)
    requires FilePaths(s.rec)
    ensures var r := MoveToRun(s, dest, o); var dateDir := DateDir(dest, s.rec.date);
      r.state.ops == s.ops + MkdirCalls(s.paths, dest, o.mkdirDest)
        + (if dest in s.paths || o.mkdirDest then MkdirCalls(s.paths, dateDir, o.mkdirDate) else [])
        + (if r.value.Finished? then TransferOps(s.rec, dateDir, o, r.value.success) else [])
  {
    DateDirNotInLineage(dest, s.rec.date);
    var dateDir := DateDir(dest, s.rec.date);
    var d := EnsureDir(s, dest, o.mkdirDest);
    var x := MkdirCalls(s.paths, dest, o.mkdirDest);
    if d.value {
      var e := EnsureDir(d.state, dateDir, o.mkdirDate);
      assert MkdirCalls(d.state.paths, dateDir, o.mkdirDate) == MkdirCalls(s.paths, dateDir, o.mkdirDate);
      if e.value {
        TransferLog(e.state, dateDir, o);
      } else {
        assert e.state.ops + [] == e.state.ops;
      }
    } else {
      assert s.ops + x + [] + [] == s.ops + x;
    }
  }

  /** Every file the set names exists. */
  predicate Present(r: Recording, paths: set<Path>) {
    && (r.video.Some? ==> r.video.value in paths)
    && (r.transcript.Some? ==> r.transcript.value in paths)
    && (r.chat.Some? ==> r.chat.value in paths)
  }

  /** The set's files have distinct names and none is in the dated
      directory. */
  predicate Apart(r: Recording, dateDir: Path) {
    Separate(dateDir, FilesToMove(r))
  }

  lemma ApartFiles(r: Recording, dateDir: Path)
    requires Apart(r, dateDir)
    ensures r.video.Some? && r.transcript.Some? ==> r.video.value != r.transcript.value
    ensures r.video.Some? && r.chat.Some? ==> r.video.value != r.chat.value
    ensures r.transcript.Some? ==> Outside(r.transcript.value, dateDir)
  {
    var items := FilesToMove(r);
    var v := if r.video.Some? then 1 else 0;
    var t := v + if r.transcript.Some? then 1 else 0;
    if r.video.Some? {
      assert items[0].path == r.video.value;
    }
    if r.transcript.Some? {
      assert items[v].path == r.transcript.value;
    }
    if r.chat.Some? {
      assert items[t].path == r.chat.value;
    }
  }

  lemma PresentItems(r: Recording, paths: set<Path>)
    requires Present(r, paths)
    ensures forall k :: 0 <= k < |FilesToMove(r)| ==> FilesToMove(r)[k].path in paths
  {
    FilesToMoveSpec(r);
  }

  /** Preparation keeps every file of the set on disk, under the new name
      where it got one, as long as the video is not also another role's
      file. */
  lemma PreparedPresent(s: State, o: Oracle)
    requires FilePaths(s.rec) && Present(s.rec, s.paths)
    requires s.rec.video.Some? ==> s.rec.transcript != s.rec.video && s.rec.chat != s.rec.video
    ensures Present(Prepared(s.rec, o), Prepare(s, o).state.paths)
  {
  }

  /** Where the files the set moves end up: each file whose move worked is
      in the dated directory and gone from where it was, and each file whose
      move failed is still where it was. */
  predicate Landed(paths: set<Path>, dateDir: Path, items: seq<Item>, o: Oracle) {
    forall k :: 0 <= k < |items| ==>
      if o.Allows(items[k].role) then Target(dateDir, items[k].path) in paths && items[k].path !in paths
      else items[k].path in paths
  }

  /** Removing a path outside the dated directory after every move worked
      (the unlink of the stub) keeps the moved files where they landed. */
  lemma LandedMinus(paths: set<Path>, dateDir: Path, items: seq<Item>, o: Oracle, x: Path)
    requires Landed(paths, dateDir, items, o) && Outside(x, dateDir)
    requires forall k :: 0 <= k < |items| ==> o.Allows(items[k].role)
    ensures Landed(paths - {x}, dateDir, items, o)
  {
  }

  /** A transfer ends with the paths the moves left, less the stub when the
      transfer succeeded and its unlink worked. */
  lemma TransferEnd(s: State, dateDir: Path, o: Oracle)
    requires FilePaths(s.rec)
    ensures var p := Prepare(s, o); var moved := MoveAll(p.state, dateDir, FilesToMove(p.state.rec), o);
      var r := Transfer(s, dateDir, o).state.paths;
      || r == moved.state.paths
      || (moved.value && NeedsConversion(s.rec.transcript) && r == moved.state.paths - {s.rec.transcript.value})
  {
  }

  /** Where a transfer leaves the set's files, when they have distinct
      names and none is in the dated directory: a failed video move, say,
      leaves the video where it was while the chat still moves. */
  lemma TransferPaths(s: State, dateDir: Path, o: Oracle)
    requires FilePaths(s.rec) && Present(s.rec, s.paths)
    requires Apart(s.rec, dateDir) && Apart(Prepared(s.rec, o), dateDir)
    ensures Landed(Transfer(s, dateDir, o).state.paths, dateDir, FilesToMove(Prepared(s.rec, o)), o)
  {
    ApartFiles(s.rec, dateDir);
    PreparedPresent(s, o);
    var p := Prepare(s, o);
    var items := FilesToMove(p.state.rec);
    PresentItems(p.state.rec, p.state.paths);
    MoveAllPaths(p.state, dateDir, items, o);
    MoveAllSpec(p.state, dateDir, items, o);
    var moved := MoveAll(p.state, dateDir, items, o);
    assert Landed(moved.state.paths, dateDir, items, o);
    TransferEnd(s, dateDir, o);
    if moved.value && NeedsConversion(s.rec.transcript) {
      LandedMinus(moved.state.paths, dateDir, items, o, s.rec.transcript.value);
    }
  }

  /** Where `move_to` leaves the set's files once both directories exist,
      under the same conditions as `TransferPaths`. */
  lemma MoveToPaths(s: State, dest: Path, o: Oracle)
    requires FilePaths(s.rec) && Present(s.rec, s.paths)
    requires Apart(s.rec, DateDir(dest, s.rec.date)) && Apart(Prepared(s.rec, o), DateDir(dest, s.rec.date))
    ensures var r := MoveToRun(s, dest, o);
      r.value.Finished? ==> Landed(r.state.paths, DateDir(dest, s.rec.date), FilesToMove(Prepared(s.rec, o)), o)
  {
    var dateDir := DateDir(dest, s.rec.date);
    var d := EnsureDir(s, dest, o.mkdirDest);
    if d.value {
      var e := EnsureDir(d.state, dateDir, o.mkdirDate);
      if e.value {
        assert e.state.rec == s.rec && s.paths <= e.state.paths;
        TransferPaths(e.state, dateDir, o);
      }
    }
  }

  /** After a fully successful `move_to` that converted the transcript, the
      original `.gdoc` is gone when its unlink worked. */
  lemma MoveToRemovesStub(s: State, dest: Path, o: Oracle)
    requires FilePaths(s.rec)
    ensures var r := MoveToRun(s, dest, o);
      (r.value == Finished(true) && NeedsConversion(s.rec.transcript) && o.unlinkGdoc)
      ==> s.rec.transcript.value !in r.state.paths
  {
  }

  // ---------------------------------------------------------------------------
  // The converter and the class

  /** `GdocConverter.convert_to_docx` with its default output path: the
      `.docx` sibling of the stub, created once the output is opened (before
      the download) and returned only if the download finished. */
  method ConvertToDocx(fs: FileSystem, gdoc: Path, c: Conversion) returns (docx: Option<Path>)
    requires IsFile(gdoc)
    modifies fs
    ensures docx == if c == Converted then Some(WithSuffix(gdoc, DocxSuffix)) else None
    ensures c == FailedBeforeWrite ==> fs.paths == old(fs.paths) && fs.log == old(fs.log)
    ensures c != FailedBeforeWrite ==> (fs.paths == old(fs.paths) + {WithSuffix(gdoc, DocxSuffix)}
      && fs.log == old(fs.log) + [Create(WithSuffix(gdoc, DocxSuffix))])
  {
    var outputPath := WithSuffix(gdoc, DocxSuffix);
    if c == FailedBeforeWrite {
      return None;
    }
    fs.Create(outputPath);
    if c == FailedAfterWrite {
      return None;
    }
    return Some(outputPath);
  }

  /** The loop of `move_to` over `files_to_move`: each file is moved to the
      dated directory under its own name, a failed move is remembered and
      the next one is still tried. */
  method MoveFiles(fs: FileSystem, dateDir: Path, items: seq<Item>, o: Oracle, ghost rec: Recording)
    returns (allMoved: bool)
    modifies fs
    ensures var m := MoveAll(State(rec, old(fs.paths), old(fs.log)), dateDir, items, o);
      allMoved == m.value && fs.paths == m.state.paths && fs.log == m.state.ops
  {
    ghost var s := State(rec, fs.paths, fs.log);
    allMoved := true;
    var i := 0;
    while i < |items|
      invariant 0 <= i <= |items|
      invariant var m := MoveAll(s, dateDir, items[..i], o);
        allMoved == m.value && fs.paths == m.state.paths && fs.log == m.state.ops
    {
      var item := items[i];
      var targetPath := Child(dateDir, Name(item.path));
      assert items[..i + 1][..i] == items[..i];
      var ok := fs.Move(item.path, targetPath, o.Allows(item.role));
      if !ok {
        allMoved := false;
      }
      i := i + 1;
    }
    assert items[..|items|] == items;
  }

  class RecordingSet {
    var prefix: string
    var videoPath: Option<Path>
    var transcriptPath: Option<Path>
    var chatPath: Option<Path>
    var date: Option<DateTime>

    function View(): Recording
      reads this
    {
      Recording(prefix, videoPath, transcriptPath, chatPath, date)
    }

    predicate Valid()
      reads this
    {
      FilePaths(View())
    }

    ghost function Snapshot(fs: FileSystem): State
      reads this, fs
    {
      State(View(), fs.paths, fs.log)
    }

    /** `RecordingSet(prefix, video_path, transcript_path, chat_path, date)`. */
    constructor (prefix: string, videoPath: Option<Path>, transcriptPath: Option<Path>,
                 chatPath: Option<Path>, date: Option<DateTime>)
      requires FilePaths(Recording(prefix, videoPath, transcriptPath, chatPath, date))
      ensures Valid()
      ensures View() == NewRecording(prefix, videoPath, transcriptPath, chatPath, date)
    {
      this.prefix := prefix;
      this.videoPath := videoPath;
      this.transcriptPath := transcriptPath;
      this.chatPath := chatPath;
      this.date := date;
      new;
      if date.None? {
        ExtractDateFromPrefix();
      }
    }

    /** `extract_date_from_prefix`: a match of the pattern sets the date (to
        none when the fields are not a calendar minute); no match leaves it. */
    method ExtractDateFromPrefix()
      modifies this
      ensures View() == old(View()).(date := if Search(prefix, 0).Some? then ExtractDate(prefix) else old(date))
    {
      var found := Search(prefix, 0);
      if found.Some? {
        var d := found.value;
        if IsValid(d) {
          date := Some(d);
        } else {
          date := None;
        }
      }
    }

    /** `is_complete`. */
    function IsComplete(): (r: bool)
      reads this
      ensures r <==> View().IsComplete()
    {
      videoPath.Some?
    }

    /** `ensure_video_extension`. */
    method EnsureVideoExtension(fs: FileSystem, allow: bool) returns (r: Option<Path>)
      requires Valid()
      modifies this, fs
      ensures Valid()
      ensures var step := EnsureExtension(old(Snapshot(fs)), allow); r == step.value && Snapshot(fs) == step.state
    {
      if videoPath.None? {
        return None;
      }
      var video := videoPath.value;
      if Lower(Suffix(Name(video))) == VideoSuffix {
        return videoPath;
      }
      var newPath := WithSuffix(video, VideoSuffix);
      WithSuffixIsFile(video, VideoSuffix);
      var ok := fs.Rename(video, newPath, allow);
      if ok {
        videoPath := Some(newPath);
        return Some(newPath);
      }
      return videoPath;
    }

    /** `convert_transcript_to_docx`. */
    method ConvertTranscriptToDocx(fs: FileSystem, c: Conversion) returns (r: Option<Path>)
      requires Valid()
      modifies this, fs
      ensures Valid()
      ensures var step := ConvertTranscript(old(Snapshot(fs)), c); r == step.value && Snapshot(fs) == step.state
    {
      if transcriptPath.None? || Lower(Suffix(Name(transcriptPath.value))) != GdocSuffix {
        return None;
      }
      ghost var s0 := Snapshot(fs);
      var gdoc := transcriptPath.value;
      var docxPath := ConvertToDocx(fs, gdoc, c);
      ghost var docx := WithSuffix(gdoc, DocxSuffix);
      ghost var written := if c == FailedBeforeWrite then s0 else WithOp(s0, s0.paths + {docx}, Create(docx));
      assert Snapshot(fs) == written;
      if docxPath.Some? && fs.Exists(docxPath.value) {
        WithSuffixIsFile(gdoc, DocxSuffix);
        transcriptPath := docxPath;
        assert Snapshot(fs) == written.(rec := s0.rec.(transcript := docxPath));
        return docxPath;
      }
      return None;
    }

    /** The part of `move_to` before the moves: the video's suffix, then the
        conversion of a `.gdoc` transcript. Also gives back the stub that is
        to be removed later. */
    method PrepareFiles(fs: FileSystem, o: Oracle) returns (success: bool, originalGdocPath: Option<Path>)
      requires Valid()
      modifies this, fs
      ensures Valid()
      ensures var p := Prepare(old(Snapshot(fs)), o); success == p.value && Snapshot(fs) == p.state
      ensures originalGdocPath == if NeedsConversion(old(transcriptPath)) then old(transcriptPath) else None
    {
      success := true;
      if videoPath.Some? {
        var _ := EnsureVideoExtension(fs, o.renameVideo);
      }
      originalGdocPath := None;
      if transcriptPath.Some? && Lower(Suffix(Name(transcriptPath.value))) == GdocSuffix {
        originalGdocPath := transcriptPath;
        var docxPath := ConvertTranscriptToDocx(fs, o.conversion);
        if docxPath.None? {
          success := false;
        }
      }
    }

    /** The part of `move_to` after both directories exist: the preparation,
        the moves and the removal of the stub. */
    method TransferTo(fs: FileSystem, dateDir: Path, o: Oracle) returns (success: bool)
      requires Valid()
      modifies this, fs
      ensures var t := Transfer(old(Snapshot(fs)), dateDir, o); success == t.value && Snapshot(fs) == t.state
    {
      var originalGdocPath;
      success, originalGdocPath := PrepareFiles(fs, o);
      var filesToMove := FilesToMove(View());
      MoveAllSpec(Snapshot(fs), dateDir, filesToMove, o);
      var moved := MoveFiles(fs, dateDir, filesToMove, o, View());
      if !moved {
        success := false;
      }
      if originalGdocPath.Some? && success {
        var _ := fs.Unlink(originalGdocPath.value, o.unlinkGdoc);
      }
    }

    /** `move_to(destination)`. */
    method MoveTo(fs: FileSystem, destination: Path, o: Oracle) returns (outcome: Outcome)
      requires Valid()
      modifies this, fs
      ensures Valid()
      ensures var run := MoveToRun(old(Snapshot(fs)), destination, o); outcome == run.value && Snapshot(fs) == run.state
    {
      ghost var s0 := Snapshot(fs);
      if !fs.Exists(destination) {
        var ok := fs.Mkdir(destination, o.mkdirDest);
        if !ok {
          return DirectoryError;
        }
      }
      ghost var s1 := Snapshot(fs);
      assert s1 == EnsureDir(s0, destination, o.mkdirDest).state;
      var dateStr := DateDirName(date);
      var dateDir := Child(destination, dateStr);
      if !fs.Exists(dateDir) {
        var ok := fs.Mkdir(dateDir, o.mkdirDate);
        if !ok {
          return DirectoryError;
        }
      }
      ghost var s2 := Snapshot(fs);
      assert s2 == EnsureDir(s1, dateDir, o.mkdirDate).state;
      var success := TransferTo(fs, dateDir, o);
      TransferShape(s2, dateDir, o);
      return Finished(success);
    }
  }
}
