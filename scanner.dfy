/**
 * `RecordingScanner`: groups a directory listing into recording sets and
 * lists them newest first.
 */
module Scanner {
  import opened Wrappers
  import opened Text
  import opened Dates
  import opened Recordings

  /** Python's `if prefix:` on the result of `_extract_prefix`. */
  predicate Usable(p: Option<string>) {
    p.Some? && p.value != ""
  }

  /** The usable keys of `xs`, collected into a set. */
  function KeysOf<T>(xs: seq<T>, key: T -> Option<string>): set<string>
    decreases |xs|
  {
    if |xs| == 0 then {}
    else
      var p := key(xs[|xs| - 1]);
      KeysOf(xs[..|xs| - 1], key) + (if Usable(p) then {p.value} else {})
  }

  /** Each collected key is the key of some element, and every element with
      a usable key contributes it. */
  lemma {:induction false} KeysOfSpec<T>(xs: seq<T>, key: T -> Option<string>)
    ensures forall k :: (0 <= k < |xs| && Usable(key(xs[k])) ==> key(xs[k]).value in KeysOf(xs, key))
    ensures forall p :: p in KeysOf(xs, key) ==> (p != "" && exists k :: 0 <= k < |xs| && key(xs[k]) == Some(p))
    decreases |xs|
  {
    if |xs| > 0 {
      var init := xs[..|xs| - 1];
      KeysOfSpec(init, key);
      forall p | p in KeysOf(xs, key)
        ensures p != "" && exists k :: 0 <= k < |xs| && key(xs[k]) == Some(p)
      {
        if p in KeysOf(init, key) {
          var k :| 0 <= k < |init| && key(init[k]) == Some(p);
          assert xs[k] == init[k];
        }
      }
      forall k | 0 <= k < |xs| && Usable(key(xs[k]))
        ensures key(xs[k]).value in KeysOf(xs, key)
      {
        if k < |init| {
          assert xs[k] == init[k];
        }
      }
    }
  }

  function PrefixOfFile(f: Path): Option<string> {
    ExtractPrefix(Name(f))
  }

  /** The prefixes the first loop of `_group_files_into_sets` collects. */
  function PrefixesOf(files: seq<Path>): set<string> {
    KeysOf(files, PrefixOfFile)
  }

  /** A prefix is collected exactly when some file of the listing yields it
      and it is not empty. */
  lemma PrefixesOfSpec(files: seq<Path>, p: string)
    ensures p in PrefixesOf(files) <==> (p != "" && exists k :: 0 <= k < |files| && ExtractPrefix(Name(files[k])) == Some(p))
  {
    KeysOfSpec(files, PrefixOfFile);
    if p != "" && exists k :: 0 <= k < |files| && ExtractPrefix(Name(files[k])) == Some(p) {
      var k :| 0 <= k < |files| && ExtractPrefix(Name(files[k])) == Some(p);
      assert PrefixOfFile(files[k]) == Some(p);
    }
  }

  /** The sets `_group_files_into_sets` keeps: one per prefix, if it has a video. */
  function Groups(files: seq<Path>): set<Recording> {
    set p | p in PrefixesOf(files) && GroupFor(p, files).IsComplete() :: GroupFor(p, files)
  }

  // ---------------------------------------------------------------------------
  // Sorting

  predicate Sorted(s: seq<Recording>) {
    forall i, j :: 0 <= i < j < |s| ==> SortsBefore(s[i], s[j])
  }

  predicate DistinctPrefixes(s: seq<Recording>) {
    forall i, j :: 0 <= i < j < |s| ==> s[i].prefix != s[j].prefix
  }

  function Insert(x: Recording, s: seq<Recording>): (r: seq<Recording>)
    ensures multiset(r) == multiset(s) + multiset{x}
  {
    if s == [] then [x]
    else if SortsBefore(x, s[0]) then [x] + s
    else
      assert s == [s[0]] + s[1..];
      [s[0]] + Insert(x, s[1..])
  }

  /** The scan's `list.sort`, as an insertion sort on the sort key. */
  function Sort(xs: seq<Recording>): (r: seq<Recording>)
    ensures multiset(r) == multiset(xs)
  {
    if xs == [] then []
    else
      assert xs == [xs[0]] + xs[1..];
      Insert(xs[0], Sort(xs[1..]))
  }

  lemma {:induction false} InsertSorted(x: Recording, s: seq<Recording>)
    requires Sorted(s)
    requires forall k :: 0 <= k < |s| ==> s[k].prefix != x.prefix
    ensures Sorted(Insert(x, s))
    decreases |s|
  {
    if s != [] {
      if SortsBefore(x, s[0]) {
        forall j | 0 < j < |s| + 1
          ensures SortsBefore(x, ([x] + s)[j])
        {
          if j > 1 {
            SortsBeforeStrict(x, s[0], s[j - 1]);
          }
        }
      } else {
        SortsBeforeTotal(x, s[0]);
        InsertSorted(x, s[1..]);
        var t := Insert(x, s[1..]);
        forall j | 0 <= j < |t|
          ensures SortsBefore(s[0], t[j])
        {
          assert t[j] in multiset(t);
          if t[j] != x {
            assert t[j] in multiset(s[1..]);
            var m :| 0 <= m < |s[1..]| && s[1..][m] == t[j];
            assert s[m + 1] == t[j];
          }
        }
      }
    }
  }

  lemma {:induction false} SortSorted(xs: seq<Recording>)
    requires DistinctPrefixes(xs)
    ensures Sorted(Sort(xs))
    decreases |xs|
  {
    if xs != [] {
      var rest := xs[1..];
      assert DistinctPrefixes(rest) by {
        forall i, j | 0 <= i < j < |rest|
          ensures rest[i].prefix != rest[j].prefix
        {
          assert rest[i] == xs[i + 1] && rest[j] == xs[j + 1];
        }
      }
      SortSorted(rest);
      var s := Sort(rest);
      forall k | 0 <= k < |s|
        ensures s[k].prefix != xs[0].prefix
      {
        assert s[k] in multiset(rest);
        var m :| 0 <= m < |rest| && rest[m] == s[k];
        assert xs[m + 1] == s[k];
      }
      InsertSorted(xs[0], s);
    }
  }

  /** A sorted list is determined by its elements: any two sorted lists of
      the same sets are equal, whatever order the sets were found in. */
  lemma {:induction false} SortedUnique(a: seq<Recording>, b: seq<Recording>)
    requires Sorted(a) && Sorted(b)
    requires forall x :: x in a <==> x in b
    ensures a == b
    decreases |a|
  {
    if a == [] {
      if b != [] {
        FirstIsElement(b);
      }
    } else {
      assert a[0] in b;
      SortedHeads(a, b);
      forall x
        ensures x in a[1..] <==> x in b[1..]
      {
        SortedNoRepeat(a, x);
        SortedNoRepeat(b, x);
      }
      SortedUnique(a[1..], b[1..]);
      assert a == [a[0]] + a[1..] && b == [b[0]] + b[1..];
    }
  }

  lemma FirstIsElement(s: seq<Recording>)
    requires |s| > 0
    ensures s[0] in s
  {
  }

  lemma SortedHeads(a: seq<Recording>, b: seq<Recording>)
    requires Sorted(a) && Sorted(b) && |a| > 0 && |b| > 0
    requires forall x :: x in a <==> x in b
    ensures a[0] == b[0]
  {
    if a[0] != b[0] {
      assert a[0] in b && b[0] in a;
      var i :| 0 <= i < |a| && a[i] == b[0];
      var j :| 0 <= j < |b| && b[j] == a[0];
      assert SortsBefore(a[0], a[i]) && SortsBefore(b[0], b[j]);
      SortsBeforeStrict(a[0], b[0], a[0]);
      assert false;
    }
  }

  lemma SortedNoRepeat(s: seq<Recording>, x: Recording)
    requires Sorted(s) && |s| > 0
    ensures x in s[1..] <==> x in s && x != s[0]
  {
    SortsBeforeStrict(s[0], s[0], s[0]);
    assert forall m :: 0 < m < |s| ==> SortsBefore(s[0], s[m]);
    assert s == [s[0]] + s[1..];
  }

  // ---------------------------------------------------------------------------
  // The scan

  /** What `scan` returns for an existing directory: the kept sets, sorted. */
  ghost predicate IsScanOf(files: seq<Path>, r: seq<Recording>) {
    Sorted(r) && forall x :: x in r <==> x in Groups(files)
  }

  predicate Distinct(s: seq<string>) {
    forall a, b :: 0 <= a < b < |s| ==> s[a] != s[b]
  }

  /** The dictionary the outer loop has built after visiting the prefixes
      `done`, in that order. */
  function Built(done: seq<string>, files: seq<Path>): map<string, Recording>
    decreases |done|
  {
    if done == [] then map[]
    else
      var p := done[|done| - 1];
      var m := Built(done[..|done| - 1], files);
      if GroupFor(p, files).IsComplete() then m[p := GroupFor(p, files)] else m
  }

  /** The keys of `Built(done, files)` in insertion order. */
  function BuiltKeys(done: seq<string>, files: seq<Path>): seq<string>
    decreases |done|
  {
    if done == [] then []
    else
      var p := done[|done| - 1];
      var ks := BuiltKeys(done[..|done| - 1], files);
      if GroupFor(p, files).IsComplete() then ks + [p] else ks
  }

  /** After visiting distinct prefixes, the dictionary holds exactly those
      with a video, each mapped to its group, and its key order repeats none. */
  lemma {:induction false} BuiltSpec(done: seq<string>, files: seq<Path>)
    requires Distinct(done)
    ensures Distinct(BuiltKeys(done, files))
    ensures forall p :: p in BuiltKeys(done, files) <==> p in done && GroupFor(p, files).IsComplete()
    ensures forall p :: p in Built(done, files) <==> p in BuiltKeys(done, files)
    ensures forall p :: p in Built(done, files) ==> Built(done, files)[p] == GroupFor(p, files)
    decreases |done|
  {
    if done != [] {
      var init := done[..|done| - 1];
      var p := done[|done| - 1];
      assert Distinct(init);
      assert p !in init;
      BuiltSpec(init, files);
    }
  }

  /** Once every collected prefix has been visited, the dictionary's values
      in key order are exactly the kept groups, one per prefix. */
  lemma ValuesAreGroups(done: seq<string>, files: seq<Path>, sets: seq<Recording>)
    requires Distinct(done)
    requires forall p :: p in done <==> p in PrefixesOf(files)
    requires |sets| == |BuiltKeys(done, files)|
    requires forall k :: 0 <= k < |sets| ==> (BuiltKeys(done, files)[k] in Built(done, files)
      && sets[k] == Built(done, files)[BuiltKeys(done, files)[k]])
    ensures forall x :: x in sets <==> x in Groups(files)
    ensures DistinctPrefixes(sets)
  {
    BuiltSpec(done, files);
    var ks := BuiltKeys(done, files);
    forall x | x in Groups(files)
      ensures x in sets
    {
      var p :| p in PrefixesOf(files) && GroupFor(p, files).IsComplete() && x == GroupFor(p, files);
      var k :| 0 <= k < |ks| && ks[k] == p;
      assert sets[k] == x;
    }
    forall k | 0 <= k < |sets|
      ensures sets[k] == GroupFor(ks[k], files) && sets[k].prefix == ks[k]
    {
    }
  }

  /** The first loop of `_group_files_into_sets`: the set of usable prefixes. */
  method CollectPrefixes(files: seq<Path>) returns (prefixes: set<string>)
    ensures prefixes == PrefixesOf(files)
  {
    prefixes := {};
    var i := 0;
    while i < |files|
      invariant 0 <= i <= |files|
      invariant prefixes == PrefixesOf(files[..i])
    {
      assert files[..i + 1][..i] == files[..i];
      var prefix := ExtractPrefix(Name(files[i]));
      if prefix.Some? && prefix.value != "" {
        prefixes := prefixes + {prefix.value};
      }
      i := i + 1;
    }
    assert files[..|files|] == files;
  }

  /** The inner loop of `_group_files_into_sets`: one pass over the listing
      for one prefix, where a later file of a role overwrites an earlier one. */
  method FilesFor(prefix: string, files: seq<Path>)
    returns (videoPath: Option<Path>, transcriptPath: Option<Path>, chatPath: Option<Path>)
    ensures videoPath == Pick(prefix, files, Video)
    ensures transcriptPath == Pick(prefix, files, Transcript)
    ensures chatPath == Pick(prefix, files, Chat)
  {
    videoPath, transcriptPath, chatPath := None, None, None;
    var j := 0;
    while j < |files|
      invariant 0 <= j <= |files|
      invariant videoPath == Pick(prefix, files[..j], Video)
      invariant transcriptPath == Pick(prefix, files[..j], Transcript)
      invariant chatPath == Pick(prefix, files[..j], Chat)
    {
      var filePath := files[j];
      var name := Name(filePath);
      assert files[..j + 1] == files[..j] + [filePath];
      PickStep(prefix, files[..j], filePath, Video);
      PickStep(prefix, files[..j], filePath, Transcript);
      PickStep(prefix, files[..j], filePath, Chat);
      if Contains(name, prefix) {
        var ext := Lower(Suffix(name));
        if ext == VideoSuffix || Contains(name, RecordingToken) {
          videoPath := Some(filePath);
        } else if ext == GdocSuffix || Contains(name, MemoToken) {
          transcriptPath := Some(filePath);
        } else if (ext == ChatSuffix && Contains(Lower(name), ChatWord)) || Contains(name, ChatToken) {
          chatPath := Some(filePath);
        }
      }
      j := j + 1;
    }
    assert files[..|files|] == files;
  }

  /** `_group_files_into_sets`. Iterating over the Python set `prefixes`
      visits its elements in an order the model leaves open. */
  method GroupFilesIntoSets(files: seq<Path>) returns (sets: seq<Recording>)
    ensures forall x :: x in sets <==> x in Groups(files)
    ensures DistinctPrefixes(sets)
  {
    var prefixes := CollectPrefixes(files);

    // `recording_map`, with its keys in insertion order.
    var recordingMap: map<string, Recording> := map[];
    var keys: seq<string> := [];
    var remaining := prefixes;
    ghost var done: seq<string> := [];
    while remaining != {}
      invariant remaining <= prefixes
      invariant forall p :: p in done <==> p in prefixes && p !in remaining
      invariant Distinct(done)
      invariant recordingMap == Built(done, files)
      invariant keys == BuiltKeys(done, files)
      decreases |remaining|
    {
      var prefix :| prefix in remaining;
      var videoPath, transcriptPath, chatPath := FilesFor(prefix, files);
      var recordingSet := NewRecording(prefix, videoPath, transcriptPath, chatPath, None);
      if recordingSet.IsComplete() {
        keys := keys + [prefix];
        recordingMap := recordingMap[prefix := recordingSet];
      }
      assert (done + [prefix])[..|done|] == done;
      done := done + [prefix];
      remaining := remaining - {prefix};
    }
    BuiltSpec(done, files);
    sets := seq(|keys|, k requires 0 <= k < |keys| => recordingMap[keys[k]]);
    ValuesAreGroups(done, files, sets);
  }

  /** `RecordingScanner.scan`: nothing when the source directory is missing;
      otherwise the kept sets sorted newest first, then by prefix. */
  method Scan(sourceExists: bool, files: seq<Path>) returns (r: seq<Recording>)
    ensures !sourceExists ==> r == []
    ensures sourceExists ==> IsScanOf(files, r)
  {
    if !sourceExists {
      return [];
    }
    var recordingSets := GroupFilesIntoSets(files);
    r := Sort(recordingSets);
    SortSorted(recordingSets);
    forall x
      ensures x in r <==> x in recordingSets
    {
      assert x in r <==> x in multiset(r);
      assert x in recordingSets <==> x in multiset(recordingSets);
    }
  }

  /** Scanning an unchanged directory twice gives the same list. */
  lemma ScanDeterministic(files: seq<Path>, r1: seq<Recording>, r2: seq<Recording>)
    requires IsScanOf(files, r1) && IsScanOf(files, r2)
    ensures r1 == r2
  {
    SortedUnique(r1, r2);
  }

  /** Every listed set has a video and is the group of its own prefix; no
      two share a prefix; dates descend and undated sets come last; equal
      dates are in ascending prefix order. */
  lemma ScanOutput(files: seq<Path>, r: seq<Recording>)
    requires IsScanOf(files, r)
    ensures forall k :: 0 <= k < |r| ==> (r[k].IsComplete() && r[k].prefix in PrefixesOf(files)
      && r[k] == GroupFor(r[k].prefix, files))
    ensures DistinctPrefixes(r)
    ensures forall i, j :: 0 <= i < j < |r| && r[i].date.None? ==> r[j].date.None?
    ensures forall i, j :: (0 <= i < j < |r| && r[i].date.Some? && r[j].date.Some?
      ==> !Earlier(r[i].date.value, r[j].date.value))
    ensures forall i, j :: 0 <= i < j < |r| && r[i].date == r[j].date ==> StrLess(r[i].prefix, r[j].prefix)
  {
    forall k | 0 <= k < |r|
      ensures r[k].IsComplete() && r[k].prefix in PrefixesOf(files) && r[k] == GroupFor(r[k].prefix, files)
    {
      assert r[k] in Groups(files);
    }
    forall i, j | 0 <= i < j < |r|
      ensures r[i].prefix != r[j].prefix
    {
      assert r[i] in Groups(files) && r[j] in Groups(files);
      SortsBeforeStrict(r[i], r[j], r[i]);
    }
    forall i, j | 0 <= i < j < |r|
      ensures r[i].date.Some? && r[j].date.Some? ==> !Earlier(r[i].date.value, r[j].date.value)
      ensures r[i].date == r[j].date ==> StrLess(r[i].prefix, r[j].prefix)
    {
      assert SortsBefore(r[i], r[j]);
      if r[i].date.Some? && r[j].date.Some? {
        EarlierAsymmetric(r[i].date.value, r[j].date.value);
      }
    }
  }

  lemma EarlierAsymmetric(d: DateTime, e: DateTime)
    ensures Earlier(d, e) ==> !Earlier(e, d) && d != e
  {
  }
}
