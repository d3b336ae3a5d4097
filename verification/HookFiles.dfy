/**
 js/src/hook.js: the names git prints apart by zero bytes (`splitNul`), which place under the folder of
 the copy a path stands for (`target`), and what is checked and what is said not to have been read (`gather`).
 */
module HookFiles {
  import opened Common
  import opened BlobMachine
  import opened BlobFraming
  import BlobReader

  // ---- splitNul --------------------------------------------------------------------------------------

  /** The pieces of `s` between the bytes `cuts` says: always one at least. */
  function Pieces(s: Bytes, cuts: Byte -> bool): (parts: seq<Bytes>)
    ensures parts != []
  {
    if s == [] then [[]]
    else
      var more := Pieces(s[..|s| - 1], cuts);
      var b := s[|s| - 1];
      if cuts(b) then more + [[]] else more[..|more| - 1] + [more[|more| - 1] + [b]]
  }

  function Kept(parts: seq<Bytes>, keeps: Bytes -> bool): seq<Bytes> {
    if parts == [] then []
    else Kept(parts[..|parts| - 1], keeps) + if keeps(parts[|parts| - 1]) then [parts[|parts| - 1]] else []
  }

  lemma KeptPush(parts: seq<Bytes>, part: Bytes, keeps: Bytes -> bool)
    ensures Kept(parts + [part], keeps) == Kept(parts, keeps) + if keeps(part) then [part] else []
  {
    assert (parts + [part])[..|parts|] == parts;
  }

  predicate NoCut(s: Bytes, cuts: Byte -> bool) {
    forall b :: b in s ==> !cuts(b)
  }

  lemma PiecesPush(s: Bytes, b: Byte, cuts: Byte -> bool)
    ensures var more := Pieces(s, cuts);
            Pieces(s + [b], cuts) == if cuts(b) then more + [[]] else more[..|more| - 1] + [more[|more| - 1] + [b]]
  {
    assert (s + [b])[..|s|] == s;
  }

  /** `s[i..j]` stands between two cuts, or an end of `s`. */
  predicate Stands(s: Bytes, cuts: Byte -> bool, i: int, j: int) {
    && 0 <= i <= j <= |s| && NoCut(s[i..j], cuts)
    && (i == 0 || cuts(s[i - 1])) && (j == |s| || cuts(s[j]))
  }

  lemma {:induction false} PieceStands(s: Bytes, cuts: Byte -> bool, k: nat) returns (i: nat, j: nat)
    requires k < |Pieces(s, cuts)|
    ensures Stands(s, cuts, i, j) && s[i..j] == Pieces(s, cuts)[k] && (j == |s| <==> k == |Pieces(s, cuts)| - 1)
    decreases |s|
  {
    if s == [] {
      return 0, 0;
    }
    var init, b := s[..|s| - 1], s[|s| - 1];
    if cuts(b) && k == |Pieces(s, cuts)| - 1 {
      return |s|, |s|;
    }
    i, j := PieceStands(init, cuts, k);
    assert init[i..j] == s[i..j];
    if j == |init| && !cuts(b) {
      assert s[i..|s|] == s[i..j] + [b];
      j := |s|;
    }
  }

  lemma {:induction false} StandsIsPiece(s: Bytes, cuts: Byte -> bool, i: int, j: int) returns (k: nat)
    requires Stands(s, cuts, i, j)
    ensures k < |Pieces(s, cuts)| && Pieces(s, cuts)[k] == s[i..j] && (j == |s| <==> k == |Pieces(s, cuts)| - 1)
    decreases |s|
  {
    if s == [] {
      return 0;
    }
    var init, b := s[..|s| - 1], s[|s| - 1];
    if i == |s| {
      return |Pieces(init, cuts)|;
    }
    var j' := if j == |s| then j - 1 else j;
    assert j == |s| ==> b == s[i..j][|s| - 1 - i] && s[i..j] == init[i..j'] + [b];
    assert init[i..j'] == s[i..j'] && forall x :: x in s[i..j'] ==> x in s[i..j];
    k := StandsIsPiece(init, cuts, i, j');
  }

  /** The pieces are what stands between cuts. */
  lemma PiecesAre(s: Bytes, cuts: Byte -> bool, p: Bytes)
    ensures p in Pieces(s, cuts) <==> exists i: int, j: int :: Stands(s, cuts, i, j) && s[i..j] == p
  {
    if p in Pieces(s, cuts) {
      var k: nat :| k < |Pieces(s, cuts)| && Pieces(s, cuts)[k] == p;
      var i, j := PieceStands(s, cuts, k);
    }
    if i: int, j: int :| Stands(s, cuts, i, j) && s[i..j] == p {
      var k := StandsIsPiece(s, cuts, i, j);
    }
  }

  /** Before `k`: the parts ended, and one from `start`. */
  predicate CutUp(s: Bytes, k: nat, start: nat, done: seq<Bytes>, cuts: Byte -> bool) {
    start <= k <= |s| && Pieces(s[..k], cuts) == done + [s[start..k]]
  }

  lemma CutUpOn(s: Bytes, k: nat, start: nat, done: seq<Bytes>, cuts: Byte -> bool)
    requires k < |s| && CutUp(s, k, start, done, cuts)
    ensures cuts(s[k]) ==> CutUp(s, k + 1, k + 1, done + [s[start..k]], cuts)
    ensures !cuts(s[k]) ==> CutUp(s, k + 1, start, done, cuts)
  {
    assert s[..k + 1] == s[..k] + [s[k]];
    PiecesPush(s[..k], s[k], cuts);
    hide Pieces;
    var part := s[start..k];
    assert s[start..k + 1] == part + [s[k]] && s[k + 1..k + 1] == [];
    assert (done + [part])[..|done|] == done;
  }

  /** The loop of splitNul and of target: each part kept that ends at a cut, or at the end. */
  method SplitAtCuts(s: Bytes, cuts: Byte -> bool, keeps: Bytes -> bool) returns (out: seq<Bytes>)
    ensures out == Kept(Pieces(s, cuts), keeps)
  {
    out := [];
    var start: nat := 0;
    ghost var done: seq<Bytes> := [];
    for k := 0 to |s|
      invariant CutUp(s, k, start, done, cuts) && start <= k && out == Kept(done, keeps)
    {
      CutUpOn(s, k, start, done, cuts);
      hide CutUp, Kept;
      if cuts(s[k]) {
        KeptPush(done, s[start..k], keeps);
        out := if keeps(s[start..k]) then out + [s[start..k]] else out;
        done := done + [s[start..k]];
        start := k + 1;
      }
    }
    assert s[..|s|] == s && s[start..|s|] == s[start..];
    KeptPush(done, s[start..], keeps);
    out := if keeps(s[start..]) then out + [s[start..]] else out;
  }

  const ZERO: Byte -> bool := (b: Byte) => b == 0
  const NONEMPTY: Bytes -> bool := (p: Bytes) => p != []

  method SplitNul(s: Bytes) returns (out: seq<Bytes>)
    ensures out == Kept(Pieces(s, ZERO), NONEMPTY)
  {
    out := SplitAtCuts(s, ZERO, NONEMPTY);
  }

  function Terminated(names: seq<Bytes>): Bytes {
    if names == [] then [] else Terminated(names[..|names| - 1]) + names[|names| - 1] + [0]
  }

  predicate IsName(name: Bytes) {
    name != [] && 0 !in name
  }

  lemma NameStep(before: Bytes, open: seq<Bytes>, name: Bytes)
    requires Pieces(before, ZERO) == open + [[]] && IsName(name)
    ensures Pieces(before + name + [0], ZERO) == open + [name] + [[]]
  {
    NoZero(name);
    PiecesMore(before, name, ZERO);
    PiecesPush(before + name, 0, ZERO);
    hide Pieces;
    assert (open + [[]])[..|open|] == open && [] + name == name;
  }

  lemma KeptName(open: seq<Bytes>, name: Bytes)
    requires IsName(name)
    ensures Kept(open + [name] + [[]], NONEMPTY) == Kept(open + [[]], NONEMPTY) + [name]
  {
    KeptPush(open, [], NONEMPTY);
    KeptPush(open, name, NONEMPTY);
    KeptPush(open + [name], [], NONEMPTY);
  }

  /** Names with a zero after each read back. */
  lemma {:induction false} NamesReadBack(names: seq<Bytes>)
    requires forall name :: name in names ==> IsName(name)
    ensures Kept(Pieces(Terminated(names), ZERO), NONEMPTY) == names
    ensures var parts := Pieces(Terminated(names), ZERO); parts[|parts| - 1] == []
  {
    if names != [] {
      var init, name := names[..|names| - 1], names[|names| - 1];
      assert name in names;
      NamesReadBack(init);
      var parts := Pieces(Terminated(init), ZERO);
      var open := parts[..|parts| - 1];
      assert open + [[]] == parts && init + [name] == names;
      assert Terminated(names) == Terminated(init) + name + [0];
      hide *;
      NameStep(Terminated(init), open, name);
      KeptName(open, name);
    }
  }

  lemma NoZero(name: Bytes)
    requires IsName(name)
    ensures NoCut(name, ZERO)
  {
  }

  lemma {:induction false} PiecesMore(s: Bytes, part: Bytes, cuts: Byte -> bool)
    requires NoCut(part, cuts)
    ensures var parts := Pieces(s, cuts);
            Pieces(s + part, cuts) == parts[..|parts| - 1] + [parts[|parts| - 1] + part]
    decreases |part|
  {
    var parts := Pieces(s, cuts);
    hide Pieces;
    if part == [] {
      assert s + part == s && parts[|parts| - 1] + part == parts[|parts| - 1];
    } else {
      var init, b := part[..|part| - 1], part[|part| - 1];
      assert b in part && NoCut(init, cuts);
      hide NoCut;
      PiecesMore(s, init, cuts);
      PiecesPush(s + init, b, cuts);
      assert s + part == s + init + [b];
      assert parts[|parts| - 1] + init + [b] == parts[|parts| - 1] + part;
    }
  }

  // ---- target ----------------------------------------------------------------------------------------

  const SLASHES: Byte -> bool := (b: Byte) => b == 0x2f || b == 0x5c
  const PARTS: Bytes -> bool := (p: Bytes) => p != [] && p != [0x2e]
  const UP: Bytes := [0x2e, 0x2e]

  /** `path[i..j]` is a part of the path: between slashes of either kind. */
  predicate IsPart(path: Bytes, i: int, j: int) {
    && 0 <= i <= j <= |path| && 0x2f !in path[i..j] && 0x5c !in path[i..j]
    && (i == 0 || path[i - 1] == 0x2f || path[i - 1] == 0x5c)
    && (j == |path| || path[j] == 0x2f || path[j] == 0x5c)
  }

  ghost predicate HasPart(path: Bytes, p: Bytes) {
    exists i: int, j: int :: IsPart(path, i, j) && path[i..j] == p
  }

  lemma PartsAre(path: Bytes, p: Bytes)
    ensures p in Pieces(path, SLASHES) <==> HasPart(path, p)
  {
    PiecesAre(path, SLASHES, p);
    forall i: int, j: int ensures IsPart(path, i, j) <==> Stands(path, SLASHES, i, j) {
    }
  }

  lemma {:induction false} KeptAre(pieces: seq<Bytes>)
    ensures forall p :: p in Kept(pieces, PARTS) <==> p in pieces && p != [] && p != [0x2e]
  {
    if pieces != [] {
      KeptAre(pieces[..|pieces| - 1]);
      assert pieces == pieces[..|pieces| - 1] + [pieces[|pieces| - 1]];
    }
  }

  /** What is kept of a path. */
  lemma TargetSays(path: Bytes, kept: seq<Bytes>)
    requires kept == Kept(Pieces(path, SLASHES), PARTS)
    ensures UP in kept <==> HasPart(path, [0x2e, 0x2e])
    ensures kept == [] <==> forall p :: HasPart(path, p) ==> p == [] || p == [0x2e]
    ensures forall p :: p in kept <==> p != [] && p != [0x2e] && HasPart(path, p)
  {
    forall p ensures p in Pieces(path, SLASHES) <==> HasPart(path, p) {
      PartsAre(path, p);
    }
    hide HasPart, Pieces, Kept;
    KeptAre(Pieces(path, SLASHES));
    assert kept != [] ==> kept[0] in kept;
  }

  /** target: the folders and the file a path names below the folder it is copied to, or a refusal. */
  method Target(path: Bytes) returns (parts: Option<seq<Bytes>>)
    ensures parts.Some? <==> UP !in Pieces(path, SLASHES) && Goes([], Pieces(path, SLASHES)) != Some([])
    ensures parts.Some? ==> parts == Goes([], Pieces(path, SLASHES))
    ensures parts.None? <==> HasPart(path, [0x2e, 0x2e]) || forall p :: HasPart(path, p) ==> p == [] || p == [0x2e]
    ensures parts.Some? ==> forall p :: p in parts.value <==> p != [] && p != [0x2e] && HasPart(path, p)
  {
    hide HasPart, Pieces, Kept;
    var kept := SplitAtCuts(path, SLASHES, PARTS);
    var pieces := Pieces(path, SLASHES);
    KeptIs(pieces);
    TargetSays(path, kept);
    if UP !in pieces {
      GoesDown([], pieces);
      assert [] + kept == kept;
    }
    if kept == [] || UP in kept {
      return None;
    }
    parts := Some(kept);
  }

  /** Where a path leads from a folder: a part down, `..` up, an empty part or `.` nowhere; none when it leaves the folder
      the path is from. */
  function Goes(at: seq<Bytes>, pieces: seq<Bytes>): Option<seq<Bytes>>
    decreases |pieces|
  {
    if pieces == [] then Some(at)
    else if pieces[0] == UP then if at == [] then None else Goes(at[..|at| - 1], pieces[1..])
    else Goes(if PARTS(pieces[0]) then at + [pieces[0]] else at, pieces[1..])
  }

  lemma {:induction false} KeptIs(pieces: seq<Bytes>)
    ensures UP in Kept(pieces, PARTS) <==> UP in pieces
  {
    if pieces != [] {
      KeptIs(pieces[..|pieces| - 1]);
      assert pieces == pieces[..|pieces| - 1] + [pieces[|pieces| - 1]];
    }
  }

  lemma {:induction false} KeptFirst(pieces: seq<Bytes>, keeps: Bytes -> bool)
    requires pieces != []
    ensures Kept(pieces, keeps) == (if keeps(pieces[0]) then [pieces[0]] else []) + Kept(pieces[1..], keeps)
  {
    if |pieces| > 1 {
      var init := pieces[..|pieces| - 1];
      KeptFirst(init, keeps);
      assert init[1..] == pieces[1..][..|pieces| - 2];
    }
  }

  lemma {:induction false} GoesDown(at: seq<Bytes>, pieces: seq<Bytes>)
    requires UP !in pieces
    ensures Goes(at, pieces) == Some(at + Kept(pieces, PARTS))
    decreases |pieces|
  {
    if pieces == [] {
      assert at + [] == at;
    } else {
      KeptFirst(pieces, PARTS);
      assert pieces[0] in pieces && forall p :: p in pieces[1..] ==> p in pieces;
      GoesDown(if PARTS(pieces[0]) then at + [pieces[0]] else at, pieces[1..]);
      assert at + ([pieces[0]] + Kept(pieces[1..], PARTS)) == at + [pieces[0]] + Kept(pieces[1..], PARTS);
      assert [] + Kept(pieces[1..], PARTS) == Kept(pieces[1..], PARTS);
    }
  }

  // ---- gather ----------------------------------------------------------------------------------------

  /** A path git names: any bytes. */
  type Path = Bytes

  /** What the engine says of an entry's mode: git has its content, there is nothing to check (submodules, links), or
      the disk has its content. */
  datatype Source = Blob | Skip | Disk

  /** copyFile: done, nothing to say of a link, or why not. */
  datatype Copy = Copied | Link | NotCopied(why: string)

  datatype Reason = Because(why: Why) | Said(text: string)

  /** What the commit holds: of each path, where it is read from; what copying it from the disk comes to; and how creating
      and writing its file goes. */
  datatype Commit = Commit(source: Path -> Source, copy: Path -> Copy, slot: Path -> Slot, sizeOf: Bytes -> Option<nat>)

  predicate Checks(c: Commit, p: Path) {
    c.source(p).Blob? || (c.source(p).Disk? && !c.copy(p).Link?)
  }

  function Slots(c: Commit, blobs: seq<Path>): seq<Slot> {
    seq(|blobs|, k requires 0 <= k < |blobs| => c.slot(blobs[k]))
  }

  function PathsOf(failed: seq<(Path, Reason)>): seq<Path> {
    seq(|failed|, k requires 0 <= k < |failed| => failed[k].0)
  }

  /** The paths named more than once, once. */
  method Unique(paths: seq<Path>) returns (unique: seq<Path>)
    ensures NoRepeats(unique) && forall p :: p in unique <==> p in paths
  {
    unique := [];
    var seen: set<Path> := {};
    for n := 0 to |paths|
      invariant NoRepeats(unique) && (forall p :: p in unique <==> p in paths[..n]) && forall p :: p in seen <==> p in unique
    {
      assert paths[..n + 1] == paths[..n] + [paths[n]];
      if paths[n] !in seen {
        unique := unique + [paths[n]];
        seen := seen + {paths[n]};
      }
    }
    assert paths[..|paths|] == paths;
  }

  /** The loop of gather: which paths are checked, which of them are read from blobs, and which could not be copied. */
  method Sort(c: Commit, unique: seq<Path>) returns (checked: seq<Path>, blobs: seq<Path>, failed: seq<(Path, Reason)>)
    requires NoRepeats(unique)
    ensures NoRepeats(checked) && forall p :: p in checked <==> p in unique && Checks(c, p)
    ensures NoRepeats(blobs) && forall p :: p in blobs <==> p in unique && c.source(p).Blob?
    ensures NoRepeats(PathsOf(failed))
    ensures forall p :: p in PathsOf(failed) <==> p in unique && c.source(p).Disk? && c.copy(p).NotCopied?
    ensures forall f :: f in failed ==> c.source(f.0).Disk? && c.copy(f.0).NotCopied? && f.1 == Said(c.copy(f.0).why)
  {
    checked, blobs, failed := [], [], [];
    for n := 0 to |unique|
      invariant NoRepeats(checked) && forall p :: p in checked <==> p in unique[..n] && Checks(c, p)
      invariant NoRepeats(blobs) && forall p :: p in blobs <==> p in unique[..n] && c.source(p).Blob?
      invariant NoRepeats(PathsOf(failed))
      invariant forall p :: p in PathsOf(failed) <==> p in unique[..n] && c.source(p).Disk? && c.copy(p).NotCopied?
      invariant forall f :: f in failed ==> c.source(f.0).Disk? && c.copy(f.0).NotCopied? && f.1 == Said(c.copy(f.0).why)
    {
      var path := unique[n];
      assert unique[..n + 1] == unique[..n] + [path] && path !in unique[..n];
      match c.source(path)
      case Skip =>
      case Blob =>
        blobs := blobs + [path];
        checked := checked + [path];
      case Disk =>
        match c.copy(path)
        case Link =>
        case Copied =>
          checked := checked + [path];
        case NotCopied(why) =>
          PathsPush(failed, path, Said(why));
          failed := failed + [(path, Said(why))];
          checked := checked + [path];
    }
    assert unique[..|unique|] == unique;
  }

  lemma PathsPush(failed: seq<(Path, Reason)>, p: Path, why: Reason)
    ensures PathsOf(failed + [(p, why)]) == PathsOf(failed) + [p]
  {
  }

  /** What writeBlobs said to have failed, by path. */
  method Add(failed: seq<(Path, Reason)>, blobs: seq<Path>, more: seq<Failure>) returns (all: seq<(Path, Reason)>)
    requires InOrder(more) && (forall k :: k in FailedOf(more) ==> k < |blobs|) && NoRepeats(blobs)
    requires NoRepeats(PathsOf(failed)) && forall p :: p in blobs ==> p !in PathsOf(failed)
    ensures NoRepeats(PathsOf(all))
    ensures forall p :: p in PathsOf(all) <==>
                        p in PathsOf(failed) || exists k :: k in FailedOf(more) && 0 <= k < |blobs| && blobs[k] == p
    ensures failed <= all
    ensures forall n :: 0 <= n < |more| ==> more[n].k < |blobs|
    ensures |all| == |failed| + |more|
    ensures forall n :: 0 <= n < |more| ==> all[|failed| + n] == (blobs[more[n].k], Because(more[n].why))
  {
    forall n | 0 <= n < |more| ensures more[n].k < |blobs| {
      assert more[n].k in FailedOf(more);
    }
    all := failed;
    for n := 0 to |more|
      invariant NoRepeats(PathsOf(all))
      invariant forall p :: p in PathsOf(all) <==> p in PathsOf(failed) || Named(blobs, more[..n], p)
      invariant failed <= all && |all| == |failed| + n
      invariant forall j :: 0 <= j < n ==> all[|failed| + j] == (blobs[more[j].k], Because(more[j].why))
    {
      var f := more[n];
      assert f.k in FailedOf(more);
      assert more[..n + 1] == more[..n] + [f];
      NamedPush(blobs, more[..n], f);
      assert !Named(blobs, more[..n], blobs[f.k]);
      PathsPush(all, blobs[f.k], Because(f.why));
      all := all + [(blobs[f.k], Because(f.why))];
    }
    assert more[..|more|] == more;
  }

  predicate Named(blobs: seq<Path>, more: seq<Failure>, p: Path) {
    exists k :: k in FailedOf(more) && 0 <= k < |blobs| && blobs[k] == p
  }

  lemma NamedPush(blobs: seq<Path>, more: seq<Failure>, f: Failure)
    requires f.k < |blobs|
    ensures forall p :: Named(blobs, more + [f], p) <==> Named(blobs, more, p) || p == blobs[f.k]
  {
    FailedPush(more, f);
  }

  /** What writeBlobs said: the failures are in order, and of wanted blobs. And, unless the process said an error with the
      first blob in hand, they are of the blobs that were not copied whole. */
  lemma BlobsAccounted(job: Job, chunks: seq<Bytes>, spawnError: Option<string>)
    requires job.slots != []
    ensures var r := FeedChunks(job, START, chunks);
            var end := CloseWith(job, r, spawnError);
            && InOrder(end.failed) && (forall k :: k in FailedOf(end.failed) ==> k < |job.slots|)
            && (!ErrorWithBlobInHand(r, spawnError) ==> Accounted(end, |job.slots|))
  {
    hide Feed, FeedChunks;
    ChunkIndependence(job, START, chunks);
    InvFeed(job, START, Flatten(chunks));
    var r := FeedChunks(job, START, chunks);
    SpawnErrorAccounts(job, r, spawnError);
    if ErrorWithBlobInHand(r, spawnError) {
      RestIs(0, |job.slots|, GitFailed(spawnError.value));
    }
  }

  lemma SomeIn(paths: seq<Path>)
    ensures paths != [] ==> exists p :: p in paths
  {
    assert paths != [] ==> paths[0] in paths;
  }

  predicate ErrorWithBlobInHand(r: Reader, spawnError: Option<string>) {
    spawnError.Some? && r.k == 0 && r.failed == [] && r.phase != Header
  }

  /** The reason said of a path: the copy's own, or what writeBlobs said of its blob; and all of that is said. */
  ghost predicate ReasonsSaid(c: Commit, failed: seq<(Path, Reason)>, blobs: seq<Path>, said: seq<Failure>) {
    && (forall f :: f in failed ==>
          || (c.source(f.0).Disk? && c.copy(f.0).NotCopied? && f.1 == Said(c.copy(f.0).why))
          || exists k :: k in said && k.k < |blobs| && f == (blobs[k.k], Because(k.why)))
    && forall k :: k in said ==> k.k < |blobs| && (blobs[k.k], Because(k.why)) in failed
  }

  lemma Reported(c: Commit, failed: seq<(Path, Reason)>, all: seq<(Path, Reason)>, blobs: seq<Path>, said: seq<Failure>)
    requires forall f :: f in failed ==> c.source(f.0).Disk? && c.copy(f.0).NotCopied? && f.1 == Said(c.copy(f.0).why)
    requires failed <= all && |all| == |failed| + |said|
    requires forall n :: 0 <= n < |said| ==> said[n].k < |blobs|
    requires forall n :: 0 <= n < |said| ==> all[|failed| + n] == (blobs[said[n].k], Because(said[n].why))
    ensures ReasonsSaid(c, all, blobs, said)
  {
    forall f | f in all && f !in failed ensures exists k :: k in said && k.k < |blobs| && f == (blobs[k.k], Because(k.why)) {
      var i :| 0 <= i < |all| && all[i] == f;
      assert i >= |failed|;
      assert said[i - |failed|] in said;
    }
    forall k | k in said ensures k.k < |blobs| && (blobs[k.k], Because(k.why)) in all {
      var n :| 0 <= n < |said| && said[n] == k;
      assert all[|failed| + n] in all;
    }
  }

  /** gather: each path once, checked unless there is nothing to check; and among those checked just the files whose copy
      went wrong and the blobs not copied whole are said to have failed, each once. Outside a
      repository no path is read from a blob. */
  method Gather(c: Commit, root: bool, paths: seq<Path>, gitMissing: bool, thrown: Option<string>,
                spawnError: Option<string>, chunks: seq<Bytes>)
    returns (checked: seq<Path>, failed: seq<(Path, Reason)>, ghost blobs: seq<Path>, ghost said: seq<Failure>,
             ghost files: map<nat, Bytes>)
    requires !root ==> forall p :: p in paths ==> !c.source(p).Blob?
    ensures NoRepeats(checked) && forall p :: p in checked <==> p in paths && Checks(c, p)
    ensures NoRepeats(PathsOf(failed)) && forall p :: p in PathsOf(failed) ==> p in checked
    ensures forall p :: p in checked && c.source(p).Disk? ==> (p in PathsOf(failed) <==> c.copy(p).NotCopied?)
    ensures NoRepeats(blobs) && forall p :: p in blobs <==> p in paths && c.source(p).Blob?
    ensures var job := Job(Slots(c, blobs), c.sizeOf);
            var r := FeedChunks(job, START, chunks);
            var end := CloseWith(job, r, spawnError);
            gitMissing || thrown.Some? || !ErrorWithBlobInHand(r, spawnError) ==>
              forall k :: 0 <= k < |blobs| ==>
                (blobs[k] in PathsOf(failed) <==> gitMissing || thrown.Some? || !Whole(end.files, end.announced, k))
    ensures ReasonsSaid(c, failed, blobs, said)
    ensures forall k :: k in said ==>
              if gitMissing then k.why == GitMissing
              else if thrown.Some? then k.why == GitFailed(thrown.value)
              else HasReason(Job(Slots(c, blobs), c.sizeOf), k) || (spawnError.Some? && k.why == GitFailed(spawnError.value))
    ensures blobs != [] && !gitMissing && thrown.None? && spawnError.None? ==>
              forall objects :: GitPrints(Job(Slots(c, blobs), c.sizeOf), objects, chunks) ==>
                SettlesAll(Job(Slots(c, blobs), c.sizeOf), objects, chunks, said, files)
  {
    hide CloseWith, FeedChunks, Rest, Whole, PathsOf, GitPrints, SettlesAll, HasReason, Flatten, ReasonsSaid,
      ErrorWithBlobInHand, InOrder;
    said, files := [], map[];
    var unique := Unique(paths);
    var read;
    checked, read, failed := Sort(c, unique);
    blobs := read;
    if root {
      var job := Job(Slots(c, read), c.sizeOf);
      if read != [] {
        BlobsAccounted(job, chunks, spawnError);
      }
      var more, written, open := BlobReader.WriteBlobs(job, gitMissing, thrown, spawnError, chunks);
      said, files := more, written;
      RestIs(0, |read|, GitMissing);
      if thrown.Some? {
        RestIs(0, |read|, GitFailed(thrown.value));
      }
      ghost var before := failed;
      failed := Add(failed, read, more);
      Reported(c, before, failed, read, more);
    } else {
      SomeIn(read);
      Reported(c, failed, failed, read, said);
    }
  }
}
