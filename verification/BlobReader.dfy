/**
 js/src/hook.js, writeBlobs: the reader as it is written, its handlers of git's output a chunk at a time. Each handler
 leaves the reader where BlobMachine's byte-at-a-time machine would be.
 */
module BlobReader {
  import opened Common
  import opened GitBatch
  import opened BlobMachine
  import opened BlobFraming

  /** The index of the first `b` of `bytes` at or after `from`, None when there is none. */
  method IndexOf(bytes: Bytes, b: Byte, from: nat) returns (at: Option<nat>)
    requires from <= |bytes|
    ensures at.None? ==> b !in bytes[from..]
    ensures at.Some? ==> from <= at.value < |bytes| && bytes[at.value] == b && b !in bytes[from..at.value]
  {
    for k := from to |bytes|
      invariant b !in bytes[from..k]
    {
      if bytes[k] == b {
        return Some(k);
      }
      assert bytes[from..k + 1] == bytes[from..k] + [bytes[k]];
    }
    at := None;
    assert bytes[from..|bytes|] == bytes[from..];
  }

  class Reading {
    const job: Job
    var k: nat                    // which blob is next, or in hand
    var state: Phase
    var header: seq<Bytes>        // pieces of a header line that has not ended
    var left: nat                 // how much of the body is to come
    var fd: Option<nat>           // the file it is copied to, if it is
    var writing: bool             // it is a wanted blob's, and its file was made
    var failed: seq<Failure>
    var files: map<nat, Bytes>    // the disk
    ghost var announced: map<nat, nat>

    ghost function Abs(): Reader
      reads this
    {
      Reader(k, state, Flatten(header), left, fd, writing, failed, files, announced)
    }

    ghost predicate Valid()
      reads this
    {
      Inv(job, Abs())
    }

    constructor (job: Job)
      ensures this.job == job && Abs() == START && Valid()
    {
      this.job := job;
      k, state, header, left := 0, Header, [], 0;
      fd, writing, failed, files, announced := None, false, [], map[], map[];
    }

    method Fail(why: Why)
      modifies this`failed
      ensures failed == old(failed) + [Failure(k, why)]
    {
      failed := failed + [Failure(k, why)];
    }

    method CloseFd()
      modifies this`fd
      ensures fd == None
    {
      if fd != None {
        fd := None;
      }
    }

    method OnHeader(line: Bytes)
      requires k < |job.slots| && state == Header && header == []
      modifies this
      ensures Abs() == AfterHeader(job, old(Abs()), line)
    {
      var fields := Fields(line);
      var size := if |fields| == 3 then job.sizeOf(fields[2]) else None;
      if |fields| == 3 && fields[1] == BLOB && size.Some? {
        left := size.value;
        match job.slots[k].refusal
        case None =>
          writing, fd, files, announced := true, Some(k), files[k := []], announced[k := size.value];
        case Some(e) =>
          Fail(WhyNotCopied(e));
          writing := false;
      } else {
        Fail(Unprinted);
        if size.None? {
          k := k + 1;
          return;
        }
        left, writing := size.value, false;
      }
      state := Body;
      if left == 0 {
        CloseFd();
        state := Newline;
      }
    }

    /** A write of some of `data`: how much of it went (at least a byte), or none and the write failed. */
    method WriteSync(f: nat, data: Bytes) returns (n: nat, ok: bool)
      requires f in files && f < |job.slots| && data != []
      modifies this`files
      ensures ok ==> 1 <= n <= |data| && job.slots[f].Takes(|old(files)[f]| + n)
                     && files == old(files)[f := old(files)[f] + data[..n]]
      ensures !ok ==> files == old(files) && !job.slots[f].Takes(|files[f]| + 1)
    {
      var room := job.slots[f].room;
      if room.Some? && room.value <= |files[f]| {
        return 0, false;
      }
      n :| 1 <= n <= |data| && (room.None? || |files[f]| + n <= room.value);
      files := files[f := files[f] + data[..n]];
      ok := true;
    }

    /** The bytes of a body to its file, in as many writes as it takes, or the failure of one. */
    method WriteAll(data: Bytes)
      requires k < |job.slots| && fd == Some(k) && k in files && job.slots[k].Takes(|files[k]|)
      modifies this`files, this`fd, this`failed
      ensures Abs() == WriteBytes(job, old(Abs()), data)
    {
      var off := 0;
      assert files[k] + data[..0] == files[k];
      assert files[k := files[k]] == files;
      while off < |data|
        invariant 0 <= off <= |data| && fd == Some(k) && failed == old(failed)
        invariant files == old(files)[k := old(files)[k] + data[..off]]
        invariant job.slots[k].Takes(|old(files)[k]| + off)
      {
        ghost var before := files;
        var n, ok := WriteSync(k, data[off..]);
        if !ok {
          Fail(WhyNotCopied(job.slots[k].trouble));
          CloseFd();
          assert files == old(files)[k := old(files)[k] + data[..off]];
          return;
        }
        assert data[..off] + data[off..][..n] == data[..off + n];
        assert before[k] + data[off..][..n] == old(files)[k] + data[..off + n];
        off := off + n;
      }
      assert data[..off] == data;
    }

    /** A chunk of git's output. */
    method OnData(chunk: Bytes)
      requires Valid()
      modifies this
      ensures Valid() && Abs() == Feed(job, old(Abs()), chunk)
    {
      hide Feed, Inv;
      var at := 0;
      assert chunk[0..] == chunk;
      while at < |chunk| && k < |job.slots|
        invariant at <= |chunk| && Valid()
        invariant Feed(job, Abs(), chunk[at..]) == Feed(job, old(Abs()), chunk)
        decreases |chunk| - at
      {
        ghost var was := Abs();
        var next;
        if state == Header {
          next := HeaderPart(chunk, at);
        } else if state == Body {
          next := BodyPart(chunk, at);
        } else {
          next := NewlinePart(chunk, at);
        }
        InvFeed(job, was, chunk[at..next]);
        FeedAppend(job, was, chunk[at..next], chunk[next..]);
        assert chunk[at..] == chunk[at..next] + chunk[next..];
        at := next;
      }
      if at < |chunk| {
        FeedDone(job, Abs(), chunk[at..]);
      } else {
        assert chunk[at..] == [];
        FeedNone(job, Abs());
      }
    }

    method HeaderPart(chunk: Bytes, at: nat) returns (next: nat)
      requires Valid() && at < |chunk| && k < |job.slots| && state == Header
      modifies this
      ensures at < next <= |chunk|
      ensures Abs() == Feed(job, old(Abs()), chunk[at..next])
    {
      hide Feed, AfterHeader, Flatten;
      var nl := IndexOf(chunk, NEWLINE, at);
      ghost var was := Abs();
      next := if nl.None? then |chunk| else nl.value;
      ghost var part := chunk[at..next];
      assert part == if nl.None? then chunk[at..] else chunk[at..nl.value];
      FlattenPush(header, part);
      header := header + [chunk[at..next]];
      if nl.None? {
        FeedHeaderBytes(job, was, part);
        return;
      }
      next := next + 1;
      assert chunk[at..next] == part + [NEWLINE];
      HeaderLineFeed(job, was, part);
      var line := Flatten(header);
      header := [];
      FlattenNone();
      assert Abs() == was.(header := []);
      OnHeader(line);
    }

    method BodyPart(chunk: Bytes, at: nat) returns (next: nat)
      requires Valid() && at < |chunk| && k < |job.slots| && state == Body
      modifies this
      ensures at < next <= |chunk|
      ensures Abs() == Feed(job, old(Abs()), chunk[at..next])
    {
      hide Feed, WriteBytes, Flatten;
      var n := if left < |chunk| - at then left else |chunk| - at;
      next := at + n;
      ghost var was := Abs();
      assert |chunk[at..next]| == n && InRoom(job, was);
      FeedBodyBytes(job, was, chunk[at..next]);
      WriteDropped(job, was, chunk[at..next]);
      if fd != None {
        WriteAll(chunk[at..next]);
      }
      left := left - n;
      if left == 0 {
        CloseFd();
        state := Newline;
      }
    }

    method NewlinePart(chunk: Bytes, at: nat) returns (next: nat)
      requires Valid() && at < |chunk| && k < |job.slots| && state == Newline
      modifies this
      ensures at < next <= |chunk|
      ensures Abs() == Feed(job, old(Abs()), chunk[at..next])
    {
      next := at + 1;
      assert chunk[at..next] == [chunk[at]];
      FeedOne(job, Abs(), chunk[at]);
      k := k + 1;
      writing := false;
      state := Header;
    }

    /** The stream's end: what is left is said to have failed. */
    method OnClose(spawnError: Option<string>)
      requires Valid()
      modifies this
      ensures Abs() == CloseWith(job, old(Abs()), spawnError)
    {
      if spawnError.Some? && k == 0 && failed == [] {
        failed := Rest(0, |job.slots|, GitFailed(spawnError.value));
        return;
      }
      if k < |job.slots| {
        if state == Body && writing && fd != None {
          Fail(Stopped);
          k := k + 1;
        } else if state == Body || state == Newline {
          k := k + 1;
        }
        CloseFd();
        FailTheRest();
      }
    }

    method FailTheRest()
      requires k <= |job.slots|
      modifies this`k, this`failed
      ensures k == |job.slots| && failed == old(failed) + Rest(old(k), |job.slots|, Unprinted)
    {
      while k < |job.slots|
        invariant old(k) <= k <= |job.slots|
        invariant failed + Rest(k, |job.slots|, Unprinted) == old(failed) + Rest(old(k), |job.slots|, Unprinted)
      {
        assert [Failure(k, Unprinted)] + Rest(k + 1, |job.slots|, Unprinted) == Rest(k, |job.slots|, Unprinted);
        Fail(Unprinted);
        k := k + 1;
      }
      assert failed + [] == failed;
    }
  }

  /** Every blob asked for done: nothing more of the stream is read. */
  lemma {:induction false} FeedDone(job: Job, r: Reader, bytes: Bytes)
    requires r.k >= |job.slots|
    ensures Feed(job, r, bytes) == r
    decreases |bytes|
  {
    if bytes != [] {
      FeedDone(job, r, bytes[1..]);
    }
  }

  lemma HeaderLineFeed(job: Job, r: Reader, part: Bytes)
    requires r.k < |job.slots| && r.phase == Header && NEWLINE !in part
    ensures Feed(job, r, part + [NEWLINE]) == AfterHeader(job, r.(header := []), r.header + part)
  {
    FeedAppend(job, r, part, [NEWLINE]);
    FeedHeaderBytes(job, r, part);
    FeedOne(job, r.(header := r.header + part), NEWLINE);
  }

  lemma WriteDropped(job: Job, r: Reader, bytes: Bytes)
    requires r.k < |job.slots|
    ensures r.fd.None? ==> WriteBytes(job, r, bytes) == r
    ensures WriteBytes(job, r, bytes).left == r.left && WriteBytes(job, r, bytes).phase == r.phase
  {
  }

  lemma FlattenNone()
    ensures Flatten<Byte>([]) == []
  {
  }

  /** What the contract of WriteBlobs says of the failures, of the specification's reader. */
  lemma WriteBlobsSays(job: Job, gitMissing: bool, thrown: Option<string>, spawnError: Option<string>, chunks: seq<Bytes>)
    ensures var end := CloseWith(job, FeedChunks(job, START, chunks), spawnError);
            && (spawnError.Some? && Flatten(chunks) == [] ==>
                  end.failed == Rest(0, |job.slots|, GitFailed(spawnError.value)) && end.files == map[] && end.fd.None?)
            && (forall f :: f in end.failed ==>
                  HasReason(job, f) || (spawnError.Some? && f.why == GitFailed(spawnError.value)))
            && (spawnError.None? ==> end.fd.None? && forall f :: f in end.failed ==> HasReason(job, f))
    ensures forall why ::
              && |Rest(0, |job.slots|, why)| == |job.slots|
              && forall i :: 0 <= i < |job.slots| ==> Rest(0, |job.slots|, why)[i] == Failure(i, why)
    ensures var end := Close(job, FeedChunks(job, START, chunks));
            forall objects :: GitPrints(job, objects, chunks) ==> SettlesAll(job, objects, chunks, end.failed, end.files)
  {
    hide HasReason, SettlesAll, GitPrints, FeedChunks, Close, PrintedAll, Rest, Flatten;
    ChunkIndependence(job, START, chunks);
    FeedNone(job, START);
    AnyReasons(job, chunks);
    ExactlyOnce(job, chunks);
    forall why
      ensures |Rest(0, |job.slots|, why)| == |job.slots|
      ensures forall i :: 0 <= i < |job.slots| ==> Rest(0, |job.slots|, why)[i] == Failure(i, why)
    {
      RestSays(0, |job.slots|, why);
    }
    if spawnError.Some? {
      RestIs(0, |job.slots|, GitFailed(spawnError.value));
    }
    forall objects | GitPrints(job, objects, chunks)
      ensures SettlesAll(job, objects, chunks, Close(job, FeedChunks(job, START, chunks)).failed,
                         Close(job, FeedChunks(job, START, chunks)).files)
    {
      Reasons(job, objects, chunks);
    }
  }

  /** writeBlobs: the blobs `job` wants, of the output git prints in these chunks; with git missing, or not started
      (`thrown`), every one of them fails. */
  method WriteBlobs(job: Job, gitMissing: bool, thrown: Option<string>, spawnError: Option<string>, chunks: seq<Bytes>)
    returns (failed: seq<Failure>, files: map<nat, Bytes>, open: bool)
    ensures job.slots == [] ==> failed == [] && files == map[] && !open
    ensures job.slots != [] && gitMissing ==> failed == Rest(0, |job.slots|, GitMissing) && files == map[] && !open
    ensures job.slots != [] && !gitMissing && thrown.Some? ==>
              failed == Rest(0, |job.slots|, GitFailed(thrown.value)) && files == map[] && !open
    ensures job.slots != [] && !gitMissing && thrown.None? ==>
              var end := CloseWith(job, FeedChunks(job, START, chunks), spawnError);
              failed == end.failed && files == end.files && open == end.fd.Some?
    ensures job.slots != [] && (gitMissing || thrown.Some? || (spawnError.Some? && Flatten(chunks) == [])) ==>
              && files == map[] && !open && |failed| == |job.slots|
              && forall i :: 0 <= i < |failed| ==>
                   failed[i] == Failure(i, if gitMissing then GitMissing
                                           else GitFailed(if thrown.Some? then thrown.value else spawnError.value))
    ensures !gitMissing && thrown.None? ==>
              forall f :: f in failed ==> HasReason(job, f) || (spawnError.Some? && f.why == GitFailed(spawnError.value))
    ensures job.slots != [] && !gitMissing && thrown.None? && spawnError.None? ==>
              && !open
              && (forall f :: f in failed ==> HasReason(job, f))
              && forall objects :: GitPrints(job, objects, chunks) ==> SettlesAll(job, objects, chunks, failed, files)
  {
    hide Close, SettlesAll, GitPrints, HasReason, Flatten, Rest, Feed;
    WriteBlobsSays(job, gitMissing, thrown, spawnError, chunks);
    if job.slots == [] {
      return [], map[], false;
    }
    if gitMissing {
      return Rest(0, |job.slots|, GitMissing), map[], false;
    }
    if thrown.Some? {
      return Rest(0, |job.slots|, GitFailed(thrown.value)), map[], false;
    }
    var reading := new Reading(job);
    var n := 0;
    while n < |chunks|
      invariant n <= |chunks| && reading.job == job && reading.Valid()
      invariant FeedChunks(job, reading.Abs(), chunks[n..]) == FeedChunks(job, START, chunks)
    {
      reading.OnData(chunks[n]);
      assert chunks[n..][1..] == chunks[n + 1..];
      n := n + 1;
    }
    reading.OnClose(spawnError);
    failed, files, open := reading.failed, reading.files, reading.fd.Some?;
  }
}
