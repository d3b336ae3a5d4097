/**
 The reader of js/src/hook.js (writeBlobs) one byte at a time: what it is after each byte of git's output, whatever the
 pieces the output came in. BlobReader.dfy is the reader as it is written, over chunks, and refines this machine.

 The disk is an oracle: for each blob, why its file can't be created (if it can't) and how many bytes its file takes
 before a write fails. `sizeOf` is the test of a header's size field (Number, isSafeInteger and not negative).
 */
module BlobMachine {
  import opened Common
  import opened GitBatch

  /** What creating or writing a file throws. */
  datatype IoError = CollisionError | OtherError(text: string)

  datatype Why = Collision | NotCopied(text: string) | Unprinted | Stopped | GitMissing | GitFailed(text: string)

  function WhyNotCopied(e: IoError): Why {
    match e
    case CollisionError => Collision
    case OtherError(text) => NotCopied(text)
  }

  /** One blob's place on the disk: `room` None takes any number of bytes. */
  datatype Slot = Slot(refusal: Option<IoError>, room: Option<nat>, trouble: IoError) {
    predicate Takes(n: nat) {
      room.None? || n <= room.value
    }
  }

  datatype Job = Job(slots: seq<Slot>, sizeOf: Bytes -> Option<nat>)

  datatype Phase = Header | Body | Newline

  datatype Failure = Failure(k: nat, why: Why)

  /** `announced`: the size each created file's header gave (the reader itself does not keep it). */
  datatype Reader = Reader(k: nat, phase: Phase, header: Bytes, left: nat, fd: Option<nat>, writing: bool,
                           failed: seq<Failure>, files: map<nat, Bytes>, announced: map<nat, nat>)

  const START := Reader(0, Header, [], 0, None, false, [], map[], map[])

  function Fail(r: Reader, why: Why): Reader {
    r.(failed := r.failed + [Failure(r.k, why)])
  }

  /** What a header line says: no body follows (and no blob is meant), or a body of `size` bytes does. */
  datatype Announcement = NoBody | BodyOf(blob: bool, size: nat)

  function ReadHeader(job: Job, line: Bytes): Announcement {
    var fields := Fields(line);
    var size := if |fields| == 3 then job.sizeOf(fields[2]) else None;
    if size.None? then NoBody else BodyOf(fields[1] == BLOB, size.value)
  }

  /** The file of a blob of `size` bytes made, or the failure said. */
  function Begin(job: Job, r: Reader, blob: bool, size: nat): Reader
    requires r.k < |job.slots|
  {
    if !blob then Fail(r, Unprinted).(writing := false)
    else match job.slots[r.k].refusal
      case Some(e) => Fail(r, WhyNotCopied(e)).(writing := false)
      case None => r.(writing := true, fd := Some(r.k), files := r.files[r.k := []],
                      announced := r.announced[r.k := size])
  }

  function AfterHeader(job: Job, r: Reader, line: Bytes): Reader
    requires r.k < |job.slots|
  {
    match ReadHeader(job, line)
    case NoBody => Fail(r, Unprinted).(k := r.k + 1)
    case BodyOf(blob, size) => BodyLeft(Begin(job, r, blob, size), size)
  }

  /** `left` bytes of the body to come: none is the body's end. */
  function BodyLeft(r: Reader, left: nat): Reader {
    if left == 0 then r.(left := 0, fd := None, phase := Newline) else r.(left := left, phase := Body)
  }

  function WriteByte(job: Job, r: Reader, b: Byte): Reader
    requires r.k < |job.slots|
  {
    if r.fd.None? || r.fd.value !in r.files then r
    else if job.slots[r.k].Takes(|r.files[r.fd.value]| + 1) then
      r.(files := r.files[r.fd.value := r.files[r.fd.value] + [b]])
    else
      Fail(r, WhyNotCopied(job.slots[r.k].trouble)).(fd := None)
  }

  function Step(job: Job, r: Reader, b: Byte): Reader {
    if r.k >= |job.slots| then r
    else match r.phase
      case Header =>
        if b == NEWLINE then AfterHeader(job, r.(header := []), r.header) else r.(header := r.header + [b])
      case Body => if r.left == 0 then r else BodyLeft(WriteByte(job, r, b), r.left - 1)
      case Newline => r.(k := r.k + 1, writing := false, phase := Header)
  }

  function Feed(job: Job, r: Reader, bytes: Bytes): Reader
    decreases |bytes|
  {
    if bytes == [] then r else Feed(job, Step(job, r, bytes[0]), bytes[1..])
  }

  function Rest(from: nat, to: nat, why: Why): seq<Failure>
    decreases to - from
  {
    if from >= to then [] else [Failure(from, why)] + Rest(from + 1, to, why)
  }

  function CutShort(r: Reader): Reader {
    if r.phase == Body && r.writing && r.fd.Some? then Fail(r, Stopped).(k := r.k + 1)
    else if r.phase != Header then r.(k := r.k + 1)
    else r
  }

  /** The stream ended: the blob cut short, then the ones never printed. */
  function Close(job: Job, r: Reader): Reader {
    if r.k >= |job.slots| then r
    else
      var cut := CutShort(r);
      cut.(fd := None, failed := cut.failed + Rest(cut.k, |job.slots|, Unprinted), k := |job.slots|)
  }

  /** The stream ended and the process had said an error (`spawnError`): with no blob done and none failed, it is taken
      not to have started. */
  function CloseWith(job: Job, r: Reader, spawnError: Option<string>): Reader {
    if spawnError.Some? && r.k == 0 && r.failed == [] then
      r.(failed := Rest(0, |job.slots|, GitFailed(spawnError.value)))
    else
      Close(job, r)
  }

  lemma FeedNone(job: Job, r: Reader)
    ensures Feed(job, r, []) == r
  {
  }

  lemma FeedCons(job: Job, r: Reader, b: Byte, more: Bytes)
    ensures Feed(job, r, [b] + more) == Feed(job, Step(job, r, b), more)
  {
    assert ([b] + more)[1..] == more;
  }

  /** How the stream is cut into chunks does not matter: after one and then the other, the reader is what it is after
      both at once. */
  lemma {:induction false} FeedAppend(job: Job, r: Reader, a: Bytes, b: Bytes)
    ensures Feed(job, r, a + b) == Feed(job, Feed(job, r, a), b)
    decreases |a|
  {
    if a == [] {
      assert a + b == b;
    } else {
      assert (a + b)[1..] == a[1..] + b;
      FeedAppend(job, Step(job, r, a[0]), a[1..], b);
    }
  }

  function FeedChunks(job: Job, r: Reader, chunks: seq<Bytes>): Reader
    decreases |chunks|
  {
    if chunks == [] then r else FeedChunks(job, Feed(job, r, chunks[0]), chunks[1..])
  }

  lemma {:induction false} ChunkIndependence(job: Job, r: Reader, chunks: seq<Bytes>)
    ensures FeedChunks(job, r, chunks) == Feed(job, r, Flatten(chunks))
    decreases |chunks|
  {
    if chunks != [] {
      ChunkIndependence(job, Feed(job, r, chunks[0]), chunks[1..]);
      FeedAppend(job, r, chunks[0], Flatten(chunks[1..]));
    }
  }

  // ---- Runs of bytes -----------------------------------------------------------

  /** Bytes of a header line that is not over yet. */
  lemma {:induction false} FeedHeaderBytes(job: Job, r: Reader, bytes: Bytes)
    requires r.k < |job.slots| && r.phase == Header && NEWLINE !in bytes
    ensures Feed(job, r, bytes) == r.(header := r.header + bytes)
    decreases |bytes|
  {
    if bytes == [] {
      assert r.header + bytes == r.header;
    } else {
      var next := Step(job, r, bytes[0]);
      FeedHeaderBytes(job, next, bytes[1..]);
      assert next.header + bytes[1..] == r.header + bytes;
    }
  }

  /** What `n` bytes of the body come to: those the file takes are written, the first it does not fails it. */
  function WriteBytes(job: Job, r: Reader, bytes: Bytes): Reader
    requires r.k < |job.slots|
  {
    if r.fd.None? || r.fd.value !in r.files then r
    else
      var file, slot := r.files[r.fd.value], job.slots[r.k];
      if slot.Takes(|file| + |bytes|) then r.(files := r.files[r.fd.value := file + bytes])
      else
        var fits := if slot.room.value < |file| then 0 else slot.room.value - |file|;
        Fail(r.(files := r.files[r.fd.value := file + bytes[..fits]]), WhyNotCopied(slot.trouble)).(fd := None)
  }

  lemma WriteOneThenMore(job: Job, r: Reader, b: Byte, more: Bytes)
    requires r.k < |job.slots|
    ensures WriteBytes(job, WriteByte(job, r, b), more) == WriteBytes(job, r, [b] + more)
  {
    if r.fd.Some? && r.fd.value in r.files {
      var f, file, slot := r.fd.value, r.files[r.fd.value], job.slots[r.k];
      if slot.Takes(|file| + 1) {
        assert file + [b] + more == file + ([b] + more);
        if !slot.Takes(|file| + 1 + |more|) {
          var fits := slot.room.value - |file|;
          assert file + [b] + more[..fits - 1] == file + ([b] + more)[..fits];
          assert r.files[f := file + [b]][f := file + [b] + more[..fits - 1]] == r.files[f := file + ([b] + more)[..fits]];
        } else {
          assert r.files[f := file + [b]][f := file + [b] + more] == r.files[f := file + ([b] + more)];
        }
      } else {
        assert file + ([b] + more)[..0] == file;
        assert r.files[f := file] == r.files;
      }
    }
  }

  lemma WriteNone(job: Job, r: Reader)
    requires r.k < |job.slots|
    requires r.fd.Some? && r.fd.value in r.files ==> job.slots[r.k].Takes(|r.files[r.fd.value]|)
    ensures WriteBytes(job, r, []) == r
  {
    if r.fd.Some? && r.fd.value in r.files {
      assert r.files[r.fd.value] + [] == r.files[r.fd.value];
      assert r.files[r.fd.value := r.files[r.fd.value]] == r.files;
    }
  }

  predicate InRoom(job: Job, r: Reader) {
    r.k < |job.slots| && (r.fd.Some? && r.fd.value in r.files ==> job.slots[r.k].Takes(|r.files[r.fd.value]|))
  }

  lemma WriteBytesKeepsLeft(job: Job, r: Reader, bytes: Bytes, left: nat)
    requires r.k < |job.slots|
    ensures WriteBytes(job, r.(left := left, phase := Body), bytes)
            == WriteBytes(job, r, bytes).(left := left, phase := Body)
  {
  }

  lemma BodyLeftOverrides(r: Reader, left: nat, last: nat)
    ensures BodyLeft(r.(left := left, phase := Body), last) == BodyLeft(r, last)
  {
  }

  lemma LastBodyByte(job: Job, r: Reader, b: Byte)
    requires InRoom(job, r)
    ensures WriteByte(job, r, b) == WriteBytes(job, r, [b])
    ensures r.left > 0 ==> InRoom(job, WriteByte(job, r, b))
  {
    WriteOneThenMore(job, r, b, []);
    assert [b] + [] == [b];
    WriteNone(job, WriteByte(job, r, b));
  }

  /** Bytes of a body, no more than it has left. */
  lemma {:induction false} FeedBodyBytes(job: Job, r: Reader, bytes: Bytes)
    requires InRoom(job, r) && r.phase == Body && 0 < |bytes| <= r.left
    ensures Feed(job, r, bytes) == BodyLeft(WriteBytes(job, r, bytes), r.left - |bytes|)
    decreases |bytes|
  {
    hide Feed, WriteBytes, WriteByte;
    var b, more := bytes[0], bytes[1..];
    assert bytes == [b] + more;
    FeedCons(job, r, b, more);
    LastBodyByte(job, r, b);
    var written := WriteByte(job, r, b);
    var next := BodyLeft(written, r.left - 1);
    assert Step(job, r, b) == next;
    if more != [] {
      FeedBodyBytes(job, next, more);
      WriteBytesKeepsLeft(job, written, more, r.left - 1);
      BodyLeftOverrides(WriteBytes(job, written, more), r.left - 1, r.left - |bytes|);
      WriteOneThenMore(job, r, b, more);
    } else {
      assert bytes == [b];
      FeedNone(job, next);
    }
  }

  /** The same from a header just read: `size` bytes announced, `bytes` of them come. */
  lemma FeedBody(job: Job, begun: Reader, size: nat, bytes: Bytes)
    requires InRoom(job, begun) && |bytes| <= size
    ensures Feed(job, BodyLeft(begun, size), bytes) == BodyLeft(WriteBytes(job, begun, bytes), size - |bytes|)
  {
    if bytes == [] {
      WriteNone(job, begun);
    } else {
      FeedBodyBytes(job, BodyLeft(begun, size), bytes);
      WriteBytesKeepsLeft(job, begun, bytes, size);
      BodyLeftOverrides(WriteBytes(job, begun, bytes), size, size - |bytes|);
    }
  }

  lemma FeedOne(job: Job, r: Reader, b: Byte)
    ensures Feed(job, r, [b]) == Step(job, r, b)
  {
    assert Feed(job, r, [b]) == Feed(job, Step(job, r, b), [b][1..]);
  }

  /** A header line whole. */
  lemma FeedLine(job: Job, r: Reader, line: Bytes)
    requires r.k < |job.slots| && r.phase == Header && r.header == [] && NEWLINE !in line
    ensures Feed(job, r, line + [NEWLINE]) == AfterHeader(job, r, line)
  {
    FeedAppend(job, r, line, [NEWLINE]);
    FeedHeaderBytes(job, r, line);
    FeedOne(job, r.(header := r.header + line), NEWLINE);
    assert r.header + line == line;
    assert r.(header := line).(header := []) == r;
  }

  lemma BeginInRoom(job: Job, r: Reader, blob: bool, size: nat)
    requires r.k < |job.slots| && r.fd.None?
    ensures InRoom(job, Begin(job, r, blob, size))
  {
  }

  /** A header line and as much of the body it announces as comes. */
  lemma FeedLineAndBody(job: Job, r: Reader, line: Bytes, blob: bool, size: nat, bytes: Bytes)
    requires r.k < |job.slots| && r.phase == Header && r.header == [] && r.fd.None? && NEWLINE !in line
    requires ReadHeader(job, line) == BodyOf(blob, size) && |bytes| <= size
    ensures Feed(job, r, line + [NEWLINE] + bytes)
            == BodyLeft(WriteBytes(job, Begin(job, r, blob, size), bytes), size - |bytes|)
  {
    FeedLine(job, r, line);
    BeginInRoom(job, r, blob, size);
    var begun := Begin(job, r, blob, size);
    assert AfterHeader(job, r, line) == BodyLeft(begun, size);
    hide *;
    FeedAppend(job, r, line + [NEWLINE], bytes);
    FeedBody(job, begun, size, bytes);
  }
}
