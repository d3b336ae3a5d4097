/**
 What js/src/hook.js (writeBlobs) promises of a commit's blobs: each is copied whole or said to have failed, once,
 wherever git's output stops (ExactlyOnce); and of what git prints, file k is blob k for every k not said to have
 failed, the ones that failed being exactly those git has no blob for, those that can't be created or written, and
 those cut off (Framing).
 */
module BlobFraming {
  import opened Common
  import opened GitBatch
  import opened BlobMachine

  // ---- Accounting, over any bytes at all -----------------------------------------

  /** The indices said to have failed. */
  function FailedOf(failed: seq<Failure>): set<nat> {
    set f | f in failed :: f.k
  }

  lemma FailedPush(failed: seq<Failure>, f: Failure)
    ensures FailedOf(failed + [f]) == FailedOf(failed) + {f.k}
  {
    assert forall g :: g in failed + [f] <==> g in failed || g == f;
  }

  /** The file has as many bytes as its header announced. */
  predicate Whole(files: map<nat, Bytes>, announced: map<nat, nat>, k: nat) {
    k in files && k in announced && |files[k]| == announced[k]
  }

  /** Each index at most once, in order. */
  predicate InOrder(failed: seq<Failure>) {
    forall a, b :: 0 <= a < b < |failed| ==> failed[a].k < failed[b].k
  }

  /** Of the first `n` blobs each has failed or is whole, and not both. */
  ghost predicate Accounted(r: Reader, n: nat) {
    forall k :: 0 <= k < n ==> (k in FailedOf(r.failed) <==> !Whole(r.files, r.announced, k))
  }

  /** What each phase knows of the blob being read. */
  ghost predicate Current(job: Job, r: Reader) {
    match r.phase
    case Header =>
      r.fd.None? && r.left == 0 && r.k !in r.files && r.k !in r.announced && r.k !in FailedOf(r.failed)
    case Body =>
      && r.k < |job.slots| && r.header == [] && r.left > 0
      && (r.fd.None? ==> r.k in FailedOf(r.failed) && !Whole(r.files, r.announced, r.k))
      && (r.fd.Some? ==>
          && r.fd.value == r.k && r.writing && r.k !in FailedOf(r.failed)
          && r.k in r.files && r.k in r.announced && |r.files[r.k]| + r.left == r.announced[r.k]
          && job.slots[r.k].Takes(|r.files[r.k]|))
    case Newline => r.k < |job.slots| && r.header == [] && r.left == 0 && r.fd.None? && Accounted(r, r.k + 1)
  }

  ghost predicate Inv(job: Job, r: Reader) {
    && r.k <= |job.slots|
    && InOrder(r.failed)
    && (forall k :: k in FailedOf(r.failed) ==> k <= r.k)
    && Accounted(r, r.k)
    && (forall k :: k > r.k ==> k !in r.files && k !in r.announced)
    && Current(job, r)
  }

  lemma FailInOrder(r: Reader, why: Why)
    requires InOrder(r.failed) && (forall k :: k in FailedOf(r.failed) ==> k < r.k)
    ensures InOrder(Fail(r, why).failed)
    ensures FailedOf(Fail(r, why).failed) == FailedOf(r.failed) + {r.k}
  {
    FailedPush(r.failed, Failure(r.k, why));
    assert forall j :: 0 <= j < |r.failed| ==> r.failed[j].k in FailedOf(r.failed);
  }

  lemma InvBegin(job: Job, r: Reader, blob: bool, size: nat)
    requires Inv(job, r) && r.k < |job.slots| && r.phase == Header && r.header == []
    ensures Inv(job, BodyLeft(Begin(job, r, blob, size), size))
  {
    hide FailedOf, InOrder;
    if !blob {
      FailInOrder(r, Unprinted);
    } else if job.slots[r.k].refusal.Some? {
      FailInOrder(r, WhyNotCopied(job.slots[r.k].refusal.value));
    }
  }

  lemma InvWriteByte(job: Job, r: Reader, b: Byte)
    requires Inv(job, r) && r.k < |job.slots| && r.phase == Body
    ensures Inv(job, BodyLeft(WriteByte(job, r, b), r.left - 1))
  {
    hide FailedOf, InOrder;
    if r.fd.Some? {
      FailInOrder(r, WhyNotCopied(job.slots[r.k].trouble));
    }
  }

  lemma InvStep(job: Job, r: Reader, b: Byte)
    requires Inv(job, r)
    ensures Inv(job, Step(job, r, b))
  {
    hide FailedOf, InOrder, Begin, BodyLeft, WriteByte;
    if r.k < |job.slots| {
      match r.phase
      case Header =>
        if b == NEWLINE {
          var line := r.(header := []);
          assert Inv(job, line);
          match ReadHeader(job, r.header)
          case NoBody => FailInOrder(line, Unprinted);
          case BodyOf(blob, size) => InvBegin(job, line, blob, size);
        }
      case Body => InvWriteByte(job, r, b);
      case Newline =>
    }
  }

  lemma {:induction false} InvFeed(job: Job, r: Reader, bytes: Bytes)
    requires Inv(job, r)
    ensures Inv(job, Feed(job, r, bytes))
    decreases |bytes|
  {
    hide Inv, Step;
    if bytes != [] {
      InvStep(job, r, bytes[0]);
      InvFeed(job, Step(job, r, bytes[0]), bytes[1..]);
    }
  }

  lemma {:induction false} RestIs(from: nat, to: nat, why: Why)
    requires from <= to
    ensures forall f :: f in Rest(from, to, why) ==> f.why == why && from <= f.k < to
    ensures forall k :: k in FailedOf(Rest(from, to, why)) <==> from <= k < to
    ensures InOrder(Rest(from, to, why))
    decreases if from < to then to - from else 0
  {
    if from < to {
      RestIs(from + 1, to, why);
      var more := Rest(from + 1, to, why);
      assert Rest(from, to, why) == [Failure(from, why)] + more;
      assert forall f :: f in Rest(from, to, why) <==> f == Failure(from, why) || f in more;
      assert FailedOf(Rest(from, to, why)) == {from} + FailedOf(more);
    }
  }

  lemma OrderConcat(a: seq<Failure>, b: seq<Failure>, n: nat)
    requires InOrder(a) && InOrder(b)
    requires (forall k :: k in FailedOf(a) ==> k < n) && (forall k :: k in FailedOf(b) ==> n <= k)
    ensures InOrder(a + b)
  {
    assert forall j :: 0 <= j < |a| ==> a[j].k in FailedOf(a);
    assert forall j :: 0 <= j < |b| ==> b[j].k in FailedOf(b);
  }

  lemma FailedConcat(a: seq<Failure>, b: seq<Failure>)
    ensures FailedOf(a + b) == FailedOf(a) + FailedOf(b)
  {
    assert forall f :: f in a + b <==> f in a || f in b;
  }

  ghost predicate Settled(r: Reader) {
    && InOrder(r.failed)
    && (forall k :: k in FailedOf(r.failed) ==> k < r.k)
    && Accounted(r, r.k)
  }

  lemma CutShortAccounts(job: Job, r: Reader)
    requires Inv(job, r) && r.k < |job.slots|
    ensures var cut := CutShort(r);
            r.k <= cut.k <= |job.slots| && Settled(cut) && forall k :: k >= cut.k ==> k !in cut.files
  {
    if r.phase == Body && r.fd.Some? {
      FailInOrder(r, Stopped);
    }
  }

  /** The accounting of a reader closed wherever it is. */
  lemma CloseAccounts(job: Job, r: Reader)
    requires Inv(job, r)
    ensures var end := Close(job, r);
            end.k == |job.slots| && end.fd.None? && Settled(end)
  {
    if r.k < |job.slots| {
      CutShortAccounts(job, r);
      var cut, end := CutShort(r), Close(job, r);
      var rest := Rest(cut.k, |job.slots|, Unprinted);
      RestIs(cut.k, |job.slots|, Unprinted);
      FailedConcat(cut.failed, rest);
      OrderConcat(cut.failed, rest, cut.k);
      hide FailedOf, InOrder, CutShort, Rest;
    }
  }

  /** Whatever bytes come, in whatever pieces, wherever they stop, and whichever creates and writes fail: every blob
      asked for is either copied whole or said to have failed, exactly once, and no descriptor stays open. */
  lemma ExactlyOnce(job: Job, chunks: seq<Bytes>)
    ensures var end := Close(job, FeedChunks(job, START, chunks));
            && end.fd.None? && InOrder(end.failed)
            && (forall k :: k in FailedOf(end.failed) ==> k < |job.slots|)
            && forall k :: 0 <= k < |job.slots| ==>
                 (k in FailedOf(end.failed) <==> !Whole(end.files, end.announced, k))
  {
    ChunkIndependence(job, START, chunks);
    InvFeed(job, START, Flatten(chunks));
    CloseAccounts(job, Feed(job, START, Flatten(chunks)));
    hide Close, FeedChunks, Feed, FailedOf, Whole, InOrder;
  }

  /** The promise of ExactlyOnce, of a reader whose stream has ended. */
  ghost predicate Accounts(job: Job, end: Reader) {
    && end.fd.None? && InOrder(end.failed)
    && (forall k :: k in FailedOf(end.failed) ==> k < |job.slots|)
    && Accounted(end, |job.slots|)
  }

  /** An error the process says after its output began (not of its start, which comes before any output) breaks the
      accounting if and only if the first blob is in hand: its descriptor is not closed, or a file copied whole is
      said to have failed. */
  lemma SpawnErrorAccounts(job: Job, r: Reader, spawnError: Option<string>)
    requires Inv(job, r) && job.slots != []
    ensures Accounts(job, CloseWith(job, r, spawnError)) <==>
            !(spawnError.Some? && r.k == 0 && r.failed == [] && r.phase != Header)
  {
    CloseAccounts(job, r);
    if spawnError.Some? && r.k == 0 && r.failed == [] {
      var why := GitFailed(spawnError.value);
      RestIs(0, |job.slots|, why);
      var end := CloseWith(job, r, spawnError);
      if r.phase == Newline {
        assert Whole(end.files, end.announced, 0) && 0 in FailedOf(end.failed);
      }
    }
  }

  // ---- Framing, over what git prints --------------------------------------------

  const MAX_SAFE: nat := 0x1F_FFFF_FFFF_FFFF

  /** Number reads a decimal size, up to the largest safe integer. */
  ghost predicate ReadsSizes(job: Job) {
    forall n: nat {:trigger Decimal(n)} :: n <= MAX_SAFE ==> job.sizeOf(Decimal(n)) == Some(n)
  }

  /** A reader of decimals does. */
  lemma DecimalsAreRead(slots: seq<Slot>)
    ensures ReadsSizes(Job(slots, w => DecimalOf(w, MAX_SAFE)))
  {
    forall n: nat | n <= MAX_SAFE ensures DecimalOf(Decimal(n), MAX_SAFE) == Some(n) {
      DecimalReadsBack(n, MAX_SAFE);
    }
  }

  predicate Printable(o: Object) {
    o.Proper() && (!o.NoObject? ==> |o.content| <= MAX_SAFE)
  }

  /** Why the file of `o` fails when only `arrived` bytes of its printing do (None: it is copied whole). */
  function WhyOf(slot: Slot, o: Object, arrived: nat): Option<Why> {
    if arrived <= |o.Header()| || !o.Blob? then Some(Unprinted)
    else if slot.refusal.Some? then Some(WhyNotCopied(slot.refusal.value))
    else
      var got := BodyArrived(o, arrived);
      if !slot.Takes(got) then Some(WhyNotCopied(slot.trouble))
      else if got < |o.content| then Some(Stopped)
      else None
  }

  /** How many bytes of the body are among the first `arrived` of the printing. */
  function BodyArrived(o: Object, arrived: nat): (n: nat)
    requires !o.NoObject?
    ensures n <= |o.content|
  {
    var past := arrived - |o.Header()| - 1;
    if past < 0 then 0 else if past > |o.content| then |o.content| else past
  }

  /** What is in its file then (None: no file). */
  function FileOf(slot: Slot, o: Object, arrived: nat): Option<Bytes> {
    if arrived <= |o.Header()| || !o.Blob? || slot.refusal.Some? then None
    else
      var got := BodyArrived(o, arrived);
      Some(o.content[..if slot.Takes(got) then got else slot.room.value])
  }

  function Less(a: nat, b: nat): nat {
    if a <= b then 0 else a - b
  }

  function Verdicts(job: Job, k: nat, objects: seq<Object>, arrived: nat): seq<Failure>
    requires k + |objects| <= |job.slots|
    decreases |objects|
  {
    if objects == [] then []
    else
      var why := WhyOf(job.slots[k], objects[0], arrived);
      (if why.Some? then [Failure(k, why.value)] else [])
      + Verdicts(job, k + 1, objects[1..], Less(arrived, |objects[0].Printed()|))
  }

  function Copies(job: Job, k: nat, objects: seq<Object>, arrived: nat): map<nat, Bytes>
    requires k + |objects| <= |job.slots|
    decreases |objects|
  {
    if objects == [] then map[]
    else
      var file := FileOf(job.slots[k], objects[0], arrived);
      (if file.Some? then map[k := file.value] else map[])
      + Copies(job, k + 1, objects[1..], Less(arrived, |objects[0].Printed()|))
  }

  predicate Between(r: Reader) {
    r.phase == Header && r.header == [] && r.left == 0 && r.fd.None? && !r.writing
  }

  /** The reader in the body of `o` once the bytes `q` of it came. */
  function InBody(job: Job, r: Reader, o: Object, q: Bytes): Reader
    requires r.k < |job.slots| && !o.NoObject? && |q| <= |o.content|
  {
    BodyLeft(WriteBytes(job, Begin(job, r, o.Blob?, |o.content|), q), |o.content| - |q|)
  }

  lemma HeaderSays(job: Job, o: Object)
    requires Printable(o) && ReadsSizes(job)
    ensures NEWLINE !in o.Header()
    ensures ReadHeader(job, o.Header()) == if o.NoObject? then NoBody else BodyOf(o.Blob?, |o.content|)
  {
    HeaderFields(o);
  }

  /** Such a reader there is: of one blob of one byte only the header came. */
  lemma SpawnErrorLeavesOpen(spawnError: string)
    ensures var job := Job([Slot(None, None, CollisionError)], w => DecimalOf(w, MAX_SAFE));
            var r := Feed(job, START, Object.Blob([97], [1]).Header() + [NEWLINE]);
            && Inv(job, r) && r.k == 0 && r.failed == [] && r.phase == Body
            && CloseWith(job, r, Some(spawnError)).fd.Some? && !Accounts(job, CloseWith(job, r, Some(spawnError)))
  {
    var job := Job([Slot(None, None, CollisionError)], w => DecimalOf(w, MAX_SAFE));
    var o := Object.Blob([97], [1]);
    assert IsWord(o.oid) && Printable(o);
    DecimalsAreRead(job.slots);
    HeaderSays(job, o);
    hide Printable, ReadsSizes, Object.Header;
    FeedLine(job, START, o.Header());
    InvFeed(job, START, o.Header() + [NEWLINE]);
  }

  lemma FeedIntoBody(job: Job, r: Reader, o: Object, q: Bytes)
    requires r.k < |job.slots| && Between(r) && Printable(o) && ReadsSizes(job)
    requires !o.NoObject? && q <= o.content
    ensures Feed(job, r, o.Header() + [NEWLINE] + q) == InBody(job, r, o, q)
  {
    assert r.phase == Header && r.header == [] && r.fd.None?;
    assert InBody(job, r, o, q)
        == BodyLeft(WriteBytes(job, Begin(job, r, o.Blob?, |o.content|), q), |o.content| - |q|);
    hide *;
    HeaderSays(job, o);
    FeedLineAndBody(job, r, o.Header(), o.Blob?, |o.content|, q);
  }

  /** What a reader that has read the bytes `q` of `o`'s body has of it. */
  lemma InBodyIs(job: Job, r: Reader, o: Object, q: Bytes)
    requires r.k < |job.slots| && Between(r) && !o.NoObject? && q <= o.content
    ensures var b, arrived := InBody(job, r, o, q), |o.Header()| + 1 + |q|;
            var why, file := WhyOf(job.slots[r.k], o, arrived), FileOf(job.slots[r.k], o, arrived);
            && b.k == r.k && b.header == []
            && b.phase == (if |q| == |o.content| then Newline else Body)
            && b.left == |o.content| - |q|
            && (b.phase == Body && b.fd.Some? <==> why == Some(Stopped))
            && (b.fd.Some? ==> b.writing)
            && b.failed == r.failed + (if why.Some? && why.value != Stopped then [Failure(r.k, why.value)] else [])
            && b.files == (if file.Some? then r.files[r.k := file.value] else r.files)
  {
    assert q == o.content[..|q|];
    assert r.failed + [] == r.failed;
    if o.Blob? && job.slots[r.k].refusal.None? {
      var slot := job.slots[r.k];
      assert [] + q == q;
      assert r.files[r.k := []][r.k := q] == r.files[r.k := q];
      if !slot.Takes(|q|) {
        var fits := slot.room.value;
        assert [] + q[..fits] == o.content[..fits];
        assert r.files[r.k := []][r.k := o.content[..fits]] == r.files[r.k := o.content[..fits]];
      }
    }
  }

  /** A reader one object on. */
  ghost predicate Past(job: Job, r: Reader, o: Object, after: Reader)
    requires r.k < |job.slots|
  {
    var why, file := WhyOf(job.slots[r.k], o, |o.Printed()|), FileOf(job.slots[r.k], o, |o.Printed()|);
    && Between(after) && after.k == r.k + 1
    && after.failed == r.failed + (if why.Some? then [Failure(r.k, why.value)] else [])
    && after.files == (if file.Some? then r.files[r.k := file.value] else r.files)
  }

  /** One whole object. */
  lemma FeedObject(job: Job, r: Reader, o: Object)
    requires r.k < |job.slots| && Between(r) && Printable(o) && ReadsSizes(job)
    ensures Past(job, r, o, Feed(job, r, o.Printed()))
  {
    if o.NoObject? {
      HeaderSays(job, o);
      FeedLine(job, r, o.Header());
    } else {
      FeedIntoBody(job, r, o, o.content);
      FeedAppend(job, r, o.Header() + [NEWLINE] + o.content, [NEWLINE]);
      var b := InBody(job, r, o, o.content);
      FeedOne(job, b, NEWLINE);
      InBodyIs(job, r, o, o.content);
      hide Feed, WriteBytes, Begin, FileOf, WhyOf;
    }
  }

  /** A reader closed with `n` bytes of `o` come. */
  ghost predicate ClosedIn(job: Job, r: Reader, o: Object, n: nat, end: Reader)
    requires r.k < |job.slots|
  {
    var why, file := WhyOf(job.slots[r.k], o, n), FileOf(job.slots[r.k], o, n);
    && end.failed == r.failed + (if why.Some? then [Failure(r.k, why.value)] else [])
                     + Rest(r.k + 1, |job.slots|, Unprinted)
    && end.files == (if file.Some? then r.files[r.k := file.value] else r.files)
  }

  lemma CutInHeader(job: Job, r: Reader, o: Object, p: Bytes)
    requires r.k < |job.slots| && Between(r) && Printable(o) && ReadsSizes(job)
    requires p <= o.Header()
    ensures ClosedIn(job, r, o, |p|, Close(job, Feed(job, r, p)))
  {
    HeaderSays(job, o);
    assert p == o.Header()[..|p|];
    FeedHeaderBytes(job, r, p);
    assert r.failed + Rest(r.k, |job.slots|, Unprinted)
        == r.failed + [Failure(r.k, Unprinted)] + Rest(r.k + 1, |job.slots|, Unprinted);
  }

  lemma CloseInBody(job: Job, r: Reader, o: Object, q: Bytes)
    requires r.k < |job.slots| && Between(r) && !o.NoObject? && q <= o.content
    ensures ClosedIn(job, r, o, |o.Header()| + 1 + |q|, Close(job, InBody(job, r, o, q)))
  {
    InBodyIs(job, r, o, q);
    hide InBody, FileOf, WhyOf, Object.Header;
  }

  lemma CutInBody(job: Job, r: Reader, o: Object, q: Bytes)
    requires r.k < |job.slots| && Between(r) && Printable(o) && ReadsSizes(job)
    requires !o.NoObject? && q <= o.content
    ensures ClosedIn(job, r, o, |o.Header()| + 1 + |q|, Close(job, Feed(job, r, o.Header() + [NEWLINE] + q)))
  {
    hide *;
    FeedIntoBody(job, r, o, q);
    CloseInBody(job, r, o, q);
  }

  lemma CutPoint(header: Bytes, content: Bytes, p: Bytes) returns (q: Bytes)
    requires p <= header + [NEWLINE] + content + [NEWLINE]
    requires |header| < |p| <= |header| + 1 + |content|
    ensures p == header + [NEWLINE] + q && q <= content && |p| == |header| + 1 + |q|
  {
    q := p[|header| + 1..];
    var printed := header + [NEWLINE] + content + [NEWLINE];
    assert p == printed[..|p|];
    assert forall j :: 0 <= j < |q| ==> q[j] == printed[|header| + 1 + j];
    assert p[..|header| + 1] == header + [NEWLINE];
  }

  /** An object cut short. */
  lemma CutObject(job: Job, r: Reader, o: Object, p: Bytes)
    requires r.k < |job.slots| && Between(r) && Printable(o) && ReadsSizes(job)
    requires p <= o.Printed() && |p| < |o.Printed()|
    ensures ClosedIn(job, r, o, |p|, Close(job, Feed(job, r, p)))
  {
    hide Feed, Close, ClosedIn, Between, ReadsSizes, Printable, Object.Header, Object.Proper;
    if |p| <= |o.Header()| {
      assert p == o.Header()[..|p|];
      CutInHeader(job, r, o, p);
    } else {
      var q := CutPoint(o.Header(), o.content, p);
      CutInBody(job, r, o, q);
    }
  }

  lemma FirstNotArrived(slot: Slot, o: Object)
    ensures WhyOf(slot, o, 0) == Some(Unprinted) && FileOf(slot, o, 0) == None
  {
    hide Object.Header;
  }

  lemma {:induction false} NoneArrived(job: Job, k: nat, objects: seq<Object>)
    requires k + |objects| == |job.slots|
    ensures Verdicts(job, k, objects, 0) == Rest(k, |job.slots|, Unprinted)
    ensures Copies(job, k, objects, 0) == map[]
    decreases |objects|
  {
    hide WhyOf, FileOf, Object.Printed;
    if objects != [] {
      FirstNotArrived(job.slots[k], objects[0]);
      NoneArrived(job, k + 1, objects[1..]);
    }
  }

  lemma {:induction false} CopiesAfter(job: Job, k: nat, objects: seq<Object>, arrived: nat)
    requires k + |objects| <= |job.slots|
    ensures forall i :: i in Copies(job, k, objects, arrived) ==> k <= i
    decreases |objects|
  {
    if objects != [] {
      CopiesAfter(job, k + 1, objects[1..], Less(arrived, |objects[0].Printed()|));
    }
  }

  /** A reader closed after the first `n` bytes of what git prints for `objects`. */
  ghost predicate ClosedAfter(job: Job, r: Reader, objects: seq<Object>, n: nat, end: Reader)
    requires r.k + |objects| == |job.slots|
  {
    && end.failed == r.failed + Verdicts(job, r.k, objects, n)
    && end.files == r.files + Copies(job, r.k, objects, n)
  }

  lemma ClosedInFirst(job: Job, r: Reader, objects: seq<Object>, n: nat, end: Reader)
    requires r.k + |objects| == |job.slots| && objects != [] && n < |objects[0].Printed()|
    requires ClosedIn(job, r, objects[0], n, end)
    ensures ClosedAfter(job, r, objects, n, end)
  {
    hide WhyOf, FileOf, Object.Printed;
    NoneArrived(job, r.k + 1, objects[1..]);
    assert Less(n, |objects[0].Printed()|) == 0;
  }

  lemma WholeOnceArrived(slot: Slot, o: Object, n: nat)
    requires n >= |o.Printed()|
    ensures WhyOf(slot, o, n) == WhyOf(slot, o, |o.Printed()|)
    ensures FileOf(slot, o, n) == FileOf(slot, o, |o.Printed()|)
  {
    hide Object.Header;
  }

  lemma ClosedPastFirst(job: Job, r: Reader, objects: seq<Object>, n: nat, after: Reader, end: Reader)
    requires r.k + |objects| == |job.slots| && objects != [] && n >= |objects[0].Printed()|
    requires Past(job, r, objects[0], after)
    requires after.k == r.k + 1 && ClosedAfter(job, after, objects[1..], n - |objects[0].Printed()|, end)
    ensures ClosedAfter(job, r, objects, n, end)
  {
    hide WhyOf, FileOf, Object.Printed;
    WholeOnceArrived(job.slots[r.k], objects[0], n);
    var file := FileOf(job.slots[r.k], objects[0], n);
    var more := Copies(job, r.k + 1, objects[1..], n - |objects[0].Printed()|);
    if file.Some? {
      assert r.files[r.k := file.value] + more == r.files + (map[r.k := file.value] + more);
    }
  }

  lemma SplitAtFirst(objects: seq<Object>, p: Bytes) returns (q: Bytes)
    requires objects != [] && p <= PrintedAll(objects) && |p| >= |objects[0].Printed()|
    ensures p == objects[0].Printed() + q && q <= PrintedAll(objects[1..]) && |q| == |p| - |objects[0].Printed()|
  {
    hide Object.Printed;
    var first, more := objects[0].Printed(), PrintedAll(objects[1..]);
    assert PrintedAll(objects) == first + more;
    q := p[|first|..];
    assert p == (first + more)[..|p|];
    assert p[..|first|] == first;
    assert q == more[..|q|];
  }

  lemma {:induction false} FramedFrom(job: Job, r: Reader, objects: seq<Object>, p: Bytes)
    requires Between(r) && r.k + |objects| == |job.slots| && ReadsSizes(job)
    requires forall o :: o in objects ==> Printable(o)
    requires p <= PrintedAll(objects)
    ensures ClosedAfter(job, r, objects, |p|, Close(job, Feed(job, r, p)))
    decreases |objects|
  {
    if objects == [] {
      assert r.failed + [] == r.failed;
      FeedNone(job, r);
    } else {
      hide Feed, Close, ClosedAfter, Printable, ReadsSizes, Object.Printed, PrintedAll;
      var o, more := objects[0], objects[1..];
      if |p| < |o.Printed()| {
        assert p <= o.Printed() by { PrefixOfFirst(objects, p); }
        CutObject(job, r, o, p);
        ClosedInFirst(job, r, objects, |p|, Close(job, Feed(job, r, p)));
      } else {
        var q := SplitAtFirst(objects, p);
        FeedAppend(job, r, o.Printed(), q);
        FeedObject(job, r, o);
        var after := Feed(job, r, o.Printed());
        FramedFrom(job, after, more, q);
        ClosedPastFirst(job, r, objects, |p|, after, Close(job, Feed(job, r, p)));
      }
    }
  }

  lemma PrefixOfFirst(objects: seq<Object>, p: Bytes)
    requires objects != [] && p <= PrintedAll(objects) && |p| < |objects[0].Printed()|
    ensures p <= objects[0].Printed()
  {
    hide Object.Printed;
    assert PrintedAll(objects) == objects[0].Printed() + PrintedAll(objects[1..]);
  }

  /** What git prints for the objects asked for, cut off anywhere and in any pieces, leaves exactly these failures and
      these files. */
  lemma Framing(job: Job, objects: seq<Object>, chunks: seq<Bytes>)
    requires |objects| == |job.slots| && ReadsSizes(job)
    requires forall o :: o in objects ==> Printable(o)
    requires Flatten(chunks) <= PrintedAll(objects)
    ensures var end := Close(job, FeedChunks(job, START, chunks));
            && end.failed == Verdicts(job, 0, objects, |Flatten(chunks)|)
            && end.files == Copies(job, 0, objects, |Flatten(chunks)|)
  {
    hide Feed, FeedChunks, Close, Flatten, PrintedAll, Verdicts, Copies, Printable, ReadsSizes;
    ChunkIndependence(job, START, chunks);
    FramedFrom(job, START, objects, Flatten(chunks));
    var end := Close(job, FeedChunks(job, START, chunks));
    assert [] + Verdicts(job, 0, objects, |Flatten(chunks)|) == Verdicts(job, 0, objects, |Flatten(chunks)|);
    assert map[] + Copies(job, 0, objects, |Flatten(chunks)|) == Copies(job, 0, objects, |Flatten(chunks)|);
  }

  // ---- Object by object -----------------------------------------------------------

  /** How many of the bytes that arrived are of object `i` or later. */
  function ArrivedFrom(objects: seq<Object>, i: nat, arrived: nat): nat
    requires i <= |objects|
    decreases i
  {
    if i == 0 then arrived else ArrivedFrom(objects[1..], i - 1, Less(arrived, |objects[0].Printed()|))
  }

  lemma VerdictsSplit(job: Job, k: nat, objects: seq<Object>, arrived: nat)
    requires k + |objects| <= |job.slots| && objects != []
    ensures var o, left := objects[0], Less(arrived, |objects[0].Printed()|);
            var why, file := WhyOf(job.slots[k], o, arrived), FileOf(job.slots[k], o, arrived);
            && FailedOf(Verdicts(job, k, objects, arrived))
               == (if why.Some? then {k} else {}) + FailedOf(Verdicts(job, k + 1, objects[1..], left))
            && Copies(job, k, objects, arrived)
               == (if file.Some? then map[k := file.value] else map[]) + Copies(job, k + 1, objects[1..], left)
  {
    hide WhyOf, FileOf, Object.Printed;
    var why, left := WhyOf(job.slots[k], objects[0], arrived), Less(arrived, |objects[0].Printed()|);
    if why.Some? {
      FailedConcat([Failure(k, why.value)], Verdicts(job, k + 1, objects[1..], left));
      FailedPush([], Failure(k, why.value));
      assert [] + [Failure(k, why.value)] == [Failure(k, why.value)];
    } else {
      assert [] + Verdicts(job, k + 1, objects[1..], left) == Verdicts(job, k + 1, objects[1..], left);
    }
  }

  lemma {:induction false} VerdictsFrom(job: Job, k: nat, objects: seq<Object>, arrived: nat)
    requires k + |objects| <= |job.slots|
    ensures forall i :: i in FailedOf(Verdicts(job, k, objects, arrived)) ==> k <= i
    ensures forall i :: i in Copies(job, k, objects, arrived) ==> k <= i
    decreases |objects|
  {
    hide *;
    if objects == [] {
      NoVerdicts(job, k, arrived);
    } else {
      VerdictsSplit(job, k, objects, arrived);
      VerdictsFrom(job, k + 1, objects[1..], Less(arrived, |objects[0].Printed()|));
    }
  }

  lemma NoVerdicts(job: Job, k: nat, arrived: nat)
    requires k <= |job.slots|
    ensures FailedOf(Verdicts(job, k, [], arrived)) == {} && Copies(job, k, [], arrived) == map[]
  {
  }

  ghost predicate VerdictIs(job: Job, k: nat, objects: seq<Object>, arrived: nat, i: nat, n: nat)
    requires k + |objects| <= |job.slots| && i < |objects|
  {
    var why, file := WhyOf(job.slots[k + i], objects[i], n), FileOf(job.slots[k + i], objects[i], n);
    && (k + i in FailedOf(Verdicts(job, k, objects, arrived)) <==> why.Some?)
    && (k + i in Copies(job, k, objects, arrived) <==> file.Some?)
    && (file.Some? ==> Copies(job, k, objects, arrived)[k + i] == file.value)
  }

  lemma VerdictOfFirst(job: Job, k: nat, objects: seq<Object>, arrived: nat)
    requires k + |objects| <= |job.slots| && objects != []
    ensures VerdictIs(job, k, objects, arrived, 0, arrived)
  {
    hide WhyOf, FileOf, Object.Printed, FailedOf, Verdicts, Copies;
    VerdictsSplit(job, k, objects, arrived);
    VerdictsFrom(job, k + 1, objects[1..], Less(arrived, |objects[0].Printed()|));
  }

  lemma VerdictOfLater(job: Job, k: nat, objects: seq<Object>, arrived: nat, i: nat, n: nat)
    requires k + |objects| <= |job.slots| && i + 1 < |objects|
    requires VerdictIs(job, k + 1, objects[1..], Less(arrived, |objects[0].Printed()|), i, n)
    ensures VerdictIs(job, k, objects, arrived, i + 1, n)
  {
    hide WhyOf, FileOf, Object.Printed, FailedOf, Verdicts, Copies;
    VerdictsSplit(job, k, objects, arrived);
    assert objects[1..][i] == objects[i + 1];
  }

  lemma {:induction false} VerdictAt(job: Job, k: nat, objects: seq<Object>, arrived: nat, i: nat)
    requires k + |objects| <= |job.slots| && i < |objects|
    ensures VerdictIs(job, k, objects, arrived, i, ArrivedFrom(objects, i, arrived))
    decreases |objects|
  {
    hide VerdictIs, Object.Printed, Less;
    if i == 0 {
      VerdictOfFirst(job, k, objects, arrived);
    } else {
      var left := Less(arrived, |objects[0].Printed()|);
      VerdictAt(job, k + 1, objects[1..], left, i - 1);
      VerdictOfLater(job, k, objects, arrived, i - 1, ArrivedFrom(objects[1..], i - 1, left));
    }
  }

  predicate Copied(end: Reader, o: Object, i: nat) {
    o.Blob? && i in end.files && end.files[i] == o.content
  }

  lemma CopiedUnlessFailed(slot: Slot, o: Object, n: nat)
    ensures WhyOf(slot, o, n).None? <==> o.Blob? && FileOf(slot, o, n) == Some(o.content)
                                         && n > |o.Header()| && BodyArrived(o, n) == |o.content|
    ensures n >= |o.Printed()| ==>
              (WhyOf(slot, o, n).Some? <==> !o.Blob? || slot.refusal.Some? || !slot.Takes(|o.content|))
    ensures WhyOf(slot, o, n).Some? ==> !o.Blob? || FileOf(slot, o, n) != Some(o.content)
  {
    hide Object.Header;
    if o.Blob? {
      assert o.content[..|o.content|] == o.content;
    }
  }

  lemma {:induction false} AllArrived(objects: seq<Object>, i: nat)
    requires i < |objects|
    ensures ArrivedFrom(objects, i, |PrintedAll(objects)|) >= |objects[i].Printed()|
    decreases i
  {
    hide Object.Printed;
    if i > 0 {
      AllArrived(objects[1..], i - 1);
    }
  }

  /** Of the objects git prints: file `i` is blob `i` unless `i` is said to have failed; and when the whole output
      came, the ones that failed are those with no blob, those that can't be created and those too large for the disk. */
  lemma CopiedExactly(job: Job, objects: seq<Object>, chunks: seq<Bytes>, i: nat)
    requires |objects| == |job.slots| && ReadsSizes(job)
    requires forall o :: o in objects ==> Printable(o)
    requires Flatten(chunks) <= PrintedAll(objects)
    requires i < |objects|
    ensures var end := Close(job, FeedChunks(job, START, chunks));
            && (i in FailedOf(end.failed) <==> !Copied(end, objects[i], i))
            && (Flatten(chunks) == PrintedAll(objects) ==>
                  (i in FailedOf(end.failed) <==>
                    !objects[i].Blob? || job.slots[i].refusal.Some? || !job.slots[i].Takes(|objects[i].content|)))
  {
    hide Feed, FeedChunks, Close, Flatten, PrintedAll, Verdicts, Copies, Printable, ReadsSizes, WhyOf, FileOf,
      ArrivedFrom, Object.Printed, Object.Header, FailedOf;
    Framing(job, objects, chunks);
    var arrived := |Flatten(chunks)|;
    var n := ArrivedFrom(objects, i, arrived);
    VerdictAt(job, 0, objects, arrived, i);
    CopiedUnlessFailed(job.slots[i], objects[i], n);
    AllArrived(objects, i);
  }

  // ---- Why, and what is in the files ------------------------------------------------

  /** Of blob `i` one failure is said, this one. */
  ghost predicate OnlySays(failed: seq<Failure>, i: nat, why: Why) {
    Failure(i, why) in failed && forall f :: f in failed && f.k == i ==> f.why == why
  }

  /** What is said of blob `i`, and what its file holds, if `n` bytes of what git prints of object `o` came. */
  ghost predicate Settles(slot: Slot, o: Object, n: int, failed: seq<Failure>, files: map<nat, Bytes>, i: nat) {
    var size := |o.Header()| + 1;
    if !o.Blob? || n < size then
      OnlySays(failed, i, Unprinted) && i !in files
    else if slot.refusal.Some? then
      && i !in files
      && match slot.refusal.value
         case CollisionError => OnlySays(failed, i, Collision)
         case OtherError(text) => OnlySays(failed, i, NotCopied(text))
    else
      var came := if n - size < |o.content| then n - size else |o.content|;
      if slot.room.Some? && slot.room.value < came then
        && i in files && files[i] == o.content[..slot.room.value]
        && match slot.trouble
           case CollisionError => OnlySays(failed, i, Collision)
           case OtherError(text) => OnlySays(failed, i, NotCopied(text))
      else
        && i in files && files[i] == o.content[..came]
        && if came < |o.content| then OnlySays(failed, i, Stopped) else forall f :: f in failed ==> f.k != i
  }

  lemma ArrivedIs(objects: seq<Object>, i: nat, arrived: nat)
    requires i <= |objects|
    ensures ArrivedFrom(objects, i, arrived) == Less(arrived, |PrintedAll(objects[..i])|)
    decreases i
  {
    hide Object.Printed;
    if i > 0 {
      ArrivedIs(objects[1..], i - 1, Less(arrived, |objects[0].Printed()|));
      assert objects[..i][1..] == objects[1..][..i - 1];
    }
  }

  /** The only verdict on object `i` is WhyOf's. */
  lemma {:induction false} VerdictSays(job: Job, k: nat, objects: seq<Object>, arrived: nat, i: nat)
    requires k + |objects| <= |job.slots| && i < |objects|
    ensures forall f :: f in Verdicts(job, k, objects, arrived) && f.k == k + i ==>
              WhyOf(job.slots[k + i], objects[i], ArrivedFrom(objects, i, arrived)) == Some(f.why)
    decreases |objects|
  {
    hide WhyOf, Object.Printed, Less;
    var left := Less(arrived, |objects[0].Printed()|);
    VerdictsFrom(job, k + 1, objects[1..], left);
    assert forall f :: f in Verdicts(job, k + 1, objects[1..], left) ==>
        f.k in FailedOf(Verdicts(job, k + 1, objects[1..], left));
    if i > 0 {
      VerdictSays(job, k + 1, objects[1..], left, i - 1);
    }
  }

  /** The verdict and the file of one object. */
  lemma SettlesIf(slot: Slot, o: Object, n: nat, failed: seq<Failure>, files: map<nat, Bytes>, i: nat)
    requires WhyOf(slot, o, n).Some? ==> OnlySays(failed, i, WhyOf(slot, o, n).value)
    requires WhyOf(slot, o, n).None? ==> forall f :: f in failed ==> f.k != i
    requires i in files <==> FileOf(slot, o, n).Some?
    requires FileOf(slot, o, n).Some? ==> files[i] == FileOf(slot, o, n).value
    ensures Settles(slot, o, n, failed, files, i)
  {
    hide Object.Header, OnlySays;
  }

  lemma NoneCame(slot: Slot, o: Object, n: int, failed: seq<Failure>, files: map<nat, Bytes>, i: nat)
    ensures forall a: nat, b: nat :: a - b == n && n >= 0 ==> Less(a, b) == n
    ensures forall a: nat, b: nat :: a - b == n && n < 0 ==> Less(a, b) == 0
    ensures n < 0 ==> (Settles(slot, o, n, failed, files, i) <==> Settles(slot, o, 0, failed, files, i))
  {
  }

  /** `objects` are what `job` wants, and `chunks` are what git prints of them or the beginning of that. */
  ghost predicate GitPrints(job: Job, objects: seq<Object>, chunks: seq<Bytes>) {
    && |objects| == |job.slots| && ReadsSizes(job) && (forall o :: o in objects ==> Printable(o))
    && Flatten(chunks) <= PrintedAll(objects)
  }

  ghost predicate SettlesAll(job: Job, objects: seq<Object>, chunks: seq<Bytes>, failed: seq<Failure>,
                             files: map<nat, Bytes>)
  {
    && |objects| == |job.slots|
    && forall i :: 0 <= i < |objects| ==>
         Settles(job.slots[i], objects[i], |Flatten(chunks)| - |PrintedAll(objects[..i])|, failed, files, i)
  }

  /** With git's printing of these objects cut off after the bytes of `chunks`: of each blob the reason, and its file. */
  lemma Reasons(job: Job, objects: seq<Object>, chunks: seq<Bytes>)
    requires GitPrints(job, objects, chunks)
    ensures var end := Close(job, FeedChunks(job, START, chunks));
            SettlesAll(job, objects, chunks, end.failed, end.files)
  {
    hide Settles, Close, FeedChunks, Flatten, PrintedAll, Printable, ReadsSizes;
    var end := Close(job, FeedChunks(job, START, chunks));
    forall i | 0 <= i < |objects|
      ensures Settles(job.slots[i], objects[i], |Flatten(chunks)| - |PrintedAll(objects[..i])|, end.failed, end.files, i)
    {
      ReasonOf(job, objects, chunks, i);
    }
  }

  lemma ReasonOf(job: Job, objects: seq<Object>, chunks: seq<Bytes>, i: nat)
    requires GitPrints(job, objects, chunks) && i < |objects|
    ensures var end := Close(job, FeedChunks(job, START, chunks));
            Settles(job.slots[i], objects[i], |Flatten(chunks)| - |PrintedAll(objects[..i])|, end.failed, end.files, i)
  {
    hide Feed, FeedChunks, Close, Flatten, PrintedAll, Verdicts, Copies, Printable, ReadsSizes, WhyOf, FileOf, ArrivedFrom,
      Object.Printed, Object.Header, Settles, Less;
    Framing(job, objects, chunks);
    var end, arrived := Close(job, FeedChunks(job, START, chunks)), |Flatten(chunks)|;
    VerdictAt(job, 0, objects, arrived, i);
    VerdictSays(job, 0, objects, arrived, i);
    ArrivedIs(objects, i, arrived);
    SettlesIf(job.slots[i], objects[i], ArrivedFrom(objects, i, arrived), end.failed, end.files, i);
    NoneCame(job.slots[i], objects[i], arrived - |PrintedAll(objects[..i])|, end.failed, end.files, i);
  }

  /** A failure of any stream: its reason is that of the blob's own place on the disk, or of the stream. */
  ghost predicate HasReason(job: Job, f: Failure) {
    f.k < |job.slots| &&
    match f.why
    case Collision =>
      || job.slots[f.k].refusal == Some(CollisionError)
      || (job.slots[f.k].refusal.None? && job.slots[f.k].room.Some? && job.slots[f.k].trouble == CollisionError)
    case NotCopied(text) =>
      || job.slots[f.k].refusal == Some(OtherError(text))
      || (job.slots[f.k].refusal.None? && job.slots[f.k].room.Some? && job.slots[f.k].trouble == OtherError(text))
    case _ => f.why == Unprinted || (f.why == Stopped && job.slots[f.k].refusal.None?)
  }

  ghost predicate HaveReasons(job: Job, r: Reader) {
    && (forall f :: f in r.failed ==> HasReason(job, f))
    && (r.fd.Some? ==> r.fd.value == r.k < |job.slots| && job.slots[r.k].refusal.None?)
    && (r.phase != Body ==> r.fd.None?)
  }

  lemma {:induction false} FeedReasons(job: Job, r: Reader, bytes: Bytes)
    requires HaveReasons(job, r)
    ensures HaveReasons(job, Feed(job, r, bytes))
    decreases |bytes|
  {
    if bytes != [] {
      StepReasons(job, r, bytes[0]);
      hide HaveReasons, Step;
      FeedReasons(job, Step(job, r, bytes[0]), bytes[1..]);
    }
  }

  lemma StepReasons(job: Job, r: Reader, b: Byte)
    requires HaveReasons(job, r)
    ensures HaveReasons(job, Step(job, r, b))
  {
    if r.k < |job.slots| {
      match r.phase
      case Header => BeginReasons(job, r.(header := []), r.header);
      case Body => WriteReasons(job, r, b);
      case Newline =>
    }
    hide ReadHeader, HasReason, AfterHeader, WriteByte;
  }

  lemma BeginReasons(job: Job, r: Reader, line: Bytes)
    requires HaveReasons(job, r) && r.k < |job.slots| && r.phase == Header
    ensures HaveReasons(job, AfterHeader(job, r, line))
  {
    assert HasReason(job, Failure(r.k, Unprinted));
    assert job.slots[r.k].refusal.Some? ==> HasReason(job, Failure(r.k, WhyNotCopied(job.slots[r.k].refusal.value)));
    hide ReadHeader, HasReason, WhyNotCopied;
  }

  lemma WriteReasons(job: Job, r: Reader, b: Byte)
    requires HaveReasons(job, r) && r.k < |job.slots| && r.phase == Body
    ensures HaveReasons(job, WriteByte(job, r, b)) && WriteByte(job, r, b).k == r.k
  {
    assert r.fd.Some? && job.slots[r.k].room.Some? ==> HasReason(job, Failure(r.k, WhyNotCopied(job.slots[r.k].trouble)));
    hide HasReason, WhyNotCopied;
  }

  lemma {:induction false} RestReasons(job: Job, from: nat, why: Why)
    requires why == Unprinted
    ensures forall f :: f in Rest(from, |job.slots|, why) ==> HasReason(job, f)
    decreases |job.slots| - from
  {
    if from < |job.slots| {
      RestReasons(job, from + 1, why);
    }
  }

  /** Whatever bytes come, each failure has a reason of its own. */
  lemma AnyReasons(job: Job, chunks: seq<Bytes>)
    ensures forall f :: f in Close(job, FeedChunks(job, START, chunks)).failed ==> HasReason(job, f)
  {
    ChunkIndependence(job, START, chunks);
    FeedReasons(job, START, Flatten(chunks));
    var r := Feed(job, START, Flatten(chunks));
    hide Feed, FeedChunks, Flatten;
    if r.k < |job.slots| {
      RestReasons(job, CutShort(r).k, Unprinted);
    }
  }

  /** One failure of each, in order. */
  lemma {:induction false} RestSays(first: nat, count: nat, why: Why)
    requires first <= count
    ensures |Rest(first, count, why)| == count - first
    ensures forall i :: 0 <= i < count - first ==> Rest(first, count, why)[i] == Failure(first + i, why)
    decreases count - first
  {
    if first < count {
      RestSays(first + 1, count, why);
    }
  }
}
