/**
 js/src/report.js: how a report's findings are divided for the engine (`batches`), and the text report, which
 comes in pieces cut anywhere, written line by line (`printReport`).
 */
module Report {
  import opened Common
  import opened Texts

  const BATCH: nat := 2000
  const BATCH_CHARS: nat := 0x80_0000

  // ---- batches --------------------------------------------------------------------------------------

  type Range = (nat, nat)

  /** A batch as large as it may be, and no larger: at most BATCH items and BATCH_CHARS characters, or one item; with the
      next item it would have been too large. */
  predicate IsBatch(sizes: seq<nat>, r: Range) {
    && r.0 < r.1 <= |sizes|
    && r.1 - r.0 <= BATCH
    && (Sum(sizes[r.0..r.1]) <= BATCH_CHARS || r.1 == r.0 + 1)
    && (r.1 == |sizes| || r.1 - r.0 == BATCH || Sum(sizes[r.0..r.1 + 1]) > BATCH_CHARS)
  }

  /** The batches are one after the other from 0 to `end`. */
  predicate Consecutive(ranges: seq<Range>, end: nat) {
    && (ranges == [] ==> end == 0)
    && (ranges != [] ==> ranges[0].0 == 0 && ranges[|ranges| - 1].1 == end)
    && forall k :: 0 <= k < |ranges| - 1 ==> ranges[k].1 == ranges[k + 1].0
  }

  lemma SumOn(sizes: seq<nat>, start: nat, k: nat)
    requires start <= k < |sizes|
    ensures Sum(sizes[start..k + 1]) == Sum(sizes[start..k]) + sizes[k]
  {
    SumPush(sizes[start..k], sizes[k]);
    assert sizes[start..k + 1] == sizes[start..k] + [sizes[k]];
  }

  predicate AreBatches(sizes: seq<nat>, ranges: seq<Range>, end: nat) {
    Consecutive(ranges, end) && forall k :: 0 <= k < |ranges| ==> IsBatch(sizes, ranges[k])
  }

  lemma BatchesPush(sizes: seq<nat>, ranges: seq<Range>, r: Range)
    requires AreBatches(sizes, ranges, r.0) && IsBatch(sizes, r)
    ensures AreBatches(sizes, ranges + [r], r.1)
  {
    hide IsBatch;
  }

  /** batches, of items with these many characters each. */
  method Batches(sizes: seq<nat>) returns (ranges: seq<Range>)
    ensures Consecutive(ranges, |sizes|) && forall k :: 0 <= k < |ranges| ==> IsBatch(sizes, ranges[k])
  {
    ranges := [];
    var start: nat, chars: nat := 0, 0;
    for k := 0 to |sizes|
      invariant start <= k && (k > 0 ==> start < k) && k - start <= BATCH
      invariant chars == Sum(sizes[start..k]) && (chars <= BATCH_CHARS || k == start + 1)
      invariant AreBatches(sizes, ranges, start)
    {
      hide AreBatches;
      var n := sizes[k];
      SumOn(sizes, start, k);
      if k > start && (k - start >= BATCH || chars + n > BATCH_CHARS) {
        BatchesPush(sizes, ranges, (start, k));
        ranges := ranges + [(start, k)];
        start := k;
        chars := 0;
        SumOn(sizes, k, k);
      }
      chars := chars + n;
    }
    if start < |sizes| {
      BatchesPush(sizes, ranges, (start, |sizes|));
      ranges := ranges + [(start, |sizes|)];
    }
  }

  /** The batches of a list, one after the other, are the list. */
  lemma {:induction false} BatchesJoin<T>(items: seq<T>, ranges: seq<Range>, end: nat)
    requires Consecutive(ranges, end) && end <= |items|
    requires forall k :: 0 <= k < |ranges| ==> ranges[k].0 <= ranges[k].1 <= end
    ensures Flatten(seq(|ranges|, k requires 0 <= k < |ranges| => items[ranges[k].0..ranges[k].1])) == items[..end]
  {
    var parts := seq(|ranges|, k requires 0 <= k < |ranges| => items[ranges[k].0..ranges[k].1]);
    if ranges != [] {
      var init, last := ranges[..|ranges| - 1], ranges[|ranges| - 1];
      var parts0 := seq(|init|, k requires 0 <= k < |init| => items[init[k].0..init[k].1]);
      assert parts == parts0 + [items[last.0..last.1]];
      if init == [] {
        assert Consecutive(init, 0);
        BatchesJoin(items, init, 0);
      } else {
        forall k | 0 <= k < |init| ensures init[k].1 <= last.0 {
          EndsRise(ranges, end, k);
        }
        BatchesJoin(items, init, last.0);
      }
      FlattenPush(parts0, items[last.0..last.1]);
      assert items[..last.0] + items[last.0..last.1] == items[..end];
    }
  }

  lemma {:induction false} EndsRise(ranges: seq<Range>, end: nat, k: nat)
    requires Consecutive(ranges, end) && (forall j :: 0 <= j < |ranges| ==> ranges[j].0 <= ranges[j].1) && k + 1 < |ranges|
    ensures ranges[k].1 <= ranges[|ranges| - 1].0
    decreases |ranges| - k
  {
    if k + 2 < |ranges| {
      EndsRise(ranges, end, k + 1);
    }
  }

  // ---- printReport ----------------------------------------------------------------------------------

  const NEWLINE: char := '\n'

  /** The lines of a text; what follows the last newline is one if it is not empty. */
  function Lines(text: string): seq<string> {
    var parts := Split(text, NEWLINE);
    if parts[|parts| - 1] == "" then parts[..|parts| - 1] else parts
  }

  /** Splitting what comes in two: only the last of the first's pieces is still open. */
  lemma {:induction false} SplitOn(a: string, b: string, sep: char)
    ensures var parts := Split(a, sep);
            Split(a + b, sep) == parts[..|parts| - 1] + Split(parts[|parts| - 1] + b, sep)
  {
    hide Split;
    if a == "" {
      SplitLast("", sep);
      assert Split(a, sep) == [""] && "" + b == b;
    } else {
      var c, a' := a[0], a[1..];
      SplitOn(a', b, sep);
      assert a == [c] + a' && a + b == [c] + (a' + b);
      SplitCons(c, a', sep);
      SplitCons(c, a' + b, sep);
      PushHead(Split(a', sep), b, c, sep);
    }
  }

  lemma PushHead(more: seq<string>, b: string, c: char, sep: char)
    requires more != []
    ensures var all := more[..|more| - 1] + Split(more[|more| - 1] + b, sep);
            var parts := if c == sep then [""] + more else [[c] + more[0]] + more[1..];
            (if c == sep then [""] + all else [[c] + all[0]] + all[1..])
            == parts[..|parts| - 1] + Split(parts[|parts| - 1] + b, sep)
  {
    hide Split;
    var last := more[|more| - 1];
    if c == sep {
      assert ([""] + more)[..|more|] == [""] + more[..|more| - 1];
    } else if |more| == 1 {
      SplitCons(c, last + b, sep);
      assert [c] + last + b == [c] + (last + b);
      assert [[c] + more[0]] + more[1..] == [[c] + last];
      assert more[..0] + Split(last + b, sep) == Split(last + b, sep);
    } else {
      var parts := [[c] + more[0]] + more[1..];
      assert parts[..|parts| - 1] == [[c] + more[0]] + more[1..|more| - 1];
      var all := more[..|more| - 1] + Split(last + b, sep);
      assert all[1..] == more[1..|more| - 1] + Split(last + b, sep);
    }
  }

  /** The lines have no newline in them, and with one between every two, and maybe one at the end, they are the text. */
  lemma LinesAre(text: string)
    ensures forall l :: l in Lines(text) ==> '\n' !in l
    ensures text == "" ==> Lines(text) == []
    ensures text != "" ==> Join(Lines(text), '\n') == if text[|text| - 1] == '\n' then text[..|text| - 1] else text
  {
    SplitPieces(text, '\n');
    var parts := Split(text, '\n');
    if text == "" {
      SplitLast("", '\n');
    } else if text[|text| - 1] == '\n' {
      var init := text[..|text| - 1];
      assert text == init + ['\n'] + "";
      SplitAt(init, "", '\n');
      SplitLast("", '\n');
      SplitPieces(init, '\n');
      assert Lines(text) == Split(init, '\n');
    } else if |parts| > 1 {
      JoinBoth(parts[..|parts| - 1], [parts[|parts| - 1]], '\n');
      assert parts == parts[..|parts| - 1] + [parts[|parts| - 1]];
    }
  }

  /** What is out and what is pending after some of the pieces. */
  ghost predicate Printed(pieces: seq<string>, k: nat, out: seq<string>, pending: string) {
    k <= |pieces| && Split(Flatten(pieces[..k]), NEWLINE) == out + [pending]
  }

  lemma PrintedOn(pieces: seq<string>, k: nat, out: seq<string>, pending: string)
    requires k < |pieces| && Printed(pieces, k, out, pending)
    ensures var lines := Split(pending + pieces[k], NEWLINE);
            Printed(pieces, k + 1, out + lines[..|lines| - 1], lines[|lines| - 1])
  {
    hide Split, Flatten;
    var a, lines := Flatten(pieces[..k]), Split(pending + pieces[k], NEWLINE);
    assert pieces[..k + 1] == pieces[..k] + [pieces[k]];
    FlattenPush(pieces[..k], pieces[k]);
    SplitOn(a, pieces[k], NEWLINE);
    assert (out + [pending])[..|out|] == out;
    assert lines == lines[..|lines| - 1] + [lines[|lines| - 1]];
    assert out + (lines[..|lines| - 1] + [lines[|lines| - 1]]) == out + lines[..|lines| - 1] + [lines[|lines| - 1]];
  }

  lemma PrintedAll(pieces: seq<string>, out: seq<string>, pending: string)
    requires Printed(pieces, |pieces|, out, pending)
    ensures Lines(Flatten(pieces)) == if pending == "" then out else out + [pending]
  {
    assert pieces[..|pieces|] == pieces;
    assert (out + [pending])[..|out|] == out;
  }

  /** printReport: the lines are those of the whole text, however it is cut into pieces. */
  method PrintReport(pieces: seq<string>) returns (out: seq<string>)
    ensures out == Lines(Flatten(pieces))
    ensures forall l :: l in out ==> '\n' !in l
    ensures var text := Flatten(pieces);
            && (text == "" ==> out == [])
            && (text != "" ==> Join(out, '\n') == if text[|text| - 1] == '\n' then text[..|text| - 1] else text)
  {
    LinesAre(Flatten(pieces));
    hide Lines, Join;
    out := [];
    var pending := "";
    SplitLast("", NEWLINE);
    for k := 0 to |pieces|
      invariant Printed(pieces, k, out, pending)
    {
      PrintedOn(pieces, k, out, pending);
      hide Printed, Split;
      var lines := Split(pending + pieces[k], NEWLINE);
      pending := lines[|lines| - 1];
      lines := lines[..|lines| - 1];
      out := out + lines;
    }
    PrintedAll(pieces, out, pending);
    if pending != "" {
      out := out + [pending];
    }
  }
}
