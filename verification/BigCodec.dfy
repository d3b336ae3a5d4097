/**
 A codec whose tables do not fit (scripts/make_codec_tables.py, cjk_tables): its characters are of three bytes, and no two
 first pairs of bytes share a row. However its rows are placed they take more than the rows' tag range has room for, and
 so some bytes are read otherwise than its decoder reads them.
 */
module BigCodec {
  import opened Common
  import opened CodecTables

  const ROWS: nat := 0x10000
  const ROW_SIZE: nat := 258

  function PairOf(b1: Byte, b2: Byte): nat {
    256 * b1 + b2
  }

  /** The character of the three bytes: sixteen of each first pair. */
  function CharOf(pair: nat, b3: Byte): CodePoint
    requires pair < ROWS
  {
    16 * pair + b3 % 16
  }

  function Outcome(bytes: Bytes): Seen {
    if |bytes| < 3 then More else Chars([CharOf(PairOf(bytes[0], bytes[1]), bytes[2])])
  }

  const BIG := Codec(Outcome, false, false)

  /** `pair`'s row is in the list at `at`. */
  ghost predicate IsRow(flat: seq<nat>, at: nat, pair: nat) {
    && pair < ROWS && at + ROW_SIZE <= |flat| && flat[at] == 0 && flat[at + 1] == 255
    && forall b3: Byte :: flat[at + 2 + b3] == CharOf(pair, b3)
  }

  /** A row in which every byte leads on has all its entries. */
  lemma FullRow(flat: seq<nat>, multi: seq<Text>, e: nat, entries: seq<Node>)
    requires Codes(flat, multi, e, Row(entries)) && |entries| == 256 && Err(1) !in entries
    ensures ROW <= e && e - ROW + ROW_SIZE <= |flat| && flat[e - ROW] == 0 && flat[e - ROW + 1] == 255
    ensures forall b: Byte :: Codes(flat, multi, flat[e - ROW + 2 + b], entries[b])
  {
    assert entries[0] in entries && entries[255] in entries;
  }

  /** An entry of a pair's node leads to the pair's row. */
  lemma PairRow(flat: seq<nat>, multi: seq<Text>, e: nat, b1: Byte, b2: Byte)
    requires Codes(flat, multi, e, AfterTwo(BIG, b1, b2))
    ensures ROW <= e && IsRow(flat, e - ROW, PairOf(b1, b2))
  {
    var entries := Third(BIG, b1, b2);
    BigTree(b1, b2);
    assert forall b3: Byte :: entries[b3] == Char([CharOf(PairOf(b1, b2), b3)]);
    hide AfterTwo, Third;
    FullRow(flat, multi, e, entries);
    forall b3: Byte ensures flat[e - ROW + 2 + b3] == CharOf(PairOf(b1, b2), b3) {
      assert Codes(flat, multi, flat[e - ROW + 2 + b3], entries[b3]);
    }
  }

  lemma SameRow(flat: seq<nat>, at: nat, pair: nat, pair2: nat)
    requires IsRow(flat, at, pair) && IsRow(flat, at, pair2)
    ensures pair == pair2
  {
    var none: Byte := 0;
    assert flat[at + 2 + none] == CharOf(pair, none) && flat[at + 2 + none] == CharOf(pair2, none);
  }

  /** No row begins within another. */
  lemma NoneWithin(flat: seq<nat>, at: nat, pair: nat, at2: nat)
    requires IsRow(flat, at, pair) && at < at2 < at + ROW_SIZE && at2 + 1 < |flat|
    ensures !(flat[at2] == 0 && flat[at2 + 1] == 255)
  {
    if at + 1 < at2 {
      var b3: Byte := at2 - at - 2;
      assert flat[at + 2 + b3] == CharOf(pair, b3);
      if b3 < 255 {
        var next: Byte := b3 + 1;
        assert flat[at + 2 + next] == CharOf(pair, next);
      }
    }
  }

  /** Where each pair's row is, all below the end of the rows' tag range. */
  ghost predicate AllFit(flat: seq<nat>, starts: seq<nat>) {
    forall pair :: 0 <= pair < |starts| ==> IsRow(flat, starts[pair], pair) && starts[pair] < GB4 - ROW
  }

  /** If the tables fit, the rows of all pairs do. */
  lemma PairFits(flat: seq<nat>, multi: seq<Text>, first: nat, b1: Byte, b2: Byte) returns (at: nat)
    requires CodesCodec(flat, multi, first, BIG) && CodecFits(flat, first, BIG)
    ensures IsRow(flat, at, PairOf(b1, b2)) && at < GB4 - ROW
  {
    hide Codes, RowsFit, AfterTwo, AfterOne, Second, Third, IsRow, TooLong, PairOf;
    BigTree(b1, b2);
    var e := flat[first + b1];
    assert Codes(flat, multi, e, AfterOne(BIG, b1)) && RowsFit(flat, e, AfterOne(BIG, b1));
    var e2 := EntryFits(flat, multi, e, Second(b1), b2);
    PairRow(flat, multi, e2, b1, b2);
    at := e2 - ROW;
  }

  function Second(b1: Byte): seq<Node> {
    seq(256, b2 requires 0 <= b2 < 256 => AfterTwo(BIG, b1, b2))
  }

  lemma BigTree(b1: Byte, b2: Byte)
    ensures AfterOne(BIG, b1) == Row(Second(b1)) && |Second(b1)| == 256 && Err(1) !in Second(b1)
    ensures Second(b1)[b2] == AfterTwo(BIG, b1, b2) == Row(Third(BIG, b1, b2)) && |Third(BIG, b1, b2)| == 256
  {
    assert forall b: Byte :: AfterTwo(BIG, b1, b).Row?;
  }

  /** An entry of a row that fits leads to a row that fits. */
  lemma EntryFits(flat: seq<nat>, multi: seq<Text>, e: nat, entries: seq<Node>, b: Byte) returns (e2: nat)
    requires Codes(flat, multi, e, Row(entries)) && RowsFit(flat, e, Row(entries))
    requires |entries| == 256 && Err(1) !in entries && entries[b].Row?
    ensures Codes(flat, multi, e2, entries[b]) && e2 < GB4
  {
    FullRow(flat, multi, e, entries);
    e2 := flat[e - ROW + 2 + b];
    assert flat[e - ROW] <= b <= flat[e - ROW + 1];
    assert RowsFit(flat, flat[e - ROW + 2 + b - flat[e - ROW]], entries[b]);
  }

  lemma {:induction false} AllStarts(flat: seq<nat>, multi: seq<Text>, first: nat, n: nat) returns (starts: seq<nat>)
    requires CodesCodec(flat, multi, first, BIG) && CodecFits(flat, first, BIG) && n <= ROWS
    ensures |starts| == n && AllFit(flat, starts)
  {
    hide CodesCodec, CodecFits, IsRow;
    if n == 0 {
      return [];
    }
    starts := AllStarts(flat, multi, first, n - 1);
    var at := PairFits(flat, multi, first, (n - 1) / 256, (n - 1) % 256);
    starts := starts + [at];
  }

  /** Different numbers below `m` are at most `m`. */
  lemma {:induction false} Pigeons(slots: seq<nat>, m: nat)
    requires NoRepeats(slots) && forall s :: s in slots ==> s < m
    ensures |slots| <= m
  {
    assert slots != [] ==> slots[0] in slots;
    if m > 0 && m - 1 in slots {
      var k :| 0 <= k < |slots| && slots[k] == m - 1;
      var others := slots[..k] + slots[k + 1..];
      forall i, j | 0 <= i < j < |others| ensures others[i] != others[j] {
        assert slots[if i < k then i else i + 1] != slots[if j < k then j else j + 1];
      }
      forall s | s in others ensures s < m - 1 {
        var i :| 0 <= i < |others| && others[i] == s;
        assert slots[if i < k then i else i + 1] in slots;
        assert slots[if i < k then i else i + 1] != slots[k];
      }
      Pigeons(others, m - 1);
    } else if m > 0 {
      Pigeons(slots, m - 1);
    }
  }

  /** Rows of different pairs are as many at most as there is room for. */
  lemma RoomFor(flat: seq<nat>, starts: seq<nat>)
    requires AllFit(flat, starts)
    ensures |starts| <= (GB4 - ROW) / ROW_SIZE + 1
  {
    var slots: seq<nat> := seq(|starts|, k requires 0 <= k < |starts| => starts[k] / ROW_SIZE);
    forall i, j | 0 <= i < j < |slots| ensures slots[i] != slots[j] {
      assert IsRow(flat, starts[i], i) && IsRow(flat, starts[j], j);
      if starts[i] == starts[j] {
        SameRow(flat, starts[i], i, j);
      } else if starts[i] < starts[j] < starts[i] + ROW_SIZE {
        NoneWithin(flat, starts[i], i, starts[j]);
      } else if starts[j] < starts[i] < starts[j] + ROW_SIZE {
        NoneWithin(flat, starts[j], j, starts[i]);
      }
    }
    Pigeons(slots, (GB4 - ROW) / ROW_SIZE + 1);
  }

  /** No tables of the codec fit, whatever else is in the list. */
  lemma NoTablesFit(flat: seq<nat>, multi: seq<Text>, first: nat)
    requires CodesCodec(flat, multi, first, BIG)
    ensures !CodecFits(flat, first, BIG)
  {
    if CodecFits(flat, first, BIG) {
      var starts := AllStarts(flat, multi, first, ROWS);
      RoomFor(flat, starts);
    }
  }

  /** All its characters are of one code point. */
  lemma NoTexts(bytes: Bytes, t: Text)
    requires IsRead(BIG, bytes, Reads(t))
    ensures |t| == 1
  {
  }

  lemma Taken()
    ensures Proper(BIG) && !WaitsAfterThree(BIG)
  {
  }

  /** The script accepts the codec, and some bytes are read otherwise from its tables than by its decoder. */
  method WriteBig() returns (first: nat, flat: seq<nat>, multi: seq<Text>, ghost bytes: Bytes)
    ensures multi == [] && CodesCodec(flat, multi, first, BIG) && !CodecFits(flat, first, BIG)
    ensures !IsRead(BIG, bytes, Walk(flat, multi, first, bytes))
  {
    hide Walk, IsRead, CodecFits, CodesCodec, WaitsAfterThree;
    Taken();
    var at;
    at, flat, multi := CjkTables([BIG]);
    first := at.value[0];
    assert multi != [] ==> multi[0] in multi;
    forall bytes: Bytes, t | IsRead(BIG, bytes, Reads(t)) ensures |t| == 1 {
      NoTexts(bytes, t);
    }
    NoTablesFit(flat, multi, first);
    bytes :| !IsRead(BIG, bytes, Walk(flat, multi, first, bytes));
  }
}
