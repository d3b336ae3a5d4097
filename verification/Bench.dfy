/**
 scripts/bench.py: runs of the benchmark that may be killed anywhere and started again. OUT has a line of every release
 that is done with, OUT.attempts the count of each one's starts. A run scans what has no line in OUT, itself or in workers;
 at a third start there is no scan, only a line that says the harness timed out.
 */
module Bench {
  import opened Common

  type Id = string

  datatype Row = Scanned(id: Id, result: string) | Failed(id: Id, text: string)

  function Timeout(id: Id): Row {
    Failed(id, "harness timeout")
  }

  /** OUT and OUT.attempts. */
  datatype Disk = Disk(out: seq<Row>, tries: map<Id, nat>)

  function Tries(d: Disk, id: Id): nat {
    if id in d.tries then d.tries[id] else 0
  }

  /** A release started once more. */
  function Started(d: Disk, id: Id): Disk {
    d.(tries := d.tries[id := Tries(d, id) + 1])
  }

  function Added(d: Disk, row: Row): Disk {
    d.(out := d.out + [row])
  }

  function Recorded(out: seq<Row>): set<Id> {
    set r | r in out :: r.id
  }

  predicate Distinct(out: seq<Row>) {
    forall i, j :: 0 <= i < j < |out| ==> out[i].id != out[j].id
  }

  // ---- What a run does to the disk -----------------------------------------------------------

  /** From `d` to `d2`, only the releases `ids` were started or recorded: lines were added, none twice, a line of a
      release started three times a timeout's; and no release was started once it was recorded. */
  ghost predicate Grows(ids: set<Id>, d: Disk, d2: Disk) {
    && d.out <= d2.out
    && (forall i :: |d.out| <= i < |d2.out| ==>
          && d2.out[i].id in ids && Tries(d2, d2.out[i].id) >= 1
          && (Tries(d2, d2.out[i].id) > 2 ==> d2.out[i] == Timeout(d2.out[i].id)))
    && (Distinct(d.out) ==> Distinct(d2.out))
    && (forall id :: Tries(d, id) <= Tries(d2, id))
    && (forall id :: Tries(d, id) != Tries(d2, id) ==> id in ids && id !in Recorded(d.out))
  }

  lemma GrowsNot(ids: set<Id>, d: Disk)
    ensures Grows(ids, d, d)
  {
  }

  lemma GrowsOn(ids: set<Id>, a: Disk, b: Disk, c: Disk)
    requires Grows(ids, a, b) && Grows(ids, b, c)
    ensures Grows(ids, a, c)
  {
    assert forall id :: id in Recorded(a.out) ==> id in Recorded(b.out);
    forall i | |a.out| <= i < |c.out|
      ensures c.out[i].id in ids && Tries(c, c.out[i].id) >= 1
      ensures Tries(c, c.out[i].id) > 2 ==> c.out[i] == Timeout(c.out[i].id)
    {
      if i < |b.out| {
        assert c.out[i] == b.out[i];
        assert b.out[i].id in Recorded(b.out);
      }
    }
  }

  lemma GrowsMore(ids: set<Id>, more: set<Id>, a: Disk, b: Disk)
    requires Grows(ids, a, b) && ids <= more
    ensures Grows(more, a, b)
  {
  }

  lemma RecordedPush(out: seq<Row>, row: Row)
    ensures Recorded(out + [row]) == Recorded(out) + {row.id}
  {
    assert forall r :: r in out + [row] <==> r in out || r == row;
  }

  lemma GrowsByStart(ids: set<Id>, d: Disk, id: Id)
    requires id in ids && id !in Recorded(d.out)
    ensures Grows(ids, d, Started(d, id))
  {
  }

  lemma GrowsByRow(ids: set<Id>, d: Disk, row: Row)
    requires row.id in ids && row.id !in Recorded(d.out) && Tries(d, row.id) >= 1
    requires Tries(d, row.id) > 2 ==> row == Timeout(row.id)
    ensures Grows(ids, d, Added(d, row))
  {
    assert forall i :: 0 <= i < |d.out| ==> d.out[i].id in Recorded(d.out);
  }

  // ---- Progress over runs ----------------------------------------------------------------------

  /** No release left to do has been started three times. */
  ghost predicate Steady(ids: seq<Id>, d: Disk) {
    forall id :: id in ids && id !in Recorded(d.out) ==> Tries(d, id) <= 2
  }

  /** The starts the releases left to do may still take. */
  function Potential(ids: seq<Id>, d: Disk): int {
    if ids == [] then 0
    else (if ids[0] in Recorded(d.out) then 0 else 3 - Tries(d, ids[0])) + Potential(ids[1..], d)
  }

  lemma {:induction false} PotentialBounds(ids: seq<Id>, d: Disk)
    requires Steady(ids, d)
    ensures 0 <= Potential(ids, d) <= 3 * |ids|
    ensures Potential(ids, d) == 0 <==> forall id :: id in ids ==> id in Recorded(d.out)
  {
    if ids != [] {
      PotentialBounds(ids[1..], d);
      assert forall id :: id in ids <==> id == ids[0] || id in ids[1..];
    }
  }

  ghost predicate StartedIn(d: Disk, d2: Disk, id: Id) {
    Tries(d2, id) > Tries(d, id)
  }

  /** The run started a release. */
  ghost predicate Starts(ids: seq<Id>, d: Disk, d2: Disk) {
    exists id :: id in ids && StartedIn(d, d2, id)
  }

  /** A run only uses up the potential, and a run that starts a release does. */
  lemma {:induction false} PotentialFalls(ids: seq<Id>, all: set<Id>, d: Disk, d2: Disk)
    requires Steady(ids, d) && Grows(all, d, d2)
    ensures Potential(ids, d2) <= Potential(ids, d)
    ensures Starts(ids, d, d2) ==> Potential(ids, d2) < Potential(ids, d)
  {
    if ids != [] {
      assert Steady(ids[1..], d);
      PotentialFalls(ids[1..], all, d, d2);
      assert forall id :: id in Recorded(d.out) ==> id in Recorded(d2.out);
      assert forall id :: id in ids <==> id == ids[0] || id in ids[1..];
    }
  }

  /** A release started three times and not recorded: the next run starts it, records it, and uses up nothing. */
  lemma {:induction false} ThirdUsesUpNothing(ids: seq<Id>, d: Disk, id: Id)
    requires id !in Recorded(d.out) && Tries(d, id) > 2
    ensures Potential(ids, Added(Started(d, id), Timeout(id))) >= Potential(ids, d)
  {
    var d2 := Added(Started(d, id), Timeout(id));
    RecordedPush(d.out, Timeout(id));
    if ids != [] {
      ThirdUsesUpNothing(ids[1..], d, id);
      assert ids[0] != id ==> Tries(d2, ids[0]) == Tries(d, ids[0]);
    }
  }

  /** Every run that starts a release uses up some of the potential if and only if no release left to do has been started
      three times. */
  lemma SteadyIffFalls(ids: seq<Id>, d: Disk)
    ensures Steady(ids, d) <==>
            forall d2 :: Grows(SetOf(ids), d, d2) && Starts(ids, d, d2) ==> Potential(ids, d2) < Potential(ids, d)
  {
    if Steady(ids, d) {
      forall d2 | Grows(SetOf(ids), d, d2) && Starts(ids, d, d2) ensures Potential(ids, d2) < Potential(ids, d) {
        PotentialFalls(ids, SetOf(ids), d, d2);
      }
    } else {
      var id :| id in ids && id !in Recorded(d.out) && Tries(d, id) > 2;
      assert id in SetOf(ids);
      ThirdRecorded(SetOf(ids), d, id);
      ThirdUsesUpNothing(ids, d, id);
      assert StartedIn(d, Added(Started(d, id), Timeout(id)), id);
    }
  }

  lemma ThirdRecorded(ids: set<Id>, d: Disk, id: Id)
    requires id in ids && id !in Recorded(d.out) && Tries(d, id) > 2
    ensures Grows(ids, d, Added(Started(d, id), Timeout(id)))
  {
    var d1 := Started(d, id);
    GrowsByStart(ids, d, id);
    assert Tries(d1, id) == Tries(d, id) + 1;
    GrowsByRow(ids, d1, Timeout(id));
    GrowsOn(ids, d, d1, Added(d1, Timeout(id)));
  }

  /** The least of them: one release, started three times. */
  lemma ThirdKilledUsesUpNothing(id: Id)
    ensures var d := Disk([], map[id := 3]);
            && !Steady([id], d)
            && exists d2 :: Grows(SetOf([id]), d, d2) && Starts([id], d, d2) && Potential([id], d2) >= Potential([id], d)
  {
    var d := Disk([], map[id := 3]);
    assert id in [id] && Tries(d, id) == 3;
    SteadyIffFalls([id], d);
  }

  /** A run of one release that started it and left no line. */
  ghost predicate KilledRun(id: Id, d: Disk, d2: Disk) {
    Grows(SetOf([id]), d, d2) && Starts([id], d, d2) && d2.out == d.out == []
  }

  lemma KilledOnce(id: Id, d: Disk)
    requires d.out == []
    ensures KilledRun(id, d, Started(d, id))
  {
    assert id in SetOf([id]);
    GrowsByStart(SetOf([id]), d, id);
    assert id in [id] && StartedIn(d, Started(d, id), id);
  }

  /** And of runs each killed between its start and its line there is no bound. */
  lemma {:induction false} KilledRunsAreUnbounded(id: Id, n: nat) returns (disks: seq<Disk>)
    ensures |disks| == n + 1 && disks[0] == Disk([], map[]) && disks[n].out == []
    ensures forall i :: 0 <= i < n ==> KilledRun(id, disks[i], disks[i + 1])
  {
    if n == 0 {
      disks := [Disk([], map[])];
    } else {
      disks := KilledRunsAreUnbounded(id, n - 1);
      KilledOnce(id, disks[n - 1]);
      hide KilledRun;
      disks := disks + [Started(disks[n - 1], id)];
    }
  }

  // ---- The order of the lines --------------------------------------------------------------------

  /** A release's place in the manifest, past its end for one it does not have. */
  function Place(ids: seq<Id>, id: Id): (k: nat)
    ensures k <= |ids| && (k < |ids| ==> ids[k] == id) && forall i :: 0 <= i < k ==> ids[i] != id
  {
    if ids == [] || ids[0] == id then 0 else 1 + Place(ids[1..], id)
  }

  /** `row` put in its place, after the rows of its place and before. */
  function Insert(ids: seq<Id>, rows: seq<Row>, row: Row): seq<Row> {
    if rows == [] || Place(ids, row.id) < Place(ids, rows[0].id) then [row] + rows
    else [rows[0]] + Insert(ids, rows[1..], row)
  }

  /** The rows in the manifest's order; those of one place stay as they were. */
  function Ordered(ids: seq<Id>, rows: seq<Row>): seq<Row> {
    if rows == [] then [] else Insert(ids, Ordered(ids, rows[..|rows| - 1]), rows[|rows| - 1])
  }

  predicate InPlace(ids: seq<Id>, rows: seq<Row>) {
    rows != [] ==>
      && (forall r :: r in rows[1..] ==> Place(ids, rows[0].id) <= Place(ids, r.id))
      && InPlace(ids, rows[1..])
  }

  lemma RecordedAt(rows: seq<Row>, id: Id)
    ensures id in Recorded(rows) <==> exists i :: 0 <= i < |rows| && rows[i].id == id
  {
    forall i | 0 <= i < |rows| ensures rows[i] in rows && rows[i].id in Recorded(rows) {
    }
  }

  lemma RecordedHead(rows: seq<Row>)
    requires rows != []
    ensures Recorded(rows) == {rows[0].id} + Recorded(rows[1..])
  {
    assert forall r :: r in rows <==> r == rows[0] || r in rows[1..];
  }

  lemma DistinctByHead(rows: seq<Row>)
    requires rows != []
    ensures Distinct(rows) <==> rows[0].id !in Recorded(rows[1..]) && Distinct(rows[1..])
    ensures Recorded(rows) == {rows[0].id} + Recorded(rows[1..])
  {
    var more := rows[1..];
    RecordedHead(rows);
    RecordedAt(more, rows[0].id);
    hide Recorded;
    assert forall i :: 0 <= i < |more| ==> more[i] == rows[i + 1];
    if Distinct(rows) {
      forall i | 0 <= i < |more| ensures more[i].id != rows[0].id {
        assert rows[0].id != rows[i + 1].id;
      }
      forall i, j | 0 <= i < j < |more| ensures more[i].id != more[j].id {
        assert rows[i + 1].id != rows[j + 1].id;
      }
    }
    if rows[0].id !in Recorded(more) && Distinct(more) {
      forall i, j | 0 <= i < j < |rows| ensures rows[i].id != rows[j].id {
        assert rows[j] == more[j - 1];
        assert i > 0 ==> rows[i] == more[i - 1];
      }
    }
  }

  lemma {:induction false} InsertIs(ids: seq<Id>, rows: seq<Row>, row: Row)
    ensures multiset(Insert(ids, rows, row)) == multiset(rows) + multiset{row}
    ensures forall r :: r in Insert(ids, rows, row) <==> r in rows || r == row
  {
    hide Place;
    if rows != [] {
      assert rows == [rows[0]] + rows[1..];
      InsertIs(ids, rows[1..], row);
    }
  }

  lemma {:induction false} InsertInPlace(ids: seq<Id>, rows: seq<Row>, row: Row)
    requires InPlace(ids, rows)
    ensures InPlace(ids, Insert(ids, rows, row))
  {
    hide Place;
    var after := Insert(ids, rows, row);
    if rows == [] || Place(ids, row.id) < Place(ids, rows[0].id) {
      assert after[1..] == rows;
    } else {
      InsertInPlace(ids, rows[1..], row);
      InsertIs(ids, rows[1..], row);
      assert after[1..] == Insert(ids, rows[1..], row);
    }
  }

  lemma {:induction false} InsertDistinct(ids: seq<Id>, rows: seq<Row>, row: Row)
    requires Distinct(rows) && row.id !in Recorded(rows)
    ensures Distinct(Insert(ids, rows, row)) && Recorded(Insert(ids, rows, row)) == Recorded(rows) + {row.id}
  {
    hide Place, Distinct;
    var after := Insert(ids, rows, row);
    DistinctByHead(after);
    if rows == [] {
      DistinctNone();
      assert after[1..] == [] && Recorded([]) == {};
    } else {
      DistinctByHead(rows);
      if Place(ids, row.id) < Place(ids, rows[0].id) {
        assert after[1..] == rows;
      } else {
        InsertDistinct(ids, rows[1..], row);
        assert after[1..] == Insert(ids, rows[1..], row);
      }
    }
  }

  lemma DistinctNone()
    ensures Distinct([])
  {
  }

  lemma DistinctBefore(rows: seq<Row>)
    requires Distinct(rows) && rows != []
    ensures Distinct(rows[..|rows| - 1]) && rows[|rows| - 1].id !in Recorded(rows[..|rows| - 1])
  {
  }

  /** _in_manifest_order: the lines are the same ones, now placed as the manifest places their releases. */
  lemma {:induction false} OrderedIs(ids: seq<Id>, rows: seq<Row>)
    ensures multiset(Ordered(ids, rows)) == multiset(rows)
    ensures InPlace(ids, Ordered(ids, rows))
  {
    hide InPlace, Insert;
    if rows == [] {
      NoneInPlace(ids);
    } else {
      var init, last := rows[..|rows| - 1], rows[|rows| - 1];
      OrderedIs(ids, init);
      InsertInPlace(ids, Ordered(ids, init), last);
      InsertIs(ids, Ordered(ids, init), last);
      assert rows == init + [last];
    }
  }

  lemma NoneInPlace(ids: seq<Id>)
    ensures InPlace(ids, [])
  {
  }

  lemma {:induction false} OrderedDistinct(ids: seq<Id>, rows: seq<Row>)
    requires Distinct(rows)
    ensures Distinct(Ordered(ids, rows)) && Recorded(Ordered(ids, rows)) == Recorded(rows)
  {
    hide Insert;
    if rows != [] {
      var init, last := rows[..|rows| - 1], rows[|rows| - 1];
      DistinctBefore(rows);
      OrderedDistinct(ids, init);
      InsertDistinct(ids, Ordered(ids, init), last);
      assert rows == init + [last];
      RecordedPush(init, last);
    }
  }

  /** The rows of one place. */
  function OfPlace(ids: seq<Id>, rows: seq<Row>, place: nat): seq<Row> {
    if rows == [] then []
    else (if Place(ids, rows[0].id) == place then [rows[0]] else []) + OfPlace(ids, rows[1..], place)
  }

  lemma OfPlaceHead(ids: seq<Id>, row: Row, rows: seq<Row>, place: nat)
    ensures OfPlace(ids, [row] + rows, place)
            == (if Place(ids, row.id) == place then [row] else []) + OfPlace(ids, rows, place)
  {
    assert ([row] + rows)[1..] == rows;
  }

  lemma {:induction false} InsertStable(ids: seq<Id>, rows: seq<Row>, row: Row, place: nat)
    requires InPlace(ids, rows)
    ensures OfPlace(ids, Insert(ids, rows, row), place)
            == OfPlace(ids, rows, place) + if Place(ids, row.id) == place then [row] else []
  {
    hide Place, OfPlace;
    var last := if Place(ids, row.id) == place then [row] else [];
    OfPlaceHead(ids, row, rows, place);
    if rows == [] {
      NoRowsOfPlace(ids, place);
    } else if Place(ids, row.id) < Place(ids, rows[0].id) {
      if Place(ids, row.id) == place {
        NoneOfPlace(ids, rows, place);
      }
    } else {
      InsertStable(ids, rows[1..], row, place);
      var more := Insert(ids, rows[1..], row);
      assert Insert(ids, rows, row) == [rows[0]] + more && [rows[0]] + rows[1..] == rows;
      hide Insert, InPlace;
      OfPlaceHead(ids, rows[0], more, place);
      OfPlaceHead(ids, rows[0], rows[1..], place);
      var first := if Place(ids, rows[0].id) == place then [rows[0]] else [];
      assert first + (OfPlace(ids, rows[1..], place) + last) == first + OfPlace(ids, rows[1..], place) + last;
    }
  }

  lemma NoRowsOfPlace(ids: seq<Id>, place: nat)
    ensures OfPlace(ids, [], place) == []
  {
  }

  lemma {:induction false} NoneOfPlace(ids: seq<Id>, rows: seq<Row>, place: nat)
    requires InPlace(ids, rows) && rows != [] && place < Place(ids, rows[0].id)
    ensures OfPlace(ids, rows, place) == []
  {
    hide Place;
    if |rows| > 1 {
      assert rows[1] in rows[1..];
      NoneOfPlace(ids, rows[1..], place);
    }
  }

  lemma {:induction false} OfPlacePush(ids: seq<Id>, rows: seq<Row>, row: Row, place: nat)
    ensures OfPlace(ids, rows + [row], place)
            == OfPlace(ids, rows, place) + if Place(ids, row.id) == place then [row] else []
  {
    hide Place;
    var last := if Place(ids, row.id) == place then [row] else [];
    if rows == [] {
      assert ([] + [row])[1..] == [];
    } else {
      var first := if Place(ids, rows[0].id) == place then [rows[0]] else [];
      var all := rows + [row];
      assert all[1..] == rows[1..] + [row] && all[0] == rows[0];
      OfPlacePush(ids, rows[1..], row, place);
      assert OfPlace(ids, all, place) == first + OfPlace(ids, all[1..], place);
      hide OfPlace;
      assert first + (OfPlace(ids, rows[1..], place) + last) == first + OfPlace(ids, rows[1..], place) + last;
    }
  }

  /** The sort is stable: the lines of one place, those of no place in the manifest too, keep their order. */
  lemma {:induction false} OrderedStable(ids: seq<Id>, rows: seq<Row>, place: nat)
    ensures OfPlace(ids, Ordered(ids, rows), place) == OfPlace(ids, rows, place)
  {
    hide Place, InPlace, Insert;
    if rows != [] {
      var init, last := rows[..|rows| - 1], rows[|rows| - 1];
      OrderedStable(ids, init, place);
      OrderedIs(ids, init);
      InsertStable(ids, Ordered(ids, init), last, place);
      OfPlacePush(ids, init, last, place);
      assert rows == init + [last];
    }
  }

  function SetOf(ids: seq<Id>): set<Id> {
    set id | id in ids
  }

  /** With a line for each release and no other, the lines end up in exactly the manifest's order, whatever order they
      were written in. */
  lemma OrderedByManifest(ids: seq<Id>, rows: seq<Row>)
    requires Distinct(rows) && NoRepeats(ids) && Recorded(rows) == SetOf(ids)
    ensures |Ordered(ids, rows)| == |ids|
    ensures forall k :: 0 <= k < |ids| ==> Ordered(ids, rows)[k].id == ids[k]
  {
    hide *;
    OrderedIs(ids, rows);
    OrderedDistinct(ids, rows);
    ManifestOrder(ids, Ordered(ids, rows));
  }

  /** The first line is the first release's. */
  lemma FirstInOrder(ids: seq<Id>, o: seq<Row>)
    requires InPlace(ids, o) && ids != [] && ids[0] in Recorded(o)
    ensures o != [] && o[0].id == ids[0]
  {
    var r :| r in o && r.id == ids[0];
    assert Place(ids, r.id) == 0;
    assert o == [o[0]] + o[1..];
    assert r == o[0] || r in o[1..];
    assert Place(ids, o[0].id) == 0;
  }

  lemma PlaceOfRest(ids: seq<Id>, id: Id)
    requires ids != [] && id != ids[0]
    ensures Place(ids, id) == 1 + Place(ids[1..], id)
  {
  }

  lemma {:induction false} InPlaceOfRest(ids: seq<Id>, o: seq<Row>)
    requires ids != [] && InPlace(ids, o) && ids[0] !in Recorded(o)
    ensures InPlace(ids[1..], o)
  {
    hide Place;
    if o != [] {
      assert forall r :: r in o[1..] ==> r in o;
      assert ids[0] !in Recorded(o[1..]) by { assert Recorded(o[1..]) <= Recorded(o); }
      InPlaceOfRest(ids, o[1..]);
      forall r | r in o ensures Place(ids, r.id) == 1 + Place(ids[1..], r.id) {
        PlaceOfRest(ids, r.id);
      }
      assert o[0] in o;
    }
  }

  lemma {:induction false} ManifestOrder(ids: seq<Id>, o: seq<Row>)
    requires Distinct(o) && NoRepeats(ids) && InPlace(ids, o) && Recorded(o) == SetOf(ids)
    ensures |o| == |ids| && forall k :: 0 <= k < |ids| ==> o[k].id == ids[k]
  {
    if ids == [] {
      NoneRecorded(o);
    } else {
      assert ids[0] in Recorded(o);
      FirstInOrder(ids, o);
      DistinctByHead(o);
      SetOfRest(ids);
      InPlaceOfRest(ids, o[1..]);
      assert forall i, j :: 0 <= i < j < |ids[1..]| ==> ids[1..][i] != ids[1..][j];
      hide Distinct, InPlace, Recorded, SetOf;
      ManifestOrder(ids[1..], o[1..]);
      forall k | 0 <= k < |ids| ensures o[k].id == ids[k] {
        if k > 0 {
          assert o[k] == o[1..][k - 1] && ids[k] == ids[1..][k - 1];
        }
      }
    }
  }

  lemma SetOfRest(ids: seq<Id>)
    requires ids != [] && NoRepeats(ids)
    ensures SetOf(ids[1..]) == SetOf(ids) - {ids[0]}
  {
    assert ids == [ids[0]] + ids[1..];
    assert forall i :: 0 <= i < |ids[1..]| ==> ids[1..][i] == ids[i + 1];
  }

  lemma NoneRecorded(rows: seq<Row>)
    ensures Recorded(rows) == {} <==> rows == []
  {
    if |rows| > 0 {
      assert rows[0].id in Recorded(rows);
    }
  }

  // ---- Runs one after the other -------------------------------------------------------------------

  /** A release a run leaves unrecorded was not started a third time in it. */
  ghost predicate NoThird(d: Disk, d2: Disk) {
    forall id :: id !in Recorded(d2.out) && Tries(d2, id) > 2 ==> Tries(d2, id) == Tries(d, id)
  }

  lemma NoThirdOn(ids: set<Id>, a: Disk, b: Disk, c: Disk)
    requires NoThird(a, b) && NoThird(b, c) && Grows(ids, b, c)
    ensures NoThird(a, c)
  {
    assert forall id :: id in Recorded(b.out) ==> id in Recorded(c.out);
  }

  /** What a run of the manifest does to the disk: it grows, and once every release is recorded its lines may be put in
      the manifest's order. */
  ghost predicate RunOf(ids: seq<Id>, d: Disk, mid: Disk, d2: Disk) {
    && Grows(SetOf(ids), d, mid)
    && (d2 == mid || (SetOf(ids) <= Recorded(mid.out) && d2 == mid.(out := Ordered(ids, mid.out))))
  }

  lemma OrderedHolds(ids: seq<Id>, rows: seq<Row>)
    ensures forall r :: r in Ordered(ids, rows) <==> r in rows
  {
    hide Ordered, InPlace;
    OrderedIs(ids, rows);
    assert forall r :: r in Ordered(ids, rows) <==> r in multiset(Ordered(ids, rows));
    assert forall r :: r in rows <==> r in multiset(rows);
  }

  lemma OrderedRecorded(ids: seq<Id>, rows: seq<Row>)
    ensures Recorded(Ordered(ids, rows)) == Recorded(rows)
  {
    hide Ordered;
    OrderedHolds(ids, rows);
  }

  /** After a run with no third start left without its line, no release left to do has been started three times, if none
      had before. */
  lemma SteadyKept(ids: seq<Id>, d: Disk, mid: Disk, d2: Disk)
    requires Steady(ids, d) && RunOf(ids, d, mid, d2) && NoThird(d, mid)
    ensures Steady(ids, d2)
  {
    OrderedRecorded(ids, mid.out);
    assert forall id :: id in Recorded(d.out) ==> id in Recorded(mid.out);
  }

  lemma {:induction false} PotentialOf(ids: seq<Id>, d: Disk, d2: Disk)
    requires d.tries == d2.tries && Recorded(d.out) == Recorded(d2.out)
    ensures Potential(ids, d) == Potential(ids, d2)
  {
    if ids != [] {
      PotentialOf(ids[1..], d, d2);
    }
  }

  /** One run of a sequence: it started a release, and was not killed between a third start and its line. */
  ghost predicate Useful(ids: seq<Id>, d: Disk, mid: Disk, d2: Disk) {
    RunOf(ids, d, mid, d2) && NoThird(d, mid) && Starts(ids, d, mid)
  }

  lemma UsefulFalls(ids: seq<Id>, d: Disk, mid: Disk, d2: Disk)
    requires Steady(ids, d) && Useful(ids, d, mid, d2)
    ensures Steady(ids, d2) && 0 <= Potential(ids, d2) < Potential(ids, d)
  {
    hide Steady, Grows, Potential, Starts, Ordered, NoThird, Recorded, SetOf;
    SteadyKept(ids, d, mid, d2);
    PotentialFalls(ids, SetOf(ids), d, mid);
    OrderedRecorded(ids, mid.out);
    PotentialOf(ids, mid, d2);
    PotentialBounds(ids, d2);
  }

  /** However runs were killed and started again, at most three for each release of the manifest start one; and when that
      many have, every release is recorded. */
  lemma {:induction false} RunsAreBounded(ids: seq<Id>, disks: seq<Disk>, mids: seq<Disk>)
    requires |disks| == |mids| + 1 && Steady(ids, disks[0])
    requires forall i :: 0 <= i < |mids| ==> Useful(ids, disks[i], mids[i], disks[i + 1])
    ensures |mids| + Potential(ids, disks[|mids|]) <= Potential(ids, disks[0]) <= 3 * |ids|
    ensures Steady(ids, disks[|mids|]) && 0 <= Potential(ids, disks[|mids|])
    ensures |mids| == 3 * |ids| ==> forall id :: id in ids ==> id in Recorded(disks[|mids|].out)
    decreases |disks|, 1
  {
    hide Steady, Useful, Potential;
    PotentialBounds(ids, disks[0]);
    if |mids| > 0 {
      UsefulFalls(ids, disks[0], mids[0], disks[1]);
      RunsAreBoundedOn(ids, disks[1..], mids[1..], disks, mids);
      assert disks[1..][|mids[1..]|] == disks[|mids|];
      PotentialBounds(ids, disks[|mids|]);
    }
  }

  lemma {:induction false} RunsAreBoundedOn(ids: seq<Id>, disks: seq<Disk>, mids: seq<Disk>, disks0: seq<Disk>,
                                           mids0: seq<Disk>)
    requires |disks0| == |mids0| + 1 && |mids0| > 0 && disks == disks0[1..] && mids == mids0[1..]
    requires Steady(ids, disks[0])
    requires forall i :: 0 <= i < |mids0| ==> Useful(ids, disks0[i], mids0[i], disks0[i + 1])
    ensures |mids| + Potential(ids, disks[|mids|]) <= Potential(ids, disks[0])
    ensures Steady(ids, disks[|mids|]) && 0 <= Potential(ids, disks[|mids|])
    decreases |disks0|, 0
  {
    hide Steady, Useful, Potential;
    forall i | 0 <= i < |mids| ensures Useful(ids, disks[i], mids[i], disks[i + 1]) {
      assert Useful(ids, disks0[i + 1], mids0[i + 1], disks0[i + 2]);
    }
    RunsAreBounded(ids, disks, mids);
  }
}
