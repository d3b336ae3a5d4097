/**
 scripts/bench.py: where the releases of a run are (waiting, in a worker, late, left or written), and what is kept of each
 while any of them may be answered, written or killed next. BenchRun.dfy is the run.
 */
module BenchPlaces {
  import opened Common
  import opened Bench

  /** How a worker's thread ended: with a line; with one of a scan cut off by its timeout; with none, nothing started. */
  datatype Result = Line(row: Row) | RanOut(row: Row) | NotStarted

  /** Where each release is while workers scan. */
  datatype Status = Waiting | Running | Ready(result: Result) | Late | Left | Written

  type Places = map<Id, Status>

  function WaitingIn(at: Places): set<Id> { set id | id in at && at[id].Waiting? }
  function RunningIn(at: Places): set<Id> { set id | id in at && at[id].Running? }
  function ReadyIn(at: Places): set<Id> { set id | id in at && at[id].Ready? }
  function LateIn(at: Places): set<Id> { set id | id in at && at[id].Late? }
  function LeftIn(at: Places): set<Id> { set id | id in at && at[id].Left? }
  function NotStartedIn(at: Places): set<Id> { set id | id in at && IsNotStarted(at[id]) }

  predicate IsNotStarted(s: Status) {
    s == Left || s == Ready(NotStarted)
  }

  predicate NothingRuns(at: Places) {
    WaitingIn(at) == {} && RunningIn(at) == {} && ReadyIn(at) == {}
  }

  lemma Where(at: Places, id: Id)
    ensures id in WaitingIn(at) <==> id in at && at[id].Waiting?
    ensures id in RunningIn(at) <==> id in at && at[id].Running?
    ensures id in ReadyIn(at) <==> id in at && at[id].Ready?
    ensures id in LateIn(at) <==> id in at && at[id].Late?
    ensures id in NotStartedIn(at) <==> id in at && IsNotStarted(at[id])
  {
  }

  function Swap(ids: set<Id>, id: Id, there: bool): set<Id> {
    ids - {id} + if there then {id} else {}
  }

  /** Where everything is after one release changed its place. */
  lemma Moves(at: Places, id: Id, s: Status)
    requires id in at
    ensures WaitingIn(at[id := s]) == Swap(WaitingIn(at), id, s.Waiting?)
    ensures RunningIn(at[id := s]) == Swap(RunningIn(at), id, s.Running?)
    ensures ReadyIn(at[id := s]) == Swap(ReadyIn(at), id, s.Ready?)
    ensures LateIn(at[id := s]) == Swap(LateIn(at), id, s.Late?)
    ensures LeftIn(at[id := s]) == Swap(LeftIn(at), id, s.Left?)
    ensures NotStartedIn(at[id := s]) == Swap(NotStartedIn(at), id, IsNotStarted(s))
  {
    hide IsNotStarted;
  }

  lemma Fewer(a: set<Id>, b: set<Id>, id: Id)
    requires id in a && b == Swap(a, id, false)
    ensures |b| < |a|
  {
  }

  /** Fewer wait; or as many, and fewer run; or as many, and fewer are ready. */
  ghost predicate Ahead(at: Places, at2: Places) {
    || |WaitingIn(at2)| < |WaitingIn(at)|
    || (WaitingIn(at2) == WaitingIn(at) && |RunningIn(at2)| < |RunningIn(at)|)
    || (WaitingIn(at2) == WaitingIn(at) && RunningIn(at2) == RunningIn(at) && |ReadyIn(at2)| < |ReadyIn(at)|)
  }

  lemma SwapOut(ids: set<Id>, id: Id)
    requires id !in ids
    ensures Swap(ids, id, false) == ids
  {
  }

  /** Taken up: fewer wait. */
  lemma MovesBegin(at: Places, id: Id, s: Status)
    requires id in WaitingIn(at) && (s.Running? || s.Ready?)
    ensures |WaitingIn(at[id := s])| < |WaitingIn(at)|
    ensures NotStartedIn(at) == {} && !IsNotStarted(s) ==> NotStartedIn(at[id := s]) == {}
  {
    hide WaitingIn, NotStartedIn, IsNotStarted, Swap;
    Where(at, id);
    Moves(at, id, s);
    Fewer(WaitingIn(at), WaitingIn(at[id := s]), id);
    SwapOut({}, id);
  }

  /** Answered: fewer run. */
  lemma MovesAnswer(at: Places, id: Id, s: Status)
    requires id in RunningIn(at) && s.Ready?
    ensures WaitingIn(at[id := s]) == WaitingIn(at) && |RunningIn(at[id := s])| < |RunningIn(at)|
    ensures NotStartedIn(at) == {} && !IsNotStarted(s) ==> NotStartedIn(at[id := s]) == {}
  {
    hide WaitingIn, RunningIn, NotStartedIn, IsNotStarted, Swap;
    Where(at, id);
    Moves(at, id, s);
    Fewer(RunningIn(at), RunningIn(at[id := s]), id);
    SwapOut(WaitingIn(at), id);
    SwapOut({}, id);
  }

  /** Routed: fewer are ready. */
  lemma MovesRoute(at: Places, id: Id, s: Status)
    requires id in ReadyIn(at) && (s.Written? || s.Late? || (s.Left? && id in NotStartedIn(at)))
    ensures WaitingIn(at[id := s]) == WaitingIn(at) && RunningIn(at[id := s]) == RunningIn(at)
    ensures |ReadyIn(at[id := s])| < |ReadyIn(at)|
    ensures NotStartedIn(at) == {} ==> NotStartedIn(at[id := s]) == {}
  {
    hide WaitingIn, RunningIn, ReadyIn, NotStartedIn, Swap;
    Where(at, id);
    Moves(at, id, s);
    Fewer(ReadyIn(at), ReadyIn(at[id := s]), id);
    SwapOut(WaitingIn(at), id);
    SwapOut(RunningIn(at), id);
    SwapOut({}, id);
  }

  lemma RoutedLeft(at: Places, id: Id)
    requires id in ReadyIn(at)
    ensures at[id].result.NotStarted? ==> id in NotStartedIn(at)
  {
  }

  /** Run again: fewer are late. */
  lemma MovesAgain(at: Places, id: Id, s: Status)
    requires id in LateIn(at) && NothingRuns(at) && (s.Written? || s.Left?)
    ensures NothingRuns(at[id := s]) && |LateIn(at[id := s])| < |LateIn(at)|
    ensures s.Written? ==> LeftIn(at[id := s]) == LeftIn(at)
  {
    var was := LeftIn(at);
    assert id in at && id !in was;
    hide WaitingIn, RunningIn, ReadyIn, LateIn, LeftIn, NotStartedIn, Swap, IsNotStarted;
    Moves(at, id, s);
    Fewer(LateIn(at), LateIn(at[id := s]), id);
    SwapOut({}, id);
    SwapOut(was, id);
  }

  lemma NothingLeft(at: Places)
    ensures NotStartedIn(at) == {} ==> LeftIn(at) == {}
  {
    assert LeftIn(at) <= NotStartedIn(at);
  }

  lemma NonePending(d: Disk, at: Places)
    requires NothingRuns(at)
    ensures !ThirdPending(d, at)
  {
    forall id | id in at ensures !at[id].Ready? {
      assert id !in ReadyIn(at);
    }
  }

  /** The ids of `todo` that are in `left`, in order. */
  function KeepIn(todo: seq<Id>, left: set<Id>): seq<Id> {
    if todo == [] then []
    else if todo[0] in left then [todo[0]] + KeepIn(todo[1..], left)
    else KeepIn(todo[1..], left)
  }

  lemma {:induction false} KeepInIs(todo: seq<Id>, left: set<Id>)
    requires NoRepeats(todo)
    ensures NoRepeats(KeepIn(todo, left))
    ensures forall id :: id in KeepIn(todo, left) <==> id in todo && id in left
  {
    if todo != [] {
      assert forall i, j :: 0 <= i < j < |todo[1..]| ==> todo[1..][i] != todo[1..][j];
      KeepInIs(todo[1..], left);
      assert todo[0] !in todo[1..];
      assert todo == [todo[0]] + todo[1..];
    }
  }

  lemma NoThirdStart(d: Disk, d0: Disk, id: Id)
    requires NoThird(d, d0)
    ensures Tries(d0, id) < 2 ==> NoThird(d, Started(d0, id))
  {
  }

  lemma NoThirdRow(d: Disk, d0: Disk, row: Row)
    requires NoThird(d, d0)
    ensures NoThird(d, Added(Started(d0, row.id), row))
  {
    RecordedPush(d0.out, row);
  }

  /** What a run with workers keeps of each release. */
  ghost predicate Tracks(todo: seq<Id>, d: Disk, d2: Disk, at: Places) {
    && at.Keys == SetOf(todo)
    && Grows(SetOf(todo), d, d2)
    && (forall id :: id in at ==> (at[id].Written? <==> id in Recorded(d2.out)))
    && (forall id :: id in at ==> TracksOne(d, d2, at[id], id))
  }

  ghost predicate TracksOne(d: Disk, d2: Disk, s: Status, id: Id) {
    match s
    case Waiting => Tries(d2, id) == Tries(d, id)
    case Written => true
    case Ready(Line(row)) =>
      row.id == id && Tries(d2, id) >= 1 && (Tries(d2, id) > 2 ==> row == Timeout(id))
    case Ready(RanOut(row)) => row.id == id && 1 <= Tries(d2, id) <= 2
    case Running => 1 <= Tries(d2, id) <= 2
    case Late => 1 <= Tries(d2, id) <= 2
    case _ => Tries(d2, id) > 2 ==> Tries(d2, id) == Tries(d, id)
  }

  /** A third start is waiting for its line. */
  predicate ThirdPending(d2: Disk, at: Places) {
    exists id :: id in at && at[id].Ready? && at[id].result.Line? && Tries(d2, id) > 2
  }

  lemma TracksNoThird(todo: seq<Id>, d: Disk, d2: Disk, at: Places)
    requires Tracks(todo, d, d2, at) && !ThirdPending(d2, at)
    ensures NoThird(d, d2)
  {
    forall id | id !in Recorded(d2.out) && Tries(d2, id) > 2
      ensures Tries(d2, id) == Tries(d, id)
    {
      if id in at {
        assert TracksOne(d, d2, at[id], id);
      }
    }
  }

  lemma TracksMove(todo: seq<Id>, d: Disk, d2: Disk, at: Places, id: Id, s: Status)
    requires Tracks(todo, d, d2, at) && id in at && !at[id].Written? && !s.Written? && TracksOne(d, d2, s, id)
    ensures Tracks(todo, d, d2, at[id := s])
  {
    assert at[id := s].Keys == at.Keys;
    hide TracksOne, Grows, Recorded;
  }

  lemma TracksSame(d: Disk, d2: Disk, d3: Disk, s: Status, id: Id)
    requires TracksOne(d, d2, s, id) && Tries(d3, id) == Tries(d2, id)
    ensures TracksOne(d, d3, s, id)
  {
    hide Tries;
  }

  /** A change of one release's place, and of its own tries and line only. */
  lemma TracksStep(todo: seq<Id>, d: Disk, d2: Disk, d3: Disk, at: Places, id: Id, s: Status)
    requires Tracks(todo, d, d2, at) && id in at && TracksOne(d, d3, s, id) && Grows(SetOf(todo), d2, d3)
    requires forall o :: o != id ==> Tries(d3, o) == Tries(d2, o)
    requires Recorded(d3.out) == Recorded(d2.out) + if s.Written? then {id} else {}
    requires !at[id].Written?
    ensures Tracks(todo, d, d3, at[id := s])
  {
    hide TracksOne, Grows, Recorded, SetOf, Tries;
    GrowsOn(SetOf(todo), d, d2, d3);
    var at2 := at[id := s];
    assert at2.Keys == at.Keys;
    forall o | o in at2 ensures TracksOne(d, d3, at2[o], o) {
      if o != id {
        assert TracksOne(d, d2, at[o], o);
        TracksSame(d, d2, d3, at[o], o);
      }
    }
    forall o | o in at2 ensures at2[o].Written? <==> o in Recorded(d3.out) {
      assert o != id ==> (at2[o].Written? <==> o in Recorded(d2.out));
    }
  }

  lemma TracksStart(todo: seq<Id>, d: Disk, d2: Disk, at: Places, id: Id, s: Status)
    requires Tracks(todo, d, d2, at) && id in at && !at[id].Written? && !s.Written?
    requires TracksOne(d, Started(d2, id), s, id)
    ensures Tracks(todo, d, Started(d2, id), at[id := s])
  {
    hide TracksOne, Grows, Recorded;
    var d3 := Started(d2, id);
    assert id in SetOf(todo) && id !in Recorded(d2.out);
    GrowsByStart(SetOf(todo), d2, id);
    TracksStep(todo, d, d2, d3, at, id, s);
  }

  lemma TracksOfStart(d: Disk, d2: Disk, id: Id)
    requires Tries(d2, id) == Tries(d, id)
    ensures Tries(Started(d2, id), id) > 2 ==> TracksOne(d, Started(d2, id), Ready(Line(Timeout(id))), id)
    ensures Tries(Started(d2, id), id) <= 2 ==> TracksOne(d, Started(d2, id), Running, id)
    ensures TracksOne(d, d2, Ready(NotStarted), id)
  {
  }

  lemma TracksWrite(todo: seq<Id>, d: Disk, d2: Disk, at: Places, row: Row)
    requires Tracks(todo, d, d2, at) && row.id in at && !at[row.id].Written?
    requires Tries(d2, row.id) >= 1 && (Tries(d2, row.id) > 2 ==> row == Timeout(row.id))
    ensures row.id !in Recorded(d2.out)
    ensures Tracks(todo, d, Added(d2, row), at[row.id := Written])
  {
    hide Grows, Recorded;
    var d3 := Added(d2, row);
    assert row.id in SetOf(todo) && row.id !in Recorded(d2.out);
    GrowsByRow(SetOf(todo), d2, row);
    RecordedPush(d2.out, row);
    assert TracksOne(d, d3, Written, row.id);
    TracksStep(todo, d, d2, d3, at, row.id, Written);
  }

  lemma TracksBegin(todo: seq<Id>, d: Disk)
    requires forall id :: id in todo ==> id !in Recorded(d.out)
    ensures Tracks(todo, d, d, map id | id in todo :: Waiting)
  {
    GrowsNot(SetOf(todo), d);
  }

  lemma TracksGrows(todo: seq<Id>, d: Disk, d2: Disk, at: Places)
    requires Tracks(todo, d, d2, at)
    ensures Grows(SetOf(todo), d, d2) && (!ThirdPending(d2, at) ==> NoThird(d, d2))
  {
    if !ThirdPending(d2, at) {
      TracksNoThird(todo, d, d2, at);
    }
  }

  /** Once nothing waits, runs or is late, a release is recorded or is left, not both. */
  lemma TracksSplit(todo: seq<Id>, d: Disk, d2: Disk, at: Places)
    requires Tracks(todo, d, d2, at)
    requires NothingRuns(at) && LateIn(at) == {}
    ensures LeftIn(at) == SetOf(todo) - Recorded(d2.out)
  {
    hide Recorded, Grows, TracksOne;
    forall id | id in at ensures at[id].Left? || at[id].Written? {
      assert id !in WaitingIn(at) && id !in RunningIn(at) && id !in ReadyIn(at) && id !in LateIn(at);
    }
  }

  lemma NoneLeft(todo: seq<Id>, recorded: set<Id>)
    requires SetOf(todo) - recorded == {}
    ensures forall id :: id in todo ==> id in recorded
  {
    forall id | id in todo ensures id in recorded {
      assert id in SetOf(todo);
      assert id !in SetOf(todo) - recorded;
    }
  }

  lemma NoThirdNot(d: Disk)
    ensures NoThird(d, d)
  {
  }

  lemma LeftToDo(ids: seq<Id>, recorded: set<Id>)
    requires NoRepeats(ids)
    ensures NoRepeats(KeepIn(ids, SetOf(ids) - recorded))
    ensures forall id :: id in KeepIn(ids, SetOf(ids) - recorded) <==> id in ids && id !in recorded
    ensures SetOf(KeepIn(ids, SetOf(ids) - recorded)) == SetOf(ids) - recorded
  {
    KeepInIs(ids, SetOf(ids) - recorded);
  }

  /** After the workers, what this process is to take over. */
  lemma LeftOfLeft(ids: seq<Id>, todo: seq<Id>, left: seq<Id>, d: Disk, d2: Disk, unavailable: bool, done: bool)
    requires NoRepeats(todo) && SetOf(todo) == SetOf(ids) - Recorded(d.out) && Grows(SetOf(todo), d, d2)
    requires left == if unavailable then KeepIn(todo, SetOf(todo) - Recorded(d2.out)) else []
    requires done && !unavailable ==> forall id :: id in todo ==> id in Recorded(d2.out)
    ensures NoRepeats(left) && (forall id :: id in left ==> id in ids && id !in Recorded(d2.out))
    ensures SetOf(left) <= SetOf(ids)
    ensures unavailable || done ==> forall id :: id in ids ==> id in left || id in Recorded(d2.out)
  {
    assert forall id :: id in Recorded(d.out) ==> id in Recorded(d2.out);
    hide Recorded, Grows, KeepIn;
    LeftToDo(todo, Recorded(d2.out));
    forall id | id in ids && (unavailable || done) ensures id in left || id in Recorded(d2.out) {
      assert id in SetOf(ids);
      if id !in Recorded(d2.out) {
        assert id in SetOf(todo);
        assert id in todo;
      }
    }
    forall id | id in left ensures id in ids && id !in Recorded(d2.out) {
      assert id in SetOf(todo);
    }
  }

  lemma AllDone(ids: seq<Id>, left: seq<Id>, d: Disk, d2: Disk, done: bool)
    requires NoRepeats(ids) && Grows(SetOf(left), d, d2)
    requires done ==> forall id :: id in left ==> id in Recorded(d2.out)
    requires done ==> forall id :: id in ids ==> id in left || id in Recorded(d.out)
    ensures |SetOf(ids)| == |ids|
    ensures |Recorded(d2.out) * SetOf(ids)| == |ids| <==> SetOf(ids) <= Recorded(d2.out)
    ensures done ==> SetOf(ids) <= Recorded(d2.out)
  {
    assert forall id :: id in Recorded(d.out) ==> id in Recorded(d2.out);
    hide Recorded, Grows;
    SizeOf(ids);
    SameSize(Recorded(d2.out), SetOf(ids));
  }

  lemma SameSize(a: set<Id>, b: set<Id>)
    ensures |a * b| == |b| <==> b <= a
  {
    assert b == a * b + (b - a) && a * b !! (b - a);
    assert |b| == |a * b| + |b - a|;
    if b <= a {
      assert a * b == b;
    }
  }

  lemma {:induction false} SizeOf(ids: seq<Id>)
    requires NoRepeats(ids)
    ensures |SetOf(ids)| == |ids|
  {
    if ids == [] {
      assert SetOf(ids) == {};
    } else {
      SetOfRest(ids);
      assert forall i, j :: 0 <= i < j < |ids[1..]| ==> ids[1..][i] != ids[1..][j];
      SizeOf(ids[1..]);
    }
  }

  // ---- What became of each start ---------------------------------------------------------------

  function Count(m: map<Id, nat>, id: Id): nat {
    if id in m then m[id] else 0
  }

  function Plus(m: map<Id, nat>, id: Id): map<Id, nat> {
    m[id := Count(m, id) + 1]
  }

  lemma PlusCounts(m: map<Id, nat>, id: Id)
    ensures forall o :: Count(Plus(m, id), o) == Count(m, o) + if o == id then 1 else 0
  {
  }

  /** What a scan says: its result, or what it raised. */
  datatype Said = Said(raises: bool, text: string)

  const ERROR_SIZE: nat := 300

  /** The line for it; of an error only the beginning is kept. */
  function RowOf(id: Id, said: Said): Row {
    if said.raises then Failed(id, if |said.text| > ERROR_SIZE then said.text[..ERROR_SIZE] else said.text)
    else Scanned(id, said.text)
  }

  /** Of each release: its scans, and of those the second ones, alone, after a timeout cut the first off; and how many of
      its starts came to no line, as the run was killed, or as there was no worker; and what its last scan said. */
  datatype Tally = Tally(scans: map<Id, nat>, again: map<Id, nat>, killed: map<Id, nat>, lost: map<Id, nat>,
                         said: map<Id, Said>)

  /** A line says what its release's last scan did or, from the third start on, that the harness timed out. */
  ghost predicate LineSays(t: Tally, d: Disk, row: Row) {
    if Tries(d, row.id) > 2 then row == Failed(row.id, "harness timeout")
    else
      && row.id in t.said
      && (row.Scanned? <==> !t.said[row.id].raises)
      && (row.Scanned? ==> row.result == t.said[row.id].text)
      && (row.Failed? ==> row.text <= t.said[row.id].text
                          && |row.text| == if |t.said[row.id].text| > 300 then 300 else |t.said[row.id].text|)
  }

  /** The release has a line, be it one of a scan cut off. */
  predicate HasRow(s: Status) {
    s.Late? || (s.Ready? && !s.result.NotStarted?)
  }

  /** Its start has come to nothing yet. */
  predicate IsOpen(s: Status) {
    s.Running? || HasRow(s)
  }

  predicate HasRunOut(s: Status) {
    s.Late? || (s.Ready? && s.result.RanOut?)
  }

  /** A release was scanned, or started a third time. */
  predicate Told(t: Tally, d: Disk, id: Id) {
    Count(t.scans, id) >= 1 || Tries(d, id) > 2
  }

  /** The lines of a release that are written, and the one that is ready, say what its scan did. */
  ghost predicate SaysAt(t: Tally, d: Disk, s: Option<Status>, id: Id) {
    && (forall r :: r in d.out && r.id == id ==> LineSays(t, d, r))
    && (s.Some? && s.value.Ready? && !s.value.result.NotStarted? ==>
          s.value.result.row.id == id && LineSays(t, d, s.value.result.row))
  }

  /** What is so of a release (`s`: where it is in a run with workers): it is scanned at most twice, and at most once for
      each start, and again at most once for each scan; its line is told; each of its starts came to a line, to a kill or
      to a missing worker, but for one that is open. */
  ghost predicate FitsAt(t: Tally, d: Disk, s: Option<Status>, id: Id) {
    && Count(t.scans, id) <= 2 && Count(t.scans, id) <= Tries(d, id) && Count(t.again, id) <= Count(t.scans, id)
    && (id in Recorded(d.out) ==> Told(t, d, id))
    && Tries(d, id) == Count(t.killed, id) + Count(t.lost, id)
                       + (if id in Recorded(d.out) || (s.Some? && IsOpen(s.value)) then 1 else 0)
    && (s == Some(Running) ==> Count(t.scans, id) < Tries(d, id) <= 2)
    && (s.Some? && HasRow(s.value) ==> Told(t, d, id))
    && (s.Some? && HasRunOut(s.value) ==> Count(t.again, id) < Count(t.scans, id))
    && SaysAt(t, d, s, id)
  }

  function StatusOf(at: Places, id: Id): Option<Status> {
    if id in at then Some(at[id]) else None
  }

  ghost predicate Fits(t: Tally, d: Disk, at: Places) {
    forall id :: FitsAt(t, d, StatusOf(at, id), id)
  }

  /** Nothing changed but of one release. */
  ghost predicate OnlyOf(id: Id, t: Tally, d: Disk, t2: Tally, d2: Disk) {
    forall o :: o != id ==>
      && Tries(d2, o) == Tries(d, o) && (o in Recorded(d2.out) <==> o in Recorded(d.out))
      && Count(t2.scans, o) == Count(t.scans, o) && Count(t2.again, o) == Count(t.again, o)
      && Count(t2.killed, o) == Count(t.killed, o) && Count(t2.lost, o) == Count(t.lost, o)
      && (o in t2.said <==> o in t.said) && (o in t.said ==> t2.said[o] == t.said[o])
      && forall r: Row :: r.id == o ==> (r in d2.out <==> r in d.out)
  }

  lemma FitsStep(t: Tally, d: Disk, at: Places, t2: Tally, d2: Disk, id: Id, s: Status)
    requires Fits(t, d, at) && OnlyOf(id, t, d, t2, d2) && FitsAt(t2, d2, Some(s), id)
    ensures Fits(t2, d2, at[id := s])
  {
    var at2 := at[id := s];
    forall o ensures FitsAt(t2, d2, StatusOf(at2, o), o) {
      if o != id {
        FitsOther(t, d, at, t2, d2, id, o);
        assert StatusOf(at2, o) == StatusOf(at, o);
        hide FitsAt;
      }
    }
  }

  /** Of another release. */
  lemma FitsOther(t: Tally, d: Disk, at: Places, t2: Tally, d2: Disk, id: Id, o: Id)
    requires Fits(t, d, at) && OnlyOf(id, t, d, t2, d2) && o != id
    ensures FitsAt(t2, d2, StatusOf(at, o), o)
  {
    assert FitsAt(t, d, StatusOf(at, o), o);
    hide Count, Tries, Recorded, IsOpen, HasRow, HasRunOut, StatusOf;
  }

  /** A release that is not started: it waits for nothing more. */
  lemma FitsNotStarted(t: Tally, d: Disk, at: Places, id: Id, s: Status)
    requires Fits(t, d, at) && id in at && !IsOpen(at[id]) && !IsOpen(s)
    ensures Fits(t, d, at[id := s])
  {
    assert FitsAt(t, d, StatusOf(at, id), id);
    hide Count, Tries, Recorded;
    FitsStep(t, d, at, t, d, id, s);
  }

  /** It is started: it runs or, at its third start, has a timeout's line. */
  lemma FitsStart(t: Tally, d: Disk, at: Places, id: Id)
    requires Fits(t, d, at) && id !in Recorded(d.out) && (id in at ==> !IsOpen(at[id]))
    ensures Tries(Started(d, id), id) <= 2 ==> Fits(t, Started(d, id), at[id := Running])
    ensures Tries(Started(d, id), id) > 2 ==> Fits(t, Started(d, id), at[id := Ready(Line(Timeout(id)))])
  {
    assert FitsAt(t, d, StatusOf(at, id), id);
    assert forall o :: Tries(Started(d, id), o) == Tries(d, o) + if o == id then 1 else 0;
    hide Count, Tries, Recorded;
    if Tries(Started(d, id), id) <= 2 {
      FitsStep(t, d, at, t, Started(d, id), id, Running);
    } else {
      FitsStep(t, d, at, t, Started(d, id), id, Ready(Line(Timeout(id))));
    }
  }

  /** It was scanned. */
  lemma FitsScan(t: Tally, d: Disk, at: Places, id: Id, said: Said, result: Result)
    requires Fits(t, d, at) && id in at && at[id].Running? && id !in Recorded(d.out)
    requires result == Line(RowOf(id, said)) || result == RanOut(RowOf(id, said))
    ensures Fits(t.(scans := Plus(t.scans, id), said := t.said[id := said]), d, at[id := Ready(result)])
  {
    assert FitsAt(t, d, StatusOf(at, id), id);
    PlusCounts(t.scans, id);
    assert LineSays(t.(scans := Plus(t.scans, id), said := t.said[id := said]), d, RowOf(id, said));
    hide Count, Plus, Tries, LineSays;
    FitsStep(t, d, at, t.(scans := Plus(t.scans, id), said := t.said[id := said]), d, id, Ready(result));
  }

  /** There was no worker for it. */
  lemma FitsLost(t: Tally, d: Disk, at: Places, id: Id, s: Status)
    requires Fits(t, d, at) && id in at && IsOpen(at[id]) && !IsOpen(s) && id !in Recorded(d.out)
    ensures Fits(t.(lost := Plus(t.lost, id)), d, at[id := s])
  {
    assert FitsAt(t, d, StatusOf(at, id), id);
    PlusCounts(t.lost, id);
    hide Count, Plus, Tries, Recorded;
    FitsStep(t, d, at, t.(lost := Plus(t.lost, id)), d, id, s);
  }

  lemma FitsLate(t: Tally, d: Disk, at: Places, id: Id)
    requires Fits(t, d, at) && id in at && at[id].Ready? && at[id].result.RanOut?
    ensures Fits(t, d, at[id := Late])
  {
    assert FitsAt(t, d, StatusOf(at, id), id);
    hide Count, Tries, Recorded;
    FitsStep(t, d, at, t, d, id, Late);
  }

  /** Its line is written. */
  lemma FitsWrite(t: Tally, d: Disk, at: Places, row: Row)
    requires Fits(t, d, at) && row.id in at && row.id !in Recorded(d.out)
    requires at[row.id].Ready? && !at[row.id].result.NotStarted? && at[row.id].result.row == row
    ensures Fits(t, Added(d, row), at[row.id := Written])
  {
    assert FitsAt(t, d, StatusOf(at, row.id), row.id);
    RecordedPush(d.out, row);
    assert forall o :: Tries(Added(d, row), o) == Tries(d, o);
    hide Count, Tries, Recorded;
    FitsStep(t, d, at, t, Added(d, row), row.id, Written);
  }

  /** It was scanned again. */
  lemma FitsAgain(t: Tally, d: Disk, at: Places, id: Id, said: Said)
    requires Fits(t, d, at) && id in at && at[id].Late? && id !in Recorded(d.out) && Tries(d, id) <= 2
    ensures Fits(t.(again := Plus(t.again, id), said := t.said[id := said]), d, at[id := Ready(Line(RowOf(id, said)))])
  {
    assert FitsAt(t, d, StatusOf(at, id), id);
    PlusCounts(t.again, id);
    assert LineSays(t.(again := Plus(t.again, id), said := t.said[id := said]), d, RowOf(id, said));
    hide Count, Plus, Tries, LineSays;
    FitsStep(t, d, at, t.(again := Plus(t.again, id), said := t.said[id := said]), d, id, Ready(Line(RowOf(id, said))));
  }

  function OpenIn(at: Places): set<Id> {
    set id | id in at && IsOpen(at[id])
  }

  /** One more for each of `ids`. */
  function PlusAll(m: map<Id, nat>, ids: set<Id>): map<Id, nat> {
    map id | id in m.Keys + ids :: Count(m, id) + if id in ids then 1 else 0
  }

  /** The run is killed: no start that was open will come to a line. */
  lemma FitsKill(t: Tally, d: Disk, at: Places)
    requires Fits(t, d, at) && forall id :: id in at && IsOpen(at[id]) ==> id !in Recorded(d.out)
    ensures Fits(t.(killed := PlusAll(t.killed, OpenIn(at))), d, map[])
  {
    var t2 := t.(killed := PlusAll(t.killed, OpenIn(at)));
    forall id ensures FitsAt(t2, d, StatusOf(map[], id), id) {
      assert FitsAt(t, d, StatusOf(at, id), id);
      assert Count(t2.killed, id) == Count(t.killed, id) + if id in OpenIn(at) then 1 else 0;
      hide Count, Tries, Recorded;
    }
  }

  /** Once every release is written or left, where each was does not matter. */
  lemma FitsEnd(t: Tally, d: Disk, at: Places)
    requires Fits(t, d, at) && forall id :: id in at ==> !IsOpen(at[id])
    ensures Fits(t, d, map[])
  {
    forall id ensures FitsAt(t, d, StatusOf(map[], id), id) {
      assert FitsAt(t, d, StatusOf(at, id), id);
      hide Count, Tries, Recorded;
    }
  }

  lemma FitsBegin(t: Tally, d: Disk, at: Places)
    requires Fits(t, d, map[]) && forall id :: id in at ==> at[id].Waiting?
    ensures Fits(t, d, at)
  {
    forall id ensures FitsAt(t, d, StatusOf(at, id), id) {
      assert FitsAt(t, d, StatusOf(map[], id), id);
      hide Count, Tries, Recorded;
    }
  }

  lemma FitsOrdered(t: Tally, d: Disk, ids: seq<Id>)
    requires Fits(t, d, map[])
    ensures Fits(t, Disk(Ordered(ids, d.out), d.tries), map[])
  {
    var d2 := Disk(Ordered(ids, d.out), d.tries);
    OrderedRecorded(ids, d.out);
    OrderedHolds(ids, d.out);
    assert forall o :: Tries(d2, o) == Tries(d, o);
    hide Ordered, Recorded, Tries, Count;
    forall id ensures FitsAt(t, d2, StatusOf(map[], id), id) {
      assert FitsAt(t, d, StatusOf(map[], id), id);
    }
  }

  /** A release recorded at its third start had two starts that came to nothing; the run was killed at both if and only if
      none of its starts found no worker. */
  lemma ThirdStartMeans(t: Tally, d: Disk, id: Id)
    requires Fits(t, d, map[]) && id in Recorded(d.out) && Tries(d, id) > 2
    ensures Count(t.killed, id) + Count(t.lost, id) == Tries(d, id) - 1 >= 2
    ensures Count(t.killed, id) == Tries(d, id) - 1 <==> Count(t.lost, id) == 0
    ensures Count(t.killed, id) >= 2 <==> Count(t.lost, id) <= Tries(d, id) - 3
  {
    assert FitsAt(t, d, StatusOf(map[], id), id);
  }

  // ---- How OUT ends ------------------------------------------------------------------------------

  /** OUT ends after a whole line, or after a line without its newline, or some of it is no line that can be read. */
  datatype End = Ended | NoNewline | Broken

  function LastOf(out: seq<Row>): Option<Row> {
    if out == [] then None else Some(out[|out| - 1])
  }

  /** How OUT ends once its lines are `b` that were `a`: what is put after a line without its newline joins it. */
  function EndAfter(end: End, a: seq<Row>, b: seq<Row>): End {
    if end == NoNewline && LastOf(a) != LastOf(b) then Broken else end
  }

  function EndOfWrite(end: End, newline: bool): End {
    if end != Ended then Broken else if newline then Ended else NoNewline
  }

  lemma EndOfPush(end: End, a: seq<Row>, b: seq<Row>, row: Row, newline: bool)
    requires a <= b && row.id !in Recorded(b)
    requires end == NoNewline ==> a != []
    ensures EndAfter(end, a, b + [row]) == EndOfWrite(EndAfter(end, a, b), true)
    ensures EndOfWrite(EndAfter(end, a, b), newline).Broken? <==> EndAfter(end, a, b + [row]).Broken?
  {
    if a != [] {
      assert a[|a| - 1] in b;
    }
  }

  lemma EndOn(end: End, a: seq<Row>, b: seq<Row>, c: seq<Row>)
    requires a <= b <= c && Distinct(c) && (end == NoNewline ==> a != [])
    ensures EndAfter(EndAfter(end, a, b), b, c) == EndAfter(end, a, c)
  {
    if a != [] {
      assert a[|a| - 1] == c[|a| - 1] && b[|b| - 1] == c[|b| - 1];
    }
  }

  /** No line is of a later place than the last one. */
  predicate LastInPlace(ids: seq<Id>, out: seq<Row>) {
    out == [] || forall r :: r in out ==> Place(ids, r.id) <= Place(ids, out[|out| - 1].id)
  }

  lemma {:induction false} InsertLast(ids: seq<Id>, rows: seq<Row>, row: Row)
    requires InPlace(ids, rows) && row !in rows
    ensures LastOf(Insert(ids, rows, row)) == Some(row) <==> forall r :: r in rows ==> Place(ids, r.id) <= Place(ids, row.id)
  {
    hide Place;
    if rows != [] && Place(ids, row.id) >= Place(ids, rows[0].id) {
      InsertLast(ids, rows[1..], row);
      InsertIs(ids, rows[1..], row);
      assert rows == [rows[0]] + rows[1..];
    } else if rows != [] {
      assert LastOf(Insert(ids, rows, row)) == LastOf(rows);
      assert rows[0] in rows;
    }
  }

  /** Putting the lines in order leaves the last one last if and only if none is of a later place. */
  lemma LastStays(ids: seq<Id>, out: seq<Row>)
    requires Distinct(out)
    ensures LastOf(Ordered(ids, out)) == LastOf(out) <==> LastInPlace(ids, out)
  {
    hide Place, Insert, Ordered, InPlace;
    if out != [] {
      var init, last := out[..|out| - 1], out[|out| - 1];
      DistinctBefore(out);
      OrderedIs(ids, init);
      OrderedHolds(ids, init);
      assert out == init + [last];
      assert last !in init;
      InsertLast(ids, Ordered(ids, init), last);
      OrderedStep(ids, out);
    } else {
      OrderedStep(ids, out);
    }
  }

  lemma OrderedStep(ids: seq<Id>, out: seq<Row>)
    ensures Ordered(ids, out)
            == if out == [] then [] else Insert(ids, Ordered(ids, out[..|out| - 1]), out[|out| - 1])
  {
  }

  lemma NothingOpen(m: map<Id, nat>)
    ensures OpenIn(map[]) == {} && PlusAll(m, {}) == m
  {
  }
}
