/**
 scripts/bench.py: a run as it is written, over the two files it leaves behind (Bench.dfy says what it may do to them). It
 may be killed anywhere, in the middle of a write too; what a scan says, whether a worker can be had, whether time is up
 and where it is killed are given to each step, and may be anything.
 */
module BenchRun {
  import opened Common
  import opened Bench
  import opened BenchPlaces

  /** What a kill fell into: the rewriting of OUT.attempts, and the writing of a line of which only some was written. */
  datatype Cut = Cut(attempts: bool, line: bool)

  const BETWEEN := Cut(false, false)

  /** How a run ended. `late`: it was killed after a release's third start and before that release's line. `Unread`: one of
      the two files could not be read, and nothing was done. `Unsorted`: OUT could not be read again to be put in order. */
  datatype Outcome = Done | OutOfTime | Killed(late: bool, cut: Cut) | Unread | Unsorted

  /** Where a run is killed with one release in hand. `InLine`: in its line, the newline missing or (`part`) more. */
  datatype Stop = Never | InStart | AfterStart | AfterScan | InLine(part: bool)

  /** The release's start comes to no line. */
  predicate IsLost(stop: Stop) {
    stop.AfterStart? || stop.AfterScan? || stop == InLine(true)
  }

  /** A line that is written when the run is killed, the newline missing or (`part`) more. */
  datatype Writing = NoLine | LineOf(id: Id, part: bool)

  predicate HasLine(at: Places, id: Id) {
    id in at && at[id].Ready? && at[id].result.Line?
  }

  /** What becomes of the run from outside: each time it looks, whether its time is up, or whether it is killed next. */
  class Watch {
    const late: nat -> bool
    const killed: nat -> bool
    var asked: nat

    constructor (late: nat -> bool, killed: nat -> bool)
      ensures this.late == late && this.killed == killed && asked == 0
    {
      this.late, this.killed, asked := late, killed, 0;
    }

    method Late() returns (so: bool)
      modifies this
      ensures asked == old(asked) + 1 && so == late(old(asked))
    {
      so := late(asked);
      asked := asked + 1;
    }

    method Killed() returns (so: bool)
      modifies this
      ensures asked == old(asked) + 1 && so == killed(old(asked))
    {
      so := killed(asked);
      asked := asked + 1;
    }
  }

  /** It was so at one of the times it looked. */
  ghost predicate Came(what: nat -> bool, from: nat, until: nat) {
    exists n: nat :: from <= n < until && what(n)
  }

  lemma CameNow(what: nat -> bool, from: nat, until: nat)
    requires from < until
    ensures what(until - 1) ==> Came(what, from, until)
    ensures Came(what, from, until - 1) ==> Came(what, from, until)
    ensures until - 1 > from && Came(what, from, until - 2) ==> Came(what, from, until)
  {
  }

  /** How a run may end: late or killed only if it found so. */
  ghost predicate Ends(o: Outcome, when: Watch, from: nat, until: nat) {
    && from <= until
    && (o.OutOfTime? ==> Came(when.late, from, until))
    && (o.Killed? ==> Came(when.killed, from, until))
  }

  /** What a worker's thread is told. */
  datatype Reply = NoWorker | Scans(said: Said, ranOut: bool)

  /** Lines were only added, each whole; and OUT.attempts is as whole as it was. */
  ghost predicate Kept(end0: End, cut0: bool, out0: seq<Row>, end: End, cut: bool, out: seq<Row>) {
    out0 <= out && end == EndAfter(end0, out0, out) && cut == cut0 && (end0 == NoNewline ==> out0 != [])
  }

  /** The files can be read after a run if they could be before, unless it was killed inside a write that left a part, or
      put something after a line without its newline. */
  ghost predicate ReadsAfter(end0: End, cut0: bool, out0: seq<Row>, o: Outcome, end: End, cut: bool, out: seq<Row>) {
    if o.Killed? then
      && out0 <= out
      && (end != Broken && !cut <==>
          EndAfter(end0, out0, out) != Broken && !cut0 && !o.cut.attempts && !o.cut.line)
    else
      Kept(end0, cut0, out0, end, cut, out)
  }

  lemma KeptNothing(end: End, cut: bool, out: seq<Row>)
    requires end == NoNewline ==> out != []
    ensures Kept(end, cut, out, end, cut, out)
  {
  }

  lemma KeptRow(end0: End, cut0: bool, out0: seq<Row>, end: End, cut: bool, out: seq<Row>, row: Row)
    requires Kept(end0, cut0, out0, end, cut, out) && row.id !in Recorded(out)
    ensures Kept(end0, cut0, out0, EndOfWrite(end, true), cut, out + [row])
  {
    EndOfPush(end0, out0, out, row, true);
  }

  /** Killed with nothing of a line written, or in the rewriting of OUT.attempts. */
  lemma KilledReads(end0: End, cut0: bool, out0: seq<Row>, end: End, cut: bool, out: seq<Row>, late: bool, attempts: bool)
    requires Kept(end0, cut0, out0, end, cut, out)
    ensures ReadsAfter(end0, cut0, out0, Killed(late, Cut(attempts, false)), end, cut || attempts, out)
  {
  }

  lemma KilledInPart(end0: End, cut0: bool, out0: seq<Row>, end: End, cut: bool, out: seq<Row>, late: bool, attempts: bool)
    requires Kept(end0, cut0, out0, end, cut, out)
    ensures ReadsAfter(end0, cut0, out0, Killed(late, Cut(attempts, true)), Broken, cut || attempts, out)
  {
  }

  lemma KilledBeforeNewline(end0: End, cut0: bool, out0: seq<Row>, end: End, cut: bool, out: seq<Row>, row: Row, late: bool,
                            attempts: bool)
    requires Kept(end0, cut0, out0, end, cut, out) && row.id !in Recorded(out)
    ensures ReadsAfter(end0, cut0, out0, Killed(late, Cut(attempts, false)), EndOfWrite(end, false), cut || attempts,
                       out + [row])
  {
    EndOfPush(end0, out0, out, row, false);
  }

  /** One stretch of a run and then the next. */
  lemma ReadsOn(end0: End, cut0: bool, out0: seq<Row>, end1: End, cut1: bool, out1: seq<Row>, o: Outcome, end: End,
                cut: bool, out: seq<Row>)
    requires Kept(end0, cut0, out0, end1, cut1, out1) && ReadsAfter(end1, cut1, out1, o, end, cut, out) && Distinct(out)
    ensures ReadsAfter(end0, cut0, out0, o, end, cut, out)
  {
    EndOn(end0, out0, out1, out);
  }

  class Run {
    var out: seq<Row>                 // the lines of OUT that were written to their last character
    var end: End                      // how OUT ends
    var tries: map<Id, nat>           // OUT.attempts, as it was last whole
    var cut: bool                     // only a part of it is there
    ghost var tally: Tally

    ghost function D(): Disk
      reads this
    {
      Disk(out, tries)
    }

    /** Both files can be read. */
    predicate Readable()
      reads this
    {
      end != Broken && !cut
    }

    ghost predicate Ok(at: Places)
      reads this
    {
      Distinct(out) && Fits(tally, D(), at) && (end == NoNewline ==> out != [])
    }

    /** No line twice; and each release's scans, starts and line as FitsAt says. */
    ghost predicate Valid()
      reads this
    {
      Ok(map[])
    }

    constructor ()
      ensures Valid() && out == [] && tries == map[] && end == Ended && !cut
      ensures tally == Tally(map[], map[], map[], map[], map[])
    {
      out, end, tries, cut := [], Ended, map[], false;
      tally := Tally(map[], map[], map[], map[], map[]);
    }

    /** _Attempts.start. */
    method Start(id: Id) returns (n: nat)
      modifies this`tries
      ensures n == Tries(D(), id) && D() == Started(old(D()), id)
    {
      n := Tries(Disk(out, tries), id) + 1;
      tries := tries[id := n];
    }

    /** A line to its end, or to just before its newline. */
    method Write(row: Row, newline: bool)
      modifies this`out, this`end
      ensures D() == Added(old(D()), row) && end == EndOfWrite(old(end), newline)
    {
      out := out + [row];
      end := EndOfWrite(end, newline);
    }

    /** The run is killed: the starts that were open come to nothing. */
    method Die(at: Places, attempts: bool)
      requires Ok(at) && forall id :: id in at && IsOpen(at[id]) ==> id !in Recorded(out)
      modifies this`cut, this`tally
      ensures Valid() && cut == (old(cut) || attempts)
      ensures tally == old(tally).(killed := PlusAll(old(tally).killed, OpenIn(at)))
    {
      FitsKill(tally, D(), at);
      cut := cut || attempts;
      tally := tally.(killed := PlusAll(tally.killed, OpenIn(at)));
    }

    /** _in_process: `todo` from first to last, in the run's own process. */
    method InProcess(todo: seq<Id>, when: Watch) returns (o: Outcome)
      requires Valid() && NoRepeats(todo) && forall id :: id in todo ==> id !in Recorded(out)
      modifies this, when
      ensures Valid() && Grows(SetOf(todo), old(D()), D()) && !o.Unread? && !o.Unsorted?
      ensures ReadsAfter(old(end), old(cut), old(out), o, end, cut, out)
      ensures o.Done? ==> forall id :: id in todo ==> id in Recorded(out)
      ensures !(o.Killed? && o.late) ==> NoThird(old(D()), D())
      ensures Ends(o, when, old(when.asked), when.asked)
    {
      GrowsNot(SetOf(todo), D());
      NoThirdNot(D());
      KeptNothing(end, cut, out);
      hide Grows, NoThird, Recorded, SetOf, Valid, Kept, ReadsAfter, NoRepeats;
      for n := 0 to |todo|
        invariant Valid() && Grows(SetOf(todo), old(D()), D()) && NoThird(old(D()), D())
        invariant Kept(old(end), old(cut), old(out), end, cut, out) && DoneUpTo(todo, n, Recorded(out))
        invariant old(when.asked) <= when.asked
      {
        DoneNext(todo, n, Recorded(out));
        hide DoneUpTo;
        o := NextInProcess(todo, n, when, old(D()), old(end), old(cut), old(out));
        if !o.Done? {
          return;
        }
      }
      o := Done;
      KeptReads(old(end), old(cut), old(out), o, end, cut, out);
    }

    /** One turn of it: time may be up, and the run may be killed. */
    method NextInProcess(todo: seq<Id>, n: nat, when: Watch, ghost d: Disk, ghost end0: End, ghost cut0: bool,
                         ghost out0: seq<Row>) returns (o: Outcome)
      requires Valid() && NoRepeats(todo) && n < |todo| && todo[n] !in Recorded(out)
      requires Grows(SetOf(todo), d, D()) && NoThird(d, D()) && Kept(end0, cut0, out0, end, cut, out)
      modifies this, when
      ensures Valid() && Grows(SetOf(todo), d, D()) && !o.Unread? && !o.Unsorted?
      ensures !(o.Killed? && o.late) ==> NoThird(d, D())
      ensures o.Done? ==> Recorded(out) == old(Recorded(out)) + {todo[n]} && Kept(end0, cut0, out0, end, cut, out)
      ensures !o.Done? ==> ReadsAfter(end0, cut0, out0, o, end, cut, out)
      ensures Ends(o, when, old(when.asked), when.asked)
    {
      hide Grows, NoThird, Recorded, SetOf, Valid, Kept, ReadsAfter, Started, Added, RowOf, Plus, PlusAll;
      var late := when.Late();
      if late {
        KeptReads(end0, cut0, out0, OutOfTime, end, cut, out);
        return OutOfTime;
      }
      var stop: Stop, said: Said := *, *;
      var killed := when.Killed();
      if !killed {
        stop := Never;
      } else if stop.Never? {
        stop := AfterStart;
      }
      ghost var end1, cut1, out1 := end, cut, out;
      o := OneInProcess(todo, n, d, stop, said);
      DistinctOut();
      if o.Killed? {
        ReadsOn(end0, cut0, out0, end1, cut1, out1, o, end, cut, out);
      } else {
        KeptOn(end0, cut0, out0, end1, cut1, out1, o, end, cut, out);
      }
    }

    lemma DistinctOut()
      requires Valid()
      ensures Distinct(out)
    {
    }

    /** One release: started, and its line written unless the run is killed before. */
    method OneInProcess(todo: seq<Id>, n: nat, ghost d: Disk, stop: Stop, said: Said) returns (o: Outcome)
      requires Valid() && NoRepeats(todo) && n < |todo| && todo[n] !in Recorded(out)
      requires Grows(SetOf(todo), d, D()) && NoThird(d, D())
      modifies this
      ensures Valid() && Grows(SetOf(todo), d, D()) && (o.Done? || o.Killed?) && (o.Done? <==> stop.Never?)
      ensures ReadsAfter(old(end), old(cut), old(out), o, end, cut, out)
      ensures !(o.Killed? && o.late) ==> NoThird(d, D())
      ensures o.Done? ==> Recorded(out) == old(Recorded(out)) + {todo[n]}
      ensures var id, d1 := todo[n], Started(old(D()), todo[n]);
              var third := Tries(d1, id) > 2;
              var scanned := old(tally).(scans := Plus(old(tally).scans, id), said := old(tally).said[id := said]);
              && D() == (if stop.InStart? then old(D())
                         else if stop.Never? || stop == InLine(false)
                         then Added(d1, if third then Timeout(id) else RowOf(id, said)) else d1)
              && var told := if third || stop.InStart? || stop.AfterStart? then old(tally) else scanned;
              tally == if IsLost(stop) then told.(killed := PlusAll(told.killed, {id})) else told
      ensures cut == (old(cut) || stop.InStart?)
      ensures match stop
              case Never => end == EndOfWrite(old(end), true)
              case InLine(part) => end == if part then Broken else EndOfWrite(old(end), false)
              case _ => end == old(end)
    {
      hide Grows, NoThird, Recorded, Distinct, SetOf, Fits, Kept, ReadsAfter, PlusAll, Plus, EndOfWrite, OpenIn;
      var id := todo[n];
      ghost var d0, end0, cut0, out0 := D(), end, cut, out;
      StartedGrows(todo, d, d0, id);
      KeptNothing(end, cut, out);
      if stop.InStart? {
        KilledReads(end0, cut0, out0, end, cut, out, false, true);
        NothingOpen(tally.killed);
        Die(map[], true);
        return Killed(false, Cut(true, false));
      }
      FitsStart(tally, d0, map[], id);
      var count := Start(id);
      var at: Places := map[id := if count > 2 then Ready(Line(Timeout(id))) else Running];
      NoThirdStart(d, d0, id);
      if stop.AfterStart? {
        KilledReads(end0, cut0, out0, end, cut, out, count > 2, false);
        OpenOne(id, at[id]);
        Die(at, false);
        return Killed(count > 2, BETWEEN);
      }
      o := Finish(todo, d, at, id, count > 2, stop, said);
      NoThirdRow(d, d0, Timeout(id));
      NoThirdRow(d, d0, RowOf(id, said));
    }

    /** A release that was started: scanned, unless it was its third start, and its line written. */
    method Finish(todo: seq<Id>, ghost d: Disk, at0: Places, id: Id, third: bool, stop: Stop, said: Said)
      returns (o: Outcome)
      requires Ok(at0) && third == (Tries(D(), id) > 2) && Tries(D(), id) >= 1 && id in todo && id !in Recorded(out)
      requires at0 == map[id := if third then Ready(Line(Timeout(id))) else Running]
      requires Grows(SetOf(todo), d, D()) && !stop.InStart? && !stop.AfterStart?
      modifies this
      ensures Valid() && Grows(SetOf(todo), d, D()) && (o.Done? || o.Killed?) && (o.Done? <==> stop.Never?)
      ensures o.Killed? ==> !o.cut.attempts
      ensures ReadsAfter(old(end), old(cut), old(out), o, end, cut, out)
      ensures stop.Never? || stop == InLine(false) ==>
                D() == Added(old(D()), if third then Timeout(id) else RowOf(id, said)) && !(o.Killed? && o.late)
      ensures !(stop.Never? || stop == InLine(false)) ==> D() == old(D()) && (o.Killed? && o.late <==> third)
      ensures var scanned := old(tally).(scans := Plus(old(tally).scans, id), said := old(tally).said[id := said]);
              var told := if third then old(tally) else scanned;
              tally == if IsLost(stop) then told.(killed := PlusAll(told.killed, {id})) else told
      ensures cut == old(cut)
      ensures match stop
              case Never => end == EndOfWrite(old(end), true)
              case InLine(part) => end == if part then Broken else EndOfWrite(old(end), false)
              case _ => end == old(end)
      ensures o.Done? ==> Recorded(out) == old(Recorded(out)) + {id}
    {
      hide Grows, Recorded, Distinct, SetOf, Fits, Kept, ReadsAfter, PlusAll, Plus, EndOfWrite, OpenIn;
      ghost var end0, cut0, out0 := end, cut, out;
      var at, row := at0, Timeout(id);
      KeptNothing(end, cut, out);
      if !third {
        row := RowOf(id, said);
        FitsScan(tally, D(), at, id, said, Line(row));
        tally := tally.(scans := Plus(tally.scans, id), said := tally.said[id := said]);
        at := at[id := Ready(Line(row))];
      }
      if stop.AfterScan? || stop == InLine(true) {
        KilledReads(end0, cut0, out0, end, cut, out, third, false);
        KilledInPart(end0, cut0, out0, end, cut, out, third, false);
        assert at == map[id := at[id]];
        OpenOne(id, at[id]);
        Die(at, false);
        if stop.InLine? {
          end := Broken;
        }
        return Killed(third, Cut(false, stop.InLine?));
      }
      FitsWrite(tally, D(), at, row);
      RowGrows(todo, d, D(), row);
      DistinctPush(out, row);
      RecordedPush(out, row);
      KeptRow(end0, cut0, out0, end, cut, out, row);
      KilledBeforeNewline(end0, cut0, out0, end, cut, out, row, false, false);
      Write(row, stop.Never?);
      FitsEnd(tally, D(), at[id := Written]);
      if stop.Never? {
        o := Done;
        KeptReads(end0, cut0, out0, o, end, cut, out);
      } else {
        o := Killed(false, BETWEEN);
      }
    }

    // ---- With workers ----------------------------------------------------------------------------

    /** A thread of the pool takes a release that waits: started, unless the run was stopped or time is up. */
    method Begin(todo: seq<Id>, ghost d: Disk, at: Places, id: Id, stopped: bool, late: bool) returns (s: Status)
      requires Ok(at) && Tracks(todo, d, D(), at) && id in at && at[id].Waiting?
      modifies this`tries
      ensures Ok(at[id := s]) && Tracks(todo, d, D(), at[id := s]) && (s.Running? || s.Ready?)
      ensures if stopped || late then s == Ready(NotStarted) && tries == old(tries)
              else D() == Started(old(D()), id) && s == if Tries(D(), id) > 2 then Ready(Line(Timeout(id))) else Running
    {
      assert TracksOne(d, D(), at[id], id) && id !in Recorded(out);
      TracksOfStart(d, D(), id);
      hide Tracks, TracksOne, Fits, Started, Recorded, Distinct;
      ghost var d0 := D();
      if stopped || late {
        s := Ready(NotStarted);
        TracksMove(todo, d, d0, at, id, s);
        FitsNotStarted(tally, d0, at, id, s);
        return;
      }
      FitsStart(tally, d0, at, id);
      var n := Start(id);
      s := if n > 2 then Ready(Line(Timeout(id))) else Running;
      TracksStart(todo, d, d0, at, id, s);
    }

    /** What comes back for a running release: a line, maybe of a scan its timeout cut off, or that there is no worker. */
    method Answer(todo: seq<Id>, ghost d: Disk, at: Places, id: Id, reply: Reply) returns (s: Status)
      requires Ok(at) && Tracks(todo, d, D(), at) && id in at && at[id].Running?
      modifies this`tally
      ensures Ok(at[id := s]) && Tracks(todo, d, D(), at[id := s]) && s.Ready?
      ensures match reply
              case NoWorker => s == Ready(NotStarted) && tally == old(tally).(lost := Plus(old(tally).lost, id))
              case Scans(said, ranOut) =>
                && s == Ready(if ranOut then RanOut(RowOf(id, said)) else Line(RowOf(id, said)))
                && tally == old(tally).(scans := Plus(old(tally).scans, id), said := old(tally).said[id := said])
    {
      assert TracksOne(d, D(), at[id], id) && id !in Recorded(out);
      hide Tracks, Fits, Recorded, Distinct, Plus;
      match reply
      case NoWorker =>
        s := Ready(NotStarted);
        FitsLost(tally, D(), at, id, s);
        tally := tally.(lost := Plus(tally.lost, id));
        TracksMove(todo, d, D(), at, id, s);
      case Scans(said, ranOut) =>
        var result := if ranOut then RanOut(RowOf(id, said)) else Line(RowOf(id, said));
        s := Ready(result);
        FitsScan(tally, D(), at, id, said, result);
        tally := tally.(scans := Plus(tally.scans, id), said := tally.said[id := said]);
        TracksMove(todo, d, D(), at, id, s);
    }

    /** _route: a whole scan's line is written; a release whose scan was cut off becomes late; one with no line is left. */
    method Route(todo: seq<Id>, ghost d: Disk, at: Places, id: Id, newline: bool) returns (s: Status)
      requires Ok(at) && Tracks(todo, d, D(), at) && id in at && at[id].Ready?
      modifies this`out, this`end
      ensures Ok(at[id := s]) && Tracks(todo, d, D(), at[id := s])
      ensures match at[id].result
              case Line(row) =>
                && s == Written && row.id == id && id !in Recorded(old(out))
                && out == old(out) + [row] && end == EndOfWrite(old(end), newline)
              case RanOut(_) => s == Late && out == old(out) && end == old(end)
              case NotStarted => s == Left && out == old(out) && end == old(end)
    {
      assert TracksOne(d, D(), at[id], id) && id !in Recorded(out);
      hide Tracks, Fits, Recorded, Distinct, EndOfWrite;
      match at[id].result
      case Line(row) =>
        s := Written;
        TracksWrite(todo, d, D(), at, row);
        FitsWrite(tally, D(), at, row);
        DistinctPush(out, row);
        Write(row, newline);
      case RanOut(_) =>
        s := Late;
        TracksMove(todo, d, D(), at, id, s);
        FitsLate(tally, D(), at, id);
      case NotStarted =>
        s := Left;
        TracksMove(todo, d, D(), at, id, s);
        FitsNotStarted(tally, D(), at, id, s);
    }

    /** The second scan of a late release: its line counts, whatever it says; with no worker the release is left. */
    method ScanAgain(todo: seq<Id>, ghost d: Disk, at: Places, id: Id, stopped: bool, reply: Reply) returns (s: Status)
      requires Ok(at) && Tracks(todo, d, D(), at) && id in at && at[id].Late?
      modifies this`tally
      ensures Ok(at[id := s]) && Tracks(todo, d, D(), at[id := s])
      ensures if stopped || reply.NoWorker? then s == Left && tally == old(tally).(lost := Plus(old(tally).lost, id))
              else
                && s == Ready(Line(RowOf(id, reply.said)))
                && tally == old(tally).(again := Plus(old(tally).again, id), said := old(tally).said[id := reply.said])
    {
      assert TracksOne(d, D(), at[id], id) && id !in Recorded(out);
      hide Tracks, Fits, Recorded, Distinct, Plus;
      if stopped || reply.NoWorker? {
        s := Left;
        FitsLost(tally, D(), at, id, s);
        tally := tally.(lost := Plus(tally.lost, id));
      } else {
        s := Ready(Line(RowOf(id, reply.said)));
        FitsAgain(tally, D(), at, id, reply.said);
        tally := tally.(again := Plus(tally.again, id), said := tally.said[id := reply.said]);
      }
      TracksMove(todo, d, D(), at, id, s);
    }

    /** The run is killed: while a thread rewrites OUT.attempts or not (`attempts`), and while a line that is ready is
        written or not. */
    method Kill(todo: seq<Id>, ghost d: Disk, at: Places, attempts: bool, writing: Writing, ghost end0: End,
                ghost cut0: bool, ghost out0: seq<Row>) returns (o: Outcome)
      requires Ok(at) && Tracks(todo, d, D(), at) && Kept(end0, cut0, out0, end, cut, out)
      requires writing.LineOf? ==> HasLine(at, writing.id)
      modifies this
      ensures Valid() && Grows(SetOf(todo), d, D()) && o.Killed? && (!o.late ==> NoThird(d, D()))
      ensures ReadsAfter(end0, cut0, out0, o, end, cut, out)
      ensures tries == old(tries) && cut == (old(cut) || attempts)
      ensures o.cut == Cut(attempts, writing.LineOf? && writing.part)
      ensures match writing
              case NoLine => out == old(out) && end == old(end)
              case LineOf(_, true) => out == old(out) && end == Broken
              case LineOf(id, false) => out == old(out) + [at[id].result.row] && end == EndOfWrite(old(end), false)
      ensures var open := if writing.LineOf? && !writing.part then OpenIn(at) - {writing.id} else OpenIn(at);
              tally == old(tally).(killed := PlusAll(old(tally).killed, open))
    {
      hide Tracks, Fits, Recorded, Distinct, Kept, ReadsAfter, EndOfWrite, ThirdPending, Grows, NoThird, PlusAll;
      var at2, late := at, ThirdPending(Disk(out, tries), at);
      ghost var end1, cut1, out1 := end, cut, out;
      KilledReads(end0, cut0, out0, end, cut, out, late, attempts);
      KilledInPart(end0, cut0, out0, end, cut, out, late, attempts);
      if writing.LineOf? && writing.part {
        end := Broken;
      } else if writing.LineOf? {
        var id, row := writing.id, at[writing.id].result.row;
        var s := Route(todo, d, at, id, false);
        at2 := at[id := s];
        assert OpenIn(at2) == OpenIn(at) - {id};
        late := ThirdPending(Disk(out, tries), at2);
        KilledBeforeNewline(end0, cut0, out0, end1, cut, out1, row, late, attempts);
      }
      TracksGrows(todo, d, D(), at2);
      OpenUnrecorded(todo, d, D(), at2);
      Die(at2, attempts);
      o := Killed(late, Cut(attempts, writing.LineOf? && writing.part));
    }

    /** Killed, wherever it is. */
    method KillAnywhere(todo: seq<Id>, ghost d: Disk, at: Places, ghost end0: End, ghost cut0: bool, ghost out0: seq<Row>)
      returns (o: Outcome)
      requires Ok(at) && Tracks(todo, d, D(), at) && Kept(end0, cut0, out0, end, cut, out)
      modifies this
      ensures Valid() && Grows(SetOf(todo), d, D()) && o.Killed? && (!o.late ==> NoThird(d, D()))
      ensures ReadsAfter(end0, cut0, out0, o, end, cut, out)
    {
      hide Tracks, Fits, Recorded, Distinct, Kept, ReadsAfter, Grows, NoThird;
      var attempts: bool, writes: bool, part: bool := *, *, *;
      var writing := NoLine;
      var lines := set id | id in at && HasLine(at, id);
      if writes && lines != {} {
        var id :| id in lines;
        writing := LineOf(id, part);
      }
      o := Kill(todo, d, at, attempts, writing, end0, cut0, out0);
    }

    lemma AllWait(todo: seq<Id>, at: Places)
      requires Valid() && (forall id :: id in todo ==> id !in Recorded(out)) && at == map id | id in todo :: Waiting
      ensures Ok(at) && Tracks(todo, D(), D(), at) && Kept(end, cut, out, end, cut, out) && NotStartedIn(at) == {}
    {
      TracksBegin(todo, D());
      FitsBegin(tally, D(), at);
      KeptNothing(end, cut, out);
    }

    /** _WorkerRun.every's first loop, at most `jobs` running: each ends written, late or left, unless the run is killed. */
    method HandOut(todo: seq<Id>, jobs: nat, when: Watch) returns (at: Places, o: Outcome, stopped: bool)
      requires Valid() && jobs >= 1 && forall id :: id in todo ==> id !in Recorded(out)
      modifies this, when
      ensures o.Done? || o.OutOfTime? || o.Killed?
      ensures o.Killed? ==> Valid() && Grows(SetOf(todo), old(D()), D()) && (!o.late ==> NoThird(old(D()), D()))
      ensures !o.Killed? ==> Ok(at) && Tracks(todo, old(D()), D(), at) && NothingRuns(at)
      ensures ReadsAfter(old(end), old(cut), old(out), o, end, cut, out)
      ensures o.Done? && !stopped ==> LeftIn(at) == {}
      ensures Ends(o, when, old(when.asked), when.asked)
    {
      hide Tracks, Ok, Valid, Kept, ReadsAfter, IsNotStarted, WaitingIn, RunningIn, ReadyIn, LeftIn, NotStartedIn,
        Grows, NoThird, Came, Recorded;
      at := map id | id in todo :: Waiting;
      AllWait(todo, at);
      o, stopped := Done, false;
      while WaitingIn(at) != {} || RunningIn(at) != {} || ReadyIn(at) != {}
        invariant Ok(at) && Tracks(todo, old(D()), D(), at) && (o.Done? || o.OutOfTime?)
        invariant Kept(old(end), old(cut), old(out), end, cut, out)
        invariant o.Done? && !stopped ==> NotStartedIn(at) == {}
        invariant Ends(o, when, old(when.asked), when.asked)
        decreases |WaitingIn(at)|, |RunningIn(at)|, |ReadyIn(at)|
      {
        var killed := when.Killed();
        CameNow(when.killed, old(when.asked), when.asked);
        if killed {
          o := KillAnywhere(todo, old(D()), at, old(end), old(cut), old(out));
          return;
        }
        var isLate := when.Late();
        CameNow(when.late, old(when.asked), when.asked);
        var late: bool, unavailable: bool;
        at, late, unavailable := Next(todo, old(D()), at, jobs, stopped, isLate, old(end), old(cut), old(out));
        o := if late then OutOfTime else o;
        stopped := stopped || unavailable;
      }
      NothingLeft(at);
      KeptReads(old(end), old(cut), old(out), o, end, cut, out);
    }

    /** Whatever happens next: a release is taken up, answered or routed. */
    method Next(todo: seq<Id>, ghost d: Disk, at: Places, jobs: nat, stopped: bool, isLate: bool, ghost end0: End,
                ghost cut0: bool, ghost out0: seq<Row>) returns (at2: Places, late: bool, unavailable: bool)
      requires Ok(at) && Tracks(todo, d, D(), at) && Kept(end0, cut0, out0, end, cut, out) && jobs >= 1
      requires WaitingIn(at) != {} || RunningIn(at) != {} || ReadyIn(at) != {}
      modifies this
      ensures Ok(at2) && Tracks(todo, d, D(), at2) && Kept(end0, cut0, out0, end, cut, out)
      ensures NotStartedIn(at) == {} && !stopped && !late && !unavailable ==> NotStartedIn(at2) == {}
      ensures Ahead(at, at2) && (late ==> isLate)
    {
      hide Tracks, Ok, Kept, WaitingIn, RunningIn, ReadyIn, NotStartedIn, EndOfWrite, Recorded, Plus, Started;
      late, unavailable := false, false;
      var id: Id, s: Status;
      if {
      case |RunningIn(at)| < jobs && WaitingIn(at) != {} =>
        id :| id in WaitingIn(at);
        Where(at, id);
        late := isLate;
        s := Begin(todo, d, at, id, stopped, late);
        MovesBegin(at, id, s);
      case RunningIn(at) != {} =>
        id :| id in RunningIn(at);
        Where(at, id);
        var reply: Reply := *;
        unavailable := reply.NoWorker?;
        s := Answer(todo, d, at, id, reply);
        MovesAnswer(at, id, s);
      case ReadyIn(at) != {} =>
        id :| id in ReadyIn(at);
        Where(at, id);
        ghost var end1, out1 := end, out;
        s := Route(todo, d, at, id, true);
        RoutedLeft(at, id);
        MovesRoute(at, id, s);
        if s.Written? {
          KeptRow(end0, cut0, out0, end1, cut, out1, at[id].result.row);
        }
      }
      at2 := at[id := s];
    }

    /** _WorkerRun.every's second loop, over the late releases. */
    method RunAgain(todo: seq<Id>, ghost d: Disk, at0: Places, stopped0: bool, when: Watch, ghost end0: End,
                    ghost cut0: bool, ghost out0: seq<Row>) returns (at: Places, o: Outcome, stopped: bool)
      requires Ok(at0) && Tracks(todo, d, D(), at0) && NothingRuns(at0) && Kept(end0, cut0, out0, end, cut, out)
      modifies this, when
      ensures o.Done? || o.Killed?
      ensures o.Killed? ==> Valid() && Grows(SetOf(todo), d, D()) && (!o.late ==> NoThird(d, D()))
      ensures o.Done? ==> Ok(at) && Tracks(todo, d, D(), at) && NothingRuns(at) && LateIn(at) == {}
      ensures o.Done? ==> Kept(end0, cut0, out0, end, cut, out)
      ensures o.Killed? ==> ReadsAfter(end0, cut0, out0, o, end, cut, out)
      ensures stopped0 ==> stopped
      ensures o.Done? && !stopped ==> LeftIn(at) == LeftIn(at0)
      ensures Ends(o, when, old(when.asked), when.asked)
    {
      hide Tracks, Ok, Kept, ReadsAfter, WaitingIn, RunningIn, ReadyIn, LeftIn, LateIn, NotStartedIn, NothingRuns,
        Recorded, EndOfWrite, Plus, Grows, NoThird;
      at, stopped := at0, stopped0;
      while LateIn(at) != {}
        invariant Ok(at) && Tracks(todo, d, D(), at) && NothingRuns(at) && Kept(end0, cut0, out0, end, cut, out)
        invariant (stopped0 ==> stopped) && (!stopped ==> LeftIn(at) == LeftIn(at0)) && old(when.asked) <= when.asked
        decreases |LateIn(at)|
      {
        var killed := when.Killed();
        if killed {
          o := KillAnywhere(todo, d, at, end0, cut0, out0);
          return;
        }
        var id :| id in LateIn(at);
        Where(at, id);
        var reply: Reply := *;
        ghost var was := at;
        var s := ScanAgain(todo, d, at, id, stopped, reply);
        stopped := stopped || reply.NoWorker?;
        at := at[id := s];
        if s.Ready? {
          killed := when.Killed();
          if killed {
            o := KillAnywhere(todo, d, at, end0, cut0, out0);
            return;
          }
          ghost var end1, out1 := end, out;
          var s2 := Route(todo, d, at, id, true);
          KeptRow(end0, cut0, out0, end1, cut, out1, at[id].result.row);
          assert at[id := s2] == was[id := s2];
          at := at[id := s2];
          s := s2;
        }
        MovesAgain(was, id, s);
      }
      o := Done;
    }

    /** _in_workers: every release is recorded or is one of `left`, in order, and never both; none is left that this
        process is not to take over, and none is unrecorded unless the time was up. */
    method InWorkers(todo: seq<Id>, jobs: nat, when: Watch) returns (o: Outcome, left: seq<Id>, unavailable: bool)
      requires Valid() && jobs >= 1 && NoRepeats(todo) && forall id :: id in todo ==> id !in Recorded(out)
      modifies this, when
      ensures Valid() && Grows(SetOf(todo), old(D()), D()) && (o.Done? || o.OutOfTime? || o.Killed?)
      ensures ReadsAfter(old(end), old(cut), old(out), o, end, cut, out)
      ensures !o.Killed? ==> left == if unavailable then KeepIn(todo, SetOf(todo) - Recorded(out)) else []
      ensures o.Done? && !unavailable ==> forall id :: id in todo ==> id in Recorded(out)
      ensures !(o.Killed? && o.late) ==> NoThird(old(D()), D())
      ensures Ends(o, when, old(when.asked), when.asked)
    {
      hide Tracks, Recorded, NoThird, Grows, NothingRuns, LeftIn, LateIn, ThirdPending, Kept, ReadsAfter, Fits, KeepIn;
      var at: Places;
      at, o, unavailable := HandOut(todo, jobs, when);

      left := [];
      if o.Killed? {
        return;
      }
      var again;
      ReadsKept(old(end), old(cut), old(out), o, end, cut, out);
      at, again, unavailable := RunAgain(todo, old(D()), at, unavailable, when, old(end), old(cut), old(out));
      if again.Killed? {
        o := again;
        return;
      }
      KeptReads(old(end), old(cut), old(out), o, end, cut, out);
      TracksGrows(todo, old(D()), D(), at);
      NonePending(D(), at);
      TracksSplit(todo, old(D()), D(), at);
      NoneOpen(at);
      FitsEnd(tally, D(), at);
      if unavailable {
        left := KeepIn(todo, LeftIn(at));
      } else if o.Done? {
        NoneLeft(todo, Recorded(out));
      }
    }

    // ---- The whole run ---------------------------------------------------------------------------

    /** execute: what is not recorded yet is scanned, in workers and in the run's own process; once all is, OUT is sorted
        by the manifest. */
    method Execute(ids: seq<Id>, jobs: nat, when: Watch)
      returns (finished: nat, total: nat, o: Outcome, ghost mid: Disk)
      requires Valid() && NoRepeats(ids)
      modifies this, when
      ensures Valid() && RunOf(ids, old(D()), mid, D())
      ensures !(o.Killed? && o.late) ==> NoThird(old(D()), mid)
      ensures Ends(o, when, old(when.asked), when.asked)
      ensures o.Unread? <==> !old(Readable())
      ensures o.Unread? ==> D() == old(D()) && end == old(end) && cut == old(cut)
      ensures Readable() <==> old(Readable()) && (o.Killed? ==> !o.cut.attempts && !o.cut.line)
                              && (old(end) == NoNewline ==> LastOf(out) == LastOf(old(out)))
      ensures o.Done? || o.Unsorted? ==>
                (Readable() <==>
                 (old(end) == NoNewline ==> SetOf(ids) <= old(Recorded(out)) && LastInPlace(ids, old(out))))
      ensures forall row :: row in out ==>
                if Tries(D(), row.id) > 2 then row == Failed(row.id, "harness timeout")
                else
                  && row.id in tally.said
                  && (row.Scanned? <==> !tally.said[row.id].raises)
                  && (row.Scanned? ==> row.result == tally.said[row.id].text)
                  && (row.Failed? ==> row.text <= tally.said[row.id].text)
                  && (row.Failed? ==>
                        |row.text| == if |tally.said[row.id].text| > 300 then 300 else |tally.said[row.id].text|)
      ensures !o.Killed? && !o.Unread? ==> total == |ids| && finished == |Recorded(out) * SetOf(ids)|
      ensures !o.Killed? && !o.Unread? ==> (finished == total <==> SetOf(ids) <= Recorded(out))
      ensures !o.Killed? && !o.Unread? && finished == total ==>
                out == if o.Unsorted? then mid.out else Ordered(ids, mid.out)
      ensures o.Unsorted? ==> old(end) == NoNewline && finished == total
      ensures o.Done? ==> finished == total
    {
      hide Grows, NoThird, Recorded, Ordered, Valid, SetOf, KeepIn, Distinct, ReadsAfter, RunOf;
      finished, total := 0, 0;
      RunOfNothing(ids, D());
      mid := D();
      if !Readable() {
        LinesSay();
        NoThirdNot(D());
        o := Unread;
        return;
      }
      ghost var d0, end0, out0 := D(), end, out;
      o := Releases(ids, jobs, when);
      LinesSay();
      mid := D();
      RunOfGrowth(ids, d0, D());
      ReadsAre(end0, false, out0, o, end, cut, out);
      if o.Killed? {
        return;
      }
      ghost var end1, out1 := end, out;
      DistinctOut();
      NothingAdded(ids, d0, D());
      LastStays(ids, out);
      Counted(ids, Recorded(out));
      finished, total := |Recorded(out) * SetOf(ids)|, |SetOf(ids)|;
      if finished == total {
        if end == Broken {
          o := Unsorted;
          return;
        }
        var killed := when.Killed();
        if killed {
          o := Killed(false, BETWEEN);
          return;
        }
        OrderedRecorded(ids, out);
        RunOfOrdered(ids, d0, D());
        InOrder(ids);
        LinesSay();
      }
    }

    /** execute, before OUT is put in order. */
    method Releases(ids: seq<Id>, jobs: nat, when: Watch) returns (o: Outcome)
      requires Valid() && NoRepeats(ids)
      modifies this, when
      ensures Valid() && Grows(SetOf(ids), old(D()), D()) && (o.Done? || o.OutOfTime? || o.Killed?)
      ensures ReadsAfter(old(end), old(cut), old(out), o, end, cut, out)
      ensures !(o.Killed? && o.late) ==> NoThird(old(D()), D())
      ensures o.Done? ==> SetOf(ids) <= Recorded(out)
      ensures Ends(o, when, old(when.asked), when.asked)
    {
      hide Grows, NoThird, Recorded, Valid, SetOf, KeepIn, Distinct, ReadsAfter, Kept;
      var left := KeepIn(ids, SetOf(ids) - Recorded(out));
      LeftToDo(ids, Recorded(out));
      GrowsNot(SetOf(ids), D());
      NoThirdNot(D());
      NothingKept();
      ghost var d0 := D();
      var inTime := true;
      if jobs > 1 && left != [] {
        ghost var todo := left;
        var unavailable: bool;
        o, left, unavailable := InWorkers(left, jobs, when);
        GrowsMore(SetOf(todo), SetOf(ids), d0, D());
        if o.Killed? {
          return;
        }
        ReadsKept(old(end), old(cut), old(out), o, end, cut, out);
        inTime := o.Done? || unavailable;
        LeftOfLeft(ids, todo, left, d0, D(), unavailable, o.Done?);
      }
      ghost var d1, end1, cut1, out1 := D(), end, cut, out;
      o := InProcess(left, when);
      DistinctOut();
      ReadsOn(old(end), old(cut), old(out), end1, cut1, out1, o, end, cut, out);
      GrowsMore(SetOf(left), SetOf(ids), d1, D());
      GrowsOn(SetOf(ids), d0, d1, D());
      if !(o.Killed? && o.late) {
        NoThirdOn(SetOf(left), d0, d1, D());
      }
      if o.Killed? {
        return;
      }
      AllDone(ids, left, d1, D(), inTime && o.Done?);
      if o.Done? && !inTime {
        o := OutOfTime;
      }
      ReadsAlike(old(end), old(cut), old(out), o, end, cut, out);
    }

    lemma LinesSay()
      requires Valid()
      ensures forall row :: row in out ==> LineSays(tally, D(), row)
    {
      forall row | row in out ensures LineSays(tally, D(), row) {
        assert FitsAt(tally, D(), StatusOf(map[], row.id), row.id);
      }
    }

    lemma NothingKept()
      requires Valid()
      ensures Kept(end, cut, out, end, cut, out)
    {
      KeptNothing(end, cut, out);
    }

    /** _in_manifest_order: the lines as they are, put in another order, and the file replaced whole. A line without its
        newline joins the next one, if it is not the last any more. */
    method InOrder(ids: seq<Id>)
      requires Valid()
      modifies this`out, this`end
      ensures Valid() && D() == Disk(Ordered(ids, old(out)), tries) && end == EndAfter(old(end), old(out), out)
    {
      hide Ordered, Recorded, Fits;
      OrderedDistinct(ids, out);
      FitsOrdered(tally, D(), ids);
      OrderedSome(ids, out);
      end := EndAfter(end, out, Ordered(ids, out));
      out := Ordered(ids, out);
    }
  }

  /** OUT held all the releases: no line is added. */
  lemma NothingAdded(ids: seq<Id>, d: Disk, d2: Disk)
    requires Grows(SetOf(ids), d, d2) && Distinct(d2.out)
    ensures d.out <= d2.out
    ensures SetOf(ids) <= Recorded(d.out) ==> d2.out == d.out
    ensures LastOf(d2.out) == LastOf(d.out) <==> d2.out == d.out
  {
    forall k | |d.out| <= k < |d2.out| ensures d2.out[k].id in SetOf(ids) && d2.out[k].id !in Recorded(d.out) {
      forall r | r in d.out ensures r.id != d2.out[k].id {
        var i :| 0 <= i < |d.out| && d.out[i] == r;
        assert d2.out[i].id != d2.out[k].id;
      }
    }
    if d2.out != d.out {
      assert d2.out[|d.out|].id in SetOf(ids) && d2.out[|d.out|].id !in Recorded(d.out);
      assert d.out != [] ==> d.out[|d.out| - 1] in d.out;
    }
  }

  lemma OrderedSome(ids: seq<Id>, out: seq<Row>)
    ensures out != [] ==> Ordered(ids, out) != []
  {
    OrderedHolds(ids, out);
    if out != [] {
      assert out[0] in Ordered(ids, out);
    }
  }

  lemma OpenUnrecorded(todo: seq<Id>, d: Disk, d2: Disk, at: Places)
    requires Tracks(todo, d, d2, at)
    ensures forall id :: id in at && IsOpen(at[id]) ==> id !in Recorded(d2.out)
  {
    hide Recorded, Grows, TracksOne;
  }

  lemma NoneOpen(at: Places)
    requires NothingRuns(at) && LateIn(at) == {}
    ensures forall id :: id in at ==> !IsOpen(at[id])
  {
    forall id | id in at ensures !IsOpen(at[id]) {
      assert id !in RunningIn(at) && id !in ReadyIn(at) && id !in LateIn(at);
    }
  }

  lemma RunOfNothing(ids: seq<Id>, d: Disk)
    ensures RunOf(ids, d, d, d)
  {
    GrowsNot(SetOf(ids), d);
  }

  lemma RunOfGrowth(ids: seq<Id>, d: Disk, d2: Disk)
    requires Grows(SetOf(ids), d, d2)
    ensures RunOf(ids, d, d2, d2)
  {
  }

  lemma RunOfOrdered(ids: seq<Id>, d: Disk, d2: Disk)
    requires Grows(SetOf(ids), d, d2) && SetOf(ids) <= Recorded(d2.out)
    ensures RunOf(ids, d, d2, d2.(out := Ordered(ids, d2.out)))
  {
  }

  lemma Counted(ids: seq<Id>, recorded: set<Id>)
    requires NoRepeats(ids)
    ensures |SetOf(ids)| == |ids|
    ensures |recorded * SetOf(ids)| == |ids| <==> SetOf(ids) <= recorded
  {
    SizeOf(ids);
    SameSize(recorded, SetOf(ids));
  }

  lemma ReadsAre(end0: End, cut0: bool, out0: seq<Row>, o: Outcome, end: End, cut: bool, out: seq<Row>)
    requires ReadsAfter(end0, cut0, out0, o, end, cut, out) && end0 != Broken && !cut0
    ensures (end != Broken && !cut) <==> (o.Killed? ==> !o.cut.attempts && !o.cut.line)
                                         && (end0 == NoNewline ==> LastOf(out) == LastOf(out0))
    ensures !o.Killed? ==> !cut && end == EndAfter(end0, out0, out)
  {
  }

  /** Not killed, how it ended does not matter. */
  lemma ReadsAlike(end0: End, cut0: bool, out0: seq<Row>, o: Outcome, end: End, cut: bool, out: seq<Row>)
    requires !o.Killed? && ReadsAfter(end0, cut0, out0, Done, end, cut, out)
    ensures ReadsAfter(end0, cut0, out0, o, end, cut, out)
  {
  }

  lemma ReadsKept(end0: End, cut0: bool, out0: seq<Row>, o: Outcome, end: End, cut: bool, out: seq<Row>)
    requires ReadsAfter(end0, cut0, out0, o, end, cut, out) && !o.Killed?
    ensures Kept(end0, cut0, out0, end, cut, out)
  {
  }

  /** The first `n` are recorded, the others are not. */
  ghost predicate DoneUpTo(todo: seq<Id>, n: nat, recorded: set<Id>) {
    && n <= |todo|
    && (forall k :: 0 <= k < n ==> todo[k] in recorded)
    && forall k :: n <= k < |todo| ==> todo[k] !in recorded
  }

  lemma DoneNext(todo: seq<Id>, n: nat, recorded: set<Id>)
    requires DoneUpTo(todo, n, recorded) && n < |todo| && NoRepeats(todo)
    ensures todo[n] !in recorded && DoneUpTo(todo, n + 1, recorded + {todo[n]})
  {
  }

  lemma KeptReads(end0: End, cut0: bool, out0: seq<Row>, o: Outcome, end: End, cut: bool, out: seq<Row>)
    requires Kept(end0, cut0, out0, end, cut, out) && !o.Killed?
    ensures ReadsAfter(end0, cut0, out0, o, end, cut, out)
  {
  }

  lemma KeptOn(end0: End, cut0: bool, out0: seq<Row>, end1: End, cut1: bool, out1: seq<Row>, o: Outcome, end: End,
               cut: bool, out: seq<Row>)
    requires Kept(end0, cut0, out0, end1, cut1, out1) && ReadsAfter(end1, cut1, out1, o, end, cut, out) && Distinct(out)
    requires !o.Killed?
    ensures Kept(end0, cut0, out0, end, cut, out)
  {
    EndOn(end0, out0, out1, out);
  }

  lemma OpenOne(id: Id, s: Status)
    requires IsOpen(s)
    ensures OpenIn(map[id := s]) == {id}
  {
  }

  lemma DistinctPush(out: seq<Row>, row: Row)
    requires Distinct(out) && row.id !in Recorded(out)
    ensures Distinct(out + [row])
  {
    assert forall i :: 0 <= i < |out| ==> out[i].id in Recorded(out);
  }

  lemma StartedGrows(todo: seq<Id>, d: Disk, d0: Disk, id: Id)
    requires Grows(SetOf(todo), d, d0) && id in todo && id !in Recorded(d0.out)
    ensures Grows(SetOf(todo), d, Started(d0, id)) && Tries(Started(d0, id), id) == Tries(d0, id) + 1
  {
    assert id in SetOf(todo);
    GrowsByStart(SetOf(todo), d0, id);
    GrowsOn(SetOf(todo), d, d0, Started(d0, id));
  }

  lemma RowGrows(todo: seq<Id>, d: Disk, d0: Disk, row: Row)
    requires Grows(SetOf(todo), d, d0) && row.id in todo && row.id !in Recorded(d0.out)
    requires Tries(d0, row.id) >= 1 && (Tries(d0, row.id) > 2 ==> row == Timeout(row.id))
    ensures Grows(SetOf(todo), d, Added(d0, row))
  {
    assert row.id in SetOf(todo);
    GrowsByRow(SetOf(todo), d0, row);
    GrowsOn(SetOf(todo), d, d0, Added(d0, row));
  }

  /** A run of one release, at its first or second start, that finds no worker: it is left. */
  method NoWorkerFor(run: Run, id: Id)
    requires run.Valid() && id !in Recorded(run.out) && Tries(run.D(), id) <= 1
    modifies run
    ensures run.Valid() && run.D() == Started(old(run.D()), id)
    ensures run.tally == old(run.tally).(lost := Plus(old(run.tally).lost, id))
  {
    hide Grows, Tracks, Fits, SetOf, Recorded, Plus;
    var todo := [id];
    ghost var d := run.D();
    var at: Places := map[id := Waiting];
    TracksBegin(todo, d);
    assert (map x | x in todo :: Waiting) == at;
    FitsBegin(run.tally, d, at);
    var s := run.Begin(todo, d, at, id, false, false);
    at := at[id := s];
    s := run.Answer(todo, d, at, id, NoWorker);
    at := at[id := s];
    s := run.Route(todo, d, at, id, true);
    at := at[id := s];
    FitsEnd(run.tally, run.D(), at);
  }

  /** A release killed once that finds no worker in the next run: taken over by the process itself it is started a third
      time, and recorded as a timeout without having been scanned. */
  method KilledOnceThenNoWorker(id: Id) returns (run: Run)
    ensures fresh(run) && run.Valid() && run.out == [Timeout(id)] && Tries(run.D(), id) == 3
    ensures Count(run.tally.killed, id) == 1 && Count(run.tally.lost, id) == 1 && Count(run.tally.scans, id) == 0
  {
    hide Grows, NoThird, ReadsAfter, Fits, SetOf;
    var todo, said := [id], Said(false, "");
    run := new Run();
    NothingDone(todo, run.D());
    var o := run.OneInProcess(todo, 0, run.D(), AfterStart, said);
    assert run.out == [];
    NoWorkerFor(run, id);
    NothingDone(todo, run.D());
    o := run.OneInProcess(todo, 0, run.D(), Never, said);
  }

  /** Killed in the rewriting of OUT.attempts, or with some of a line written: no later run does anything. */
  method KilledInWrite(id: Id, stop: Stop, jobs: nat) returns (run: Run)
    requires stop.InStart? || stop == InLine(true)
    ensures fresh(run) && run.Valid() && !run.Readable() && run.out == []
  {
    hide Grows, NoThird, ReadsAfter, Fits, SetOf;
    var todo, said := [id], Said(false, "");
    var watch := new Watch(_ => false, _ => false);
    run := new Run();
    NothingDone(todo, run.D());
    var o := run.OneInProcess(todo, 0, run.D(), stop, said);
    assert run.out == [] && !run.Readable();
    var finished, total, o2, mid := run.Execute(todo, jobs, watch);
    assert o2.Unread?;
  }

  /** Killed between a line and its newline: the next line is put after it, and OUT can not be read any more. */
  method KilledBeforeItsNewline(id: Id, next: Id, a: Said, b: Said) returns (run: Run)
    requires id != next
    ensures fresh(run) && run.Valid() && run.out == [RowOf(id, a), RowOf(next, b)] && !run.Readable()
  {
    hide Grows, NoThird, ReadsAfter, Fits, SetOf;
    var todo := [id, next];
    run := new Run();
    NothingDone(todo, run.D());
    var o := run.OneInProcess(todo, 0, run.D(), InLine(false), a);
    assert run.out == [RowOf(id, a)];
    NothingDone(todo, run.D());
    o := run.OneInProcess(todo, 1, run.D(), Never, b);
  }

  lemma NothingDone(todo: seq<Id>, d: Disk)
    ensures Grows(SetOf(todo), d, d) && NoThird(d, d)
  {
    GrowsNot(SetOf(todo), d);
    NoThirdNot(d);
  }
}
