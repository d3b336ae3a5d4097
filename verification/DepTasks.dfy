/**
 The two callers of mapTasks: the source files' scans (js/src/project.js), and --deps' tasks (js/src/deps.js), a file's
 own checks ("dep") and the search across files ("xf"). What each makes of a task's error, the error itself or the name and
 message a worker posted, settles whether it matters where the tasks are run.
 */
module DepTasks {
  import opened Common
  import opened PoolWorld
  import opened Pool

  /** An error of this thread (`made` tells it from any other), or one that a worker posted. An error of the engine has the
      name of its class. */
  datatype Problem = Thrown(made: nat, name: string, message: string) | Posted(name: string, message: string)

  datatype Task<A> = Scan(path: string, scan: A) | Dep(path: string, checks: A) | Across(search: A)

  /** What a task gives: its own findings, or what stands for a file that was not read, or not to its end. */
  datatype Found<V> = Findings(findings: V) | Unscanned(path: string, name: string) | Unfinished(path: string, why: string)
                    | Nothing

  /** What is thrown on: an error as it is, or one made anew. */
  datatype Raising = Same(error: Problem) | New(message: string)

  const EXHAUSTED := "reading it spent the engine's work budget (a pattern that backtracks without end on this text)"

  const CUT_PREFIXES := [
    "the text follower reads at most ",
    "the supply-chain tree did not read it whole: ",
    "the strings eval calls run as code are read "
  ]

  /** An error as a string. */
  function Shown(e: Problem): string {
    if e.name == "" then e.message else if e.message == "" then e.name else e.name + ": " + e.message
  }

  /** What a worker posts of it. */
  function Wire(e: Problem): Problem {
    Posted(if e.name == "" then "Error" else e.name, if e.message == "" then Shown(e) else e.message)
  }

  predicate IsCut(why: string) {
    exists p :: p in CUT_PREFIXES && p <= why
  }

  function ScanError<V>(path: string, e: Problem): Found<V> {
    Unscanned(path, if e.name == "" then "Error" else e.name)
  }

  function ErrorIssue<V>(path: string, e: Problem): Found<V> {
    if e.name == "NativeExhausted" then Unfinished(path, if IsCut(e.message) then e.message else EXHAUSTED)
    else ScanError(path, e)
  }

  predicate OfEngine(e: Problem) {
    e.name == "NativeError" || e.name == "NativeExhausted"
  }

  /** The third argument of mapTasks. */
  function OnError<A, V>(task: Task<A>, e: Problem): Handled<Found<V>, Raising> {
    match task
    case Scan(path, _) => Value(ScanError(path, e))
    case Dep(path, _) => Value(ErrorIssue(path, e))
    case Across(_) =>
      if OfEngine(e) then Value(Nothing)
      else if e.Thrown? then Raise(Same(e))
      else Raise(New(e.name + ": " + e.message))
  }

  /** A search across files that fails here by an error which is not the engine's. */
  predicate Fails<A, V>(local: Task<A> -> Outcome<Found<V>, Problem>, task: Task<A>) {
    task.Across? && local(task).Threw? && !OfEngine(local(task).error)
  }

  /** Here tasks throw errors of this thread. */
  ghost predicate Throws<A(!new), V>(local: Task<A> -> Outcome<Found<V>, Problem>) {
    forall t :: local(t).Threw? ==> local(t).error.Thrown?
  }

  lemma NoCut(why: string)
    requires why == "" || why[0] != 't'
    ensures !IsCut(why)
  {
    assert CUT_PREFIXES[0][0] == 't' && CUT_PREFIXES[1][0] == 't' && CUT_PREFIXES[2][0] == 't';
  }

  /** Any other task gives a value, and the same in a worker. */
  lemma OneTask<A(!new), V>(local: Task<A> -> Outcome<Found<V>, Problem>, task: Task<A>)
    requires Throws(local)
    ensures !Fails(local, task) ==>
              RunHere(local, OnError, task).Value? && Alike<Task<A>, Found<V>, Problem, Raising>(local, Wire, OnError, task)
    ensures Fails(local, task) ==>
              && RunHere(local, OnError, task) == Raise(Same(local(task).error))
              && RunThere(local, Wire, OnError, task) == Raise(New(Wire(local(task).error).name + ": "
                                                                  + Wire(local(task).error).message))
  {
    if local(task).Threw? && local(task).error.message == "" {
      var e := local(task).error;
      assert e.name == "NativeExhausted" ==> Wire(e).message == e.name;
      NoCut("NativeExhausted");
      NoCut("");
    }
  }

  /** With whichever tasks answered by workers, the result is that of running them all here if and only if no search fails,
      or the first one that fails was not answered. */
  lemma TasksAnywhere<A(!new), V>(tasks: seq<Task<A>>, there: seq<bool>, local: Task<A> -> Outcome<Found<V>, Problem>,
                                  k: nat)
    requires Throws(local) && |there| == |tasks| && k <= |tasks|
    requires (forall j :: 0 <= j < k ==> !Fails(local, tasks[j])) && (k < |tasks| ==> Fails(local, tasks[k]))
    ensures Spread(tasks, there, local, Wire, OnError) == Sequentially(tasks, local, OnError)
            <==> k == |tasks| || !there[k]
    ensures NoMatterWhere<Task<A>, Found<V>, Problem, Raising>(tasks, local, Wire, OnError) <==> k == |tasks|
  {
    forall j | 0 <= j < |tasks| ensures
        !Fails(local, tasks[j]) ==>
              RunHere(local, OnError, tasks[j]).Value?
              && Alike<Task<A>, Found<V>, Problem, Raising>(local, Wire, OnError, tasks[j])
    {
      OneTask(local, tasks[j]);
    }
    if k < |tasks| {
      OneTask(local, tasks[k]);
      RaisesDiffer(tasks, k, there, local, Wire, OnError, RunHere(local, OnError, tasks[k]).thrown,
                   RunThere(local, Wire, OnError, tasks[k]).thrown);
    } else {
      forall t | t in tasks ensures Alike<Task<A>, Found<V>, Problem, Raising>(local, Wire, OnError, t) {
      }
      AlikeSpread(tasks, there, local, Wire, OnError);
      AllValues(tasks, local);
    }
  }

  lemma {:induction false} AllValues<A(!new), V>(tasks: seq<Task<A>>, local: Task<A> -> Outcome<Found<V>, Problem>)
    requires forall j :: 0 <= j < |tasks| ==> RunHere(local, OnError, tasks[j]).Value?
    ensures Sequentially(tasks, local, OnError).Values?
  {
    if tasks != [] {
      AllValues(tasks[1..], local);
    }
  }

  /** What a task's error stands for, here or posted by a worker. */
  lemma ErrorSays<A, V>(task: Task<A>, e: Problem, posted: bool)
    requires e.Thrown?
    ensures var h: Handled<Found<V>, Raising> := OnError(task, if posted then Wire(e) else e);
            var name := if e.name == "" then "Error" else e.name;
            match task
            case Scan(path, _) => h == Value(Unscanned(path, name))
            case Dep(path, _) =>
              h == Value(if e.name != "NativeExhausted" then Unscanned(path, name)
                         else if exists p :: p in CUT_PREFIXES && p <= e.message then Unfinished(path, e.message)
                         else Unfinished(path, EXHAUSTED))
            case Across(_) =>
              h == if e.name == "NativeError" || e.name == "NativeExhausted" then Value(Nothing)
                   else if posted then Raise(New(name + ": " + (if e.message == "" then e.name else e.message)))
                   else Raise(Same(e))
  {
    NoCut("NativeExhausted");
    NoCut("");
  }

  /** A file's value: its findings; that its scan failed, by the error's name; or that the engine gave up on it, and why. */
  ghost predicate IsCheckOf<A, V>(local: Task<A> -> Outcome<Found<V>, Problem>, task: Task<A>, v: Found<V>) {
    match local(task)
    case Ok(found) => v == found
    case Threw(e) =>
      && (task.Scan? || (task.Dep? && e.name != "NativeExhausted") ==>
            v == Unscanned(task.path, if e.name == "" then "Error" else e.name))
      && (task.Dep? && e.name == "NativeExhausted" ==>
            if exists p :: p in CUT_PREFIXES && p <= e.message then v == Unfinished(task.path, e.message)
            else v == Unfinished(task.path, EXHAUSTED))
      && (task.Across? ==> (e.name == "NativeError" || e.name == "NativeExhausted") && v == Nothing)
  }

  lemma ChecksAre<A(!new), V>(tasks: seq<Task<A>>, there: seq<bool>, local: Task<A> -> Outcome<Found<V>, Problem>,
                              values: seq<Found<V>>)
    requires Throws(local) && |there| == |tasks| == |values|
    requires forall k :: 0 <= k < |tasks| ==>
              match local(tasks[k])
              case Ok(v) => values[k] == v
              case Threw(e) =>
                OnError(tasks[k], if there[k] then Wire(e) else e) == Handled<Found<V>, Raising>.Value(values[k])
    ensures forall k :: 0 <= k < |tasks| ==> IsCheckOf(local, tasks[k], values[k])
  {
    forall k | 0 <= k < |tasks| ensures IsCheckOf(local, tasks[k], values[k]) {
      if local(tasks[k]).Threw? {
        ErrorSays<A, V>(tasks[k], local(tasks[k]).error, there[k]);
      }
    }
  }

  /** The scans of the source files: whatever the pool does, what running them all here gives. */
  method ScanAll<A(!new), V(!new)>(pool: Pool?<Task<A>, Found<V>, Problem>, scans: seq<Task<A>>,
                                   local: Task<A> -> Outcome<Found<V>, Problem>)
    returns (r: Mapped<Found<V>, Raising>)
    requires pool != null ==> pool.Valid() && SameWork(scans, pool.world.compute, local, Wire)
    requires Throws(local) && forall t :: t in scans ==> t.Scan?
    modifies pool, if pool != null then {pool.world} else {}
    ensures pool != null ==> pool.Valid()
    ensures r == Sequentially(scans, local, OnError) && r.Values? && |r.values| == |scans|
    ensures forall k :: 0 <= k < |scans| ==> IsCheckOf(local, scans[k], r.values[k])
  {
    ghost var there;
    r, there := MapTasks(pool, scans, local, OnError, Wire);
    assert forall j :: 0 <= j < |scans| ==> scans[j] in scans;
    TasksAnywhere(scans, there, local, |scans|);
    forall j | 0 <= j < |scans| ensures RunHere(local, OnError, scans[j]).Value? {
      OneTask(local, scans[j]);
    }
    AllValues(scans, local);
    ChecksAre(scans, there, local, r.values);
  }

  /** The tasks of --deps: with a pool the search across files goes first. What it gives is what running them all here
      would, if and only if the search did not fail in a worker. */
  method Checks<A(!new), V(!new)>(pool: Pool?<Task<A>, Found<V>, Problem>, search: Task<A>, checks: seq<Task<A>>,
                                  local: Task<A> -> Outcome<Found<V>, Problem>)
    returns (r: Mapped<Found<V>, Raising>, ghost there: seq<bool>)
    requires pool != null ==> pool.Valid() && SameWork([search] + checks, pool.world.compute, local, Wire)
    requires Throws(local) && search.Across? && forall t :: t in checks ==> t.Dep?
    modifies pool, if pool != null then {pool.world} else {}
    ensures pool != null ==> pool.Valid()
    ensures var tasks := if pool == null then checks else [search] + checks;
            && |there| == |tasks|
            && (r == Sequentially(tasks, local, OnError) <==> pool == null || !there[0] || !Fails(local, search))
            && (r.Values? <==> pool == null || !Fails(local, search))
            && (r.Values? ==>
                  |r.values| == |tasks| && forall k :: 0 <= k < |tasks| ==> IsCheckOf(local, tasks[k], r.values[k]))
    ensures !r.Values? ==>
              && local(search).Threw?
              && var e := local(search).error;
                 var name := if e.name == "" then "Error" else e.name;
                 r == Raised(if there[0] then New(name + ": " + (if e.message == "" then e.name else e.message))
                             else Same(e))
  {
    var tasks := if pool == null then checks else [search] + checks;
    r, there := MapTasks(pool, tasks, local, OnError, Wire);
    hide Spread, Sequentially, NoMatterWhere, RunHere, RunThere, Alike, IsCheckOf, OnError, Wire;
    var k := if pool != null && Fails(local, search) then 0 else |tasks|;
    assert forall j :: 0 <= j < |tasks| ==> tasks[j] == search || tasks[j] in checks;
    TasksAnywhere(tasks, there, local, k);
    if k == |tasks| {
      forall j | 0 <= j < |tasks| ensures RunHere(local, OnError, tasks[j]).Value? {
        OneTask(local, tasks[j]);
      }
      AllValues(tasks, local);
      ChecksAre(tasks, there, local, r.values);
    } else {
      ErrorSays<A, V>(search, local(search).error, there[0]);
      assert tasks[0] == search;
    }
  }
}
