/**
 js/src/pool.js: the main thread's half of the worker pool. A call of Map posts tasks to the workers, which hold two each
 at most, and collects what they answer, first come first served; MapTasks runs what no worker answered.
 */
module Pool {
  import opened Common
  import opened PoolWorld

  const PER_WORKER: nat := 2
  const STALL_MS: nat := 120_000
  const STARTUP_MS: nat := 15_000

  lemma {:induction false} SumUpdate(xs: seq<nat>, k: nat, x: nat)
    requires k < |xs|
    ensures Sum(xs[k := x]) == Sum(xs) - xs[k] + x
    ensures xs[k] <= Sum(xs)
  {
    if k == 0 {
      assert xs[0 := x][1..] == xs[1..];
    } else {
      SumUpdate(xs[1..], k - 1, x);
      assert xs[k := x][1..] == xs[1..][k - 1 := x];
    }
  }

  lemma {:induction false} SumOfNone(xs: seq<nat>)
    requires forall k :: 0 <= k < |xs| ==> xs[k] == 0
    ensures Sum(xs) == 0
  {
    if xs != [] {
      SumOfNone(xs[1..]);
    }
  }

  lemma {:induction false} NoneOfSum(xs: seq<nat>)
    requires Sum(xs) == 0
    ensures forall k :: 0 <= k < |xs| ==> xs[k] == 0
  {
    if xs != [] {
      NoneOfSum(xs[1..]);
      assert forall k :: 1 <= k < |xs| ==> xs[k] == xs[1..][k - 1];
    }
  }

  /** The pool between calls. */
  class Pool<T(!new), V(!new), E(!new)> {
    const world: World<T, V, E>
    var unable: seq<bool>
    var closed: bool
    var started: bool                 // some answer came, in this call or an earlier one

    ghost predicate AllUnable()
      reads this
    {
      forall w :: 0 <= w < |unable| ==> unable[w]
    }

    /** Nothing of an earlier call can be taken for an answer to a later one: none is left, or none is read. */
    ghost predicate Valid()
      reads this, world
    {
      && world.Valid() && |unable| == |world.ports|
      && (closed || AllUnable() || forall w :: 0 <= w < |world.ports| ==> world.ports[w] == Port([], []))
    }

    constructor (compute: T -> Outcome<V, E>, ready: seq<bool>)
      ensures Valid() && fresh(world) && world.compute == compute && world.ready == ready && !closed
    {
      world := new World(compute, ready);
      unable := seq(|ready|, _ => false);
      closed, started := false, false;
    }

    method Close()
      modifies this`closed
      ensures closed
    {
      if closed {
        return;
      }
      closed := true;
    }

    method EveryUnable() returns (all: bool)
      ensures all <==> AllUnable()
    {
      for w := 0 to |unable|
        invariant forall v :: 0 <= v < w ==> unable[v]
      {
        if !unable[w] {
          return false;
        }
      }
      all := true;
    }

    /** A place for each task: what a worker answered, or None. `sent`: of each task handed out, first to last, the
        worker it was posted to; `replies`: what came back. */
    method Map(tasks: seq<T>)
      returns (answers: seq<Option<Outcome<V, E>>>, ghost sent: seq<nat>, ghost replies: map<nat, Reply<V, E>>)
      requires Valid()
      modifies this, world
      ensures Valid()
      ensures old(closed) ==> closed && sent == []
      ensures |answers| == |tasks| && |sent| <= |tasks|
      ensures forall id :: id in replies ==> id < |sent| && IsReply(world.compute, tasks[id], replies[id])
      ensures forall id :: 0 <= id < |tasks| ==>
                answers[id] == if id in replies && replies[id].Answer? then Some(replies[id].outcome) else None
      ensures world.posts == old(world.posts) + Posted(tasks, sent)
      ensures started == (old(started) || |replies| > 0)
      ensures closed && !old(closed) ==>
                world.clock > old(world.clock) + if started then STALL_MS else STARTUP_MS
      ensures !closed && !AllUnable() ==> forall id :: 0 <= id < |tasks| ==> id in replies
    {
      if closed {
        assert world.posts + [] == world.posts;
        return seq(|tasks|, _ => None), [], map[];
      }
      var call := new Call(this, tasks);
      call.HandOut();
      var _ := call.Collect();
      if call.live && call.done == |tasks| {
        NothingLeft(world.compute, tasks, world.ports, call.held, call.ids, call.sent, call.replies.Keys);
      }
      answers, sent, replies := call.answers, call.sent, call.replies;
    }
  }

  // ---- What a call keeps, on values ------------------------------------------------

  /** The posts of a call that gave its first tasks to these workers. */
  function Posted<T>(tasks: seq<T>, sent: seq<nat>): seq<(nat, Request<T>)>
    requires |sent| <= |tasks|
  {
    seq(|sent|, i requires 0 <= i < |sent| => (sent[i], Request(i, tasks[i])))
  }

  lemma PostedPush<T>(tasks: seq<T>, sent: seq<nat>, w: nat)
    requires |sent| < |tasks|
    ensures Posted(tasks, sent + [w]) == Posted(tasks, sent) + [(w, Request(|sent|, tasks[|sent|]))]
  {
  }

  lemma PostedMore<T>(before: seq<(nat, Request<T>)>, tasks: seq<T>, sent: seq<nat>, w: nat)
    requires |sent| < |tasks|
    ensures before + Posted(tasks, sent + [w]) == before + Posted(tasks, sent) + [(w, Request(|sent|, tasks[|sent|]))]
  {
    PostedPush(tasks, sent, w);
  }

  /** Each worker holds at most two tasks (`ids[w]`, oldest first), and its port nothing but them. */
  ghost predicate Windows<T, V, E>(compute: T -> Outcome<V, E>, tasks: seq<T>, ports: seq<Port<T, V, E>>,
                                   held: seq<nat>, ids: seq<seq<nat>>)
  {
    && |ids| == |held| == |ports|
    && forall w {:trigger held[w]} {:trigger ids[w]} {:trigger ports[w]} :: 0 <= w < |held| ==>
         |ids[w]| == held[w] <= PER_WORKER && Holds(compute, tasks, ports[w], ids[w])
  }

  /** A task handed out went to one worker (`sent`), which holds it until its reply is taken. */
  ghost predicate Owned(ids: seq<seq<nat>>, sent: seq<nat>, replied: set<nat>) {
    && (forall id :: id in replied ==> id < |sent|)
    && (forall w, i :: 0 <= w < |ids| && 0 <= i < |ids[w]| ==>
         ids[w][i] < |sent| && sent[ids[w][i]] == w && ids[w][i] !in replied)
    && (forall w, i, j :: 0 <= w < |ids| && 0 <= i < j < |ids[w]| ==> ids[w][i] != ids[w][j])
    && (forall id :: 0 <= id < |sent| && id !in replied ==> sent[id] < |ids| && id in ids[sent[id]])
  }

  ghost predicate Answered<T, V, E>(compute: T -> Outcome<V, E>, tasks: seq<T>, answers: seq<Option<Outcome<V, E>>>,
                                    replies: map<nat, Reply<V, E>>)
  {
    && |answers| == |tasks|
    && (forall id :: id in replies ==> id < |tasks| && IsReply(compute, tasks[id], replies[id]))
    && (forall id :: 0 <= id < |tasks| ==>
         answers[id] == if id in replies && replies[id].Answer? then Some(replies[id].outcome) else None)
  }

  lemma WindowsLater<T, V, E>(compute: T -> Outcome<V, E>, tasks: seq<T>, a: seq<Port<T, V, E>>, b: seq<Port<T, V, E>>,
                              held: seq<nat>, ids: seq<seq<nat>>)
    requires Windows(compute, tasks, a, held, ids) && |a| == |b|
    requires forall w :: 0 <= w < |a| ==> PortLater(compute, a[w], b[w])
    ensures Windows(compute, tasks, b, held, ids)
  {
    forall w | 0 <= w < |held|
      ensures |ids[w]| == held[w] <= PER_WORKER && Holds(compute, tasks, b[w], ids[w])
    {
      HoldsLater(compute, tasks, a[w], b[w], ids[w]);
    }
  }

  lemma HoldsOneMore<T, V, E>(compute: T -> Outcome<V, E>, tasks: seq<T>, port: Port<T, V, E>, ids: seq<nat>, id: nat)
    requires Holds(compute, tasks, port, ids) && id < |tasks|
    ensures Holds(compute, tasks, port.(inbox := port.inbox + [Request(id, tasks[id])]), ids + [id])
  {
    var after := port.(inbox := port.inbox + [Request(id, tasks[id])]);
    forall i | 0 <= i < |after.inbox|
      ensures after.inbox[i].id == (ids + [id])[|after.outbox| + i] < |tasks|
      ensures after.inbox[i].task == tasks[after.inbox[i].id]
    {
      if i < |port.inbox| {
        assert after.inbox[i] == port.inbox[i];
      }
    }
  }

  lemma HoldsOneLess<T, V, E>(compute: T -> Outcome<V, E>, tasks: seq<T>, port: Port<T, V, E>, ids: seq<nat>)
    requires Holds(compute, tasks, port, ids) && port.outbox != []
    ensures Holds(compute, tasks, port.(outbox := port.outbox[1..]), ids[1..])
  {
    var after := port.(outbox := port.outbox[1..]);
    forall i | 0 <= i < |after.outbox|
      ensures after.outbox[i].id == ids[1..][i] < |tasks|
      ensures IsReply(compute, tasks[ids[1..][i]], after.outbox[i].reply)
    {
      assert after.outbox[i] == port.outbox[i + 1];
    }
  }

  lemma WindowsSend<T, V, E>(compute: T -> Outcome<V, E>, tasks: seq<T>, ports: seq<Port<T, V, E>>,
                             held: seq<nat>, ids: seq<seq<nat>>, w: nat, id: nat)
    requires Windows(compute, tasks, ports, held, ids) && w < |held| && held[w] < PER_WORKER && id < |tasks|
    ensures var port := ports[w].(inbox := ports[w].inbox + [Request(id, tasks[id])]);
            Windows(compute, tasks, ports[w := port], held[w := held[w] + 1], ids[w := ids[w] + [id]])
  {
    assert Holds(compute, tasks, ports[w], ids[w]);
    var port := ports[w].(inbox := ports[w].inbox + [Request(id, tasks[id])]);
    HoldsOneMore(compute, tasks, ports[w], ids[w], id);
    hide Holds;
  }

  lemma WindowsTake<T, V, E>(compute: T -> Outcome<V, E>, tasks: seq<T>, ports: seq<Port<T, V, E>>,
                             held: seq<nat>, ids: seq<seq<nat>>, w: nat)
    requires Windows(compute, tasks, ports, held, ids) && w < |held| && ports[w].outbox != []
    ensures held[w] > 0 && |ids[w]| == held[w]
    ensures var m := ports[w].outbox[0];
            m.id == ids[w][0] < |tasks| && IsReply(compute, tasks[m.id], m.reply)
    ensures var port := ports[w].(outbox := ports[w].outbox[1..]);
            Windows(compute, tasks, ports[w := port], held[w := held[w] - 1], ids[w := ids[w][1..]])
  {
    assert Holds(compute, tasks, ports[w], ids[w]);
    var port := ports[w].(outbox := ports[w].outbox[1..]);
    HoldsOneLess(compute, tasks, ports[w], ids[w]);
    hide Holds;
  }

  lemma OwnedSend(ids: seq<seq<nat>>, sent: seq<nat>, replied: set<nat>, w: nat)
    requires Owned(ids, sent, replied) && w < |ids|
    ensures Owned(ids[w := ids[w] + [|sent|]], sent + [w], replied)
  {
    var ids', sent' := ids[w := ids[w] + [|sent|]], sent + [w];
    forall id | 0 <= id < |sent'| && id !in replied
      ensures sent'[id] < |ids'| && id in ids'[sent'[id]]
    {
      if id == |sent| {
        assert ids'[w][|ids[w]|] == id;
      } else {
        assert id in ids[sent[id]];
      }
    }
  }

  lemma OwnedHead(ids: seq<seq<nat>>, sent: seq<nat>, replied: set<nat>, w: nat)
    requires Owned(ids, sent, replied) && w < |ids| && ids[w] != []
    ensures ids[w][0] < |sent| && sent[ids[w][0]] == w && ids[w][0] !in replied
  {
  }

  lemma OwnedTake(ids: seq<seq<nat>>, sent: seq<nat>, replied: set<nat>, w: nat)
    requires Owned(ids, sent, replied) && w < |ids| && ids[w] != []
    ensures Owned(ids[w := ids[w][1..]], sent, replied + {ids[w][0]})
  {
    var ids', replied' := ids[w := ids[w][1..]], replied + {ids[w][0]};
    forall v, i | 0 <= v < |ids'| && 0 <= i < |ids'[v]|
      ensures ids'[v][i] < |sent| && sent[ids'[v][i]] == v && ids'[v][i] !in replied'
    {
      if v == w {
        assert ids'[v][i] == ids[w][i + 1];
      } else {
        assert ids'[v][i] == ids[v][i];
        assert sent[ids[w][0]] == w;
      }
    }
    forall id | 0 <= id < |sent| && id !in replied'
      ensures sent[id] < |ids'| && id in ids'[sent[id]]
    {
      assert id in ids[sent[id]];
      if sent[id] == w {
        var i :| 0 <= i < |ids[w]| && ids[w][i] == id;
        assert ids'[w][i - 1] == id;
      }
    }
  }

  lemma KeyAdded<K, W>(m: map<K, W>, k: K, value: W)
    requires k !in m
    ensures m[k := value].Keys == m.Keys + {k} && |m[k := value]| == |m| + 1
  {
    var after := m[k := value];
    assert after.Keys == m.Keys + {k};
    assert |after| == |after.Keys| && |m| == |m.Keys|;
  }

  lemma AnsweredTake<T, V, E>(compute: T -> Outcome<V, E>, tasks: seq<T>, answers: seq<Option<Outcome<V, E>>>,
                              replies: map<nat, Reply<V, E>>, id: nat, reply: Reply<V, E>)
    requires Answered(compute, tasks, answers, replies) && id < |tasks| && id !in replies
    requires IsReply(compute, tasks[id], reply)
    ensures |answers| == |tasks|
    ensures Answered(compute, tasks, if reply.Answer? then answers[id := Some(reply.outcome)] else answers,
                     replies[id := reply])
  {
  }

  /** Every task answered: each has its reply, and nothing is left with the workers. */
  lemma NothingLeft<T, V, E>(compute: T -> Outcome<V, E>, tasks: seq<T>, ports: seq<Port<T, V, E>>,
                             held: seq<nat>, ids: seq<seq<nat>>, sent: seq<nat>, replied: set<nat>)
    requires Windows(compute, tasks, ports, held, ids) && Owned(ids, sent, replied) && Sum(held) == 0
    ensures forall id :: 0 <= id < |sent| ==> id in replied
    ensures forall w :: 0 <= w < |ports| ==> ports[w] == Port([], [])
  {
    NoneOfSum(held);
    forall w | 0 <= w < |ports|
      ensures ports[w] == Port([], []) && ids[w] == []
    {
      assert Holds(compute, tasks, ports[w], ids[w]) && held[w] == 0;
    }
  }

  /** A call of Map in hand. */
  class Call<T(!new), V(!new), E(!new)> {
    const pool: Pool<T, V, E>
    const tasks: seq<T>
    ghost const live: bool             // a worker could answer when the call began
    var next: nat                      // the tasks handed out
    var done: nat                      // the answers taken
    var held: seq<nat>                 // the tasks each worker holds
    var answers: seq<Option<Outcome<V, E>>>
    ghost var ids: seq<seq<nat>>       // which, oldest first
    ghost var sent: seq<nat>           // the worker each task went to
    ghost const before: seq<(nat, Request<T>)>       // what was posted in earlier calls
    ghost var replies: map<nat, Reply<V, E>>

    ghost predicate Inv()
      reads this, pool, pool.world
    {
      && pool.world.Valid() && |held| == |pool.unable| == |pool.world.ports|
      && done <= next <= |tasks| && |sent| == next && |replies| == done && Sum(held) == next - done
      && (!live ==> next == 0 && pool.AllUnable())
      && (live ==> Windows(pool.world.compute, tasks, pool.world.ports, held, ids))
      && |ids| == |held| && Owned(ids, sent, replies.Keys)
      && pool.world.posts == before + Posted(tasks, sent)
      && Answered(pool.world.compute, tasks, answers, replies)
    }

    /** Worker `w` has all the tasks it can be given. */
    ghost predicate Full(w: nat)
      reads this, pool`unable
    {
      w < |pool.unable| && w < |held| ==> pool.unable[w] || held[w] == PER_WORKER || next == |tasks|
    }

    constructor (pool: Pool<T, V, E>, tasks: seq<T>)
      requires pool.Valid() && !pool.closed
      ensures this.pool == pool && this.tasks == tasks && live == !pool.AllUnable()
      ensures Inv() && replies == map[] && sent == [] && before == pool.world.posts
    {
      this.pool, this.tasks, live := pool, tasks, !pool.AllUnable();
      next, done := 0, 0;
      held := seq(|pool.unable|, _ => 0);
      answers := seq(|tasks|, _ => None);
      ids, sent, replies := seq(|pool.unable|, _ => []), [], map[];
      before := pool.world.posts;
      new;
      assert before + [] == before;
      SumOfNone(held);
    }

    /** Hand worker `w` its next task. */
    method SendOne(w: nat)
      requires Inv() && w < |held| && !pool.unable[w] && held[w] < PER_WORKER && next < |tasks|
      modifies this, pool.world
      ensures Inv() && next == old(next) + 1 && done == old(done)
      ensures held == old(held)[w := old(held)[w] + 1] && sent == old(sent) + [w]
      ensures pool.world.signal == old(pool.world.signal) && pool.world.clock == old(pool.world.clock)
    {
      hide Windows, Owned, Answered, Sum, Posted;
      var id := next;
      WindowsSend(pool.world.compute, tasks, pool.world.ports, held, ids, w, id);
      OwnedSend(ids, sent, replies.Keys, w);
      SumUpdate(held, w, held[w] + 1);
      PostedMore(before, tasks, sent, w);
      next := next + 1;
      held := held[w := held[w] + 1];
      pool.world.Post(w, Request(id, tasks[id]));
      ids := ids[w := ids[w] + [id]];
      sent := sent + [w];
    }

    method Send(w: nat)
      requires Inv() && w < |held|
      modifies this, pool.world
      ensures Inv() && Full(w) && next >= old(next) && done == old(done) && old(sent) <= sent
      ensures forall v :: old(Full(v)) ==> Full(v)
      ensures old(Full(w)) ==> next == old(next) && pool.world.due == old(pool.world.due)
      ensures pool.world.signal == old(pool.world.signal) && pool.world.clock == old(pool.world.clock)
    {
      while !pool.unable[w] && held[w] < PER_WORKER && next < |tasks|
        invariant Inv() && w < |held| && next >= old(next) && done == old(done) && old(sent) <= sent
        invariant forall v :: old(Full(v)) ==> Full(v)
        invariant old(Full(w)) ==> next == old(next) && pool.world.due == old(pool.world.due)
        invariant pool.world.signal == old(pool.world.signal) && pool.world.clock == old(pool.world.clock)
        decreases |tasks| - next
      {
        SendOne(w);
      }
    }

    /** The next answer of worker `w`, if one has come. */
    method Take(w: nat) returns (took: bool)
      requires Inv() && live && w < |held|
      modifies this, pool`unable, pool.world
      ensures Inv() && next == old(next) && sent == old(sent) && |held| == old(|held|)
      ensures took ==> done == old(done) + 1
      ensures !took ==> done == old(done) && held == old(held) && pool.unable == old(pool.unable)
      ensures forall v :: (!took || v != w) && old(Full(v)) ==> Full(v)
      ensures pool.world.signal >= old(pool.world.signal) && pool.world.clock >= old(pool.world.clock)
      ensures pool.world.signal + pool.world.due == old(pool.world.signal) + old(pool.world.due)
    {
      hide Windows, Owned, Answered, Sum, Holds, Posted;
      ghost var before := pool.world.ports;
      var m, seen := pool.world.Receive(w);
      ghost var mid := pool.world.ports[w := seen];
      WindowsLater(pool.world.compute, tasks, before, mid, held, ids);
      if m.None? {
        assert mid == pool.world.ports;
        return false;
      }
      WindowsTake(pool.world.compute, tasks, mid, held, ids, w);
      assert mid[w := seen.(outbox := seen.outbox[1..])] == pool.world.ports;
      Account(w, m.value);
      took := true;
    }

    method Account(w: nat, m: Message<V, E>)
      requires live && pool.world.Valid() && w < |held| == |ids| == |pool.unable| == |pool.world.ports|
      requires done <= next <= |tasks| && |sent| == next && |replies| == done && Sum(held) == next - done
      requires Owned(ids, sent, replies.Keys) && Answered(pool.world.compute, tasks, answers, replies)
      requires pool.world.posts == before + Posted(tasks, sent)
      requires ids[w] != [] && held[w] > 0 && m.id == ids[w][0] < |tasks|
      requires IsReply(pool.world.compute, tasks[m.id], m.reply)
      requires Windows(pool.world.compute, tasks, pool.world.ports, held[w := held[w] - 1], ids[w := ids[w][1..]])
      modifies this, pool`unable
      ensures Inv() && next == old(next) && sent == old(sent) && done == old(done) + 1
      ensures held == old(held)[w := old(held)[w] - 1]
      ensures forall v :: 0 <= v < |held| && v != w ==> pool.unable[v] == old(pool.unable)[v]
    {
      hide Windows, Owned, Answered, Sum, Holds, Posted;
      var id, reply := m.id, m.reply;
      OwnedHead(ids, sent, replies.Keys, w);
      OwnedTake(ids, sent, replies.Keys, w);
      AnsweredTake(pool.world.compute, tasks, answers, replies, id, reply);
      SumUpdate(held, w, held[w] - 1);
      done := done + 1;
      held := held[w := held[w] - 1];
      ids := ids[w := ids[w][1..]];
      KeyAdded(replies, id, reply);
      replies := replies[id := reply];
      match reply {
        case Unable => pool.unable := pool.unable[w := true];     // its place in `answers` stays empty
        case Answer(outcome) => answers := answers[id := Some(outcome)];
      }
    }

    /** The answers of worker `w` that have come, and its next tasks to it. */
    method Poll(w: nat) returns (got: bool)
      requires Inv() && live && w < |held|
      modifies this, pool`unable, pool.world
      ensures Inv() && Full(w) && |held| == old(|held|)
      ensures forall v :: old(Full(v)) ==> Full(v)
      ensures if got then done > old(done) else done == old(done)
      ensures pool.world.signal >= old(pool.world.signal) && pool.world.clock >= old(pool.world.clock)
      ensures !got && old(Full(w)) ==>
                pool.world.signal + pool.world.due == old(pool.world.signal) + old(pool.world.due)
    {
      got := false;
      var took := Take(w);
      while took
        invariant Inv() && next == old(next) && |held| == old(|held|)
        invariant took || got ==> done > old(done)
        invariant !took && !got ==> done == old(done)
        invariant forall v :: (v != w || (!took && !got)) && old(Full(v)) ==> Full(v)
        invariant pool.world.signal >= old(pool.world.signal) && pool.world.clock >= old(pool.world.clock)
        invariant pool.world.signal + pool.world.due == old(pool.world.signal) + old(pool.world.due)
        decreases |tasks| - done, took
      {
        got := true;
        took := Take(w);
      }
      Send(w);
    }

    method HandOut()
      requires Inv()
      modifies this, pool.world
      ensures Inv() && done == old(done) && forall w :: Full(w)
      ensures pool.world.clock == old(pool.world.clock)
    {
      hide Windows, Owned, Answered, Sum, Holds, Posted;
      for w := 0 to |held|
        invariant Inv() && |held| == old(|held|) && done == old(done)
        invariant pool.world.clock == old(pool.world.clock)
        invariant forall v :: 0 <= v < w ==> Full(v)
      {
        Send(w);
      }
    }

    /** One round of the ports. */
    method PollAll() returns (got: bool)
      requires Inv() && live && forall w :: Full(w)
      modifies this, pool`unable, pool.world
      ensures Inv() && forall w :: Full(w)
      ensures if got then done > old(done) else done == old(done)
      ensures pool.world.signal >= old(pool.world.signal) && pool.world.clock >= old(pool.world.clock)
      ensures !got ==> pool.world.signal + pool.world.due == old(pool.world.signal) + old(pool.world.due)
    {
      got := false;
      for w := 0 to |held|
        invariant Inv() && |held| == old(|held|)
        invariant forall v :: Full(v)
        invariant if got then done > old(done) else done == old(done)
        invariant pool.world.signal >= old(pool.world.signal) && pool.world.clock >= old(pool.world.clock)
        invariant !got ==> pool.world.signal + pool.world.due == old(pool.world.signal) + old(pool.world.due)
      {
        var more := Poll(w);
        got := got || more;
      }
    }

    function Limit(): nat
      reads pool
    {
      if pool.started then STALL_MS else STARTUP_MS
    }

    /** Date.now. */
    method Now() returns (now: nat)
      requires Inv()
      modifies pool.world
      ensures Inv() && now == pool.world.clock >= old(pool.world.clock)
      ensures pool.world.due <= old(pool.world.due)
      ensures pool.world.signal + pool.world.due == old(pool.world.signal) + old(pool.world.due)
    {
      hide Windows, Owned, Answered, Sum, Holds, Posted;
      now := pool.world.Now();
      AfterTime(old(pool.world.ports));
    }

    /** Atomics.wait, at most a second: a bump of the counter came since `seen`, or the time went by. */
    method Pause(seen: nat)
      requires Inv()
      modifies pool.world
      ensures Inv() && pool.world.clock >= old(pool.world.clock)
      ensures pool.world.signal != seen || pool.world.clock > old(pool.world.clock)
      ensures pool.world.signal + pool.world.due == old(pool.world.signal) + old(pool.world.due)
      ensures pool.world.due <= old(pool.world.due)
    {
      hide Windows, Owned, Answered, Sum, Holds, Posted;
      pool.world.Wait(seen, 1000);
      AfterTime(old(pool.world.ports));
    }

    /** One turn of Map's loop (`last`: when an answer last came). It takes an answer, or uses up a bump of the counter
        or some of the time there is, or closes the pool. */
    method Turn(last: nat) returns (last': nat)
      requires Inv() && live && !pool.closed && last <= pool.world.clock && forall w :: Full(w)
      modifies this, pool, pool.world
      ensures Inv() && forall w :: Full(w)
      ensures last <= last' <= pool.world.clock
      ensures done >= old(done) && pool.started == (old(pool.started) || done > old(done))
      ensures pool.closed ==> pool.world.clock > last' + Limit()
      ensures done == old(done) ==> last' == last && pool.world.due <= old(pool.world.due)
      ensures done > old(done) || pool.closed || pool.world.due < old(pool.world.due)
              || Remaining(last) < old(Remaining(last))
    {
      hide Inv;
      var seen := pool.world.signal;
      var got := PollAll();
      var now := Now();
      last' := last;
      if got {
        Started();
        last' := now;
      } else if now - last > Limit() {
        CloseStalled();                      // nothing came for too long
      } else {
        Pause(seen);
      }
    }

    method Started()
      requires Inv()
      modifies pool`started
      ensures Inv() && pool.started
    {
      hide Windows, Owned, Answered, Sum, Holds, Posted;
      pool.started := true;
    }

    method CloseStalled()
      requires Inv()
      modifies pool`closed
      ensures Inv() && pool.closed
    {
      hide Windows, Owned, Answered, Sum, Holds, Posted;
      pool.Close();
    }

    /** Answers taken until there are no more to take (`last`: when the last of them came): all came, no worker is
        able, or none came for too long (the pool is then closed). It ends. */
    method Collect() returns (last: nat)
      requires Inv() && !pool.closed && forall w :: Full(w)
      modifies this, pool, pool.world
      ensures Inv() && forall w :: Full(w)
      ensures done == |tasks| || pool.closed || pool.AllUnable()
      ensures pool.started == (old(pool.started) || done > old(done))
      ensures last >= old(pool.world.clock)
      ensures pool.closed ==> pool.world.clock > last + Limit()
    {
      hide Windows, Owned, Answered, Sum, Holds, Posted;
      last := Now();
      while done < |tasks| && !pool.closed
        invariant Inv() && forall w :: Full(w)
        invariant old(pool.world.clock) <= last <= pool.world.clock
        invariant done >= old(done) && pool.started == (old(pool.started) || done > old(done))
        invariant pool.closed ==> pool.world.clock > last + Limit()
        decreases |tasks| - done, !pool.closed, pool.world.due, Remaining(last)
      {
        var all := pool.EveryUnable();
        if all {
          break;
        }
        last := Turn(last);
      }
    }

    ghost function Remaining(last: nat): nat
      reads pool, pool.world
    {
      var end := last + Limit() + 1;
      if end > pool.world.clock then end - pool.world.clock else 0
    }

    /** Time alone changes nothing of what the workers hold. */
    lemma AfterTime(before: seq<Port<T, V, E>>)
      requires |before| == |pool.world.ports|
      requires forall w :: 0 <= w < |before| ==> PortLater(pool.world.compute, before[w], pool.world.ports[w])
      requires live ==> Windows(pool.world.compute, tasks, before, held, ids)
      ensures live ==> Windows(pool.world.compute, tasks, pool.world.ports, held, ids)
    {
      if live {
        WindowsLater(pool.world.compute, tasks, before, pool.world.ports, held, ids);
      }
    }
  }

  // ---- mapTasks ----------------------------------------------------------------------

  /** What handling a task's error comes to: the value it stands for, or an error thrown on. */
  datatype Handled<+V, +X> = Value(value: V) | Raise(thrown: X)

  /** The values of a mapped list, or what one of its callbacks threw first. */
  datatype Mapped<+V, +X> = Values(values: seq<V>) | Raised(thrown: X)

  function RunHere<T, V, E, X>(local: T -> Outcome<V, E>, onError: (T, E) -> Handled<V, X>, task: T): Handled<V, X> {
    match local(task)
    case Ok(value) => Value(value)
    case Threw(error) => onError(task, error)
  }

  /** How an error of a worker's task comes back: its name and message, as `wire` writes them. */
  function Wired<V, E>(wire: E -> E, outcome: Outcome<V, E>): Outcome<V, E> {
    match outcome
    case Ok(value) => Ok(value)
    case Threw(error) => Threw(wire(error))
  }

  /** A task run in a worker, its error handled here. */
  function RunThere<T, V, E, X>(local: T -> Outcome<V, E>, wire: E -> E, onError: (T, E) -> Handled<V, X>, task: T)
    : Handled<V, X>
  {
    RunHere(t => Wired(wire, local(t)), onError, task)
  }

  function Then<V, X>(first: Handled<V, X>, rest: Mapped<V, X>): Mapped<V, X> {
    match first
    case Raise(x) => Raised(x)
    case Value(v) => match rest case Raised(x) => Raised(x) case Values(vs) => Values([v] + vs)
  }

  /** The tasks run one after the other on the main thread. */
  function Sequentially<T, V, E, X>(tasks: seq<T>, local: T -> Outcome<V, E>, onError: (T, E) -> Handled<V, X>)
    : Mapped<V, X>
  {
    if tasks == [] then Values([])
    else Then(RunHere(local, onError, tasks[0]), Sequentially(tasks[1..], local, onError))
  }

  /** The same, but with the tasks `there` names run in workers. */
  function Spread<T, V, E, X>(tasks: seq<T>, there: seq<bool>, local: T -> Outcome<V, E>, wire: E -> E,
                              onError: (T, E) -> Handled<V, X>): Mapped<V, X>
    requires |there| == |tasks|
  {
    if tasks == [] then Values([])
    else
      Then(if there[0] then RunThere(local, wire, onError, tasks[0]) else RunHere(local, onError, tasks[0]),
           Spread(tasks[1..], there[1..], local, wire, onError))
  }

  /** mapTasks' map over the tasks and the pool's answers to them. */
  function Combined<T, V, E, X>(tasks: seq<T>, answers: seq<Option<Outcome<V, E>>>, local: T -> Outcome<V, E>,
                                onError: (T, E) -> Handled<V, X>): Mapped<V, X>
    requires |answers| == |tasks|
  {
    if tasks == [] then Values([])
    else
      var first := match answers[0]
        case None => RunHere(local, onError, tasks[0])
        case Some(Ok(value)) => Value(value)
        case Some(Threw(error)) => onError(tasks[0], error);
      Then(first, Combined(tasks[1..], answers[1..], local, onError))
  }

  function WhichAnswered<V, E>(answers: seq<Option<Outcome<V, E>>>): seq<bool> {
    seq(|answers|, k requires 0 <= k < |answers| => answers[k].Some?)
  }

  /** A worker computes what running the task here does. */
  ghost predicate SameWork<T(!new), V, E>(tasks: seq<T>, compute: T -> Outcome<V, E>, local: T -> Outcome<V, E>,
                                          wire: E -> E)
  {
    forall t :: t in tasks ==> compute(t) == Wired(wire, local(t))
  }

  /** What mapTasks puts together is the tasks run in order, those answered with their errors as they were posted. */
  lemma {:induction false} CombinedIsSpread<T(!new), V, E, X>(
      tasks: seq<T>, answers: seq<Option<Outcome<V, E>>>, compute: T -> Outcome<V, E>, local: T -> Outcome<V, E>,
      wire: E -> E, onError: (T, E) -> Handled<V, X>)
    requires SameWork(tasks, compute, local, wire) && |answers| == |tasks|
    requires forall k :: 0 <= k < |tasks| ==> answers[k].None? || answers[k] == Some(compute(tasks[k]))
    ensures Combined(tasks, answers, local, onError)
            == Spread(tasks, WhichAnswered(answers), local, wire, onError)
  {
    if tasks != [] {
      CombinedIsSpread(tasks[1..], answers[1..], compute, local, wire, onError);
      assert WhichAnswered(answers)[1..] == WhichAnswered(answers[1..]);
      assert tasks[0] in tasks;
    }
  }

  /** Task by task: the values stand in the order of the tasks, each its task's, or what its error, as it was or as it was
      posted, stands for; and what is thrown on is what the first task to do so throws. */
  lemma {:induction false} SpreadSays<T, V, E, X>(
      tasks: seq<T>, there: seq<bool>, local: T -> Outcome<V, E>, wire: E -> E, onError: (T, E) -> Handled<V, X>)
    requires |there| == |tasks|
    ensures var r := Spread(tasks, there, local, wire, onError);
            && (r.Values? ==> |r.values| == |tasks|)
            && (r.Values? ==> forall k :: 0 <= k < |tasks| ==>
                  match local(tasks[k])
                  case Ok(v) => r.values[k] == v
                  case Threw(e) => onError(tasks[k], if there[k] then wire(e) else e) == Value(r.values[k]))
            && (forall x :: r == Raised(x) <==>
                  exists k :: && 0 <= k < |tasks| && local(tasks[k]).Threw?
                              && onError(tasks[k], if there[k] then wire(local(tasks[k]).error) else local(tasks[k]).error)
                                 == Raise(x)
                              && forall j :: 0 <= j < k && local(tasks[j]).Threw? ==>
                                   onError(tasks[j], if there[j] then wire(local(tasks[j]).error)
                                                     else local(tasks[j]).error).Value?)
  {
    if tasks != [] {
      SpreadSays(tasks[1..], there[1..], local, wire, onError);
    }
  }

  // ---- When that is as if every task was run here ------------------------------------------------

  /** Nothing tells whether the task was run here. */
  ghost predicate Alike<T, V, E, X>(local: T -> Outcome<V, E>, wire: E -> E, onError: (T, E) -> Handled<V, X>, task: T) {
    RunHere(local, onError, task) == RunThere(local, wire, onError, task)
  }

  /** Wherever the tasks are run, `x` is thrown on: each task is that, or a value and then the next. */
  ghost predicate MustRaise<T, V, E, X>(tasks: seq<T>, local: T -> Outcome<V, E>, wire: E -> E,
                                      onError: (T, E) -> Handled<V, X>, x: X)
  {
    tasks != [] &&
    var here, there := RunHere(local, onError, tasks[0]), RunThere(local, wire, onError, tasks[0]);
    && (here.Raise? ==> here.thrown == x)
    && (there.Raise? ==> there.thrown == x)
    && (here.Value? || there.Value? ==> MustRaise(tasks[1..], local, wire, onError, x))
  }

  /** Every task is alike or, when something is thrown on in the end, that is thrown on anyway. */
  ghost predicate NoMatterWhere<T, V, E, X>(tasks: seq<T>, local: T -> Outcome<V, E>, wire: E -> E,
                                              onError: (T, E) -> Handled<V, X>)
  {
    match Sequentially(tasks, local, onError)
    case Values(_) => forall t :: t in tasks ==> Alike(local, wire, onError, t)
    case Raised(x) => MustRaise(tasks, local, wire, onError, x)
  }

  lemma {:induction false} AlikeSpread<T(!new), V, E, X>(
      tasks: seq<T>, there: seq<bool>, local: T -> Outcome<V, E>, wire: E -> E, onError: (T, E) -> Handled<V, X>)
    requires |there| == |tasks| && forall t :: t in tasks ==> Alike(local, wire, onError, t)
    ensures Spread(tasks, there, local, wire, onError) == Sequentially(tasks, local, onError)
  {
    if tasks != [] {
      assert tasks[0] in tasks;
      AlikeSpread(tasks[1..], there[1..], local, wire, onError);
    }
  }

  /** All in workers, and the same list of values: every task is alike. */
  lemma {:induction false} AllThereAlike<T(!new), V, E, X>(
      tasks: seq<T>, there: seq<bool>, local: T -> Outcome<V, E>, wire: E -> E, onError: (T, E) -> Handled<V, X>)
    requires |there| == |tasks| && forall k :: 0 <= k < |there| ==> there[k]
    requires Sequentially(tasks, local, onError).Values?
    requires Spread(tasks, there, local, wire, onError) == Sequentially(tasks, local, onError)
    ensures forall t :: t in tasks ==> Alike(local, wire, onError, t)
  {
    if tasks != [] {
      var a, b := Sequentially(tasks[1..], local, onError), Spread(tasks[1..], there[1..], local, wire, onError);
      var v := RunHere(local, onError, tasks[0]).value;
      var w := RunThere(local, wire, onError, tasks[0]).value;
      assert ([v] + a.values)[0] == v && ([w] + b.values)[0] == w;
      assert ([v] + a.values)[1..] == a.values && ([w] + b.values)[1..] == b.values;
      AllThereAlike(tasks[1..], there[1..], local, wire, onError);
      assert tasks == [tasks[0]] + tasks[1..];
    }
  }

  lemma {:induction false} MustRaiseSpread<T(!new), V, E, X>(
      tasks: seq<T>, there: seq<bool>, local: T -> Outcome<V, E>, wire: E -> E, onError: (T, E) -> Handled<V, X>, x: X)
    requires |there| == |tasks| && MustRaise(tasks, local, wire, onError, x)
    ensures Spread(tasks, there, local, wire, onError) == Raised(x)
  {
    var first := if there[0] then RunThere(local, wire, onError, tasks[0]) else RunHere(local, onError, tasks[0]);
    if first.Value? {
      MustRaiseSpread(tasks[1..], there[1..], local, wire, onError, x);
    }
  }

  /** If it need not be thrown on, some tasks run in workers keep it from being. */
  lemma {:induction false} NeedNotRaise<T(!new), V, E, X>(
      tasks: seq<T>, local: T -> Outcome<V, E>, wire: E -> E, onError: (T, E) -> Handled<V, X>, x: X)
    returns (there: seq<bool>)
    requires !MustRaise(tasks, local, wire, onError, x)
    ensures |there| == |tasks| && Spread(tasks, there, local, wire, onError) != Raised(x)
  {
    if tasks == [] {
      return [];
    }
    var here, away := RunHere(local, onError, tasks[0]), RunThere(local, wire, onError, tasks[0]);
    var rest := seq(|tasks| - 1, _ => false);
    if here.Raise? && here.thrown != x {
      there := [false] + rest;
    } else if away.Raise? && away.thrown != x {
      there := [true] + rest;
    } else {
      rest := NeedNotRaise(tasks[1..], local, wire, onError, x);
      there := [!here.Value?] + rest;
    }
    assert there[1..] == rest;
  }

  /** Whichever of the tasks workers answer the result is that of running them here, if and only if it does not matter
      where each is run. */
  lemma SpreadIsSequential<T(!new), V, E, X>(
      tasks: seq<T>, local: T -> Outcome<V, E>, wire: E -> E, onError: (T, E) -> Handled<V, X>)
    ensures NoMatterWhere(tasks, local, wire, onError) <==>
            forall there: seq<bool> :: |there| == |tasks| ==>
              Spread(tasks, there, local, wire, onError) == Sequentially(tasks, local, onError)
  {
    hide Spread, Sequentially, MustRaise, Alike;
    match Sequentially(tasks, local, onError)
    case Values(_) =>
      if NoMatterWhere(tasks, local, wire, onError) {
        forall there: seq<bool> | |there| == |tasks|
          ensures Spread(tasks, there, local, wire, onError) == Sequentially(tasks, local, onError)
        {
          AlikeSpread(tasks, there, local, wire, onError);
        }
      } else {
        var all := seq(|tasks|, _ => true);
        if Spread(tasks, all, local, wire, onError) == Sequentially(tasks, local, onError) {
          AllThereAlike(tasks, all, local, wire, onError);
        }
      }
    case Raised(x) =>
      if MustRaise(tasks, local, wire, onError, x) {
        forall there: seq<bool> | |there| == |tasks|
          ensures Spread(tasks, there, local, wire, onError) == Sequentially(tasks, local, onError)
        {
          MustRaiseSpread(tasks, there, local, wire, onError, x);
        }
      } else {
        var there := NeedNotRaise(tasks, local, wire, onError, x);
        assert Spread(tasks, there, local, wire, onError) != Sequentially(tasks, local, onError);
      }
  }

  /** Where nothing is thrown on here, all of the tasks run in workers tell as much as any of them. */
  lemma AllThereTells<T(!new), V, E, X>(
      tasks: seq<T>, local: T -> Outcome<V, E>, wire: E -> E, onError: (T, E) -> Handled<V, X>)
    requires Sequentially(tasks, local, onError).Values?
    ensures NoMatterWhere(tasks, local, wire, onError) <==>
            Spread(tasks, seq(|tasks|, _ => true), local, wire, onError) == Sequentially(tasks, local, onError)
  {
    var all := seq(|tasks|, _ => true);
    hide Spread, Sequentially, Alike;
    if Spread(tasks, all, local, wire, onError) == Sequentially(tasks, local, onError) {
      AllThereAlike(tasks, all, local, wire, onError);
    }
    SpreadIsSequential(tasks, local, wire, onError);
  }

  /** A task not alike does no harm before one that throws on anyway: its value is dropped. */
  lemma LaterRaiseHidesIt()
    ensures var local := (t: int) => if t == 2 then Threw(2) else Threw(1);
            var wire := (e: int) => -e;
            var onError := (t: int, e: int) => if t == 2 then Raise(t) else Handled<int, int>.Value(e);
            && !Alike<int, int, int, int>(local, wire, onError, 1)
            && NoMatterWhere<int, int, int, int>([1, 2], local, wire, onError)
  {
    var local := (t: int) => if t == 2 then Outcome<int, int>.Threw(2) else Threw(1);
    var wire := (e: int) => -e;
    var onError := (t: int, e: int) => if t == 2 then Raise(t) else Handled<int, int>.Value(e);
    assert [1, 2][1..] == [2] && [2][1..] == [];
    assert Sequentially([2], local, onError) == Raised(2);
    assert MustRaise([2], local, wire, onError, 2);
  }

  /** The first error thrown on, if it is another one from a worker: the result is the same exactly when no worker ran that
      task, whichever others were run there. */
  lemma {:induction false} RaisesDiffer<T(!new), V, E, X>(
      tasks: seq<T>, k: nat, there: seq<bool>, local: T -> Outcome<V, E>, wire: E -> E,
      onError: (T, E) -> Handled<V, X>, x: X, y: X)
    requires k < |tasks| == |there| && x != y
    requires forall j :: 0 <= j < k ==>
               RunHere(local, onError, tasks[j]).Value? && RunThere(local, wire, onError, tasks[j]).Value?
    requires RunHere(local, onError, tasks[k]) == Raise(x) && RunThere(local, wire, onError, tasks[k]) == Raise(y)
    ensures Sequentially(tasks, local, onError) == Raised(x)
    ensures Spread(tasks, there, local, wire, onError) == Raised(if there[k] then y else x)
    ensures !NoMatterWhere(tasks, local, wire, onError)
  {
    hide RunHere, RunThere;
    if k > 0 {
      var rest := tasks[1..];
      RaisesDiffer(rest, k - 1, there[1..], local, wire, onError, x, y);
      assert !MustRaise(rest, local, wire, onError, x);
    }
  }

  /** mapTasks. The tasks are run in order, those the workers answered there and the others here; so, whatever the workers
      do, as if each had been run here where it does not matter. */
  method MapTasks<T(!new), V(!new), E(!new), X>(
      pool: Pool?<T, V, E>, tasks: seq<T>, local: T -> Outcome<V, E>, onError: (T, E) -> Handled<V, X>,
      ghost wire: E -> E)
    returns (r: Mapped<V, X>, ghost there: seq<bool>)
    requires pool != null ==> pool.Valid() && SameWork(tasks, pool.world.compute, local, wire)
    modifies pool, if pool != null then {pool.world} else {}
    ensures pool != null ==> pool.Valid()
    ensures |there| == |tasks| && r == Spread(tasks, there, local, wire, onError)
    ensures r.Values? ==> |r.values| == |tasks|
    ensures r.Values? ==> forall k :: 0 <= k < |tasks| ==>
              match local(tasks[k])
              case Ok(v) => r.values[k] == v
              case Threw(e) => onError(tasks[k], if there[k] then wire(e) else e) == Value(r.values[k])
    ensures forall x :: r == Raised(x) <==>
              exists k :: && 0 <= k < |tasks| && local(tasks[k]).Threw?
                          && onError(tasks[k], if there[k] then wire(local(tasks[k]).error) else local(tasks[k]).error)
                             == Raise(x)
                          && forall j :: 0 <= j < k && local(tasks[j]).Threw? ==>
                               onError(tasks[j], if there[j] then wire(local(tasks[j]).error)
                                                 else local(tasks[j]).error).Value?
    ensures pool == null ==> r == Sequentially(tasks, local, onError) && forall k :: 0 <= k < |tasks| ==> !there[k]
    ensures NoMatterWhere(tasks, local, wire, onError) ==> r == Sequentially(tasks, local, onError)
  {
    SpreadIsSequential(tasks, local, wire, onError);
    if pool == null {
      var none := seq(|tasks|, _ => None);
      there := seq(|tasks|, _ => false);
      NoAnswers(tasks, none, there, local, wire, onError);
      SpreadSays(tasks, there, local, wire, onError);
      r := Combined(tasks, none, local, onError);
      return;
    }
    var answers, sent, replies := pool.Map(tasks);
    there := WhichAnswered(answers);
    SpreadSays(tasks, there, local, wire, onError);
    CombinedIsSpread(tasks, answers, pool.world.compute, local, wire, onError);
    r := Combined(tasks, answers, local, onError);
  }

  lemma {:induction false} NoAnswers<T, V, E, X>(tasks: seq<T>, answers: seq<Option<Outcome<V, E>>>, there: seq<bool>,
                                                local: T -> Outcome<V, E>, wire: E -> E,
                                                onError: (T, E) -> Handled<V, X>)
    requires |answers| == |tasks| == |there|
    requires forall k :: 0 <= k < |tasks| ==> answers[k].None? && !there[k]
    ensures Combined(tasks, answers, local, onError) == Sequentially(tasks, local, onError)
    ensures Spread(tasks, there, local, wire, onError) == Sequentially(tasks, local, onError)
  {
    if tasks != [] {
      NoAnswers(tasks[1..], answers[1..], there[1..], local, wire, onError);
    }
  }
}
