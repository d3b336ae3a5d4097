/**
 The workers of js/src/pool.js and what lies between them and the main thread: a port a worker (what was posted to it,
 what it posted back), the counter the main thread waits on and the clock. Between any two steps of the main thread the
 workers may do anything they can: answer what they hold, be unable to, stall or die (never run again).
 */
module PoolWorld {
  import opened Common

  /** What running a task comes to: its value, or what it threw. */
  datatype Outcome<+V, +E> = Ok(value: V) | Threw(error: E)

  /** A worker's answer; Unable: the main thread is to run the task. */
  datatype Reply<+V, +E> = Unable | Answer(outcome: Outcome<V, E>)

  datatype Request<+T> = Request(id: nat, task: T)

  datatype Message<+V, +E> = Message(id: nat, reply: Reply<V, E>)

  /** `inbox`: requests the worker has not taken; `outbox`: its answers the main thread has not. */
  datatype Port<+T, +V, +E> = Port(inbox: seq<Request<T>>, outbox: seq<Message<V, E>>)

  ghost predicate IsReply<T, V, E>(compute: T -> Outcome<V, E>, task: T, reply: Reply<V, E>) {
    reply == Unable || reply == Answer(compute(task))
  }

  /** `b` is `a` after its worker answered some of its requests, in order. */
  ghost predicate PortLater<T, V, E>(compute: T -> Outcome<V, E>, a: Port<T, V, E>, b: Port<T, V, E>) {
    var n := |a.inbox| - |b.inbox|;
    && n >= 0
    && b.inbox == a.inbox[n..]
    && |b.outbox| == |a.outbox| + n && a.outbox <= b.outbox
    && forall i :: 0 <= i < n ==>
         && b.outbox[|a.outbox| + i].id == a.inbox[i].id
         && IsReply(compute, a.inbox[i].task, b.outbox[|a.outbox| + i].reply)
  }

  lemma PortServed<T, V, E>(compute: T -> Outcome<V, E>, a: Port<T, V, E>, reply: Reply<V, E>)
    requires a.inbox != [] && IsReply(compute, a.inbox[0].task, reply)
    ensures PortLater(compute, a, Port(a.inbox[1..], a.outbox + [Message(a.inbox[0].id, reply)]))
  {
  }

  lemma PortsStay<T, V, E>(compute: T -> Outcome<V, E>, ports: seq<Port<T, V, E>>)
    ensures forall w :: 0 <= w < |ports| ==> PortLater(compute, ports[w], ports[w])
  {
  }

  lemma PortLaterTransitive<T, V, E>(compute: T -> Outcome<V, E>, a: Port<T, V, E>, b: Port<T, V, E>, c: Port<T, V, E>)
    requires PortLater(compute, a, b) && PortLater(compute, b, c)
    ensures PortLater(compute, a, c)
  {
    var n, m := |a.inbox| - |b.inbox|, |b.inbox| - |c.inbox|;
    forall i | 0 <= i < n + m
      ensures c.outbox[|a.outbox| + i].id == a.inbox[i].id
      ensures IsReply(compute, a.inbox[i].task, c.outbox[|a.outbox| + i].reply)
    {
      if i < n {
        assert c.outbox[|a.outbox| + i] == b.outbox[|a.outbox| + i];
      } else {
        assert c.outbox[|b.outbox| + (i - n)].id == b.inbox[i - n].id;
        assert b.inbox[i - n] == a.inbox[i];
      }
    }
  }

  /** What the port holds, oldest first, is the requests `ids` of `tasks`: answered ones, then the others. */
  ghost predicate Holds<T, V, E>(compute: T -> Outcome<V, E>, tasks: seq<T>, port: Port<T, V, E>, ids: seq<nat>) {
    && |ids| == |port.outbox| + |port.inbox|
    && (forall i :: 0 <= i < |port.outbox| ==>
          && port.outbox[i].id == ids[i] < |tasks|
          && IsReply(compute, tasks[ids[i]], port.outbox[i].reply))
    && (forall i :: 0 <= i < |port.inbox| ==>
          port.inbox[i].id == ids[|port.outbox| + i] < |tasks| && port.inbox[i].task == tasks[port.inbox[i].id])
  }

  /** A worker's answers are to the requests it holds. */
  lemma HoldsLater<T, V, E>(compute: T -> Outcome<V, E>, tasks: seq<T>, a: Port<T, V, E>, b: Port<T, V, E>, ids: seq<nat>)
    requires Holds(compute, tasks, a, ids) && PortLater(compute, a, b)
    ensures Holds(compute, tasks, b, ids)
  {
    var n := |a.inbox| - |b.inbox|;
    forall i | 0 <= i < |b.outbox|
      ensures b.outbox[i].id == ids[i] < |tasks| && IsReply(compute, tasks[ids[i]], b.outbox[i].reply)
    {
      if i < |a.outbox| {
        assert b.outbox[i] == a.outbox[i];
      } else {
        var j := i - |a.outbox|;
        assert b.outbox[|a.outbox| + j].id == a.inbox[j].id;
      }
    }
  }

  class World<T(!new), V(!new), E(!new)> {
    const compute: T -> Outcome<V, E>       // what a worker's task gives (an error as it is posted back)
    const ready: seq<bool>                  // the workers whose engine answered
    var ports: seq<Port<T, V, E>>
    var signal: nat                         // the shared counter
    var due: nat                            // the bumps of it still to come: one for each request posted
    var clock: nat
    ghost var posts: seq<(nat, Request<T>)>    // what was posted, and to which worker

    ghost predicate Valid()
      reads this
    {
      |ready| == |ports|
    }

    /** Time and the workers went on; nothing was posted to a worker or taken from one. */
    twostate predicate Later()
      reads this
    {
      && |ports| == |old(ports)|
      && (forall w :: 0 <= w < |ports| ==> PortLater(compute, old(ports)[w], ports[w]))
      && signal >= old(signal) && signal + due == old(signal) + old(due)
      && clock >= old(clock) && posts == old(posts)
    }

    constructor (compute: T -> Outcome<V, E>, ready: seq<bool>)
      ensures this.compute == compute && this.ready == ready && Valid()
      ensures |ports| == |ready| && posts == [] && forall w :: 0 <= w < |ports| ==> ports[w] == Port([], [])
    {
      this.compute, this.ready := compute, ready;
      ports := seq(|ready|, _ => Port([], []));
      signal, due, clock, posts := 0, 0, 0, [];
    }

    /** js/src/pool-worker.js, serve: a worker takes a request and posts its answer. */
    method Serve(w: nat)
      requires Valid() && w < |ports| && ports[w].inbox != []
      modifies this`ports
      ensures Valid() && Later()
      ensures ports[w].inbox == old(ports)[w].inbox[1..] && ports[w].outbox != []
      ensures var request, last := old(ports)[w].inbox[0], ports[w].outbox[|ports[w].outbox| - 1];
              && ports[w].outbox == old(ports)[w].outbox + [last] && last.id == request.id
              && (last.reply == Unable || (ready[w] && last.reply == Answer(compute(request.task))))
      ensures forall v :: 0 <= v < |ports| && v != w ==> ports[v] == old(ports)[v]
    {
      var request := ports[w].inbox[0];
      var reply := Unable;
      if ready[w] {
        reply := Answer(compute(request.task));
      }
      var sendable: bool := *;
      if !sendable {
        reply := Unable;                    // posting the answer threw
      }
      var after := Port(ports[w].inbox[1..], ports[w].outbox + [Message(request.id, reply)]);
      PortServed(compute, ports[w], reply);
      PortsStay(compute, ports);
      hide PortLater;
      ports := ports[w := after];
    }

    /** Any steps of any workers, and any time. */
    method Go()
      requires Valid()
      modifies this
      ensures Valid() && Later()
    {
      var steps: int := *;
      while steps > 0
        invariant Valid() && Later()
      {
        label before:
        var w: int, bump: bool, time: int := *, *, *;
        if 0 <= w < |ports| && ports[w].inbox != [] {
          Serve(w);
          forall v | 0 <= v < |ports|
            ensures PortLater(compute, old(ports)[v], ports[v])
          {
            assert PortLater(compute, old@before(ports)[v], ports[v]);
            PortLaterTransitive(compute, old(ports)[v], old@before(ports)[v], ports[v]);
          }
        }
        if bump && due > 0 {
          signal, due := signal + 1, due - 1;
        }
        if time > 0 {
          clock := clock + time;
        }
        steps := steps - 1;
      }
    }

    /** receiveMessageOnPort. */
    method Receive(w: nat) returns (m: Option<Message<V, E>>, ghost seen: Port<T, V, E>)
      requires Valid() && w < |ports|
      modifies this
      ensures Valid() && |ports| == |old(ports)|
      ensures forall v :: 0 <= v < |ports| && v != w ==> PortLater(compute, old(ports)[v], ports[v])
      ensures PortLater(compute, old(ports)[w], seen)
      ensures m.None? ==> seen.outbox == [] && ports[w] == seen
      ensures m.Some? ==> seen.outbox != [] && m.value == seen.outbox[0]
                          && ports[w] == seen.(outbox := seen.outbox[1..])
      ensures signal >= old(signal) && signal + due == old(signal) + old(due) && clock >= old(clock)
      ensures posts == old(posts)
    {
      Go();
      seen := ports[w];
      if ports[w].outbox == [] {
        m := None;
      } else {
        m := Some(ports[w].outbox[0]);
        ports := ports[w := ports[w].(outbox := ports[w].outbox[1..])];
      }
    }

    /** postMessage to worker `w`. */
    method Post(w: nat, request: Request<T>)
      requires Valid() && w < |ports|
      modifies this`ports, this`due, this`posts
      ensures Valid() && due == old(due) + 1 && posts == old(posts) + [(w, request)]
      ensures ports == old(ports)[w := old(ports)[w].(inbox := old(ports)[w].inbox + [request])]
    {
      ports := ports[w := ports[w].(inbox := ports[w].inbox + [request])];
      due := due + 1;
      posts := posts + [(w, request)];
    }

    /** Date.now. */
    method Now() returns (now: nat)
      requires Valid()
      modifies this
      ensures Valid() && Later() && now == clock
    {
      Go();
      now := clock;
    }

    /** Atomics.wait: until the counter is no longer `seen`, at most `ms`. */
    method Wait(seen: nat, ms: nat)
      requires Valid()
      modifies this
      ensures Valid() && Later()
      ensures signal != seen || clock >= old(clock) + ms
    {
      Go();
      if signal == seen {
        clock := clock + ms;
      }
    }
  }
}
