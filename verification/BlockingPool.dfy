/** The blocking connection pool: a LIFO queue of placeholders and idle connections, shared by any number of threads. */
module BlockingPools {
  import opened Helpers

  /**
   The pool and its users. `making` counts the threads that took a placeholder
   and have not yet made their connection.
   */
  datatype State<C(==)> = State(queue: seq<Option<C>>, connections: seq<C>, out: set<C>, making: nat)

  datatype Op<C(==)> = Take | Make(connection: C) | Release(connection: C)

  predicate Next<C>(s: State<C>, op: Op<C>, s': State<C>) {
    match op
    case Take =>
      && s.queue != []
      && var top := s.queue[|s.queue| - 1];
         s' == s.(queue := s.queue[..|s.queue| - 1],
                  out := s.out + (if top.Some? then {top.value} else {}),
                  making := s.making + if top.Some? then 0 else 1)
    case Make(c) =>
      && s.making > 0 && c !in s.connections
      && s' == s.(connections := s.connections + [c], out := s.out + {c}, making := s.making - 1)
    case Release(c) =>
      c in s.out && s' == s.(queue := s.queue + [Some(c)], out := s.out - {c})
  }

  /** How many placeholders are at the bottom of the queue. */
  function Placeholders<C>(queue: seq<Option<C>>): (n: nat)
    ensures n <= |queue| && forall i :: 0 <= i < n ==> queue[i].None?
    ensures n < |queue| ==> queue[n].Some?
  {
    if queue == [] then 0
    else
      var n := Placeholders(queue[..|queue| - 1]);
      if n == |queue| - 1 && queue[n].None? then n + 1 else n
  }

  /** The idle connections, the one released last at the end. */
  function Idle<C>(queue: seq<Option<C>>): (idle: seq<C>)
    requires Layered(queue)
    ensures |idle| == |queue| - Placeholders(queue)
    ensures forall i :: 0 <= i < |idle| ==> queue[Placeholders(queue) + i] == Some(idle[i])
  {
    seq(|queue| - Placeholders(queue),
        i requires 0 <= i < |queue| - Placeholders(queue) => queue[Placeholders(queue) + i].value)
  }

  /** Placeholders lie below connections. */
  predicate Layered<C>(queue: seq<Option<C>>) {
    forall i :: Placeholders(queue) <= i < |queue| ==> queue[i].Some?
  }

  ghost predicate Allocator<C(!new)>(s: State<C>, max: nat) {
    && Layered(s.queue)
    && Distinct(s.connections) && Distinct(Idle(s.queue))
    && (forall c :: c in s.connections <==> c in Idle(s.queue) || c in s.out)
    && (forall c :: !(c in Idle(s.queue) && c in s.out))
    && Placeholders(s.queue) + |s.connections| + s.making == max
  }

  lemma {:induction false} Pushed<C>(queue: seq<Option<C>>, c: C)
    requires Layered(queue)
    ensures Layered(queue + [Some(c)]) && Placeholders(queue + [Some(c)]) == Placeholders(queue)
    ensures Idle(queue + [Some(c)]) == Idle(queue) + [c]
  {
  }

  lemma {:induction false} Popped<C>(queue: seq<Option<C>>)
    requires Layered(queue) && queue != []
    ensures var init, top, idle := queue[..|queue| - 1], queue[|queue| - 1], Idle(queue);
      && Layered(init)
      && Placeholders(init) == Placeholders(queue) - (if top.Some? then 0 else 1)
      && (if top.Some? then |idle| > 0 && top.value == idle[|idle| - 1] && Idle(init) == idle[..|idle| - 1]
          else idle == [] && Idle(init) == [])
  {
  }

  /** Every connection is idle once or checked out, so the queue always has room for what is checked out. */
  lemma {:induction false} RoomForAll<C(!new)>(s: State<C>, max: nat)
    requires Allocator(s, max)
    ensures |s.connections| == |Idle(s.queue)| + |s.out|
    ensures |s.queue| + |s.out| + s.making == max
  {
    SetOfDistinct(s.connections);
    SetOfDistinct(Idle(s.queue));
    var idle := set c | c in Idle(s.queue);
    assert (set c | c in s.connections) == idle + s.out;
    assert idle !! s.out;
  }

  lemma {:induction false} StepAllocates<C(!new)>(s: State<C>, op: Op<C>, s': State<C>, max: nat)
    requires Allocator(s, max) && Next(s, op, s')
    ensures Allocator(s', max)
    ensures op.Take? && s'.making > s.making ==> Idle(s.queue) == [] && forall c :: c in s.connections ==> c in s.out
    ensures op.Take? && s'.making == s.making ==>
        Idle(s.queue) != [] && s'.out == s.out + {Idle(s.queue)[|Idle(s.queue)| - 1]}
    ensures op.Take? && s'.making == s.making ==> Idle(s'.queue) == Idle(s.queue)[..|Idle(s.queue)| - 1]
    ensures op.Release? ==> Idle(s'.queue) == Idle(s.queue) + [op.connection]
    ensures op.Make? ==> Idle(s'.queue) == Idle(s.queue)
  {
    hide Placeholders, Idle;
    match op {
      case Take =>
        Popped(s.queue);
        var idle := Idle(s.queue);
        if idle != [] {
          TakenApart(idle);
        }
      case Make(c) =>
        assert s'.connections[..|s.connections|] == s.connections;
      case Release(c) =>
        Pushed(s.queue, c);
    }
  }

  lemma {:induction false} TakenApart<C(!new)>(idle: seq<C>)
    requires Distinct(idle) && idle != []
    ensures var init, last := idle[..|idle| - 1], idle[|idle| - 1];
      Distinct(init) && last !in init && forall c :: c in idle <==> c in init || c == last
  {
  }

  // ---------------------------------------------------------------- runs

  ghost predicate Trace<C(!new)>(states: seq<State<C>>, ops: seq<Op<C>>, max: nat) {
    && |states| == |ops| + 1 && Initial(states[0], max)
    && forall i :: 0 <= i < |ops| ==> Next(states[i], ops[i], states[i + 1])
  }

  predicate Initial<C>(s: State<C>, max: nat) {
    s == State(seq(max, i => None), [], {}, 0)
  }

  /** When a connection was last released. */
  function LastRelease<C>(ops: seq<Op<C>>, c: C): (t: int)
    ensures -1 <= t < |ops|
    ensures t >= 0 ==> ops[t] == Release(c)
    ensures forall i :: t < i < |ops| ==> ops[i] != Release(c)
  {
    if ops == [] then -1
    else if ops[|ops| - 1] == Release(c) then |ops| - 1
    else LastRelease(ops[..|ops| - 1], c)
  }

  ghost predicate ByRelease<C>(idle: seq<C>, ops: seq<Op<C>>) {
    && (forall i :: 0 <= i < |idle| ==> LastRelease(ops, idle[i]) >= 0)
    && forall i, j :: 0 <= i < j < |idle| ==> LastRelease(ops, idle[i]) < LastRelease(ops, idle[j])
  }

  lemma {:induction false} InitialAllocates<C(!new)>(s: State<C>, max: nat)
    requires Initial(s, max)
    ensures Allocator(s, max) && Idle(s.queue) == []
  {
  }

  lemma {:induction false} NothingReleased<C(!new)>(idle: seq<C>, ops: seq<Op<C>>)
    requires idle == []
    ensures ByRelease(idle, ops)
  {
  }

  lemma {:induction false} ReleaseOrder<C(!new)>(idle: seq<C>, ops: seq<Op<C>>, op: Op<C>, after: seq<C>)
    requires ByRelease(idle, ops)
    requires
      || (after == idle && !op.Release?)
      || (op.Take? && idle != [] && after == idle[..|idle| - 1])
      || (op.Release? && op.connection !in idle && after == idle + [op.connection])
    ensures ByRelease(after, ops + [op])
  {
  }

  /** Over every interleaving of threads: the counts are conserved and the idle connections are in order of release. */
  lemma {:induction false} RunsAllocate<C(!new)>(states: seq<State<C>>, ops: seq<Op<C>>, max: nat, n: nat)
    requires Trace(states, ops, max) && n <= |ops|
    ensures Allocator(states[n], max) && ByRelease(Idle(states[n].queue), ops[..n])
  {
    hide Placeholders, Idle, ByRelease, LastRelease;
    if n == 0 {
      InitialAllocates(states[0], max);
      NothingReleased(Idle(states[0].queue), ops[..0]);
    } else {
      var m := n - 1;
      RunsAllocate(states, ops, max, m);
      assert Next(states[m], ops[m], states[n]);
      StepAllocates(states[m], ops[m], states[n], max);
      assert ops[..n] == ops[..m] + [ops[m]];
      ReleaseOrder(Idle(states[m].queue), ops[..m], ops[m], Idle(states[n].queue));
    }
  }

  /** A thread gets the connection released last; only when none is idle does it get to make one. */
  lemma {:induction false} LastReleasedFirst<C(!new)>(states: seq<State<C>>, ops: seq<Op<C>>, max: nat, n: nat)
    requires Trace(states, ops, max) && n < |ops| && ops[n].Take?
    ensures Allocator(states[n], max)
    ensures var idle := Idle(states[n].queue);
      if idle == [] then
        states[n + 1].making == states[n].making + 1 && |states[n].connections| == |states[n].out| &&
        |states[n].connections| + states[n].making < max
      else
        exists c :: c in idle && states[n + 1].out == states[n].out + {c} &&
          forall d :: d in idle ==> LastRelease(ops[..n], d) <= LastRelease(ops[..n], c)
  {
    RunsAllocate(states, ops, max, n);
    assert Next(states[n], ops[n], states[n + 1]);
    StepAllocates(states[n], ops[n], states[n + 1], max);
    RoomForAll(states[n], max);
    var idle := Idle(states[n].queue);
    if idle != [] {
      assert idle[|idle| - 1] in idle;
    }
  }

  // ---------------------------------------------------------------- the pool

  /** A connection, told from the others by its number. */
  type Connection = nat

  datatype Outcome = Ready | NoConnectionAvailable | NotConnected

  /** What checking a connection meets: whether it connects, has stale data, connects again, and is clean then. */
  datatype Check = Check(connects: bool, hasData: bool, reconnects: bool, stillHasData: bool) {
    predicate Passes() {
      connects && (hasData ==> reconnects && !stillHasData)
    }
  }

  class BlockingConnectionPool {
    const maxConnections: nat
    var pool: seq<Option<Connection>>
    var connections: seq<Connection>
    ghost var out: set<Connection>
    ghost var making: nat

    constructor (maxConnections: nat)
      ensures this.maxConnections == maxConnections && Valid() && Initial(Snapshot(), maxConnections)
    {
      this.maxConnections := maxConnections;
      pool, connections, out, making := [], [], {}, 0;
      new;
      while |pool| < maxConnections
        invariant |pool| <= maxConnections && pool == seq(|pool|, i => None)
        invariant connections == [] && out == {} && making == 0
      {
        pool := pool + [None];
      }
      InitialAllocates(Snapshot(), maxConnections);
    }

    ghost function Snapshot(): State<Connection>
      reads this
    {
      State(pool, connections, out, making)
    }

    ghost predicate Valid()
      reads this
    {
      Allocator(Snapshot(), maxConnections) && forall i :: 0 <= i < |connections| ==> connections[i] == i
    }

    /** The queue's get: None in the result is a placeholder. */
    method Take() returns (taken: Option<Connection>)
      requires Valid() && pool != []
      modifies this
      ensures Valid() && Next(old(Snapshot()), Op.Take, Snapshot()) && taken == old(pool)[|old(pool)| - 1]
      ensures if taken.Some? then taken.value !in old(out) else forall c :: c in connections ==> c in old(out)
    {
      StepAllocates(Snapshot(), Op.Take,
        State(pool[..|pool| - 1], connections,
          out + (if pool[|pool| - 1].Some? then {pool[|pool| - 1].value} else {}),
          making + if pool[|pool| - 1].Some? then 0 else 1), maxConnections);
      taken := pool[|pool| - 1];
      pool := pool[..|pool| - 1];
      if taken.Some? {
        out := out + {taken.value};
      } else {
        making := making + 1;
      }
    }

    method MakeConnection() returns (connection: Connection)
      requires Valid() && making > 0
      modifies this
      ensures Valid() && Next(old(Snapshot()), Op.Make(connection), Snapshot()) && connection !in old(out)
    {
      connection := |connections|;
      StepAllocates(Snapshot(), Op.Make(connection),
        State(pool, connections + [connection], out + {connection}, making - 1), maxConnections);
      connections := connections + [connection];
      out, making := out + {connection}, making - 1;
    }

    /** The queue is never full, so nothing that is released gets lost. */
    method Release(connection: Connection)
      requires Valid() && connection in out
      modifies this
      ensures Valid() && Next(old(Snapshot()), Op.Release(connection), Snapshot())
    {
      RoomForAll(Snapshot(), maxConnections);
      StepAllocates(Snapshot(), Op.Release(connection),
        State(pool + [Some(connection)], connections, out - {connection}, making), maxConnections);
      assert |pool| < maxConnections;
      if |pool| < maxConnections {
        pool := pool + [Some(connection)];
      }
      out := out - {connection};
    }

    /** What is on top of the queue, or a new connection in place of a placeholder. */
    method TakeOrMake() returns (connection: Connection)
      requires Valid() && making == 0 && pool != []
      modifies this
      ensures Valid() && making == 0 && out == old(out) + {connection} && connection !in old(out)
      ensures if old(pool)[|old(pool)| - 1].Some? then
          connections == old(connections) && Some(connection) == old(pool)[|old(pool)| - 1]
        else connections == old(connections) + [connection] && forall c :: c in old(connections) ==> c in old(out)
    {
      hide Placeholders, Idle, Layered, Distinct, Allocator;
      var taken := Take();
      if taken.None? {
        connection := MakeConnection();
      } else {
        connection := taken.value;
      }
    }

    /** get_connection: a connection that cannot be made ready goes back where the next caller finds it. */
    method GetConnection(check: Check) returns (outcome: Outcome, connection: Connection)
      requires Valid() && making == 0
      modifies this
      ensures Valid() && making == 0
      ensures outcome == NoConnectionAvailable <==> old(pool) == []
      ensures outcome == NoConnectionAvailable ==> Snapshot() == old(Snapshot()) && |out| == maxConnections
      ensures outcome == Ready ==> check.Passes() && out == old(out) + {connection} && connection !in old(out)
      ensures outcome == NotConnected ==>
          !check.Passes() && out == old(out) && pool != [] && pool[|pool| - 1] == Some(connection)
      ensures outcome != NoConnectionAvailable ==>
        if old(pool)[|old(pool)| - 1].Some? then
          connections == old(connections) && Some(connection) == old(pool)[|old(pool)| - 1]
        else connections == old(connections) + [connection] && forall c :: c in old(connections) ==> c in old(out)
    {
      hide Placeholders, Idle, Layered, Distinct, Allocator;
      connection := 0;
      if pool == [] {
        RoomForAll(Snapshot(), maxConnections);
        return NoConnectionAvailable, connection;
      }
      connection := TakeOrMake();
      var ready := check.connects;
      if ready && check.hasData {
        ready := check.reconnects && !check.stillHasData;
      }
      if !ready {
        Release(connection);
        return NotConnected, connection;
      }
      return Ready, connection;
    }
  }
}
