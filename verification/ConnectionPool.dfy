/** The bounded MySQL connection pool (src/dbsource/mysql_source.cpp). Ping and connect results are inputs. */
module ConnectionPool {
  import opened Options

  type Conn = nat

  datatype Outcome = NoConnection | Connection(conn: Conn) | ReplaceFailed | CreateFailed | NoneAvailable

  /** Idle connections in queue order, the count the pool keeps, and who holds what. */
  datatype Pool = Pool(idle: seq<Conn>, size: int, max: nat, shutdown: bool, borrowed: set<Conn>)

  // The condition a waiting caller waits for.
  predicate Ready(p: Pool) {
    p.idle != [] || p.shutdown || p.size < p.max
  }

  // A connect either fails or yields a handle no live connection has; the one just found dead is closed by then.
  predicate Distinct(p: Pool, created: Option<Conn>) {
    created.Some? ==> created.value !in (if p.idle == [] then [] else p.idle[1..]) && created.value !in p.borrowed
  }

  function Get(p: Pool, alive: bool, created: Option<Conn>): (Pool, Outcome) {
    if p.shutdown then (p, NoConnection)
    else if p.idle != [] then
      var q := p.(idle := p.idle[1..]);
      if alive then (q.(borrowed := p.borrowed + {p.idle[0]}), Connection(p.idle[0]))
      else if created.None? then (q.(size := p.size - 1), ReplaceFailed)
      else (q.(borrowed := p.borrowed + {created.value}), Connection(created.value))
    else if p.size < p.max then
      if created.None? then (p, CreateFailed)
      else (p.(size := p.size + 1, borrowed := p.borrowed + {created.value}), Connection(created.value))
    else (p, NoneAvailable)
  }

  function Release(p: Pool, conn: Conn): Pool {
    if p.shutdown then p.(size := p.size - 1, borrowed := p.borrowed - {conn})
    else p.(idle := p.idle + [conn], borrowed := p.borrowed - {conn})
  }

  function Shutdown(p: Pool): Pool {
    p.(idle := [], shutdown := true)
  }

  class MySQLConnectionPool {
    var connections: seq<Conn>
    var poolSize: int
    const maxPoolSize: nat
    var isShutdown: bool
    ghost var borrowed: set<Conn>

    ghost function Value(): Pool
      reads this
    {
      Pool(connections, poolSize, maxPoolSize, isShutdown, borrowed)
    }

    // The initial connections, all of which the caller got to open; one that fails aborts the construction.
    constructor (initial: seq<Conn>, maxSize: nat)
      ensures Value() == Pool(initial, |initial|, maxSize, false, {})
    {
      maxPoolSize := maxSize;
      isShutdown := false;
      borrowed := {};
      var ready, count := [], 0;
      for i := 0 to |initial|
        invariant ready == initial[..i] && count == i
      {
        ready := ready + [initial[i]];
        count := count + 1;
      }
      assert ready == initial;
      connections, poolSize := ready, count;
    }

    method GetConnection(alive: bool, created: Option<Conn>) returns (outcome: Outcome)
      requires Ready(Value())
      modifies this
      ensures (Value(), outcome) == Get(old(Value()), alive, created)
    {
      if isShutdown {
        return NoConnection;
      }
      if connections != [] {
        var conn := connections[0];
        connections := connections[1..];
        if !alive {
          poolSize := poolSize - 1;
          if created.None? {
            return ReplaceFailed;
          }
          conn := created.value;
          poolSize := poolSize + 1;
        }
        borrowed := borrowed + {conn};
        return Connection(conn);
      }
      if poolSize < maxPoolSize {
        if created.None? {
          return CreateFailed;
        }
        poolSize := poolSize + 1;
        borrowed := borrowed + {created.value};
        return Connection(created.value);
      }
      return NoneAvailable;
    }

    method ReleaseConnection(conn: Option<Conn>)
      modifies this
      ensures Value() == if conn.None? then old(Value()) else Release(old(Value()), conn.value)
      ensures conn.Some? ==> borrowed == old(borrowed) - {conn.value}
      ensures connections == if conn.Some? && !isShutdown then old(connections) + [conn.value] else old(connections)
      ensures poolSize == if conn.Some? && isShutdown then old(poolSize) - 1 else old(poolSize)
    {
      if conn.None? {
        return;
      }
      borrowed := borrowed - {conn.value};
      if isShutdown {
        poolSize := poolSize - 1;
        return;
      }
      connections := connections + [conn.value];
    }

    method ShutdownPool()
      modifies this
      ensures Value() == Shutdown(old(Value()))
      ensures connections == [] && isShutdown && poolSize == old(poolSize) && borrowed == old(borrowed)
    {
      isShutdown := true;
      while connections != []
        invariant isShutdown && poolSize == old(poolSize) && borrowed == old(borrowed)
        decreases |connections|
      {
        connections := connections[1..];
      }
    }
  }

  // ----- every run

  datatype Step = DoGet(alive: bool, created: Option<Conn>) | DoRelease(conn: Conn) | DoShutdown

  /** Callers wait until the pool is ready, and give back only what they hold. */
  predicate Enabled(p: Pool, step: Step) {
    match step
    case DoGet(_, created) => Ready(p) && Distinct(p, created)
    case DoRelease(conn) => conn in p.borrowed
    case DoShutdown => true
  }

  function Do(p: Pool, step: Step): Pool {
    match step
    case DoGet(alive, created) => Get(p, alive, created).0
    case DoRelease(conn) => Release(p, conn)
    case DoShutdown => Shutdown(p)
  }

  predicate NoDuplicates(s: seq<Conn>) {
    forall i, j :: 0 <= i < j < |s| ==> s[i] != s[j]
  }

  predicate IsRun(states: seq<Pool>, steps: seq<Step>) {
    && |states| == |steps| + 1
    && NoDuplicates(states[0].idle) && states[0].size == |states[0].idle| && !states[0].shutdown &&
       states[0].borrowed == {}
    && forall k :: 0 <= k < |steps| ==> Enabled(states[k], steps[k]) && states[k + 1] == Do(states[k], steps[k])
  }

  /** No connection is idle twice, or idle and borrowed; the count covers both until shutdown. */
  predicate Sound(p: Pool, limit: nat) {
    && NoDuplicates(p.idle)
    && (forall c :: c in p.idle ==> c !in p.borrowed)
    && (!p.shutdown ==> p.size == |p.idle| + |p.borrowed| && p.size <= limit)
    && (p.shutdown ==> p.idle == [] && p.size >= |p.borrowed|)
    && p.max <= limit
  }

  lemma GetKeepsSound(p: Pool, alive: bool, created: Option<Conn>, limit: nat)
    requires Sound(p, limit) && Ready(p) && Distinct(p, created)
    ensures Sound(Get(p, alive, created).0, limit)
  {
    if p.idle != [] && !p.shutdown {
      var head, rest := p.idle[0], p.idle[1..];
      assert head in p.idle && forall c :: c in rest ==> c in p.idle;
      if alive {
        assert head !in rest;
        assert |p.borrowed + {head}| == |p.borrowed| + 1;
      } else if created.Some? {
        assert |p.borrowed + {created.value}| == |p.borrowed| + 1;
      }
    } else if created.Some? {
      assert |p.borrowed + {created.value}| == |p.borrowed| + 1;
    }
  }

  lemma ReleaseKeepsSound(p: Pool, conn: Conn, limit: nat)
    requires Sound(p, limit) && conn in p.borrowed
    ensures Sound(Release(p, conn), limit) && |Release(p, conn).borrowed| == |p.borrowed| - 1
  {
    assert |p.borrowed - {conn}| == |p.borrowed| - 1;
    assert conn !in p.idle;
  }

  lemma StepKeepsSound(p: Pool, step: Step, limit: nat)
    requires Sound(p, limit) && Enabled(p, step)
    ensures Sound(Do(p, step), limit)
    ensures p.shutdown ==> Do(p, step).shutdown && Do(p, step).size - |Do(p, step).borrowed| == p.size - |p.borrowed|
  {
    match step
    case DoGet(alive, created) => GetKeepsSound(p, alive, created, limit);
    case DoRelease(conn) => ReleaseKeepsSound(p, conn, limit);
    case DoShutdown =>
  }

  /** In every run the pool is sound, within its maximum (or its initial size, if that was larger). */
  lemma {:induction false} PoolSound(states: seq<Pool>, steps: seq<Step>, k: nat)
    requires IsRun(states, steps) && k < |states|
    ensures states[k].max == states[0].max
    ensures var first := states[0];
            Sound(states[k], if first.max < |first.idle| then |first.idle| else first.max)
  {
    if k > 0 {
      PoolSound(states, steps, k - 1);
      var first := states[0];
      StepKeepsSound(states[k - 1], steps[k - 1], if first.max < |first.idle| then |first.idle| else first.max);
    }
  }

  /** A caller whose wait is over gets a connection, a connect error, or the shutdown signal, never "none available". */
  lemma GetNeverFindsNone(p: Pool, alive: bool, created: Option<Conn>)
    requires Ready(p)
    ensures Get(p, alive, created).1 != NoneAvailable
    ensures Get(p, alive, created).1 == NoConnection <==> p.shutdown
  {}

  /** A handle given out was held by nobody and idle for nobody else: a live one is the front of the queue, any other
      was opened just now; from here on it is borrowed and not idle. */
  lemma HandedOut(p: Pool, alive: bool, created: Option<Conn>, limit: nat, c: Conn)
    requires Sound(p, limit) && Ready(p) && Distinct(p, created) && Get(p, alive, created).1 == Connection(c)
    ensures c !in p.borrowed && Get(p, alive, created).0.borrowed == p.borrowed + {c}
    ensures c !in Get(p, alive, created).0.idle
    ensures !p.shutdown && (if p.idle != [] && alive then c == p.idle[0] else created == Some(c))
    ensures Get(p, alive, created).0.idle == if p.idle == [] then [] else p.idle[1..]
  {
    if p.idle != [] {
      assert p.idle[0] in p.idle;
      assert forall x :: x in p.idle[1..] ==> x in p.idle && x != p.idle[0];
    }
  }

  /** And what a caller gets in every other case: the shutdown signal, or the failure of the connect it needed. */
  lemma NotHandedOut(p: Pool, alive: bool, created: Option<Conn>)
    requires Ready(p) && !Get(p, alive, created).1.Connection?
    ensures Get(p, alive, created).1 ==
            if p.shutdown then NoConnection else if p.idle != [] then ReplaceFailed else CreateFailed
    ensures !p.shutdown ==> created.None? && (p.idle != [] ==> !alive)
    ensures var q := Get(p, alive, created).0;
            q == if p.shutdown || p.idle == [] then p else p.(idle := p.idle[1..], size := p.size - 1)
  {}

  // The handle a step gives out, if any.
  predicate Gives(p: Pool, step: Step, c: Conn) {
    step.DoGet? && Get(p, step.alive, step.created).1 == Connection(c)
  }

  lemma StepOnBorrowed(p: Pool, step: Step, limit: nat, c: Conn)
    requires Sound(p, limit) && Enabled(p, step)
    ensures Gives(p, step, c) ==> c !in p.borrowed && c in Do(p, step).borrowed
    ensures c in p.borrowed && step != DoRelease(c) ==> c in Do(p, step).borrowed
  {
    if Gives(p, step, c) {
      HandedOut(p, step.alive, step.created, limit, c);
    }
  }

  lemma {:induction false} HeldUntilReleased(states: seq<Pool>, steps: seq<Step>, j: nat, k: nat, c: Conn)
    requires IsRun(states, steps) && j <= k < |states| && c in states[j].borrowed
    requires forall n :: j <= n < k ==> steps[n] != DoRelease(c)
    ensures c in states[k].borrowed
  {
    if j < k {
      HeldUntilReleased(states, steps, j, k - 1, c);
      PoolSound(states, steps, k - 1);
      var first := states[0];
      StepOnBorrowed(states[k - 1], steps[k - 1], if first.max < |first.idle| then |first.idle| else first.max, c);
    }
  }

  /** No handle is given out twice without being released in between. */
  lemma NeverHeldTwice(states: seq<Pool>, steps: seq<Step>, j: nat, k: nat, c: Conn)
    requires IsRun(states, steps) && j < k < |steps| && Gives(states[j], steps[j], c) && Gives(states[k], steps[k], c)
    ensures exists n :: j < n < k && steps[n] == DoRelease(c)
  {
    var limit := if states[0].max < |states[0].idle| then |states[0].idle| else states[0].max;
    PoolSound(states, steps, j);
    StepOnBorrowed(states[j], steps[j], limit, c);
    PoolSound(states, steps, k);
    StepOnBorrowed(states[k], steps[k], limit, c);
    if forall n :: j < n < k ==> steps[n] != DoRelease(c) {
      HeldUntilReleased(states, steps, j + 1, k, c);
    }
  }

  /** After shutdown the count and the number of connections out move together. */
  lemma {:induction false} ShutdownKeepsDifference(states: seq<Pool>, steps: seq<Step>, j: nat, k: nat)
    requires IsRun(states, steps) && j <= k < |states| && states[j].shutdown
    ensures states[k].shutdown && states[k].size - |states[k].borrowed| == states[j].size - |states[j].borrowed|
  {
    if j < k {
      ShutdownKeepsDifference(states, steps, j, k - 1);
      PoolSound(states, steps, k - 1);
      var first := states[0];
      StepKeepsSound(states[k - 1], steps[k - 1], if first.max < |first.idle| then |first.idle| else first.max);
    }
  }
}
