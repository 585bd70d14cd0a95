/**
 * The database connection pool: a FIFO queue of open connections, filled once by the
 * constructor, drained by `get_connection` and refilled by `return_connection`, and
 * the scoped lease (`DatabaseConnection`) that pairs one acquire with one return.
 */
module Pool {

  /** A connection, identified by the construction attempt (0, 1, ...) that opened it. */
  type Conn = nat

  /**
   * The connections the constructor keeps, given whether each of its attempts opened:
   * the numbers of the successful attempts, in attempt order.
   */
  function Opened(opens: seq<bool>): (cs: seq<Conn>)
    ensures |cs| <= |opens|
    ensures forall k :: 0 <= k < |cs| ==> cs[k] < |opens| && opens[cs[k]]
  {
    if |opens| == 0 then []
    else
      var last := |opens| - 1;
      Opened(opens[..last]) + (if opens[last] then [last] else [])
  }

  ghost predicate StrictlyIncreasing(cs: seq<Conn>) {
    forall p, q :: 0 <= p < q < |cs| ==> cs[p] < cs[q]
  }

  /** Attempt order is kept, so no connection is queued twice. */
  lemma {:induction false} OpenedInAttemptOrder(opens: seq<bool>)
    ensures StrictlyIncreasing(Opened(opens))
    decreases |opens|
  {
    if |opens| > 0 {
      var last := |opens| - 1;
      var front := Opened(opens[..last]);
      OpenedInAttemptOrder(opens[..last]);
      var cs := front + (if opens[last] then [last] else []);
      assert Opened(opens) == cs;
      forall p, q | 0 <= p < q < |cs| ensures cs[p] < cs[q] {
        if q >= |front| {
          assert cs[q] == last && cs[p] == front[p];
        }
      }
    }
  }

  /** Every attempt that opened is kept. */
  lemma {:induction false} OpenedKeepsEverySuccess(opens: seq<bool>, i: nat)
    requires i < |opens| && opens[i]
    ensures i in Opened(opens)
    decreases |opens|
  {
    var last := |opens| - 1;
    if i != last {
      assert opens[..last][i] == opens[i];
      OpenedKeepsEverySuccess(opens[..last], i);
    }
  }

  /** The number kept is the number of attempts that opened. */
  lemma {:induction false} OpenedCount(opens: seq<bool>)
    ensures |Opened(opens)| == |set i | 0 <= i < |opens| && opens[i]|
    decreases |opens|
  {
    if |opens| > 0 {
      var last := |opens| - 1;
      OpenedCount(opens[..last]);
      var before := set i | 0 <= i < last && opens[..last][i];
      var all := set i | 0 <= i < |opens| && opens[i];
      assert before == set i | 0 <= i < last && opens[i];
      if opens[last] {
        assert all == before + {last};
      } else {
        assert all == before;
      }
    }
  }

  function Members(cs: seq<Conn>): set<Conn> {
    set c | c in cs
  }

  lemma MembersAppend(front: seq<Conn>, x: Conn)
    ensures Members(front + [x]) == Members(front) + {x}
  {
  }

  lemma {:induction false} DistinctCard(cs: seq<Conn>)
    requires StrictlyIncreasing(cs)
    ensures |Members(cs)| == |cs|
    decreases |cs|
  {
    if |cs| > 0 {
      var n := |cs| - 1;
      var front, last := cs[..n], cs[n];
      assert StrictlyIncreasing(front) by {
        forall p, q | 0 <= p < q < |front| ensures front[p] < front[q] {
          assert front[p] == cs[p] && front[q] == cs[q];
        }
      }
      DistinctCard(front);
      assert last !in front by {
        forall k | 0 <= k < |front| ensures front[k] != last {
          assert front[k] == cs[k];
        }
      }
      assert cs == front + [last];
      MembersAppend(front, last);
    }
  }

  class ConnectionPool {
    /** The queue of idle connections; the front is index 0. */
    var connections: seq<Conn>
    const poolSize: nat
    /** Every connection the constructor kept. */
    ghost var kept: set<Conn>
    /** The connections currently out on a lease. */
    ghost var leased: set<Conn>

    /**
     * Every kept connection is either queued once or out on a lease, never both:
     * queued plus leased is the number kept, which is at most `pool_size`.
     */
    ghost predicate Valid()
      reads this
    {
      && (forall p, q :: 0 <= p < q < |connections| ==> connections[p] != connections[q])
      && (forall c :: c in connections ==> c in kept && c !in leased)
      && leased <= kept
      && (forall c :: c in kept ==> c in connections || c in leased)
      && |connections| + |leased| == |kept|
      && |kept| <= poolSize
    }

    /**
     * `opens[i]` says whether the i-th of the `pool_size` attempts produced an open
     * connection; a failed attempt is skipped and construction goes on.
     */
    constructor (opens: seq<bool>)
      ensures Valid()
      ensures poolSize == |opens| && connections == Opened(opens)
      ensures kept == Members(Opened(opens)) && leased == {}
    {
      poolSize := |opens|;
      connections := [];
      kept, leased := {}, {};
      new;
      for i := 0 to |opens|
        invariant connections == Opened(opens[..i])
        invariant kept == {} && leased == {}
      {
        assert opens[..i + 1][..i] == opens[..i];
        if opens[i] {
          connections := connections + [i];
        }
      }
      assert opens[..|opens|] == opens;
      OpenedInAttemptOrder(opens);
      DistinctCard(connections);
      kept := Members(connections);
    }

    /** Takes the connection at the front; the caller has waited until the queue is not empty. */
    method GetConnection() returns (c: Conn)
      requires Valid() && |connections| > 0
      modifies this
      ensures Valid()
      ensures c == old(connections[0]) && connections == old(connections[1..])
      ensures c !in old(leased) && leased == old(leased) + {c} && kept == old(kept)
    {
      c := connections[0];
      connections := connections[1..];
      leased := leased + {c};
    }

    /** Puts a leased connection back at the end of the queue. */
    method ReturnConnection(c: Conn)
      requires Valid() && c in leased
      modifies this
      ensures Valid()
      ensures connections == old(connections) + [c]
      ensures leased == old(leased) - {c} && kept == old(kept)
    {
      connections := connections + [c];
      leased := leased - {c};
    }
  }

  /** `DatabaseConnection`: takes a connection when made, gives the same one back when destroyed. */
  class Lease {
    const pool: ConnectionPool
    const connection: Conn
    /** The destructor has not run yet. */
    ghost var live: bool

    constructor (pool: ConnectionPool)
      requires pool.Valid() && |pool.connections| > 0
      modifies pool
      ensures this.pool == pool && live && pool.Valid()
      ensures connection == old(pool.connections[0]) && pool.connections == old(pool.connections[1..])
      ensures connection !in old(pool.leased) && pool.leased == old(pool.leased) + {connection}
      ensures pool.kept == old(pool.kept)
    {
      var c := pool.GetConnection();
      this.pool := pool;
      connection := c;
      live := true;
    }

    /** The destructor. */
    method Release()
      requires live && pool.Valid() && connection in pool.leased
      modifies this, pool
      ensures !live && pool.Valid()
      ensures pool.connections == old(pool.connections) + [connection]
      ensures pool.leased == old(pool.leased) - {connection} && pool.kept == old(pool.kept)
    {
      pool.ReturnConnection(connection);
      live := false;
    }
  }

  /** One request's scope: the front connection is used and ends up at the back; nothing is lost. */
  method ServeOneRequest(pool: ConnectionPool) returns (used: Conn)
    requires pool.Valid() && |pool.connections| > 0
    modifies pool
    ensures pool.Valid()
    ensures used == old(pool.connections[0])
    ensures pool.connections == old(pool.connections[1..]) + [used]
    ensures multiset(pool.connections) == old(multiset(pool.connections))
    ensures pool.leased == old(pool.leased) && pool.kept == old(pool.kept)
  {
    var lease := new Lease(pool);
    used := lease.connection;
    lease.Release();
    assert old(pool.connections) == [used] + old(pool.connections[1..]);
  }

  /**
   * Two leases held at once get two different connections; the inner scope ends first,
   * so its connection is queued first.
   */
  method ServeNestedRequests(pool: ConnectionPool) returns (outer: Conn, inner: Conn)
    requires pool.Valid() && |pool.connections| >= 2
    modifies pool
    ensures pool.Valid()
    ensures outer != inner
    ensures outer == old(pool.connections[0]) && inner == old(pool.connections[1])
    ensures pool.connections == old(pool.connections[2..]) + [inner, outer]
    ensures pool.leased == old(pool.leased) && pool.kept == old(pool.kept)
  {
    var first := new Lease(pool);
    var second := new Lease(pool);
    outer, inner := first.connection, second.connection;
    second.Release();
    first.Release();
  }

  /** With two connections both leased, the queue is empty: a third acquirer would wait. */
  method ExhaustTwo(opens: seq<bool>) returns (pool: ConnectionPool)
    requires |opens| == 2 && opens[0] && opens[1]
    ensures pool.Valid() && pool.connections == [] && pool.leased == {0, 1}
  {
    pool := new ConnectionPool(opens);
    assert opens[..1] == [true];
    assert pool.connections == [0, 1];
    var a := pool.GetConnection();
    var b := pool.GetConnection();
  }
}
