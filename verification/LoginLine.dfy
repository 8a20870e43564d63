/** The queue of qrunbbs.c as a value, and what may become of those who wait in it. */
module LoginLine {
  const MAXQ: nat := 1000

  /** The fields of `struct qtmp` the queue looks at.  `ready` says that the connection is between
      commands and has no input waiting. */
  datatype Conn = Conn(conn: bool, local: bool, client: bool, login: int, qlo: int, wasinq: bool, wouldbe: int,
                       ready: bool)

  /** Started whether or not there is room. */
  predicate Privileged(c: Conn) { c.login == -14 || c.local }

  /** The connection can be started. */
  predicate Could(c: Conn, room: bool) { c.ready && (Privileged(c) || room) }

  predicate Table(qt: seq<Conn>)
  {
    |qt| == MAXQ
  }

  function Inserted(q: seq<int>, i: int, s: int): seq<int>
    requires 0 <= i <= |q|
  {
    q[..i] + [s] + q[i..]
  }

  function Removed(q: seq<int>, k: int): seq<int>
    requires 0 <= k < |q|
  {
    q[..k] + q[k + 1..]
  }

  lemma RemovedMembers(q: seq<int>, k: nat)
    requires k < |q|
    ensures forall x :: x in Removed(q, k) ==> x in q
    ensures forall x :: x in q && x != q[k] ==> x in Removed(q, k)
  {
  }

  /** Who was started, and the queue, the connections and whether there was room at that moment. */
  datatype Start = Start(who: int, queue: seq<int>, conns: seq<Conn>, room: bool)

  /** It waited and could be started, and nobody before it could be. */
  ghost predicate Rightly(a: Start)
  {
    Table(a.conns) && exists k: nat :: FirstAt(a, k)
  }

  ghost predicate FirstAt(a: Start, k: nat)
    requires Table(a.conns)
  {
    && k < |a.queue| && a.queue[k] == a.who && 0 < a.who < MAXQ && Could(a.conns[a.who], a.room)
    && forall i :: 0 <= i < k ==> 0 < a.queue[i] < MAXQ && !Could(a.conns[a.queue[i]], a.room)
  }

  /** g is q without some of its entries, the others in their order. */
  ghost predicate Subsequence(g: seq<int>, q: seq<int>)
  {
    g == [] || (q != [] && ((g[0] == q[0] && Subsequence(g[1..], q[1..])) || Subsequence(g, q[1..])))
  }

  lemma {:induction false} Itself(q: seq<int>)
    ensures Subsequence(q, q)
  {
    if q != [] {
      Itself(q[1..]);
    }
  }

  lemma {:induction false} WithoutOne(q: seq<int>, k: nat)
    requires k < |q|
    ensures Subsequence(Removed(q, k), q)
  {
    if k == 0 {
      assert Removed(q, 0) == q[1..];
      Itself(q[1..]);
    } else {
      WithoutOne(q[1..], k - 1);
      assert Removed(q, k)[1..] == Removed(q[1..], k - 1);
    }
  }

  lemma {:induction false} SubsequenceOn(g: seq<int>, q: seq<int>, r: seq<int>)
    requires Subsequence(g, q) && Subsequence(q, r)
    ensures Subsequence(g, r)
    decreases |r|
  {
    if g != [] {
      if q[0] == r[0] && Subsequence(q[1..], r[1..]) {
        if g[0] == q[0] && Subsequence(g[1..], q[1..]) {
          SubsequenceOn(g[1..], q[1..], r[1..]);
        } else {
          SubsequenceOn(g, q[1..], r[1..]);
        }
      } else {
        SubsequenceOn(g, q, r[1..]);
      }
    }
  }

  lemma {:induction false} SubsequenceMembers(g: seq<int>, q: seq<int>)
    requires Subsequence(g, q)
    ensures forall x :: x in g ==> x in q
  {
    if g != [] {
      if g[0] == q[0] && Subsequence(g[1..], q[1..]) {
        SubsequenceMembers(g[1..], q[1..]);
        assert forall x :: x in g ==> x == g[0] || x in g[1..];
      } else {
        SubsequenceMembers(g, q[1..]);
      }
    }
  }

  /** Who waits, the connections, who was started, and whom a message did not get through to. */
  datatype Line = Line(q: seq<int>, qt: seq<Conn>, started: seq<Start>, failed: seq<int>)

  ghost predicate StartedIn(a: Line, b: Line, x: int)
  {
    exists i :: |a.started| <= i < |b.started| && b.started[i].who == x
  }

  ghost predicate FailedIn(a: Line, b: Line, x: int)
  {
    exists i :: |a.failed| <= i < |b.failed| && b.failed[i] == x
  }

  /** Gone between a and b: started or out of reach, and dead either way. */
  ghost predicate GoneIn(a: Line, b: Line, x: int)
  {
    Table(b.qt) && 0 < x < MAXQ && !b.qt[x].conn && (StartedIn(a, b, x) || FailedIn(a, b, x))
  }

  ghost predicate StartsFrom(a: Line, b: Line, i: nat)
  {
    i < |b.started| && Subsequence(b.started[i].queue, a.q) && b.started[i].who in a.q && b.started[i].who !in b.q
  }

  /** What may happen to the queue: who waits keeps the order, who does not is gone, and who was started
      comes from a queue in that order. */
  ghost predicate Flows(a: Line, b: Line)
  {
    && Table(a.qt) && Table(b.qt) && Subsequence(b.q, a.q) && a.started <= b.started && a.failed <= b.failed
    && (forall x :: x in a.q && x !in b.q ==> GoneIn(a, b, x))
    && (forall i :: |a.started| <= i < |b.started| ==> StartsFrom(a, b, i))
    && (forall x :: 0 <= x < MAXQ && !a.qt[x].conn ==> !b.qt[x].conn)
  }

  /** Nothing of it has changed. */
  predicate SameLine(a: Line, b: Line)
  {
    && Table(a.qt) && Table(b.qt) && b.q == a.q && b.started == a.started && b.failed == a.failed
    && forall x :: 0 <= x < MAXQ ==> b.qt[x].conn == a.qt[x].conn
  }

  lemma SameConns(a: Line, b: Line, s: int)
    requires Table(a.qt) && Table(b.qt) && 0 <= s < MAXQ && b.qt == a.qt[s := b.qt[s]] && b.qt[s].conn == a.qt[s].conn
    requires b.q == a.q && b.started == a.started && b.failed == a.failed
    ensures SameLine(a, b)
  {
  }

  lemma FlowsSame(a: Line, b: Line)
    requires SameLine(a, b)
    ensures Flows(a, b)
  {
    Itself(a.q);
  }

  lemma GoneOn(a: Line, b: Line, c: Line, x: int)
    requires Flows(a, b) && Flows(b, c) && x in a.q && x !in c.q
    ensures GoneIn(a, c, x)
  {
    hide Subsequence, StartsFrom;
    if x in b.q {
      assert GoneIn(b, c, x);
    } else {
      assert GoneIn(a, b, x);
      if StartedIn(a, b, x) {
        var i :| |a.started| <= i < |b.started| && b.started[i].who == x;
        assert c.started[i] == b.started[i];
      } else {
        var i :| |a.failed| <= i < |b.failed| && b.failed[i] == x;
        assert c.failed[i] == b.failed[i];
      }
    }
  }

  lemma StartsOn(a: Line, b: Line, c: Line, i: nat)
    requires Flows(a, b) && Flows(b, c) && |a.started| <= i < |c.started|
    ensures StartsFrom(a, c, i)
  {
    hide Subsequence, GoneIn;
    SubsequenceMembers(b.q, a.q);
    SubsequenceMembers(c.q, b.q);
    if i < |b.started| {
      assert StartsFrom(a, b, i) && c.started[i] == b.started[i];
    } else {
      assert StartsFrom(b, c, i);
      SubsequenceOn(c.started[i].queue, b.q, a.q);
    }
  }

  lemma FlowsOn(a: Line, b: Line, c: Line)
    requires Flows(a, b) && Flows(b, c)
    ensures Flows(a, c)
  {
    hide Subsequence, GoneIn, StartsFrom;
    SubsequenceOn(c.q, b.q, a.q);
    forall x | x in a.q && x !in c.q ensures GoneIn(a, c, x) {
      GoneOn(a, b, c, x);
    }
    forall i | |a.started| <= i < |c.started| ensures StartsFrom(a, c, i) {
      StartsOn(a, b, c, i);
    }
  }

  /** Somebody cannot be reached. */
  lemma FlowsFailed(a: Line, b: Line, k: nat, x: int)
    requires Table(a.qt) && Table(b.qt) && k <= |a.q| && 0 < x < MAXQ && !b.qt[x].conn
    requires if k < |a.q| then a.q[k] == x && b.q == Removed(a.q, k) else b.q == a.q
    requires b.started == a.started && b.failed == a.failed + [x]
    requires forall y :: 0 <= y < MAXQ && y != x ==> b.qt[y].conn == a.qt[y].conn
    ensures Flows(a, b)
  {
    hide Subsequence, Removed;
    if k < |a.q| {
      WithoutOne(a.q, k);
      RemovedMembers(a.q, k);
      assert b.failed[|a.failed|] == x;
      assert FailedIn(a, b, x);
    } else {
      Itself(a.q);
    }
  }

  /** Somebody is started. */
  lemma FlowsStarted(a: Line, b: Line, k: nat, st: Start)
    requires Table(a.qt) && Table(b.qt) && k < |a.q| && st.who == a.q[k] && st.queue == a.q
    requires 0 < st.who < MAXQ && !b.qt[st.who].conn && st.who !in b.q
    requires b.q == Removed(a.q, k) && b.failed == a.failed && b.started == a.started + [st]
    requires forall y :: 0 <= y < MAXQ && y != st.who ==> b.qt[y].conn == a.qt[y].conn
    ensures Flows(a, b)
  {
    hide Subsequence, Removed;
    WithoutOne(a.q, k);
    RemovedMembers(a.q, k);
    Itself(a.q);
    assert b.started[|a.started|] == st;
    assert StartedIn(a, b, st.who);
  }
}
