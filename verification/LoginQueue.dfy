/** The login queue of qrunbbs.c and qmisc.c: who waits for a session, in which order, and who may start. */
module LoginQueue {
  import opened LoginLine
  import opened Sequences

  const MAXACTIVITY: int := 60

  /** A sysop who has logged in while queued and been moved to the front. */
  predicate Promoted(c: Conn) { c.login <= -13 }

  predicate Ordinary(c: Conn) { !c.local && !Promoted(c) }

  predicate Plain(c: Conn) { Ordinary(c) && !c.client }

  // ---------------------------------------------------------------- what a queue is

  /** No connection twice, and none that is dead. */
  ghost predicate Alive(q: seq<int>, qt: seq<Conn>)
    requires Table(qt)
  {
    Distinct(q) && forall i :: 0 <= i < |q| ==> 0 < q[i] < MAXQ && qt[q[i]].conn
  }

  /** x may stand before y: clients come before plain users, and plain users in the order they came. */
  ghost predicate MayPrecede(qt: seq<Conn>, arrival: map<int, nat>, x: int, y: int)
    requires Table(qt)
  {
    && 0 <= x < MAXQ && 0 <= y < MAXQ && x in arrival && y in arrival
    && (Ordinary(qt[x]) && Ordinary(qt[y]) && qt[y].client ==> qt[x].client)
    && (Plain(qt[x]) && Plain(qt[y]) ==> arrival[x] < arrival[y])
  }

  ghost predicate Ranked(q: seq<int>, qt: seq<Conn>, arrival: map<int, nat>)
    requires Table(qt)
  {
    && (forall i :: 0 <= i < |q| ==> q[i] in arrival)
    && (forall i, j :: 0 <= i < j < |q| ==> MayPrecede(qt, arrival, q[i], q[j]))
  }

  ghost predicate Came(q: seq<int>, arrival: map<int, nat>, now: nat)
  {
    forall x :: x in q ==> x in arrival && arrival[x] < now
  }

  /** How many of the first entries are on this machine, or clients. */
  function Leading(q: seq<int>, qt: seq<Conn>, locals: bool): (n: nat)
    requires Table(qt) && forall i :: 0 <= i < |q| ==> 0 < q[i] < MAXQ
    ensures n <= |q|
    ensures forall i :: 0 <= i < n ==> if locals then qt[q[i]].local else qt[q[i]].client
    ensures n < |q| ==> !if locals then qt[q[n]].local else qt[q[n]].client
  {
    if q == [] || !(if locals then qt[q[0]].local else qt[q[0]].client) then 0
    else
      var n := Leading(q[1..], qt, locals);
      assert forall i :: 1 <= i < n + 1 ==> q[i] == q[1..][i - 1];
      1 + n
  }

  /** Where runbbs() puts a new connection. */
  function Place(q: seq<int>, qt: seq<Conn>, s: int): (i: nat)
    requires Table(qt) && 0 < s < MAXQ && forall i :: 0 <= i < |q| ==> 0 < q[i] < MAXQ
    ensures i <= |q|
  {
    if qt[s].local then Leading(q, qt, true) else if qt[s].client then Leading(q, qt, false) else |q|
  }

  lemma {:induction false} LeadingSame(q: seq<int>, g: seq<int>, qt: seq<Conn>, ut: seq<Conn>, locals: bool)
    requires Table(qt) && Table(ut) && (forall i :: 0 <= i < |g| ==> 0 < g[i] < MAXQ) && q <= g
    requires forall i :: 0 <= i < |q| ==> ut[q[i]].local == qt[q[i]].local && ut[q[i]].client == qt[q[i]].client
    requires |q| < |g| ==> !if locals then ut[g[|q|]].local else ut[g[|q|]].client
    ensures Leading(q, qt, locals) == Leading(g, ut, locals)
  {
    if q != [] {
      LeadingSame(q[1..], g[1..], qt, ut, locals);
    }
  }

  /** A plain user behind a queue would be, with the client, behind the clients that lead it. */
  lemma WouldBe(q: seq<int>, qt: seq<Conn>, ut: seq<Conn>, s: int)
    requires Table(qt) && Table(ut) && 0 < s < MAXQ && (forall i :: 0 <= i < |q| ==> 0 < q[i] < MAXQ) && s !in q
    requires !qt[s].local && !qt[s].client && !ut[s].client
    requires forall x :: 0 <= x < MAXQ && x != s ==> ut[x] == qt[x]
    ensures forall i :: 0 <= i < |Inserted(q, Place(q, qt, s), s)| ==> 0 < Inserted(q, Place(q, qt, s), s)[i] < MAXQ
    ensures Leading(Inserted(q, Place(q, qt, s), s), ut, false) == Place(q, qt[s := qt[s].(client := true)], s)
  {
    var g, vt := Inserted(q, Place(q, qt, s), s), qt[s := qt[s].(client := true)];
    assert g == q + [s];
    LeadingSame(q, g, vt, ut, false);
  }

  /** A queue of living connections has room for one more. */
  lemma HasRoom(q: seq<int>, qt: seq<Conn>, s: int)
    requires Table(qt) && Alive(q, qt) && 0 < s < MAXQ && s !in q
    ensures |q| < MAXQ
  {
    FewerThan(q, MAXQ, s);
  }

  lemma EntersAlive(q: seq<int>, qt: seq<Conn>, s: int, i: nat)
    requires Table(qt) && Alive(q, qt) && 0 < s < MAXQ && qt[s].conn && s !in q && i <= |q|
    ensures Alive(Inserted(q, i, s), qt)
  {
  }

  lemma InsertedMembers(q: seq<int>, i: nat, s: int)
    requires i <= |q|
    ensures |Inserted(q, i, s)| == |q| + 1 && forall x :: x in Inserted(q, i, s) ==> x in q || x == s
  {
  }

  lemma InsertedRanked(q: seq<int>, qt: seq<Conn>, arrival: map<int, nat>, s: int, i: nat)
    requires Table(qt) && Ranked(q, qt, arrival) && i <= |q| && s in arrival
    requires forall k :: 0 <= k < i ==> MayPrecede(qt, arrival, q[k], s)
    requires forall k :: i <= k < |q| ==> MayPrecede(qt, arrival, s, q[k])
    ensures Ranked(Inserted(q, i, s), qt, arrival)
  {
    hide MayPrecede;
    var g := Inserted(q, i, s);
    assert forall k :: 0 <= k < |g| ==> g[k] == if k < i then q[k] else if k == i then s else q[k - 1];
    hide Inserted;
  }

  lemma EntersRanked(q: seq<int>, qt: seq<Conn>, arrival: map<int, nat>, s: int, now: nat)
    requires Table(qt) && Alive(q, qt) && Ranked(q, qt, arrival) && 0 < s < MAXQ && qt[s].conn && s !in q
    requires forall k :: 0 <= k < |q| ==> arrival[q[k]] < now
    ensures Alive(Inserted(q, Place(q, qt, s), s), qt)
    ensures Ranked(Inserted(q, Place(q, qt, s), s), qt, arrival[s := now])
  {
    var i := Place(q, qt, s);
    var later := arrival[s := now];
    EntersAlive(q, qt, s, i);
    forall k, l | 0 <= k < l < |q| ensures MayPrecede(qt, later, q[k], q[l]) {
      assert MayPrecede(qt, arrival, q[k], q[l]);
    }
    forall k | 0 <= k < i ensures MayPrecede(qt, later, q[k], s) {
    }
    forall k | i <= k < |q| ensures MayPrecede(qt, later, s, q[k]) {
    }
    InsertedRanked(q, qt, later, s, i);
  }

  lemma JoinsRanked(q: seq<int>, qt: seq<Conn>, arrival: map<int, nat>, s: int, now: nat)
    requires Table(qt) && Alive(q, qt) && Ranked(q, qt, arrival) && Came(q, arrival, now)
    requires 0 < s < MAXQ && qt[s].conn && s !in q
    ensures |q| < MAXQ && forall k :: 0 <= k < |q| ==> 0 < q[k] < MAXQ
    ensures var g, later := Inserted(q, Place(q, qt, s), s), arrival[s := now];
      Alive(g, qt) && Ranked(g, qt, later) && Came(g, later, now + 1)
  {
    HasRoom(q, qt, s);
    assert forall k :: 0 <= k < |q| ==> q[k] in q;
    EntersRanked(q, qt, arrival, s, now);
    InsertedMembers(q, Place(q, qt, s), s);
    hide Alive, Ranked, Place, Inserted;
  }

  lemma LeavesRanked(q: seq<int>, qt: seq<Conn>, arrival: map<int, nat>, k: nat)
    requires Table(qt) && Alive(q, qt) && Ranked(q, qt, arrival) && k < |q|
    ensures Alive(Removed(q, k), qt) && Ranked(Removed(q, k), qt, arrival) && q[k] !in Removed(q, k)
  {
    hide MayPrecede;
    var g := Removed(q, k);
    assert forall i :: 0 <= i < |g| ==> g[i] == if i < k then q[i] else q[i + 1];
    hide Removed;
  }

  /** Only what sets a connection's rank matters to the order. */
  predicate SameKind(c: Conn, d: Conn)
  {
    c.conn == d.conn && c.local == d.local && c.client == d.client && Promoted(c) == Promoted(d)
  }

  lemma KindKeeps(q: seq<int>, qt: seq<Conn>, ut: seq<Conn>, arrival: map<int, nat>)
    requires Table(qt) && Table(ut) && Alive(q, qt) && Ranked(q, qt, arrival)
    requires forall x :: x in q && 0 <= x < MAXQ ==> SameKind(qt[x], ut[x])
    ensures Alive(q, ut) && Ranked(q, ut, arrival)
  {
  }

  // ---------------------------------------------------------------- a sysop moves up

  /** How many of the first entries have been promoted to this level already. */
  function Above(q: seq<int>, qt: seq<Conn>, level: int): (n: nat)
    requires Table(qt) && forall i :: 0 <= i < |q| ==> 0 < q[i] < MAXQ
    ensures n <= |q| && (forall i :: 0 <= i < n ==> qt[q[i]].login <= level) && (n < |q| ==> qt[q[n]].login > level)
  {
    if q == [] || qt[q[0]].login > level then 0
    else
      var n := Above(q[1..], qt, level);
      assert forall i :: 1 <= i < n + 1 ==> q[i] == q[1..][i - 1];
      1 + n
  }

  lemma {:induction false} AboveIs(q: seq<int>, qt: seq<Conn>, level: int, i: nat)
    requires Table(qt) && (forall j :: 0 <= j < |q| ==> 0 < q[j] < MAXQ) && i < |q|
    requires (forall j :: 0 <= j < i ==> qt[q[j]].login <= level) && qt[q[i]].login > level
    ensures Above(q, qt, level) == i
  {
    if i > 0 {
      AboveIs(q[1..], qt, level, i - 1);
    }
  }

  /** The entry at place k goes to place i before it; the others keep their order. */
  lemma MovedUp(q: seq<int>, qt: seq<Conn>, arrival: map<int, nat>, i: nat, k: nat, login: int)
    requires Table(qt) && Alive(q, qt) && Ranked(q, qt, arrival) && i <= k < |q| && login <= -13
    ensures i < |q| && var ut := qt[q[k] := qt[q[k]].(login := login)];
      var g := Inserted(Removed(q, k), i, q[k]);
      Alive(g, ut) && Ranked(g, ut, arrival)
  {
    var s := q[k];
    var r, ut := Removed(q, k), qt[s := qt[s].(login := login)];
    LeavesRanked(q, qt, arrival, k);
    KindKeeps(r, qt, ut, arrival);
    EntersAlive(r, ut, s, i);
    PromotedRanked(r, ut, arrival, s, i);
  }

  /** s, at place k of q, has moved up behind those promoted to its level before; the others keep their
      order. */
  ghost predicate Risen(q: seq<int>, qt: seq<Conn>, s: int, k: int, g: seq<int>)
  {
    && Table(qt) && (forall i :: 0 <= i < |q| ==> 0 < q[i] < MAXQ) && 0 <= k < |q| && q[k] == s
    && var i := Above(q, qt, qt[s].login - 10);
      i <= k && g == Inserted(Removed(q, k), i, s)
  }

  lemma RisenRanked(q: seq<int>, qt: seq<Conn>, arrival: map<int, nat>, s: int, k: nat, g: seq<int>)
    requires Table(qt) && Alive(q, qt) && Ranked(q, qt, arrival) && Risen(q, qt, s, k, g) && qt[s].login <= -3
    ensures 0 < s < MAXQ && |g| == |q|
    ensures var ut := qt[s := qt[s].(login := qt[s].login - 10)];
      Alive(g, ut) && Ranked(g, ut, arrival)
  {
    var i := Above(q, qt, qt[s].login - 10);
    MovedUp(q, qt, arrival, i, k, qt[s].login - 10);
    hide Alive, Ranked, Above;
  }

  lemma RisenMembers(q: seq<int>, qt: seq<Conn>, s: int, k: int, g: seq<int>)
    requires Risen(q, qt, s, k, g)
    ensures |g| == |q| && forall x :: x in g ==> x in q
  {
    MovedMembers(q, Above(q, qt, qt[s].login - 10), k);
  }

  lemma RisenCame(q: seq<int>, qt: seq<Conn>, s: int, k: int, g: seq<int>, arrival: map<int, nat>, now: nat)
    requires Came(q, arrival, now) && Risen(q, qt, s, k, g)
    ensures Came(g, arrival, now)
  {
    hide Risen;
    RisenMembers(q, qt, s, k, g);
  }

  lemma PromotedRanked(q: seq<int>, qt: seq<Conn>, arrival: map<int, nat>, s: int, i: nat)
    requires Table(qt) && Alive(q, qt) && Ranked(q, qt, arrival) && 0 < s < MAXQ && s in arrival && i <= |q|
    requires Promoted(qt[s])
    ensures Ranked(Inserted(q, i, s), qt, arrival)
  {
  }

  /** The queue runbbs(s) works on: with s at the place of its class, or -s moved up, or as it was. */
  ghost predicate Arranged(q: seq<int>, qt: seq<Conn>, s: int, g: seq<int>)
    requires Table(qt) && s < MAXQ && s + MAXQ > 0 && forall i :: 0 <= i < |q| ==> 0 < q[i] < MAXQ
  {
    if s > 0 then g == if qt[s].conn then Inserted(q, Place(q, qt, s), s) else q
    else if s < 0 && (qt[-s].login == -4 || qt[-s].login == -3) then Promoting(q, qt, -s, g)
    else g == q
  }

  /** s has moved up from where it was. */
  ghost predicate Promoting(q: seq<int>, qt: seq<Conn>, s: int, g: seq<int>)
  {
    exists k :: Risen(q, qt, s, k, g)
  }

  // ---------------------------------------------------------------- the queue

  /** The places shown to a connection have never gone up, and `qlo` bounds the next one. */
  ghost predicate Honest(qt: seq<Conn>, shown: map<int, seq<int>>)
    requires Table(qt)
  {
    forall x :: x in shown && 0 <= x < MAXQ ==> HonestOne(qt[x].qlo, shown[x])
  }

  lemma HonestStays(qt: seq<Conn>, ut: seq<Conn>, shown: map<int, seq<int>>)
    requires Table(qt) && Table(ut) && Honest(qt, shown)
    requires forall x :: x in shown && 0 <= x < MAXQ ==> ut[x].qlo == qt[x].qlo
    ensures Honest(ut, shown)
  {
    hide HonestOne;
    forall x | x in shown && 0 <= x < MAXQ ensures HonestOne(ut[x].qlo, shown[x]) {
      assert HonestOne(qt[x].qlo, shown[x]);
    }
  }

  /** A newcomer has been shown no place yet. */
  lemma HonestEnters(qt: seq<Conn>, ut: seq<Conn>, shown: map<int, seq<int>>, s: int)
    requires Table(qt) && Honest(qt, shown) && 0 <= s < MAXQ && Table(ut) && ut == qt[s := ut[s]] && ut[s].qlo >= 0
    ensures Honest(ut, shown[s := []])
  {
  }

  ghost predicate HonestOne(qlo: int, places: seq<int>)
  {
    && qlo >= 0
    && (forall i, j :: 0 <= i < j < |places| ==> places[j] <= places[i])
    && (places != [] ==> qlo <= places[|places| - 1])
  }

  class Queue {
    const qindex: array<int>
    var qp: nat
    const qt: array<Conn>
    var limit: int
    var startable: int
    var forks: int
    var reaps: int
    var qflag: nat

    /** When each connection came; the places each has been shown; how many without privilege were started
        since do_ring() was last called; who was started; and whom a message did not get through to, or who
        was dropped for being idle. */
    ghost var arrival: map<int, nat>
    ghost var now: nat
    ghost var shown: map<int, seq<int>>
    ghost var ordinary: nat
    ghost var started: seq<Start>
    ghost var failed: seq<int>

    ghost function Waiting(): seq<int>
      requires qp <= qindex.Length
      reads this, qindex
    {
      qindex[..qp]
    }

    ghost function Standing(): Line
      requires qp <= qindex.Length
      reads this, qindex, qt
    {
      Line(Waiting(), qt[..], started, failed)
    }

    ghost predicate Shaped()
      reads this
    {
      qindex.Length == MAXQ && qt.Length == MAXQ && qp <= MAXQ && qindex as object != qt as object
    }

    ghost predicate Valid()
      reads this, qindex, qt
    {
      && Shaped() && Alive(Waiting(), qt[..]) && Ranked(Waiting(), qt[..], arrival)
      && Came(Waiting(), arrival, now)
      && ordinary <= MAXACTIVITY && ordinary + startable <= MAXACTIVITY
    }

    constructor (users: int)
      ensures Valid() && Fair() && qp == 0 && limit == users && fresh(qindex) && fresh(qt)
    {
      qindex := new int[MAXQ](_ => 0);
      qt := new Conn[MAXQ](_ => Conn(false, false, false, 0, 0, false, 0, false));
      qp, limit, startable, forks, reaps, qflag := 0, users, 0, 0, 0, 0;
      arrival, now, shown, ordinary, started, failed := map[], 0, map[], 0, [], [];
    }

    /** The scan and the shift that open place i. */
    method OpenPlace(i: nat, s: int)
      requires Shaped() && i <= qp < MAXQ
      modifies this`qp, qindex
      ensures Shaped() && qp == old(qp) + 1 && Waiting() == Inserted(old(Waiting()), i, s)
    {
      ghost var q := Waiting();
      var j := qp;
      while j > i
        invariant i <= j <= qp == old(qp)
        invariant forall x :: 0 <= x < j ==> qindex[x] == q[x]
        invariant forall x :: j < x <= qp ==> qindex[x] == q[x - 1]
      {
        qindex[j] := qindex[j - 1];
        j := j - 1;
      }
      qindex[i] := s;
      qp := qp + 1;
      Opened(q, Waiting(), i, s);
    }

    method CountLeading(locals: bool) returns (i: nat)
      requires Shaped() && Alive(Waiting(), qt[..])
      ensures i == Leading(Waiting(), qt[..], locals)
    {
      i := 0;
      while i < qp && (if locals then qt[qindex[i]].local else qt[qindex[i]].client)
        invariant i <= qp && Leading(Waiting(), qt[..], locals) == i + Leading(Waiting()[i..], qt[..], locals)
      {
        assert Waiting()[i..][1..] == Waiting()[i + 1..];
        i := i + 1;
      }
    }

    method FindPlace(s: int) returns (i: nat)
      requires Shaped() && Alive(Waiting(), qt[..]) && 0 < s < MAXQ
      ensures i == Place(Waiting(), qt[..], s)
    {
      i := qp;
      if qt[s].local {
        i := CountLeading(true);
      } else if qt[s].client {
        i := CountLeading(false);
      }
    }

    /** A change to a connection that has nothing to do with its rank. */
    method Note(s: int, c: Conn)
      requires Valid() && 0 < s < MAXQ && SameKind(qt[s], c)
      modifies qt
      ensures Valid() && qt[..] == old(qt[..])[s := c]
    {
      ghost var ut := qt[..];
      hide Alive, Ranked;
      qt[s] := c;
      assert qt[..] == ut[s := c];
      KindKeeps(Waiting(), ut, qt[..], arrival);
    }

    /** The queue opens at the connection's place. */
    method Join(s: int)
      requires Valid() && 0 < s < MAXQ && qt[s].conn && s !in Waiting()
      modifies this`qp, this`arrival, this`now, qindex
      ensures Valid() && qp == old(qp) + 1
      ensures Waiting() == Inserted(old(Waiting()), Place(old(Waiting()), qt[..], s), s)
    {
      hide Alive, Ranked, Came, Place, Inserted;
      JoinsRanked(Waiting(), qt[..], arrival, s, now);
      var i := FindPlace(s);
      OpenPlace(i, s);
      arrival, now := arrival[s := now], now + 1;
    }

    /** A connection has finished negotiating and queues up. */
    method Enter(s: int)
      requires Valid() && 0 < s < MAXQ && qt[s].conn && s !in Waiting()
      modifies this`qp, this`arrival, this`now, this`shown, qindex, qt
      ensures Valid() && qp == old(qp) + 1 && qt[s].qlo == qp
      ensures Waiting() == Inserted(old(Waiting()), Place(old(Waiting()), old(qt[..]), s), s)
      ensures qt[..] == old(qt[..])[s := qt[s]] && SameKind(old(qt[s]), qt[s]) && shown == old(shown)[s := []]
      ensures !qt[s].local && !qt[s].client ==>
        qt[s].wouldbe == Place(old(Waiting()), old(qt[..])[s := old(qt[s]).(client := true)], s)
    {
      hide Alive, Ranked, Place, Inserted, Leading;
      ghost var q, ut := Waiting(), qt[..];
      AllNumbers();
      assert forall k :: 0 <= k < |q| ==> q[k] == qindex[k];
      Join(s);
      Note(s, qt[s].(qlo := qp));
      if !qt[s].local && !qt[s].client {
        var w := CountLeading(false);
        WouldBe(q, ut, qt[..], s);
        Note(s, qt[s].(wouldbe := w));
      }
      shown := shown[s := []];
    }

    /** The shift that closes the gap at place k. */
    method ClosePlace(k: nat)
      requires Shaped() && k < qp
      modifies this`qp, qindex
      ensures Shaped() && qp == old(qp) - 1 && Waiting() == Removed(old(Waiting()), k)
    {
      ghost var q := Waiting();
      qp := qp - 1;
      var j := k;
      while j < qp
        invariant k <= j <= qp == old(qp) - 1
        invariant forall x :: (0 <= x < k || j < x <= qp) ==> qindex[x] == q[x]
        invariant forall x :: k <= x < j ==> qindex[x] == q[x + 1]
      {
        qindex[j] := qindex[j + 1];
        j := j + 1;
      }
      Closed(q, Waiting(), k);
    }

    /** The search and the shift of drop(). */
    method Leave(s: int) returns (ghost k: nat)
      requires Valid()
      modifies this`qp, this`qflag, qindex
      ensures Valid() && k <= |old(Waiting())| && s !in Waiting()
      ensures k < |old(Waiting())| ==> old(Waiting())[k] == s && Waiting() == Removed(old(Waiting()), k)
      ensures k == |old(Waiting())| ==> Waiting() == old(Waiting())
      ensures qflag >= old(qflag)
    {
      ghost var q := Waiting();
      var i := 0;
      while i < qp && qindex[i] != s
        invariant i <= qp && s !in q[..i]
      {
        assert q[..i + 1] == q[..i] + [q[i]];
        i := i + 1;
      }
      k := i;
      if i < qp {
        hide Alive, Ranked, Removed;
        LeavesRanked(q, qt[..], arrival, i);
        RemovedMembers(q, i);
        qflag := qflag + 1;
        ClosePlace(i);
      } else {
        assert q[..i] == q;
      }
    }

    /** drop(), of a connection that is closed or, if `shutting`, only shut down. */
    method Drop(s: int, shutting: bool) returns (ghost k: nat)
      requires Valid() && 0 < s < MAXQ
      modifies this`qp, this`qflag, qindex, qt
      ensures Valid() && k <= |old(Waiting())| && s !in Waiting()
      ensures k < |old(Waiting())| ==> old(Waiting())[k] == s && Waiting() == Removed(old(Waiting()), k)
      ensures k == |old(Waiting())| ==> Waiting() == old(Waiting())
      ensures qt[..] == old(qt[..])[s := qt[s]] && qt[s] == old(qt[s]).(conn := false, ready := qt[s].ready)
      ensures qflag >= old(qflag)
    {
      hide Alive, Ranked, Removed;
      ghost var ut := qt[..];
      k := Leave(s);
      qt[s] := qt[s].(conn := false, ready := if shutting then false else qt[s].ready);
      assert qt[..] == ut[s := qt[s]];
      KindKeeps(Waiting(), ut, qt[..], arrival);
    }

    lemma InQueue(i: nat)
      requires Valid() && i < qp
      ensures 0 < qindex[i] < MAXQ && qindex[i] in Waiting() && qt[qindex[i]].conn && Waiting()[i] == qindex[i]
    {
    }

    /** A connection is dropped while the queue is worked on. */
    method Lose(s: int) returns (ghost k: nat)
      requires Valid() && Fair() && 0 < s < MAXQ
      modifies this`qp, this`qflag, qindex, qt
      ensures Valid() && Fair() && k <= |old(Waiting())| && s !in Waiting()
      ensures k < |old(Waiting())| ==> old(Waiting())[k] == s && Waiting() == Removed(old(Waiting()), k)
      ensures k == |old(Waiting())| ==> Waiting() == old(Waiting())
      ensures qt[..] == old(qt[..])[s := qt[s]] && qt[s] == old(qt[s]).(conn := false, ready := qt[s].ready)
      ensures qflag >= old(qflag)
    {
      ghost var q, ut := Waiting(), qt[..];
      k := Drop(s, false);
      hide Alive, Ranked, Honest;
      HonestStays(ut, qt[..], shown);
      assert forall x :: x in Waiting() ==> x in q;
    }

    /** The loop of runbbs() that shifts the entries between place i and the sysop's own down by one. */
    method MoveUp(i: nat, s: int, ghost k: nat)
      requires Shaped() && i <= k < qp && Waiting()[k] == s != 0 && s !in Waiting()[k + 1..]
      modifies qindex
      ensures Waiting() == Inserted(Removed(old(Waiting()), k), i, s)
    {
      ghost var q := Waiting();
      var pick, j := s, qp - 1;
      while j >= i
        invariant i - 1 <= j < qp && (pick == 0 <==> j < k) && (pick == 0 || pick == s)
        invariant forall x :: 0 <= x < qp && !(j + 1 < x <= k) ==> qindex[x] == q[x]
        invariant forall x :: j + 1 < x <= k ==> qindex[x] == q[x - 1]
      {
        assert j > k ==> q[k + 1..][j - k - 1] == q[j];
        assert j > k ==> q[j] != s;
        assert j >= k ==> qindex[j] == q[j];
        if pick == 0 {
          qindex[j + 1] := qindex[j];
        } else if qindex[j] == pick {
          pick := 0;
        }
        j := j - 1;
      }
      qindex[i] := s;
      ShiftedUp(q, Waiting(), i, k);
    }

    method CountAbove(s: int, ghost k: nat) returns (i: nat)
      requires Shaped() && Alive(Waiting(), qt[..]) && 0 < s < MAXQ && k < qp && Waiting()[k] == s
      ensures i <= k && i == Above(Waiting(), qt[..], qt[s].login - 10)
    {
      hide Above;
      i := 0;
      ghost var q, ut, level := Waiting(), qt[..], qt[s].login - 10;
      assert forall j :: 0 <= j < |q| ==> 0 < q[j] < MAXQ && q[j] == qindex[j];
      hide Alive;
      while qt[qindex[i]].login <= qt[s].login - 10
        invariant i <= k && forall j :: 0 <= j < i ==> ut[q[j]].login <= level
        decreases k - i
      {
        i := i + 1;
      }
      AboveIs(q, ut, level, i);
    }

    method Rise(s: int, ghost k: nat)
      requires Shaped() && Alive(Waiting(), qt[..]) && 0 < s < MAXQ && OnceAt(Waiting(), s, k)
      modifies qindex
      ensures Risen(old(Waiting()), qt[..], s, k, Waiting())
    {
      var i := CountAbove(s, k);
      hide Above, Alive, Inserted, Removed;
      MoveUp(i, s, k);
    }

    /** The queue is in order for the moment when the connection's login changes. */
    ghost predicate WouldFit(s: int, login: int)
      reads this, qindex, qt
    {
      && Shaped() && 0 < s < MAXQ && ordinary <= MAXACTIVITY && ordinary + startable <= MAXACTIVITY
      && var ut := qt[..][s := qt[s].(login := login)];
      Alive(Waiting(), ut) && Ranked(Waiting(), ut, arrival) && Came(Waiting(), arrival, now)
    }

    lemma WhereIs(s: int) returns (k: nat)
      requires Valid() && s in Waiting()
      ensures OnceAt(Waiting(), s, k)
    {
      k := FindOnce(Waiting(), qt[..], s);
    }

    /** The entry of a sysop who is about to be promoted moves up. */
    method Climb(s: int, ghost k: nat)
      requires Valid() && 0 < s < MAXQ && OnceAt(Waiting(), s, k) && (qt[s].login == -4 || qt[s].login == -3)
      modifies qindex
      ensures Risen(old(Waiting()), qt[..], s, k, Waiting()) && WouldFit(s, qt[s].login - 10)
    {
      ghost var q, ut := Waiting(), qt[..];
      hide Came, OnceAt, Above, Ranked, Risen, Alive, Promoted, Inserted, Removed, MayPrecede;
      assert Table(ut) && Alive(q, ut) && Ranked(q, ut, arrival) && ut[s].login <= -3;
      Rise(s, k);
      assert qt[..] == ut;
      RisenRanked(q, ut, arrival, s, k, Waiting());
      RisenCame(q, ut, s, k, Waiting(), arrival, now);
    }

    /** runbbs() of a sysop who has logged in: the entry moves up behind those promoted before. */
    method Promote(s: int) returns (ghost k: nat)
      requires Valid() && 0 < s < MAXQ && s in Waiting() && (qt[s].login == -4 || qt[s].login == -3)
      modifies qindex, qt
      ensures Valid() && qt[..] == old(qt[..])[s := old(qt[s]).(login := old(qt[s]).login - 10)]
      ensures Risen(old(Waiting()), old(qt[..]), s, k, Waiting())
    {
      hide Risen, Ranked, Alive, Came, OnceAt;
      k := WhereIs(s);
      Climb(s, k);
      SetLogin(s, qt[s].login - 10);
    }

    method SetLogin(s: int, login: int)
      requires WouldFit(s, login)
      modifies qt
      ensures Valid() && qt[..] == old(qt[..])[s := old(qt[s]).(login := login)] && Waiting() == old(Waiting())
    {
      hide Alive, Ranked;
      ghost var ut := qt[..];
      qt[s] := qt[s].(login := login);
      assert qt[..] == ut[s := qt[s]];
    }

    /** Whoever was started was the first who could be, and the places shown never went up. */
    ghost predicate Fair()
      reads this, qindex, qt
    {
      && Shaped() && Honest(qt[..], shown) && (forall x :: x in Waiting() ==> x in shown)
      && forall i :: 0 <= i < |started| ==> Rightly(started[i])
    }

    predicate Full()
      reads this
    {
      (limit >= 0 && limit <= forks - reaps) || startable <= 0
    }

    /** The connection at place i is told its place, and the lowest one is kept. */
    method Tell(i: nat, s: int)
      requires Valid() && Fair() && i < qp && 0 < qindex[i] < MAXQ && !Passed(qt[qindex[i]], qindex[i], i, s)
      modifies this`shown, qt
      ensures Valid() && Fair() && ToldOne(Waiting(), Waiting(), old(qt[..]), qt[..], old(shown), shown, i, s)
      ensures SameLine(old(Standing()), Standing())
    {
      hide Alive, Ranked, Honest, HonestOne, Removed, Rightly;
      var x := qindex[i];
      InQueue(i);
      var c := qt[x];
      ghost var ut, was := qt[..], shown;
      var place :=
        if i == 0 || c.qlo == 0 then 0 else if i == 1 || c.qlo == 1 then 1 else if i <= c.qlo then i else c.qlo;
      Shows(ut, was, x, i);
      if i < qt[x].qlo {
        Note(x, qt[x].(qlo := i));
      } else {
        assert ut[x := ut[x]] == ut;
      }
      shown := shown[x := shown[x] + [place]];
    }

    /** The same, unless it need not be told; the message may not get through. */
    method ShowOne(i: nat, s: int)
      requires Valid() && Fair() && i < qp
      modifies this`qp, this`qflag, this`shown, this`failed, qindex, qt
      ensures Valid() && Fair() && ToldOne(old(Waiting()), Waiting(), old(qt[..]), qt[..], old(shown), shown, i, s)
      ensures qflag >= old(qflag) && Flows(old(Standing()), Standing())
    {
      hide Alive, Ranked, Honest, HonestOne, Removed, Rightly, Flows;
      var x := qindex[i];
      InQueue(i);
      var c := qt[x];
      ghost var q, ut, was, a := Waiting(), qt[..], shown, Standing();
      FlowsSame(a, a);
      if (s == 0 && c.qlo <= i) || (s < 0 && x != -s) || (s <= 0 && c.login >= 10) || (s > 0 && x != s) || c.local
         || c.login == -14 {
        assert shown[x] + [] == shown[x] && ut[x := ut[x]] == ut;
        return;
      }
      Tell(i, s);
      ghost var b := Standing();
      FlowsSame(a, b);
      var lost: bool := *;
      if lost {
        ghost var vt := qt[..];
        ghost var k := Fail(x);
        FlowsOn(a, b, Standing());
        OnlyPlace(q, vt, i, k);
        assert ut[x := vt[x]][x := qt[x]] == ut[x := qt[x]];
      }
    }

    /** Everybody who should be told a place is told, once. */
    method Report(s: int)
      requires Valid() && Fair()
      modifies this`qp, this`qflag, this`shown, this`failed, qindex, qt
      ensures Valid() && Fair() && qp <= old(qp) && AllTold(old(Waiting()), 0, old(qt[..]), old(shown), shown, s)
      ensures forall x :: x in Waiting() ==> x in old(Waiting())
      ensures qflag >= old(qflag) && Flows(old(Standing()), Standing())
    {
      hide Alive, Ranked, Honest, Rightly, Flows;
      ghost var q, ut, was, a := Waiting(), qt[..], shown, Standing();
      NobodyTold(q, ut, was, s);
      FlowsSame(a, a);
      var i := qp - 1;
      while i >= 0
        invariant Valid() && Fair() && -1 <= i < |q| && qp <= old(qp) && qflag >= old(qflag)
        invariant AllTold(q, i + 1, ut, was, shown, s) && Untold(q, Waiting(), i + 1, ut, qt[..])
        invariant Flows(a, Standing()) && forall x :: x in Waiting() ==> x in q
      {
        ghost var q1, ut1, was1, b := Waiting(), qt[..], shown, Standing();
        UntoldHere(q, q1, i, ut, ut1);
        ShowOne(i, s);
        FlowsOn(a, b, Standing());
        ToldNext(q, q1, Waiting(), ut, ut1, qt[..], was, was1, shown, i, s);
        i := i - 1;
      }
    }

    /** The connection could be started now. */
    ghost predicate Startable(x: int)
      requires Shaped() && 0 < x < MAXQ
      reads this, qt
    {
      Could(qt[x], !Full())
    }

    ghost predicate NoneStartable(n: nat)
      requires Shaped() && n <= qp && forall i :: 0 <= i < n ==> 0 < qindex[i] < MAXQ
      reads this, qindex, qt
    {
      forall i :: 0 <= i < n ==> !Startable(qindex[i])
    }

    /** The connection at place i is lost when it should be started. */
    method Skip(i: nat)
      requires Valid() && Fair() && i < qp && (forall j :: 0 <= j < qp ==> 0 < qindex[j] < MAXQ) && NoneStartable(i)
      modifies this`qp, this`qflag, this`failed, qindex, qt
      ensures Valid() && Fair() && qp == old(qp) - 1 && (forall j :: 0 <= j < qp ==> 0 < qindex[j] < MAXQ)
      ensures NoneStartable(i) && qflag >= old(qflag) && Flows(old(Standing()), Standing())
    {
      hide Alive, Ranked, Honest, Rightly, Flows;
      ghost var q, ut := Waiting(), qt[..];
      InQueue(i);
      ghost var k := Fail(qindex[i]);
      OnlyPlace(q, ut, i, k);
      PrefixKept(q, Waiting(), i);
      AllNumbers();
      assert forall j :: 0 <= j < i ==> qindex[j] == q[j] && (qt[q[j]] == ut[q[j]] || !qt[q[j]].ready);
    }

    lemma AllNumbers()
      requires Valid()
      ensures forall j :: 0 <= j < qp ==> 0 < qindex[j] < MAXQ
    {
      assert forall j :: 0 <= j < qp ==> qindex[j] == Waiting()[j];
    }

    /** The first connection that can be started now; those that are lost on the way leave the queue. */
    method FindReady() returns (pick: nat)
      requires Valid() && Fair()
      modifies this`qp, this`qflag, this`failed, qindex, qt
      ensures Valid() && Fair() && qp <= old(qp) && pick <= qp && (pick < qp ==> Picked(pick))
      ensures (forall j :: 0 <= j < qp ==> 0 < qindex[j] < MAXQ) && NoneStartable(pick)
      ensures qflag >= old(qflag) && Flows(old(Standing()), Standing())
    {
      hide Alive, Ranked, Honest, Rightly, Flows;
      ghost var a := Standing();
      FlowsSame(a, a);
      AllNumbers();
      pick := 0;
      while pick < qp
        invariant Valid() && Fair() && qp <= old(qp) && pick <= qp && qflag >= old(qflag) && Flows(a, Standing())
        invariant (forall j :: 0 <= j < qp ==> 0 < qindex[j] < MAXQ) && NoneStartable(pick)
        decreases qp - pick
      {
        var x := qindex[pick];
        if qt[x].ready && (Privileged(qt[x]) || !Full()) {
          var lost: bool := *;
          if !lost {
            return;
          }
          ghost var b := Standing();
          Skip(pick);
          FlowsOn(a, b, Standing());
        } else {
          pick := pick + 1;
        }
      }
    }

    /** Everybody before place k has been looked at and cannot be started now. */
    ghost predicate Picked(k: nat)
      requires Shaped()
      reads this, qindex, qt
    {
      && k < qp && 0 < qindex[k] < MAXQ && Startable(qindex[k])
      && (forall i :: 0 <= i < k ==> 0 < qindex[i] < MAXQ) && NoneStartable(k)
    }

    lemma PickedFirst(k: nat)
      requires Shaped() && Picked(k)
      ensures Rightly(Start(Waiting()[k], Waiting(), qt[..], !Full()))
    {
      assert FirstAt(Start(Waiting()[k], Waiting(), qt[..], !Full()), k);
    }

    /** A session is forked off for the first connection that can be started, which leaves the queue. */
    method StartOne(k: nat)
      requires Valid() && Fair() && Picked(k)
      modifies this`qp, this`qflag, this`forks, this`startable, this`ordinary, this`started, qindex, qt
      ensures Valid() && Fair() && qp == old(qp) - 1 && forks == old(forks) + 1 && startable == old(startable) - 1
      ensures Waiting() == Removed(old(Waiting()), k) && Flows(old(Standing()), Standing())
      ensures started == old(started) + [old(Start(Waiting()[k], Waiting(), qt[..], !Full()))]
      ensures ordinary == old(ordinary) + if old(Privileged(qt[qindex[k]])) then 0 else 1
      ensures qflag > old(qflag)
    {
      hide Alive, Ranked, Honest, Rightly, NoneStartable, Flows;
      PickedFirst(k);
      ghost var a, st := Standing(), Start(Waiting()[k], Waiting(), qt[..], !Full());
      var y := qindex[k];
      started := started + [st];
      ghost var one := if Privileged(qt[y]) then 0 else 1;
      ghost var i := Lose(y);
      OnlyPlace(a.q, a.qt, k, i);
      forks := forks + 1;
      startable := startable - 1;
      ordinary := ordinary + one;
      qflag := qflag + 1;
      FlowsStarted(a, Standing(), k, st);
    }

    /** The message to a connection that finds no room. */
    method Greet(s: int)
      requires Valid() && Fair() && 0 < s < MAXQ
      modifies this`qp, this`qflag, this`failed, qindex, qt
      ensures Valid() && Fair() && qp <= old(qp) && (qt[s].local || qt[s].wasinq)
      ensures forall x :: x in Waiting() ==> x in old(Waiting())
      ensures forall x :: x in old(Waiting()) && x != s ==> x in Waiting()
      ensures qflag >= old(qflag) && Flows(old(Standing()), Standing())
    {
      hide Alive, Ranked, Honest, Rightly, Removed, Flows;
      ghost var a := Standing();
      FlowsSame(a, a);
      if !qt[s].local && !qt[s].wasinq {
        var lost: bool := *;
        LoseIf(s, lost);
        ghost var b := Standing();
        NoteWasinq(s);
        FlowsSame(b, Standing());
        FlowsOn(a, b, Standing());
        if !qt[s].client {
          ghost var c := Standing();
          var gone: bool := *;
          LoseIf(s, gone);
          FlowsOn(a, c, Standing());
        }
      }
    }

    /** A message to a connection does not get through: it is dropped. */
    method Fail(s: int) returns (ghost k: nat)
      requires Valid() && Fair() && 0 < s < MAXQ
      modifies this`qp, this`qflag, this`failed, qindex, qt
      ensures Valid() && Fair() && k <= |old(Waiting())| && s !in Waiting()
      ensures k < |old(Waiting())| ==> old(Waiting())[k] == s && Waiting() == Removed(old(Waiting()), k)
      ensures k == |old(Waiting())| ==> Waiting() == old(Waiting())
      ensures qt[..] == old(qt[..])[s := qt[s]] && qt[s] == old(qt[s]).(conn := false, ready := qt[s].ready)
      ensures qflag >= old(qflag) && Flows(old(Standing()), Standing())
    {
      hide Alive, Ranked, Honest, Rightly, Removed, Flows;
      ghost var a := Standing();
      k := Lose(s);
      failed := failed + [s];
      FlowsFailed(a, Standing(), k, s);
    }

    method LoseIf(s: int, lost: bool)
      requires Valid() && Fair() && 0 < s < MAXQ
      modifies this`qp, this`qflag, this`failed, qindex, qt
      ensures Valid() && Fair() && qp <= old(qp) && (lost ==> s !in Waiting())
      ensures (!lost ==> Waiting() == old(Waiting()))
      ensures forall x :: x in Waiting() ==> x in old(Waiting())
      ensures forall x :: x in old(Waiting()) && x != s ==> x in Waiting()
      ensures qt[..] == old(qt[..])[s := qt[s]] && qt[s] == old(qt[s]).(conn := qt[s].conn, ready := qt[s].ready)
      ensures qflag >= old(qflag) && Flows(old(Standing()), Standing())
    {
      hide Alive, Ranked, Honest, Rightly, Flows;
      ghost var q := Waiting();
      if lost {
        ghost var k := Fail(s);
        if k < |q| {
          RemovedMembers(q, k);
        }
      } else {
        assert qt[..][s := qt[s]] == qt[..];
        FlowsSame(Standing(), Standing());
      }
    }

    method NoteWasinq(s: int)
      requires Valid() && Fair() && 0 < s < MAXQ
      modifies qt
      ensures Valid() && Fair() && qt[..] == old(qt[..])[s := old(qt[s]).(wasinq := true)]
    {
      hide Alive, Ranked, Honest;
      ghost var ut := qt[..];
      Note(s, qt[s].(wasinq := true));
      HonestStays(ut, qt[..], shown);
    }

    /** Why runbbs() stops: nobody waits; nobody can have a session, or only somebody in front who must
        not be passed over; or nobody in the queue can be started now. */
    ghost predicate Served(s: int, idle: bool)
      requires Valid()
      reads this, qindex, qt
    {
      || qp == 0
      || (s == 0 && idle && Full())
      || ((s < 0 || Full()) && !Privileged(qt[Waiting()[0]]))
      || NoneLeft()
    }

    ghost predicate NoneLeft()
      requires Valid()
      reads this, qindex, qt
    {
      forall i :: 0 <= i < qp ==> !Startable(Waiting()[i])
    }

    /** The first part of a round: when there is no room, people are told their places.  Says whether
        the round is the last. */
    method Announce(s: int) returns (stop: bool)
      requires Valid() && Fair() && s < MAXQ && qp > 0
      modifies this`qp, this`qflag, this`shown, this`failed, qindex, qt
      ensures Valid() && Fair() && qp <= old(qp) && qflag >= old(qflag) && Flows(old(Standing()), Standing())
      ensures stop ==> Served(s, old(qflag) == 0)
      ensures !stop ==> qp > 0
    {
      hide Alive, Ranked, Honest, Startable, Rightly, Flows;
      ghost var a := Standing();
      FlowsSame(a, a);
      stop := true;
      if Full() {
        if qflag == 0 && s == 0 {
          return;
        }
        if s > 0 {
          Greet(s);
        }
        ghost var b := Standing();
        Report(s);
        FlowsOn(a, b, Standing());
        if qp == 0 {
          return;
        }
      }
      InQueue(0);
      stop := (Full() || s < 0) && !Privileged(qt[qindex[0]]);
    }

    /** One round starts somebody, or is the last. */
    method Round(s: int) returns (stop: bool)
      requires Valid() && Fair() && s < MAXQ && qp > 0
      modifies this`qp, this`qflag, this`shown, this`failed, this`forks, this`startable, this`ordinary,
        this`started, qindex, qt
      ensures Valid() && Fair() && qp <= old(qp) && qflag >= old(qflag)
      ensures stop ==>
        Served(s, old(qflag) == 0) && started == old(started) && forks == old(forks) && startable == old(startable)
      ensures !stop ==> qp < old(qp) && qflag > 0 && forks == old(forks) + 1 && startable == old(startable) - 1
      ensures !stop ==> |started| == |old(started)| + 1
      ensures Flows(old(Standing()), Standing())
    {
      hide Alive, Ranked, Honest, Startable, Rightly, Flows;
      ghost var a := Standing();
      stop := Announce(s);
      if stop {
        return;
      }
      ghost var b := Standing();
      var pick := FindReady();
      ghost var c := Standing();
      FlowsOn(a, b, c);
      if pick >= qp {
        return true;
      }
      StartOne(pick);
      FlowsOn(a, c, Standing());
    }

    /** The loop of runbbs().  Every round but the last starts somebody, so it ends. */
    method ServeQueue(s: int)
      requires Valid() && Fair() && s < MAXQ && s + MAXQ > 0
      modifies this`qp, this`qflag, this`shown, this`failed, this`forks, this`startable, this`ordinary,
        this`started, qindex, qt
      ensures Valid() && Fair() && qp <= old(qp) && forks - old(forks) == old(startable) - startable >= 0
      ensures |started| - |old(started)| == forks - old(forks) && Flows(old(Standing()), Standing())
      ensures Served(s, old(qflag) == 0 && started == old(started))
    {
      hide Alive, Ranked, Honest, Rightly, Flows;
      ghost var a := Standing();
      FlowsSame(a, a);
      while qp > 0
        invariant Valid() && Fair() && qp <= old(qp) && forks - old(forks) == old(startable) - startable >= 0
        invariant |started| - |old(started)| == forks - old(forks) && Flows(a, Standing())
        invariant started == old(started) || qflag > 0
        invariant old(qflag) > 0 ==> qflag > 0
        decreases qp
      {
        ghost var b := Standing();
        var stop := Round(s);
        FlowsOn(a, b, Standing());
        if stop {
          break;
        }
      }
      qflag := 0;
    }

    /** runbbs(): s > 0 is new, -s has logged in or asks for its place, 0 is nobody in particular.  `q` is the
        queue it works on. */
    method RunBbs(s: int) returns (ghost q: seq<int>)
      requires Valid() && Fair() && s < MAXQ && s + MAXQ > 0
      requires s > 0 ==> s !in Waiting()
      requires s < 0 && (qt[-s].login == -4 || qt[-s].login == -3) ==> -s in Waiting()
      modifies this, qindex, qt
      ensures Valid() && Fair() && qp <= old(qp) + 1 && forks - old(forks) == old(startable) - startable >= 0
      ensures |started| - |old(started)| == forks - old(forks)
      ensures Arranged(old(Waiting()), old(qt[..]), s, q)
      ensures Flows(old(Standing()).(q := q), Standing())
      ensures if s > 0 && !old(qt[s].conn) then Standing() == old(Standing())
              else Served(s, old(qflag) == 0 && started == old(started))
    {
      hide Alive, Ranked, Honest, Served, Rightly, Flows;
      q := Waiting();
      ghost var a := Standing();
      if s > 0 {
        if !qt[s].conn {
          FlowsSame(a, a);
          return;
        }
        EnterFair(s);
      } else if s < 0 && (qt[-s].login == -4 || qt[-s].login == -3) {
        PromoteFair(-s);
      }
      q := Waiting();
      ghost var b := Standing();
      FlowsSame(a.(q := q), b);
      ServeQueue(s);
      FlowsOn(a.(q := q), b, Standing());
    }

    method EnterFair(s: int)
      requires Valid() && Fair() && 0 < s < MAXQ && qt[s].conn && s !in Waiting()
      modifies this`qp, this`arrival, this`now, this`shown, qindex, qt
      ensures Valid() && Fair() && qp == old(qp) + 1
      ensures Waiting() == Inserted(old(Waiting()), Place(old(Waiting()), old(qt[..]), s), s)
      ensures SameLine(old(Standing()).(q := Waiting()), Standing())
    {
      hide Alive, Ranked, Place, Inserted, Honest, Rightly, SameLine;
      ghost var a, was := Standing(), shown;
      AllNumbers();
      assert forall k :: 0 <= k < |a.q| ==> a.q[k] == qindex[k];
      ghost var i := Place(a.q, a.qt, s);
      Enter(s);
      HonestEnters(a.qt, qt[..], was, s);
      SameConns(a.(q := Waiting()), Standing(), s);
      InsertedMembers(a.q, i, s);
    }

    method PromoteFair(s: int)
      requires Valid() && Fair() && 0 < s < MAXQ && s in Waiting() && (qt[s].login == -4 || qt[s].login == -3)
      modifies qindex, qt
      ensures Valid() && Fair() && qp == old(qp)
      ensures Promoting(old(Waiting()), old(qt[..]), s, Waiting())
      ensures SameLine(old(Standing()).(q := Waiting()), Standing())
    {
      hide Alive, Ranked, Risen, Came, Honest, Rightly, SameLine;
      ghost var a := Standing();
      ghost var k := Promote(s);
      RisenMembers(a.q, a.qt, s, k, Waiting());
      HonestStays(a.qt, qt[..], shown);
      SameConns(a.(q := Waiting()), Standing(), s);
    }

    /** do_ring(): the `idle` are dropped, and as many sessions as may start in one period may start again. */
    method DoRing(idle: set<int>)
      requires Valid() && Fair()
      modifies this`qp, this`qflag, this`failed, this`startable, this`ordinary, qindex, qt
      ensures Valid() && Fair() && startable == MAXACTIVITY && ordinary == 0 && qp <= old(qp)
      ensures forall x :: x in Waiting() <==> x in old(Waiting()) && !(x in idle && 3 <= x < MAXQ)
    {
      hide Alive, Ranked, Honest;
      for z := 3 to MAXQ
        invariant Valid() && Fair() && qp <= old(qp)
        invariant forall x :: x in Waiting() <==> x in old(Waiting()) && !(x in idle && 3 <= x < z)
      {
        LoseIf(z, z in idle);
      }
      startable := MAXACTIVITY;
      ordinary := 0;
    }
  }

  lemma Opened(q: seq<int>, g: seq<int>, i: nat, s: int)
    requires i <= |q| && |g| == |q| + 1 && g[i] == s
    requires forall x :: 0 <= x < i ==> g[x] == q[x]
    requires forall x :: i < x < |g| ==> g[x] == q[x - 1]
    ensures g == Inserted(q, i, s)
  {
  }

  lemma Closed(q: seq<int>, g: seq<int>, k: nat)
    requires k < |q| && |g| == |q| - 1
    requires forall x :: 0 <= x < k ==> g[x] == q[x]
    requires forall x :: k <= x < |g| ==> g[x] == q[x + 1]
    ensures g == Removed(q, k)
  {
  }

  lemma ShiftedUp(q: seq<int>, g: seq<int>, i: nat, k: nat)
    requires i <= k < |q| == |g| && g[i] == q[k]
    requires forall x :: 0 <= x < |q| && !(i <= x <= k) ==> g[x] == q[x]
    requires forall x :: i < x <= k ==> g[x] == q[x - 1]
    ensures g == Inserted(Removed(q, k), i, q[k])
  {
  }

  ghost predicate OnceAt(q: seq<int>, s: int, k: nat)
  {
    k < |q| && q[k] == s && s !in q[k + 1..]
  }

  lemma FindOnce(q: seq<int>, qt: seq<Conn>, s: int) returns (k: nat)
    requires Table(qt) && Alive(q, qt) && s in q
    ensures OnceAt(q, s, k)
  {
    k :| 0 <= k < |q| && q[k] == s;
  }

  /** An entry of the queue stands in one place. */
  lemma OnlyPlace(q: seq<int>, qt: seq<Conn>, i: nat, k: nat)
    requires Table(qt) && Alive(q, qt) && i < |q| && k <= |q|
    requires if k < |q| then q[k] == q[i] else q[i] !in q
    ensures k == i
  {
  }

  lemma PrefixKept(q: seq<int>, g: seq<int>, k: nat)
    requires k < |q| && g == Removed(q, k)
    ensures forall i :: 0 <= i < k ==> g[i] == q[i]
    ensures |g| == |q| - 1
  {
  }

  // ---------------------------------------------------------------- who is told what

  /** Whom runbbs(s) does not tell its place. */
  predicate Passed(c: Conn, x: int, i: int, s: int)
  {
    || (s == 0 && c.qlo <= i) || (s < 0 && x != -s) || (s <= 0 && c.login >= 10) || (s > 0 && x != s)
    || c.local || c.login == -14
  }

  /** The place told is the lower of the present one and the lowest there has been. */
  function Told(c: Conn, x: int, i: int, s: int): seq<int>
  {
    if Passed(c, x, i, s) then [] else [if i < c.qlo then i else c.qlo]
  }

  /** What telling the connection at place i of q leaves: it stays in the queue, or leaves it. */
  ghost predicate ToldOne(q: seq<int>, g: seq<int>, qt: seq<Conn>, ut: seq<Conn>,
                          was: map<int, seq<int>>, shown: map<int, seq<int>>, i: nat, s: int)
  {
    && i < |q| && Table(qt) && Table(ut) && 0 < q[i] < MAXQ && q[i] in was
    && (g == q || g == Removed(q, i)) && ut == qt[q[i] := ut[q[i]]]
    && shown == was[q[i] := was[q[i]] + Told(qt[q[i]], q[i], i, s)]
  }

  /** From place n on everybody has been told, as the queue was at first. */
  ghost predicate AllTold(q: seq<int>, n: int, qt: seq<Conn>, was: map<int, seq<int>>, shown: map<int, seq<int>>,
                          s: int)
  {
    && 0 <= n <= |q| && Table(qt) && (forall i :: 0 <= i < |q| ==> 0 < q[i] < MAXQ && q[i] in was && q[i] in shown)
    && (forall i :: 0 <= i < n ==> shown[q[i]] == was[q[i]])
    && (forall i :: n <= i < |q| ==> shown[q[i]] == was[q[i]] + Told(qt[q[i]], q[i], i, s))
  }

  /** Below place n nothing has changed. */
  ghost predicate Untold(q: seq<int>, g: seq<int>, n: int, qt: seq<Conn>, ut: seq<Conn>)
  {
    && 0 <= n <= |q| && n <= |g| && Table(qt) && Table(ut) && Distinct(q)
    && (forall i :: 0 <= i < |q| ==> 0 < q[i] < MAXQ)
    && forall i :: 0 <= i < n ==> g[i] == q[i] && ut[q[i]] == qt[q[i]]
  }

  lemma NobodyTold(q: seq<int>, qt: seq<Conn>, was: map<int, seq<int>>, s: int)
    requires Table(qt) && Alive(q, qt) && forall x :: x in q ==> x in was
    ensures AllTold(q, |q|, qt, was, was, s) && Untold(q, q, |q|, qt, qt)
  {
  }

  lemma UntoldHere(q: seq<int>, g: seq<int>, i: nat, qt: seq<Conn>, ut: seq<Conn>)
    requires Untold(q, g, i + 1, qt, ut)
    ensures i < |g|
  {
  }

  lemma ToldNext(q: seq<int>, g: seq<int>, g': seq<int>, qt: seq<Conn>, ut: seq<Conn>, ut': seq<Conn>,
                 was: map<int, seq<int>>, shown: map<int, seq<int>>, shown': map<int, seq<int>>, i: nat, s: int)
    requires AllTold(q, i + 1, qt, was, shown, s) && Untold(q, g, i + 1, qt, ut)
    requires ToldOne(g, g', ut, ut', shown, shown', i, s)
    ensures AllTold(q, i, qt, was, shown', s) && Untold(q, g', i, qt, ut')
    ensures |g'| <= |g| && forall x :: x in g' ==> x in g
  {
    if g' != g {
      RemovedMembers(g, i);
      PrefixKept(g, g', i);
    }
    hide Told, Removed;
    assert forall k :: 0 <= k < |q| && k != i ==> q[k] != q[i];
  }

  lemma MovedMembers(q: seq<int>, i: nat, k: nat)
    requires i <= k < |q|
    ensures i <= |Removed(q, k)| && forall x :: x in Inserted(Removed(q, k), i, q[k]) ==> x in q
  {
  }

  lemma Shows(qt: seq<Conn>, shown: map<int, seq<int>>, x: int, i: nat)
    requires Table(qt) && Honest(qt, shown) && x in shown && 0 <= x < MAXQ
    ensures var c := qt[x]; var low := if i < c.qlo then i else c.qlo;
      var place :=
        if i == 0 || c.qlo == 0 then 0 else if i == 1 || c.qlo == 1 then 1 else if i <= c.qlo then i else c.qlo;
      place == low && Honest(qt[x := c.(qlo := low)], shown[x := shown[x] + [place]])
  {
  }
}
