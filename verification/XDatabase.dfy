/** sendx(), displayx(), checkx() and xyell() of xmsg.c on the shared log and the users' places in it. */
module XDatabase {
  import opened XMessages
  import L = CircularLog

  const XLENGTH: nat := 20

  /** displayx() and xyell() take a message this close ahead of the cursor for overwritten. */
  predicate Scrolled(pos: int, cur: int, size: int)
  {
    cur + size / 64 > (if pos < cur then pos + size else pos)
  }

  /** A message of the present lap is shown as long as the cursor is at most so far beyond its place that a
      sixty-fourth of the database is left. */
  lemma PresentShown(sent: seq<Sent>, base: nat, lap: nat, cur: int, size: int, k: nat)
    requires Laid(sent, base, lap, cur) && lap <= k < |sent|
    ensures Scrolled(sent[k].pos, cur, size) <==> cur - sent[k].pos > size - size / 64
  {
    assert Spans(sent)[k].stop <= cur;
  }

  /** A whole message of the lap before is refused exactly when its place is less than a sixty-fourth of
      the database ahead of the cursor. */
  lemma BeforeRefused(sent: seq<Sent>, base: nat, lap: nat, cur: int, size: int, k: nat)
    requires Laid(sent, base, lap, cur) && base <= k < lap
    ensures k < |sent| && (Scrolled(sent[k].pos, cur, size) <==> sent[k].pos - cur < size / 64)
  {
    assert cur <= Spans(sent)[k].pos;
  }

  /** A message some byte of which one of the present lap, number j, has written over is taken for one of
      the present lap: it is refused exactly when the cursor is nearly a whole lap beyond its place. */
  lemma WrittenOver(sent: seq<Sent>, base: nat, lap: nat, cur: int, size: int, k: nat, j: nat)
    requires Laid(sent, base, lap, cur) && k < |sent| && lap <= j < |sent|
    requires sent[k].pos < Stop(sent[j]) && sent[j].pos < Stop(sent[k])
    ensures Scrolled(sent[k].pos, cur, size) <==> cur - sent[k].pos > size - size / 64
  {
    assert Spans(sent)[j].stop <= cur;
  }

  /** The lines sendx() copies: up to the first empty one. */
  function Kept(send: seq<string>, n: nat): (r: seq<string>)
    requires n <= |send|
    ensures n <= |r| && r <= send && (forall i :: n <= i < |r| ==> r[i] != "")
    ensures |r| < |send| ==> send[|r|] == ""
    decreases |send| - n
  {
    if n < |send| && |send[n]| > 0 then Kept(send, n + 1) else send[..n]
  }

  // ---------------------------------------------------------------- walking

  /** The places met by following the links n times at most. */
  ghost function Trail(x: map<int, XHeader>, u: int, pos: int, back: bool, n: nat): seq<int>
    decreases n
  {
    if n == 0 || pos == 0 || pos !in x then []
    else [pos] + Trail(x, u, if back then Prev(x[pos], u) else Next(x[pos], u), back, n - 1)
  }

  /** The places of messages number c[i], c[i + 1], … */
  ghost function PlacesOf(sent: seq<Sent>, c: seq<nat>): (r: seq<int>)
    requires Within(c, sent)
    ensures |r| == |c| && forall i :: 0 <= i < |c| ==> r[i] == sent[c[i]].pos
  {
    seq(|c|, i requires 0 <= i < |c| => sent[c[i]].pos)
  }

  function Reversed(q: seq<int>): (r: seq<int>)
    ensures |r| == |q| && forall i :: 0 <= i < |q| ==> r[i] == q[|q| - 1 - i]
  {
    seq(|q|, i requires 0 <= i < |q| => q[|q| - 1 - i])
  }

  lemma OneLink(x: map<int, XHeader>, sent: seq<Sent>, base: nat, c: seq<nat>, u: int, i: int)
    requires Stored(x, sent, base) && Within(c, sent) && Linked(x, sent, base, c, u) && 0 <= i < |c| && base <= c[i]
    requires forall k :: 0 <= k < |sent| ==> sent[k].pos >= FIRST
    ensures At(sent, c, i) == sent[c[i]].pos != 0 && At(sent, c, i) in x && x[At(sent, c, i)].m == sent[c[i]].m
    ensures Next(x[At(sent, c, i)], u) == At(sent, c, i + 1) && Prev(x[At(sent, c, i)], u) == At(sent, c, i - 1)
  {
  }

  /** Following next from u's i-th message, if it is still in the log, meets exactly the messages from
      there on, in the order they were sent. */
  lemma {:induction false} ForwardTrail(x: map<int, XHeader>, sent: seq<Sent>, base: nat, c: seq<nat>, u: int,
                                        i: nat, n: nat)
    requires Stored(x, sent, base) && Within(c, sent) && Linked(x, sent, base, c, u) && i <= |c| <= i + n
    requires forall j, k :: 0 <= j < k < |c| ==> c[j] < c[k]
    requires forall k :: 0 <= k < |sent| ==> sent[k].pos >= FIRST
    requires i < |c| ==> base <= c[i]
    ensures Trail(x, u, At(sent, c, i), false, n) == PlacesOf(sent, c)[i..]
    decreases n
  {
    hide Stored, Linked, Next, Prev;
    if i < |c| {
      OneLink(x, sent, base, c, u, i);
      assert i + 1 < |c| ==> c[i] < c[i + 1];
      ForwardTrail(x, sent, base, c, u, i + 1, n - 1);
      assert PlacesOf(sent, c)[i..] == [PlacesOf(sent, c)[i]] + PlacesOf(sent, c)[i + 1..];
    }
  }

  lemma ReversedStep(q: seq<int>, l: int, i: int)
    requires 0 <= l <= i < |q|
    ensures Reversed(q[l..i + 1]) == [q[i]] + Reversed(q[l..i])
  {
  }

  lemma NothingReversed(q: seq<int>, i: nat)
    requires i <= |q|
    ensures Reversed(q[i..i]) == []
  {
  }

  /** Following prev from u's i-th message meets, newest first, the messages before it as far as they
      are still in the log. */
  lemma {:induction false} BackwardTrail(x: map<int, XHeader>, sent: seq<Sent>, base: nat, c: seq<nat>, u: int,
                                         i: int, n: nat)
    requires Stored(x, sent, base) && Within(c, sent) && Linked(x, sent, base, c, u) && -1 <= i < |c| && n <= i + 1
    requires forall k :: 0 <= k < |sent| ==> sent[k].pos >= FIRST
    requires forall k :: i + 1 - n <= k <= i ==> base <= c[k]
    ensures Trail(x, u, At(sent, c, i), true, n) == Reversed(PlacesOf(sent, c)[i + 1 - n..i + 1])
    decreases n
  {
    hide Stored, Linked, Next, Prev, Reversed;
    NothingReversed(PlacesOf(sent, c), i + 1);
    if n > 0 {
      OneLink(x, sent, base, c, u, i);
      BackwardTrail(x, sent, base, c, u, i - 1, n - 1);
      ReversedStep(PlacesOf(sent, c), i + 1 - n, i);
    }
  }

  /** As long as nothing of u's has been overwritten, u's two walks are each other's reversal, and show
      exactly what u sent and received. */
  lemma Walks(x: map<int, XHeader>, sent: seq<Sent>, base: nat, lap: nat, cur: int, u: int, p: Places, g: Reading)
    requires Laid(sent, base, lap, cur) && Stored(x, sent, base) && UserFits(x, sent, base, u, p, g)
    requires var c := Mine(sent, g.since, u); c != [] ==> base <= c[0]
    ensures var c := Mine(sent, g.since, u);
      && Trail(x, u, p.xminpos, false, |c|) == PlacesOf(sent, c)
      && Trail(x, u, p.xmaxpos, true, |c|) == Reversed(PlacesOf(sent, c))
  {
    hide Laid, Mine, Stored, Linked, UserFits, Trail, Reversed, PlacesOf, At;
    var c := Mine(sent, g.since, u);
    ListFacts(x, sent, base, lap, cur, u, p, g);
    forall k | 0 <= k < |c| ensures base <= c[k] {
      assert k > 0 ==> c[0] < c[k];
    }
    ForwardTrail(x, sent, base, c, u, 0, |c|);
    BackwardTrail(x, sent, base, c, u, |c| - 1, |c|);
  }

  // ---------------------------------------------------------------- showing what is new

  /** `xseenpos` after one pass of the loop in checkx(). */
  function SeenNext(x: map<int, XHeader>, cur: int, size: int, u: int, pos: int): int
    requires pos in x
  {
    if Scrolled(pos, cur, size) then pos else Next(x[pos], u)
  }

  ghost function SeenAfter(x: map<int, XHeader>, cur: int, size: int, u: int, pos: int, n: nat): int
    decreases n
  {
    if n == 0 || pos == 0 || pos !in x then pos else SeenAfter(x, cur, size, u, SeenNext(x, cur, size, u, pos), n - 1)
  }

  lemma {:induction false} Stuck(x: map<int, XHeader>, cur: int, size: int, u: int, pos: int, n: nat)
    requires pos in x && pos != 0 && Scrolled(pos, cur, size)
    ensures SeenAfter(x, cur, size, u, pos, n) == pos
    decreases n
  {
    if n > 0 {
      Stuck(x, cur, size, u, pos, n - 1);
    }
  }

  lemma {:induction false} SeenReaches(x: map<int, XHeader>, sent: seq<Sent>, base: nat, c: seq<nat>, cur: int,
                                       size: int, u: int,
                                       i: nat, n: nat)
    requires Stored(x, sent, base) && Within(c, sent) && Linked(x, sent, base, c, u)
    requires forall k :: 0 <= k < |sent| ==> sent[k].pos >= FIRST
    requires i + n <= |c| && forall k :: i <= k < i + n ==> base <= c[k] && !Scrolled(sent[c[k]].pos, cur, size)
    ensures SeenAfter(x, cur, size, u, At(sent, c, i), n) == At(sent, c, i + n)
    decreases n
  {
    if n > 0 {
      OneLink(x, sent, base, c, u, i);
      SeenReaches(x, sent, base, c, cur, size, u, i + 1, n - 1);
    }
  }

  lemma {:induction false} SeenAdds(x: map<int, XHeader>, cur: int, size: int, u: int, pos: int, n: nat, m: nat)
    ensures SeenAfter(x, cur, size, u, pos, n + m) == SeenAfter(x, cur, size, u, SeenAfter(x, cur, size, u, pos, n), m)
    decreases n
  {
    if n > 0 && pos != 0 && pos in x {
      SeenAdds(x, cur, size, u, SeenNext(x, cur, size, u, pos), n - 1, m);
    }
  }

  lemma {:induction false} FirstScrolled(sent: seq<Sent>, c: seq<nat>, cur: int, size: int, i: nat,
                                         k: nat) returns (j: nat)
    requires Within(c, sent) && i <= k < |c| && Scrolled(sent[c[k]].pos, cur, size)
    ensures i <= j <= k && Scrolled(sent[c[j]].pos, cur, size)
    ensures forall l :: i <= l < j ==> !Scrolled(sent[c[l]].pos, cur, size)
    decreases k - i
  {
    j := i;
    if !Scrolled(sent[c[i]].pos, cur, size) {
      j := FirstScrolled(sent, c, cur, size, i + 1, k);
    }
  }

  /** checkx() gets through what is unseen exactly when none of it is taken for scrolled over: from the
      first that is, the loop never moves. */
  lemma DrainEnds(x: map<int, XHeader>, sent: seq<Sent>, base: nat, lap: nat, cur: int, size: int, u: int, p: Places,
                  g: Reading,
                  c: seq<nat>)
    requires Laid(sent, base, lap, cur) && Stored(x, sent, base) && UserFits(x, sent, base, u, p, g)
    requires c == Mine(sent, g.since, u) && forall k :: g.mark <= k < |c| ==> base <= c[k]
    ensures (exists n :: SeenAfter(x, cur, size, u, p.xseenpos, n) == 0)
      <==> forall k :: g.mark <= k < |c| ==> !Scrolled(sent[c[k]].pos, cur, size)
  {
    hide Laid, SeenAfter, Scrolled, Linked, Stored, Received, At;
    LaidPlaces(sent, base, lap, cur);
    DrainEndsFor(x, sent, base, c, cur, size, u, g.mark);
  }

  lemma DrainEndsFor(x: map<int, XHeader>, sent: seq<Sent>, base: nat, c: seq<nat>, cur: int, size: int, u: int,
                     mark: nat)
    requires Stored(x, sent, base) && Within(c, sent) && Linked(x, sent, base, c, u) && mark <= |c|
    requires forall k :: 0 <= k < |sent| ==> sent[k].pos >= FIRST
    requires forall k :: mark <= k < |c| ==> base <= c[k]
    ensures (exists n :: SeenAfter(x, cur, size, u, At(sent, c, mark), n) == 0)
      <==> forall k :: mark <= k < |c| ==> !Scrolled(sent[c[k]].pos, cur, size)
  {
    hide SeenAfter, Scrolled, Linked, Stored;
    if k :| mark <= k < |c| && Scrolled(sent[c[k]].pos, cur, size) {
      var j := FirstScrolled(sent, c, cur, size, mark, k);
      forall n: nat ensures SeenAfter(x, cur, size, u, At(sent, c, mark), n) != 0 {
        NeverEnds(x, sent, base, c, cur, size, u, mark, j, n);
      }
    } else {
      SeenReaches(x, sent, base, c, cur, size, u, mark, |c| - mark);
    }
  }

  lemma NeverEnds(x: map<int, XHeader>, sent: seq<Sent>, base: nat, c: seq<nat>, cur: int, size: int, u: int,
                  i: nat, j: nat, n: nat)
    requires Stored(x, sent, base) && Within(c, sent) && Linked(x, sent, base, c, u) && i <= j < |c|
    requires forall k :: 0 <= k < |sent| ==> sent[k].pos >= FIRST
    requires forall k :: i <= k < |c| ==> base <= c[k]
    requires Scrolled(sent[c[j]].pos, cur, size) && forall k :: i <= k < j ==> !Scrolled(sent[c[k]].pos, cur, size)
    ensures SeenAfter(x, cur, size, u, At(sent, c, i), n) != 0
  {
    assert base <= c[j];
    OneLink(x, sent, base, c, u, j);
    hide Scrolled, Linked, SeenAfter;
    SeenReaches(x, sent, base, c, cur, size, u, i, j - i);
    Stuck(x, cur, size, u, sent[c[j]].pos, n);
    SeenAdds(x, cur, size, u, At(sent, c, i), j - i, n);
    SeenAdds(x, cur, size, u, At(sent, c, i), n, j - i);
    StaysZero(x, cur, size, u, j - i);
  }

  lemma StaysZero(x: map<int, XHeader>, cur: int, size: int, u: int, n: nat)
    ensures SeenAfter(x, cur, size, u, 0, n) == 0
  {
  }

  // ---------------------------------------------------------------- the shared state and its operations

  class Database {
    var xmsg: map<int, XHeader>
    var xcurpos: int
    const xmsgsize: int
    var lastbcast: int
    var bcastpos: int
    var users: map<int, Places>

    /** Everything ever sent; the numbers of `Laid`; and what each user has seen. */
    ghost var sent: seq<Sent>
    ghost var base: nat
    ghost var lap: nat
    ghost var readings: map<int, Reading>

    ghost predicate Valid()
      reads this
    {
      && Laid(sent, base, lap, xcurpos) && Stored(xmsg, sent, base)
      && users.Keys == readings.Keys
      && forall u :: u in users ==> UserFits(xmsg, sent, base, u, users[u], readings[u])
    }

    constructor (size: int, numbers: set<int>)
      ensures Valid() && sent == [] && xcurpos == 0 && xmsgsize == size && users.Keys == numbers && base == lap == 0
      ensures forall u :: u in users ==> users[u] == Places(0, 0, 0) && readings[u] == Reading(0, 0, 0, [])
    {
      xmsg, xcurpos, xmsgsize, lastbcast, bcastpos := map[], 0, size, 0, 0;
      users := map u | u in numbers :: Places(0, 0, 0);
      sent, base, lap := [], 0, 0;
      readings := map u | u in numbers :: Reading(0, 0, 0, []);
    }

    /** Where the next message goes. */
    function Start(): (r: int)
      reads this
    {
      if xcurpos + RESERVE >= xmsgsize || xcurpos == 0 then FIRST else xcurpos
    }

    ghost function StartBase(): nat
      reads this
    {
      if xcurpos + RESERVE >= xmsgsize || xcurpos == 0 then lap else base
    }

    ghost function StartLap(): nat
      reads this
    {
      if xcurpos + RESERVE >= xmsgsize || xcurpos == 0 then |sent| else lap
    }

    lemma StartLaid()
      requires Laid(sent, base, lap, xcurpos) && Stored(xmsg, sent, base)
      ensures StartBase() <= StartLap() <= |sent| && Laid(sent, StartBase(), StartLap(), Start())
      ensures Stored(xmsg, sent, StartBase())
      ensures base <= StartBase() && Start() >= FIRST
    {
    }

    /** The bytes of a message go to the cursor. */
    method Append(h: XHeader, send: seq<string>) returns (curpos: int)
      requires |send| <= XLENGTH && h.m.text == Kept(send, 0)
      modifies this`xmsg, this`xcurpos
      ensures curpos == old(Start())
      ensures xmsg == Survivors(old(xmsg), curpos, curpos + Extent(h.m))[curpos := h]
      ensures xcurpos == L.Aligned(curpos + Extent(h.m))
    {
      if xcurpos + RESERVE >= xmsgsize || xcurpos == 0 {
        xcurpos := FIRST;
      }
      curpos := xcurpos;
      var p := curpos + HEADER;
      var i := 0;
      while i < |send| && |send[i]| > 0
        invariant 0 <= i <= |send| && xcurpos == curpos && Kept(send, 0) == Kept(send, i)
        invariant p == curpos + HEADER + TextBytes(send[..i])
      {
        assert send[..i + 1][..i] == send[..i];
        p := p + |send[i]| + 1;
        i := i + 1;
      }
      xmsg := Survivors(xmsg, curpos, p + 1)[curpos := h];
      xcurpos := (p + 4) - (p + 4) % 4;
    }

    /** What was a user's newest message gets its next link. */
    method LinkForward(u: int, curpos: int)
      requires u in users && (users[u].xmaxpos == 0 || users[u].xmaxpos in xmsg)
      modifies this`xmsg
      ensures xmsg == Relink(old(xmsg), users[u].xmaxpos, u, curpos)
    {
      var at := users[u].xmaxpos;
      if at != 0 {
        if xmsg[at].m.snum == u {
          xmsg := xmsg[at := xmsg[at].(snext := curpos)];
        }
        if xmsg[at].m.rnum == u {
          xmsg := xmsg[at := xmsg[at].(rnext := curpos)];
        }
        assert xmsg == Relink(old(xmsg), at, u, curpos);
      }
    }

    /** The message's newest neighbours on both sides are still in the log once it has been written. */
    ghost predicate CanLink(m: Message)
      reads this
    {
      && StartBase() <= StartLap() <= |sent|
      && m.snum in users && m.rnum in users && users.Keys == readings.Keys
      && var b := NewBase(sent, StartBase(), StartLap(), Sent(Start(), m));
      NewestKept(sent, b, m.snum, readings[m.snum]) && NewestKept(sent, b, m.rnum, readings[m.rnum])
    }

    /** The links of the new message, and the links to it. */
    method LinkBoth(o: int, r: int, curpos: int)
      requires o in users && r in users && curpos in xmsg
      requires users[o].xmaxpos == 0 || (users[o].xmaxpos in xmsg && users[o].xmaxpos != curpos)
      requires users[r].xmaxpos == 0 || (users[r].xmaxpos in xmsg && users[r].xmaxpos != curpos)
      modifies this`xmsg
      ensures xmsg == Relink(Relink(old(xmsg)[curpos :=
                        old(xmsg)[curpos].(sprev := users[o].xmaxpos, rprev := users[r].xmaxpos)],
                                    users[o].xmaxpos, o, curpos), users[r].xmaxpos, r, curpos)
    {
      xmsg := xmsg[curpos := xmsg[curpos].(sprev := users[o].xmaxpos)];
      LinkForward(o, curpos);
      xmsg := xmsg[curpos := xmsg[curpos].(rprev := users[r].xmaxpos)];
      assert xmsg == Relink(old(xmsg)[curpos :=
                        old(xmsg)[curpos].(sprev := users[o].xmaxpos, rprev := users[r].xmaxpos)],
                            users[o].xmaxpos, o, curpos);
      LinkForward(r, curpos);
    }

    /** The places of the two users. */
    method Advance(o: int, r: int, curpos: int) returns (signalled: bool)
      requires o in users && r in users
      modifies this`users
      ensures users.Keys == old(users).Keys && signalled == (old(users)[r].xseenpos == 0)
      ensures forall u, m: Message :: u in users && m.snum == o && m.rnum == r && !m.kind.Broadcast? ==>
        users[u] == PlacesAfter(old(users)[u], u, Sent(curpos, m))
    {
      if users[o].xminpos == 0 {
        users := users[o := users[o].(xminpos := curpos)];
      }
      if users[r].xminpos == 0 {
        users := users[r := users[r].(xminpos := curpos)];
      }
      users := users[o := users[o].(xmaxpos := curpos)];
      users := users[r := users[r].(xmaxpos := curpos)];
      signalled := users[r].xseenpos == 0;
      if signalled {
        users := users[r := users[r].(xseenpos := users[r].xmaxpos)];
      }
    }

    /** The message is written, and linked to the newest messages of its sender and its receiver. */
    method Deliver(m: Message, send: seq<string>) returns (curpos: int)
      requires Valid() && |send| <= XLENGTH && m.text == Kept(send, 0) && !m.kind.Broadcast? && CanLink(m)
      modifies this`xmsg, this`xcurpos
      ensures curpos == old(Start()) && m.snum in users && m.rnum in users
      ensures xcurpos == L.Aligned(Stop(Sent(curpos, m)))
      ensures var o, r, s := users[m.snum].xmaxpos, users[m.rnum].xmaxpos, Sent(curpos, m);
        && (o == 0 || o in Survivors(old(xmsg), curpos, Stop(s)))
        && (r == 0 || r in Survivors(old(xmsg), curpos, Stop(s)))
        && xmsg == Delivered(old(xmsg), s, o, r)
    {
      hide Laid, Stored, UserFits, NewestKept, Survivors, Relink, Extent;
      StartLaid();
      ghost var x := xmsg;
      ghost var b0, l0, s := StartBase(), StartLap(), Sent(Start(), m);
      var o, r := m.snum, m.rnum;
      StillFits(x, sent, base, b0, o, users[o], readings[o]);
      StillFits(x, sent, base, b0, r, users[r], readings[r]);
      Reachable(x, sent, b0, l0, s, users[o], readings[o], users[r], readings[r]);
      var junk: int := *;
      curpos := Append(XHeader(m, junk, 0, junk, 0), send);
      LinkBoth(o, r, curpos);
      ghost var y, h := Survivors(x, s.pos, Stop(s)), XHeader(m, users[o].xmaxpos, 0, users[r].xmaxpos, 0);
      assert y[curpos := XHeader(m, junk, 0, junk, 0)][curpos := h] == y[curpos := h];
    }

    /** sendx() of a message from one user to another, or to oneself.  `signalled` says that the receiver
        had seen everything and must be told. */
    method SendX(m: Message, send: seq<string>) returns (signalled: bool)
      requires Valid() && |send| <= XLENGTH && m.text == Kept(send, 0) && !m.kind.Broadcast? && CanLink(m)
      modifies this
      ensures Valid()
      ensures var s := Sent(old(Start()), m);
        && sent == old(sent) + [s] && users.Keys == old(users).Keys == old(readings).Keys
        && xcurpos == L.Aligned(Stop(s))
        && (forall u :: u in users ==> users[u] == PlacesAfter(old(users)[u], u, s))
        && readings == map u | u in old(readings) :: ReadingAfter(old(users)[u], old(readings)[u], u, s)
      ensures lap == old(StartLap()) <= |old(sent)| && old(StartBase()) <= lap
      ensures base == NewBase(old(sent), old(StartBase()), lap, Sent(old(Start()), m))
      ensures signalled == (old(users)[m.rnum].xseenpos == 0)
    {
      hide Laid, Stored, UserFits, NewestKept, Survivors, PlacesAfter, ReadingAfter, Extent, Delivered;
      StartLaid();
      ghost var x, was, seen := xmsg, users, readings;
      ghost var b0, l0, s := StartBase(), StartLap(), Sent(Start(), m);
      var curpos := Deliver(m, send);
      signalled := Advance(m.snum, m.rnum, curpos);
      sent, base, lap := sent + [s], NewBase(sent, b0, l0, s), l0;
      readings := map u | u in seen :: ReadingAfter(was[u], seen[u], u, s);
      LaidAppend(old(sent), b0, l0, s.pos, s);
      AllFit(x, old(sent), old(base), b0, l0, s, was, seen);
    }

    /** sendx() of a broadcast, which enters nobody's list. */
    method SendBroadcast(o: int, time: int, send: seq<string>)
      requires Valid() && |send| <= XLENGTH
      modifies this
      ensures Valid() && users == old(users) && readings == old(readings)
      ensures lastbcast == time && bcastpos == old(Start())
      ensures sent == old(sent) + [Sent(bcastpos, Message(o, 0, Broadcast, time, Kept(send, 0)))]
    {
      hide Laid, Stored, UserFits, Survivors, Extent;
      StartLaid();
      ghost var x := xmsg;
      var m := Message(o, 0, Broadcast, time, Kept(send, 0));
      ghost var b0, l0, s := StartBase(), StartLap(), Sent(Start(), m);
      var junk: int := *;
      var h := XHeader(m, junk, 0, junk, 0);
      var curpos := Append(h, send);
      lastbcast := time;
      bcastpos := curpos;
      sent, base, lap := sent + [s], NewBase(sent, b0, l0, s), l0;
      LaidAppend(old(sent), b0, l0, s.pos, s);
      BroadcastStored(x, old(sent), b0, l0, s, h);
      forall u | u in users ensures UserFits(xmsg, sent, base, u, users[u], readings[u]) {
        StillFits(x, old(sent), old(base), b0, u, users[u], readings[u]);
        BroadcastFits(x, old(sent), b0, l0, s, h, u, users[u], readings[u]);
      }
    }

    /** displayx() of a message in u's list: what it returns, whether it wrote to `next`, and what. */
    method DisplayX(u: int, pos: int, wantPrev: bool) returns (code: int, wrote: bool, prev: int, next: int)
      requires pos in xmsg && !xmsg[pos].m.kind.Broadcast?
      ensures wrote == (!Scrolled(pos, xcurpos, xmsgsize) && Involves(xmsg[pos].m, u))
      ensures wrote ==> next == Next(xmsg[pos], u) && prev == Prev(xmsg[pos], u)
      ensures wrote ==> code == if wantPrev || xmsg[pos].m.rnum == u then 0 else 1
      ensures !wrote ==> code == if Scrolled(pos, xcurpos, xmsgsize) then 1 else -1
    {
      wrote, prev, next := false, 0, 0;
      var sender := 1;
      if xcurpos + xmsgsize / 64 > (if pos < xcurpos then pos + xmsgsize else pos) {
        return 1, wrote, prev, next;
      }
      var xh := xmsg[pos];
      if xh.m.snum != u {
        sender := 0;
        if xh.m.rnum != u {
          return -1, wrote, prev, next;
        }
      } else if xh.m.rnum == u {
        sender := -1;
      }
      wrote := true;
      next := if sender != 0 then xh.snext else xh.rnext;
      prev := if sender != 0 then xh.sprev else xh.rprev;
      code := if !wantPrev && sender > 0 then 1 else 0;
    }

    /** One pass of the loop in checkx().  A message taken for scrolled over changes nothing; one that is
        not u's makes u lose everything. */
    method CheckOnce(u: int) returns (shown: seq<Message>)
      requires u in users && users[u].xseenpos in xmsg && !xmsg[users[u].xseenpos].m.kind.Broadcast?
      modifies this`users
      ensures var pos := old(users)[u].xseenpos;
        if Scrolled(pos, xcurpos, xmsgsize) then users == old(users) && shown == []
        else if Involves(xmsg[pos].m, u) then (
          && users == old(users)[u := old(users)[u].(xseenpos := Next(xmsg[pos], u))]
          && shown == if xmsg[pos].m.rnum == u then [xmsg[pos].m] else [])
        else users == old(users)[u := Places(0, 0, 0)] && shown == []
    {
      shown := [];
      var pos := users[u].xseenpos;
      var code, wrote, prev, next := DisplayX(u, pos, false);
      if wrote {
        users := users[u := users[u].(xseenpos := next)];
      }
      if code == 0 {
        shown := [xmsg[pos].m];
      } else if code < 0 {
        users := users[u := Places(0, 0, 0)];
      }
    }

    /** The same, with the record of what has been read. */
    method ReadOne(u: int) returns (shown: seq<Message>)
      requires Valid() && u in users && PendingOf(sent, readings[u], u) != []
      requires var k := PendingOf(sent, readings[u], u)[0];
        base <= k < |sent| && !Scrolled(sent[k].pos, xcurpos, xmsgsize)
      modifies this`users, this`readings
      ensures Valid() && users.Keys == old(users).Keys
      ensures var k := PendingOf(sent, old(readings)[u], u)[0];
        && k < |sent|
        && users == old(users)[u := users[u]] && users[u] == old(users)[u].(xseenpos := users[u].xseenpos)
        && readings == old(readings)[u := Passed(old(readings)[u], sent, u, k)]
        && PendingOf(sent, readings[u], u) == PendingOf(sent, old(readings)[u], u)[1..]
        && shown == if sent[k].m.rnum == u then [sent[k].m] else []
    {
      hide Laid, Stored, UserFits, Scrolled, PendingOf, Next, Passed;
      FirstPending(xmsg, sent, base, lap, xcurpos, u, users[u], readings[u]);
      ghost var k := PendingOf(sent, readings[u], u)[0];
      shown := CheckOnce(u);
      readings := readings[u := Passed(readings[u], sent, u, k)];
    }

    /** The loop of checkx(): everything u has received since it last ran is shown once, in the order it
        was sent, and u's own messages are passed over. */
    method CheckX(u: int) returns (shown: seq<Message>)
      requires Valid() && u in users
      requires forall k :: k in PendingOf(sent, readings[u], u) ==>
        base <= k < |sent| && !Scrolled(sent[k].pos, xcurpos, xmsgsize)
      modifies this`users, this`readings
      ensures u in readings && readings == old(readings)[u := readings[u]]
      ensures users == old(users)[u := old(users)[u].(xseenpos := 0)]
      ensures Valid() && PendingOf(sent, readings[u], u) == []
      ensures Within(PendingOf(sent, old(readings)[u], u), sent)
      ensures var news := Received(sent, PendingOf(sent, old(readings)[u], u), u);
        readings[u].shown == old(readings)[u].shown + news && Within(news, sent) && shown == Contents(sent, news)
    {
      hide Laid, Stored, UserFits, Scrolled, PendingOf, Next, Received, Contents;
      ghost var was, seen, pending, i := users, readings, PendingOf(sent, readings[u], u), 0;
      PendingWithin(sent, readings[u], u);
      shown := [];
      NothingYet(sent, pending, u);
      NothingPending(xmsg, sent, base, lap, xcurpos, u, users[u], readings[u]);
      while users[u].xseenpos != 0
        invariant Valid() && users.Keys == was.Keys && 0 <= i <= |pending|
        invariant users == was[u := users[u]] && users[u] == was[u].(xseenpos := users[u].xseenpos)
        invariant readings == seen[u := readings[u]]
        invariant PendingOf(sent, readings[u], u) == pending[i..] && (users[u].xseenpos == 0 <==> i == |pending|)
        invariant readings[u].shown == seen[u].shown + Received(sent, pending[..i], u)
        invariant shown == Contents(sent, Received(sent, pending[..i], u))
        decreases |pending| - i
      {
        ghost var k := pending[i];
        assert k in pending;
        var more := ReadOne(u);
        shown := shown + more;
        ReceivedOne(sent, pending[..i], k, u);
        assert pending[..i + 1] == pending[..i] + [k];
        ghost var one := if sent[k].m.rnum == u then [k] else [];
        ContentsGrow(sent, Received(sent, pending[..i], u), one);
        ContentsOne(sent, one);
        assert seen[u].shown + Received(sent, pending[..i], u) + one
             == seen[u].shown + (Received(sent, pending[..i], u) + one);
        i := i + 1;
        NothingPending(xmsg, sent, base, lap, xcurpos, u, users[u], readings[u]);
      }
      assert pending[..i] == pending;
    }

    /** sendx(), and checkx() of the receiver: whoever can still be shown what was pending is shown that and
        the new message last, if a sixty-fourth of the database is left beside it. */
    method Express(m: Message, send: seq<string>) returns (wrote: bool, shown: seq<Message>)
      requires Valid() && |send| <= XLENGTH && m.text == Kept(send, 0) && !m.kind.Broadcast? && CanLink(m)
      requires L.Aligned(Start() + Extent(m)) - Start() <= xmsgsize - xmsgsize / 64
      requires forall k :: k in PendingOf(sent, readings[m.rnum], m.rnum) ==>
        && NewBase(sent, StartBase(), StartLap(), Sent(Start(), m)) <= k < |sent|
        && !Scrolled(sent[k].pos, L.Aligned(Start() + Extent(m)), xmsgsize)
      modifies this
      ensures Valid() && wrote && old(m.rnum in readings)
      ensures var d := PendingOf(old(sent), old(readings)[m.rnum], m.rnum);
        Within(d, old(sent)) && shown == Contents(old(sent), Received(old(sent), d, m.rnum)) + [m]
    {
      hide Laid, UserFits, PendingOf, Received, Contents, NewBase, NewestKept, PlacesAfter;
      var u, s := m.rnum, Sent(Start(), m);
      ghost var was, g := sent, readings[u];
      assert UserFits(xmsg, sent, base, u, users[u], g);
      PendingWithin(was, g, u);
      PendingGrows(xmsg, was, base, u, users[u], g, s);
      var told := SendX(m, send);
      LaidPlaces(sent, base, lap, xcurpos);
      PresentShown(sent, base, lap, xcurpos, xmsgsize, |was|);
      assert sent[|was|] == s && readings[u] == g;
      var code, prev, next;
      code, wrote, prev, next := DisplayX(u, s.pos, false);
      forall k | k in PendingOf(sent, readings[u], u)
        ensures base <= k < |sent| && !Scrolled(sent[k].pos, xcurpos, xmsgsize)
      {
        assert k in PendingOf(was, g, u) || k == |was|;
      }
      shown := CheckX(u);
    }

    /** xinit(): what was pending at an earlier login is not shown any more; a new account forgets its list. */
    method Xinit(u: int, reset: bool)
      requires Valid() && u in users
      modifies this`users, this`readings
      ensures Valid() && users == old(users)[u := if reset then Places(0, 0, 0) else old(users)[u].(xseenpos := 0)]
      ensures readings == old(readings)[u := readings[u]] && PendingOf(sent, readings[u], u) == []
      ensures readings[u].shown == []
    {
      hide Laid, Stored, UserFits;
      users := users[u := users[u].(xseenpos := 0)];
      if reset {
        users := users[u := users[u].(xmaxpos := 0)];
        users := users[u := users[u].(xminpos := 0)];
      }
      ghost var g := readings[u];
      ghost var n := |Mine(sent, g.since, u)|;
      readings := readings[u := if reset then Reading(|sent|, 0, 0, []) else Reading(g.since, n, n, [])];
      FreshReading(xmsg, sent, base, u, old(users[u]), g);
    }

    /** xyell() is about to look at message c[cut - 1], and has found what follows it. */
    ghost predicate Looking(me: int, other: int, c: seq<nat>, cut: nat, pos: int, t: int, found: seq<int>)
      reads this
    {
      && Within(c, sent) && cut <= |c| && pos == At(sent, c, cut - 1)
      && t == (if cut < |c| then sent[c[cut]].m.time else 0)
      && found == Conversation(sent, c[cut..], me, other) && Looked(sent, c, cut, xcurpos, xmsgsize)
    }

    /** One pass of the loop in xyell(). */
    method LookBack(me: int, other: int, pos: int, t: int, found: seq<int>, ghost c: seq<nat>, ghost cut: nat)
      returns (stop: bool, pos': int, t': int, found': seq<int>)
      requires Valid() && me in users && Looking(me, other, c, cut, pos, t, found) && cut > 0
      requires c == Mine(sent, readings[me].since, me) && (forall k :: k in c ==> base <= k)
      ensures stop ==> Scrolled(sent[c[cut - 1]].pos, xcurpos, xmsgsize) || Jumps(sent, c, cut - 1)
      ensures stop ==> found' == found
      ensures !stop ==> Looking(me, other, c, cut - 1, pos', t', found')
    {
      hide UserFits, PlacesFit, Laid, Stored, Linked, Mine, Scrolled,
           Prev, Next, SeenFits, Conversation, Jumps, At, Looked;
      ListFacts(xmsg, sent, base, lap, xcurpos, me, users[me], readings[me]);
      AtPlace(sent, c, cut - 1);
      assert c[cut - 1] in c;
      OneLink(xmsg, sent, base, c, me, cut - 1);
      ConversationStep(sent, c, cut - 1, xcurpos, xmsgsize, me, other);
      var xh := xmsg[pos];
      pos', t', found' := Prev(xh, me), xh.m.time, found;
      if Scrolled(pos, xcurpos, xmsgsize) || (t != 0 && xh.m.time > t + 60) {
        return true, pos', t', found';
      }
      stop := false;
      if (xh.m.snum != me && xh.m.snum == other) || (xh.m.snum == me && xh.m.rnum == other) {
        found' := found + [pos];
      }
    }

    /** xyell(): the conversation of `me` with `other`, newest first, found along the prev links. */
    method Xyell(me: int, other: int) returns (found: seq<int>)
      requires Valid() && me in users
      requires forall k :: k in Mine(sent, readings[me].since, me) ==> base <= k
      ensures Overheard(sent, Mine(sent, readings[me].since, me), xcurpos, xmsgsize, me, other, found)
    {
      hide UserFits, PlacesFit, Laid, Stored, Linked, Mine, Scrolled, SeenFits, Conversation, Jumps, At, Looked;
      ghost var c := Mine(sent, readings[me].since, me);
      ListFacts(xmsg, sent, base, lap, xcurpos, me, users[me], readings[me]);
      NoConversation(sent, c, xcurpos, xmsgsize, me, other);
      var pos, t := users[me].xmaxpos, 0;
      ghost var cut: nat := |c|;
      found := [];
      assert c[|c|..] == [];
      AtPlace(sent, c, cut - 1);
      while pos != 0
        invariant cut <= |c| && Looking(me, other, c, cut, pos, t, found) && (pos == 0 <==> cut == 0)
        decreases cut
      {
        var stop;
        stop, pos, t, found := LookBack(me, other, pos, t, found, c, cut);
        if stop {
          assert HeardFrom(sent, c, cut, xcurpos, xmsgsize, me, other, found);
          return;
        }
        cut := cut - 1;
        AtPlace(sent, c, cut - 1);
      }
      assert HeardFrom(sent, c, 0, xcurpos, xmsgsize, me, other, found);
    }
  }

  // ---------------------------------------------------------------- a reader that never gets past a message

  /** A message without text from user 1. */
  function Note(to: int): (m: Message)
    ensures Extent(m) == HEADER + 1
  {
    Message(1, to, Normal, 0, [])
  }

  method SendNote(db: Database, to: int)
    requires db.Valid() && db.CanLink(Note(to))
    modifies db
    ensures db.Valid() && db.users.Keys == old(db.users.Keys)
    ensures db.sent == old(db.sent) + [Sent(old(db.Start()), Note(to))]
    ensures db.xcurpos == L.Aligned(old(db.Start()) + HEADER + 1)
    ensures db.lap == old(db.StartLap()) <= |old(db.sent)| && old(db.StartBase()) <= db.lap
    ensures db.base == NewBase(old(db.sent), old(db.StartBase()), db.lap, Sent(old(db.Start()), Note(to)))
    ensures forall u :: u in db.users ==>
      && u in db.readings && u in old(db.readings)
      && db.readings[u].since == old(db.readings)[u].since && (u != 1 ==> db.readings[u] == old(db.readings)[u])
  {
    hide Database.Valid, Database.CanLink, NewBase, PlacesAfter, L.Aligned;
    var told := db.SendX(Note(to), []);
  }

  /** The database is in its first round and has room for one note more. */
  ghost predicate Early(db: Database)
    reads db
  {
    && db.Valid() && db.users.Keys == {1, 2} == db.readings.Keys && db.xmsgsize == 640 && db.base == db.lap == 0
    && db.xcurpos + RESERVE < 640 && (db.xcurpos == 0 ==> db.sent == [])
    && db.readings[1].since == 0 && db.readings[2] == Reading(0, 0, 0, [])
  }

  method EarlyNote(db: Database, to: int)
    requires Early(db) && (to == 1 || to == 2)
    modifies db
    ensures db.Valid() && db.users.Keys == {1, 2} == db.readings.Keys && db.base == db.lap == 0
    ensures db.sent == old(db.sent) + [Sent(old(db.Start()), Note(to))]
    ensures db.xmsgsize == 640 && db.xcurpos == L.Aligned(old(db.Start()) + HEADER + 1)
    ensures db.readings[1].since == 0 && db.readings[2] == Reading(0, 0, 0, [])
  {
    hide Database.Valid, NewBase, NewestKept;
    NothingGone(db.sent, Sent(db.Start(), Note(to)), db.readings);
    SendNote(db, to);
    SameKeys(db);
  }

  /** User 1 writes to himself, to user 2, and to himself again. */
  method ThreeNotes() returns (db: Database)
    ensures fresh(db) && db.Valid() && db.users.Keys == {1, 2} && db.xmsgsize == 640 && db.xcurpos == 136
    ensures db.sent == [Sent(4, Note(1)), Sent(48, Note(2)), Sent(92, Note(1))] && db.base == db.lap == 0
    ensures db.readings.Keys == {1, 2} && db.readings[1].since == 0 && db.readings[2] == Reading(0, 0, 0, [])
  {
    hide Database.Valid;
    db := new Database(640, {1, 2});
    SameKeys(db);
    EarlyNote(db, 1);
    EarlyNote(db, 2);
    EarlyNote(db, 1);
  }

  lemma SameKeys(db: Database)
    requires db.Valid()
    ensures db.users.Keys == db.readings.Keys
  {
  }

  /** In the first round nothing is overwritten. */
  lemma NothingGone(sent: seq<Sent>, s: Sent, readings: map<int, Reading>)
    ensures NewBase(sent, 0, 0, s) == 0
    ensures forall u :: u in readings ==> NewestKept(sent, 0, u, readings[u])
  {
  }

  /** One note more, to user 2, writes over the first: whoever goes to see that one is shown the other. */
  method Mistaken() returns (db: Database, code: int, wrote: bool)
    ensures fresh(db) && db.Valid() && |db.sent| == 4 && db.base == 1 && wrote
    ensures db.sent[0].pos in db.xmsg && db.xmsg[db.sent[0].pos].m == db.sent[3].m != db.sent[0].m
  {
    hide Laid, UserFits, SeenAfter, Mine, NewBase;
    db := ThreeNotes();
    ThirdKept(db.sent, 2);
    SameKeys(db);
    SendNote(db, 2);
    StoredAll(db);
    assert db.base == 1;
    assert db.sent[3] == Sent(4, Note(2)) && db.sent[0] == Sent(4, Note(1));
    var prev, next;
    code, wrote, prev, next := db.DisplayX(1, 4, false);
  }

  /** After one note more the cursor has been back at the start, and the message to user 2 is just ahead of
      it, and whole: the reader of that message never gets past it. */
  method Overlooked() returns (db: Database)
    ensures fresh(db) && db.Valid() && 2 in db.users && PendingOf(db.sent, db.readings[2], 2) == [1]
    ensures db.base <= 1 < |db.sent| && Scrolled(db.sent[1].pos, db.xcurpos, db.xmsgsize)
    ensures forall n :: SeenAfter(db.xmsg, db.xcurpos, db.xmsgsize, 2, db.users[2].xseenpos, n) != 0
  {
    hide Laid, Stored, UserFits, SeenAfter, Mine, NewBase;
    db := ThreeNotes();
    ThirdKept(db.sent, 1);
    SameKeys(db);
    SendNote(db, 1);
    OnePending(db.sent);
    DrainEnds(db.xmsg, db.sent, db.base, db.lap, db.xcurpos, db.xmsgsize, 2, db.users[2], db.readings[2], [1]);
  }

  lemma ThirdKept(sent: seq<Sent>, to: int)
    requires sent == [Sent(4, Note(1)), Sent(48, Note(2)), Sent(92, Note(1))]
    ensures NewBase(sent, 0, 3, Sent(4, Note(to))) == 1
    ensures var c := Mine(sent, 0, 1); c != [] && c[|c| - 1] == 2
    ensures var c := Mine(sent, 0, 2); c != [] && c[|c| - 1] == 1
  {
    var q := Spans(sent);
    assert q[0].pos == 4 && q[1].pos == 48;
    var c, d := Mine(sent, 0, 1), Mine(sent, 0, 2);
    assert 2 in c && 1 in d;
    assert Involves(sent[d[|d| - 1]].m, 2);
  }

  lemma StoredAll(db: Database)
    requires db.Valid()
    ensures forall k :: db.base <= k < |db.sent| ==>
      db.sent[k].pos in db.xmsg && db.xmsg[db.sent[k].pos].m == db.sent[k].m
  {
  }

  lemma OnePending(sent: seq<Sent>)
    requires sent == [Sent(4, Note(1)), Sent(48, Note(2)), Sent(92, Note(1)), Sent(4, Note(1))]
    ensures Mine(sent, 0, 2) == [1]
  {
    var c := Mine(sent, 0, 2);
    assert 1 in c && (|c| > 1 ==> c[0] < c[1]);
    forall i | 0 <= i < |c| ensures c[i] == 1 {
      assert Involves(sent[c[i]].m, 2);
    }
  }

  /** The conversation is complete from message c[cut] on, all of which were looked at; the message
      before, if any, is scrolled over or out of time. */
  ghost predicate HeardFrom(sent: seq<Sent>, c: seq<nat>, cut: nat, cur: int, size: int, me: int, other: int,
                            found: seq<int>)
  {
    && Within(c, sent) && cut <= |c| && found == Conversation(sent, c[cut..], me, other)
    && Looked(sent, c, cut, cur, size)
    && (cut > 0 ==> Scrolled(sent[c[cut - 1]].pos, cur, size) || Jumps(sent, c, cut - 1))
  }

  ghost predicate Overheard(sent: seq<Sent>, c: seq<nat>, cur: int, size: int, me: int, other: int, found: seq<int>)
  {
    exists cut :: HeardFrom(sent, c, cut, cur, size, me, other, found)
  }

  /** After a delivery everybody's lists are in order. */
  lemma AllFit(x: map<int, XHeader>, sent: seq<Sent>, base: nat, b: nat, lap: nat, s: Sent, was: map<int, Places>,
               seen: map<int, Reading>)
    requires Laid(sent, b, lap, s.pos) && s.pos >= FIRST && Stored(x, sent, base) && base <= b && !s.m.kind.Broadcast?
    requires b <= lap <= |sent| && was.Keys == seen.Keys && s.m.snum in was && s.m.rnum in was
    requires forall u :: u in was ==> UserFits(x, sent, base, u, was[u], seen[u])
    requires NewestKept(sent, NewBase(sent, b, lap, s), s.m.snum, seen[s.m.snum])
    requires NewestKept(sent, NewBase(sent, b, lap, s), s.m.rnum, seen[s.m.rnum])
    requires was[s.m.snum].xmaxpos == 0 || was[s.m.snum].xmaxpos in Survivors(x, s.pos, Stop(s))
    requires was[s.m.rnum].xmaxpos == 0 || was[s.m.rnum].xmaxpos in Survivors(x, s.pos, Stop(s))
    ensures var y, b' := Delivered(x, s, was[s.m.snum].xmaxpos, was[s.m.rnum].xmaxpos), NewBase(sent, b, lap, s);
      Stored(y, sent + [s], b') && forall u :: u in was ==>
        UserFits(y, sent + [s], b', u, PlacesAfter(was[u], u, s), ReadingAfter(was[u], seen[u], u, s))
  {
    hide UserFits, Stored, Delivered, PlacesAfter, ReadingAfter, NewestKept, Survivors, NewBase, Laid;
    var o, r := s.m.snum, s.m.rnum;
    StillFits(x, sent, base, b, o, was[o], seen[o]);
    StillFits(x, sent, base, b, r, was[r], seen[r]);
    DeliveryFits(x, sent, b, lap, s, was[o], seen[o], was[r], seen[r], o, was[o], seen[o]);
    forall u | u in was
      ensures UserFits(Delivered(x, s, was[o].xmaxpos, was[r].xmaxpos), sent + [s], NewBase(sent, b, lap, s), u,
                       PlacesAfter(was[u], u, s), ReadingAfter(was[u], seen[u], u, s))
    {
      StillFits(x, sent, base, b, u, was[u], seen[u]);
      DeliveryFits(x, sent, b, lap, s, was[o], seen[o], was[r], seen[r], u, was[u], seen[u]);
    }
  }

  /** What is left of the log is linked as before when the cursor returns to the start. */
  lemma StillFits(x: map<int, XHeader>, sent: seq<Sent>, base: nat, b: nat, u: int, p: Places, g: Reading)
    requires Stored(x, sent, base) && UserFits(x, sent, base, u, p, g) && base <= b
    ensures Stored(x, sent, b) && UserFits(x, sent, b, u, p, g)
  {
  }

  lemma Reachable(x: map<int, XHeader>, sent: seq<Sent>, base: nat, lap: nat, s: Sent,
                  po: Places, go: Reading, pr: Places, gr: Reading)
    requires Laid(sent, base, lap, s.pos) && s.pos >= FIRST && Stored(x, sent, base) && !s.m.kind.Broadcast?
    requires UserFits(x, sent, base, s.m.snum, po, go) && NewestKept(sent, NewBase(sent, base, lap, s), s.m.snum, go)
    requires UserFits(x, sent, base, s.m.rnum, pr, gr) && NewestKept(sent, NewBase(sent, base, lap, s), s.m.rnum, gr)
    requires s.m.snum == s.m.rnum ==> po == pr && go == gr
    ensures po.xmaxpos != s.pos && (po.xmaxpos == 0 || po.xmaxpos in Survivors(x, s.pos, Stop(s)))
    ensures pr.xmaxpos != s.pos && (pr.xmaxpos == 0 || pr.xmaxpos in Survivors(x, s.pos, Stop(s)))
  {
    hide UserFits, Stored, Delivered, Relink;
    DeliveryFits(x, sent, base, lap, s, po, go, pr, gr, s.m.snum, po, go);
  }

  /** What has been read once message k has been passed. */
  ghost function Passed(g: Reading, sent: seq<Sent>, u: int, k: nat): Reading
    requires k < |sent|
  {
    g.(mark := g.mark + 1, shown := g.shown + (if sent[k].m.rnum == u then [k] else []))
  }

  /** u's messages that have not been passed yet. */
  ghost function PendingOf(sent: seq<Sent>, g: Reading, u: int): seq<nat>
  {
    var c := Mine(sent, g.since, u);
    if g.mark <= |c| then c[g.mark..] else []
  }

  lemma SeenOne(sent: seq<Sent>, c: seq<nat>, u: int, g: Reading)
    requires Within(c, sent) && SeenFits(sent, c, u, g) && g.mark < |c|
    ensures SeenFits(sent, c, u, Passed(g, sent, u, c[g.mark]))
  {
    hide Received;
    ReceivedOne(sent, c[g.from..g.mark], c[g.mark], u);
    assert c[g.from..g.mark + 1] == c[g.from..g.mark] + [c[g.mark]];
  }

  lemma PlacesOne(x: map<int, XHeader>, sent: seq<Sent>, base: nat, c: seq<nat>, u: int, p: Places, mark: nat)
    requires Stored(x, sent, base) && Within(c, sent) && Linked(x, sent, base, c, u) && PlacesFit(sent, c, p, mark)
    requires mark < |c| && base <= c[mark] && forall k :: 0 <= k < |sent| ==> sent[k].pos >= FIRST
    ensures p.xseenpos == sent[c[mark]].pos != 0 && sent[c[mark]].pos in x && x[sent[c[mark]].pos].m == sent[c[mark]].m
    ensures PlacesFit(sent, c, p.(xseenpos := Next(x[sent[c[mark]].pos], u)), mark + 1)
  {
  }

  lemma MarkWithin(sent: seq<Sent>, c: seq<nat>, u: int, g: Reading)
    requires Within(c, sent) && SeenFits(sent, c, u, g)
    ensures g.from <= g.mark <= |c|
  {
  }

  /** `xseenpos` names the first of them, and the next link the second. */
  lemma FirstPending(x: map<int, XHeader>, sent: seq<Sent>, base: nat, lap: nat, cur: int, u: int, p: Places,
                     g: Reading)
    requires Laid(sent, base, lap, cur) && Stored(x, sent, base) && UserFits(x, sent, base, u, p, g)
    requires PendingOf(sent, g, u) != [] && base <= PendingOf(sent, g, u)[0]
    ensures var k := PendingOf(sent, g, u)[0];
      && k < |sent| && Involves(sent[k].m, u) && sent[k].pos in x && x[sent[k].pos].m == sent[k].m
      && p.xseenpos == sent[k].pos != 0
      && UserFits(x, sent, base, u, p.(xseenpos := Next(x[sent[k].pos], u)), Passed(g, sent, u, k))
      && PendingOf(sent, Passed(g, sent, u, k), u) == PendingOf(sent, g, u)[1..]
  {
    hide Mine, Laid, Linked, SeenFits, PlacesFit, Next, Stored, Received;
    var c := Mine(sent, g.since, u);
    LaidPlaces(sent, base, lap, cur);
    MarkWithin(sent, c, u, g);
    PlacesOne(x, sent, base, c, u, p, g.mark);
    SeenOne(sent, c, u, g);
  }

  /** What is pending for the receiver of one message more. */
  lemma PendingGrows(x: map<int, XHeader>, sent: seq<Sent>, base: nat, u: int, p: Places, g: Reading, s: Sent)
    requires Stored(x, sent, base) && UserFits(x, sent, base, u, p, g) && Involves(s.m, u) && s.m.rnum == u
    requires Within(PendingOf(sent, g, u), sent)
    ensures var d := PendingOf(sent, g, u);
      && PendingOf(sent + [s], g, u) == d + [|sent|] && Within(d + [|sent|], sent + [s])
      && Contents(sent + [s], Received(sent + [s], d + [|sent|], u)) == Contents(sent, Received(sent, d, u)) + [s.m]
  {
    hide Received, Linked, Mine;
    var d := PendingOf(sent, g, u);
    MineGrows(sent, s, g.since, u);
    ReceivedOne(sent + [s], d, |sent|, u);
    ReceivedGrows(sent, s, d, u);
  }

  lemma PendingWithin(sent: seq<Sent>, g: Reading, u: int)
    ensures Within(PendingOf(sent, g, u), sent)
  {
  }

  lemma NothingYet(sent: seq<Sent>, q: seq<nat>, u: int)
    ensures Received(sent, q[..0], u) == [] && Contents(sent, []) == []
  {
  }

  lemma ContentsOne(sent: seq<Sent>, q: seq<nat>)
    requires Within(q, sent)
    ensures q == [] ==> Contents(sent, q) == []
    ensures |q| == 1 ==> Contents(sent, q) == [sent[q[0]].m]
  {
  }

  lemma ContentsGrow(sent: seq<Sent>, q: seq<nat>, r: seq<nat>)
    requires Within(q, sent) && Within(r, sent)
    ensures Within(q + r, sent) && Contents(sent, q + r) == Contents(sent, q) + Contents(sent, r)
  {
  }

  lemma NothingPending(x: map<int, XHeader>, sent: seq<Sent>, base: nat, lap: nat, cur: int, u: int, p: Places,
                       g: Reading)
    requires Laid(sent, base, lap, cur) && Stored(x, sent, base) && UserFits(x, sent, base, u, p, g)
    ensures p.xseenpos == 0 <==> PendingOf(sent, g, u) == []
  {
    LaidPlaces(sent, base, lap, cur);
    hide Laid, Linked, SeenFits;
  }

  ghost function Contents(sent: seq<Sent>, q: seq<nat>): seq<Message>
    requires Within(q, sent)
  {
    seq(|q|, i requires 0 <= i < |q| => sent[q[i]].m)
  }

  lemma BroadcastStored(x: map<int, XHeader>, sent: seq<Sent>, base: nat, lap: nat, s: Sent, h: XHeader)
    requires Laid(sent, base, lap, s.pos) && s.pos >= FIRST && Stored(x, sent, base) && s.m == h.m
    ensures base <= lap <= |sent|
    ensures Stored(Survivors(x, s.pos, Stop(s))[s.pos := h], sent + [s], NewBase(sent, base, lap, s))
  {
    StoredAppend(x, sent, base, lap, s.pos, s, h);
  }

  /** A broadcast changes nobody's list. */
  lemma BroadcastFits(x: map<int, XHeader>, sent: seq<Sent>, base: nat, lap: nat, s: Sent, h: XHeader, u: int,
                      p: Places, g: Reading)
    requires Laid(sent, base, lap, s.pos) && s.pos >= FIRST && Stored(x, sent, base) && s.m == h.m
    requires s.m.kind.Broadcast?
    requires UserFits(x, sent, base, u, p, g)
    ensures base <= lap <= |sent|
    ensures var y, b := Survivors(x, s.pos, Stop(s))[s.pos := h], NewBase(sent, base, lap, s);
      Stored(y, sent + [s], b) && UserFits(y, sent + [s], b, u, p, g)
  {
    hide UserFits, Survivors, Mine;
    var y, b := Survivors(x, s.pos, Stop(s))[s.pos := h], NewBase(sent, base, lap, s);
    StoredAppend(x, sent, base, lap, s.pos, s, h);
    assert Rewired(y, y, sent + [s], b, u, -1, s.pos);
    LinksOf(x, y, y, sent, s, b, u, -1);
    hide Laid, Rewired, Stored;
    FitsBystander(x, y, sent, s, base, b, u, p, g);
  }

  lemma FreshReading(x: map<int, XHeader>, sent: seq<Sent>, base: nat, u: int, p: Places, g: Reading)
    requires Stored(x, sent, base) && UserFits(x, sent, base, u, p, g)
    ensures UserFits(x, sent, base, u, Places(0, 0, 0), Reading(|sent|, 0, 0, []))
    ensures PendingOf(sent, Reading(|sent|, 0, 0, []), u) == []
    ensures var n := |Mine(sent, g.since, u)|;
      && UserFits(x, sent, base, u, p.(xseenpos := 0), Reading(g.since, n, n, []))
      && PendingOf(sent, Reading(g.since, n, n, []), u) == []
  {
    var c := Mine(sent, g.since, u);
    assert Mine(sent, |sent|, u) == [];
    assert c[|c|..|c|] == c[|c|..] == [];
    hide Mine;
    assert Linked(x, sent, base, [], u);
    hide Linked;
  }

  lemma ListFacts(x: map<int, XHeader>, sent: seq<Sent>, base: nat, lap: nat, cur: int, u: int, p: Places, g: Reading)
    requires Laid(sent, base, lap, cur) && Stored(x, sent, base) && UserFits(x, sent, base, u, p, g)
    ensures var c := Mine(sent, g.since, u);
      Within(c, sent) && Linked(x, sent, base, c, u) && p.xmaxpos == At(sent, c, |c| - 1) && p.xminpos == At(sent, c, 0)
    ensures forall k :: 0 <= k < |sent| ==> sent[k].pos >= FIRST
  {
    hide Linked, Mine, At, Received;
  }

  lemma AtPlace(sent: seq<Sent>, c: seq<nat>, i: int)
    requires Within(c, sent) && -1 <= i < |c| && forall k :: 0 <= k < |sent| ==> sent[k].pos >= FIRST
    ensures At(sent, c, i) == 0 <==> i == -1
  {
  }

  /** The messages between the two, newest first. */
  ghost function Conversation(sent: seq<Sent>, c: seq<nat>, me: int, other: int): seq<int>
    requires Within(c, sent)
  {
    if c == [] then [] else
    var m := sent[c[0]].m;
    Conversation(sent, c[1..], me, other)
      + (if (m.snum != me && m.snum == other) || (m.snum == me && m.rnum == other) then [sent[c[0]].pos] else [])
  }

  /** Message number c[i] claims to be more than a minute younger than its successor. */
  ghost predicate Jumps(sent: seq<Sent>, c: seq<nat>, i: int)
    requires Within(c, sent) && 0 <= i < |c|
  {
    i + 1 < |c| && sent[c[i + 1]].m.time != 0 && sent[c[i]].m.time > sent[c[i + 1]].m.time + 60
  }

  /** Every message from the i-th on was looked at. */
  ghost predicate Looked(sent: seq<Sent>, c: seq<nat>, i: nat, cur: int, size: int)
    requires Within(c, sent)
  {
    forall j :: i <= j < |c| ==> !Scrolled(sent[c[j]].pos, cur, size) && !Jumps(sent, c, j)
  }

  lemma NoConversation(sent: seq<Sent>, c: seq<nat>, cur: int, size: int, me: int, other: int)
    requires Within(c, sent)
    ensures Conversation(sent, [], me, other) == [] && Looked(sent, c, |c|, cur, size)
  {
  }

  lemma ConversationStep(sent: seq<Sent>, c: seq<nat>, i: nat, cur: int, size: int, me: int, other: int)
    requires Within(c, sent) && i < |c|
    ensures var m := sent[c[i]].m;
      Conversation(sent, c[i..], me, other) == Conversation(sent, c[i + 1..], me, other)
        + (if (m.snum != me && m.snum == other) || (m.snum == me && m.rnum == other) then [sent[c[i]].pos] else [])
    ensures Jumps(sent, c, i) <==>
      i + 1 < |c| && sent[c[i + 1]].m.time != 0 && sent[c[i]].m.time > sent[c[i + 1]].m.time + 60
    ensures Looked(sent, c, i + 1, cur, size) && !Scrolled(sent[c[i]].pos, cur, size) && !Jumps(sent, c, i) ==>
      Looked(sent, c, i, cur, size)
  {
  }

  lemma {:induction false} ReceivedAll(sent: seq<Sent>, c: seq<nat>, d: seq<nat>, u: int)
    requires Within(c, sent) && Within(d, sent)
    ensures Received(sent, c + d, u) == Received(sent, c, u) + Received(sent, d, u)
  {
    if d == [] {
      assert c + d == c;
    } else {
      var e, k := d[..|d| - 1], d[|d| - 1];
      ReceivedOne(sent, e, k, u);
      assert d == e + [k];
      hide Received;
      ReceivedAll(sent, c, e, u);
      ReceivedOne(sent, c + e, k, u);
      assert c + d == (c + e) + [k];
    }
  }

  /** Over any run of sends and readings, what u has been shown and what is still to be shown make up
      exactly what was sent to u since the last login, in the order it was sent. */
  lemma NothingLostOrRepeated(x: map<int, XHeader>, sent: seq<Sent>, base: nat, u: int, p: Places, g: Reading)
    requires Stored(x, sent, base) && UserFits(x, sent, base, u, p, g)
    ensures var c, d := Mine(sent, g.since, u), PendingOf(sent, g, u);
      g.from <= |c| && Within(d, sent) && g.shown + Received(sent, d, u) == Received(sent, c[g.from..], u)
  {
    hide Linked, Mine, PlacesFit, Received;
    var c := Mine(sent, g.since, u);
    assert c[g.from..] == c[g.from..g.mark] + c[g.mark..];
    ReceivedAll(sent, c[g.from..g.mark], c[g.mark..], u);
  }
}
