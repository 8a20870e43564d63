/** reserve_slot() and remove_loggedin() of user.c, write by write. */
module OnlineWriters {
  import opened OnlineTable
  import opened OnlineWalk

  /** The index once the entries above place i, below place k + 1, have moved down by one. */
  function Moved(index: seq<int>, i: int, k: int): seq<int>
    requires 0 <= i <= k < |index|
  {
    index[..i] + index[i + 1..k + 1] + index[k..]
  }

  /** What the locked part of remove_loggedin() leaves behind when it starts from place i, which the
      search without the lock may have found when the index was longer. */
  function Removal(t: Table, slot: int, i: int): Table
    requires 0 <= t.users <= |t.index| && 0 <= i < |t.index| && 0 <= slot < |t.btmp|
  {
    Table(t.users - 1, if i < t.users then Moved(t.index, i, t.users - 1) else t.index, t.eternal + 1,
          t.btmp[slot := t.btmp[slot].(pid := 0, eternal := t.eternal + 1)], Idle)
  }

  /** What the locked part of reserve_slot() leaves behind. */
  function Arrival(t: Table, k: int, pid: nat): Table
    requires 0 <= t.users < |t.index| && 0 <= k < |t.btmp|
  {
    Table(t.users + 1, t.index[t.users := k], t.eternal + 1, t.btmp[k := Slot(pid, t.eternal + 1, true)], Idle)
  }

  /** A session of the process has come: it is listed last, under a number above all others, and nothing
      else has changed. */
  ghost predicate Arrived(t: Table, u: Table, k: int, pid: nat)
    requires Shaped(t) && Shaped(u) && 0 <= k < MAXUSERS
  {
    && u.users == t.users + 1 && u.index[..t.users] == t.index[..t.users] && u.index[t.users] == k
    && u.btmp[k].pid == pid && u.btmp[k].connecting
    && (forall s :: 0 <= s < MAXUSERS && s != k ==> u.btmp[s] == t.btmp[s] && t.btmp[s].eternal < u.btmp[k].eternal)
  }

  lemma ArrivalArrives(t: Table, k: int, pid: nat)
    requires Sound(t) && t.users < MAXUSERS && 0 <= k < MAXUSERS && Shaped(Arrival(t, k, pid))
    ensures Arrived(t, Arrival(t, k, pid), k, pid)
  {
    NumbersBelow(t);
    hide Sound;
    var u := Arrival(t, k, pid);
    assert u.index[..t.users] == t.index[..t.users];
  }

  lemma MovedNothing(index: seq<int>, i: int)
    requires 0 <= i < |index|
    ensures Moved(index, i, i) == index
  {
  }

  lemma MovedMore(index: seq<int>, i: int, k: int)
    requires 0 <= i <= k < |index| - 1
    ensures |Moved(index, i, k)| == |index|
    ensures Moved(index, i, k + 1) == Moved(index, i, k)[k := Moved(index, i, k)[k + 1]]
  {
  }

  // ---------------------------------------------------------------- a session nobody ends

  /** The process is online in this session, and no other slot has its pid. */
  ghost predicate Own(t: Table, s: Session, p: nat)
  {
    && Online(t, s, false) && 0 <= s.slot < |t.btmp| && t.btmp[s.slot].pid == p != 0
    && forall q :: 0 <= q < |t.btmp| && q != s.slot ==> t.btmp[q].pid != p
  }

  /** The write neither begins to remove the session nor brings the same pid once more. */
  predicate Spares(t: Table, u: Table, slot: int, p: nat)
  {
    && !(t.op.Idle? && u.op.Shift? && u.op.slot == slot)
    && !(t.op.Drawn? && 0 <= t.op.slot < |u.btmp| && u.btmp[t.op.slot].pid == p)
  }

  ghost predicate Undisturbed(h: seq<Table>, slot: int, p: nat, from: nat, end: nat)
    requires from <= end < |h|
  {
    forall k :: from <= k < end ==> Spares(h[k], h[k + 1], slot, p)
  }

  lemma OwnStep(t: Table, u: Table, s: Session, p: nat)
    requires Sound(t) && Sound(u) && Step(t, u) && Own(t, s, p) && Spares(t, u, s.slot, p)
    ensures Own(u, s, p)
  {
    hide Listed, Ordered, Numbered;
    NumbersRise(t, u, s.slot);
  }

  /** Whatever others write, as long as they neither remove the session nor bring its pid once more it
      stays online. */
  lemma {:induction false} OwnStays(h: seq<Table>, s: Session, p: nat, from: nat, end: nat)
    requires History(h) && from <= end < |h| && Own(h[from], s, p) && Undisturbed(h, s.slot, p, from, end)
    ensures Own(h[end], s, p)
    decreases end
  {
    hide Own, Spares;
    if from < end {
      OwnStays(h, s, p, from, end - 1);
      SoundAt(h, end - 1);
      SoundAt(h, end);
      assert StepAt(h, end - 1) && Spares(h[end - 1], h[end], s.slot, p);
      OwnStep(h[end - 1], h[end], s, p);
    }
  }

  // ---------------------------------------------------------------- the search without the lock

  /** The session has its pid and is online at every moment between the two. */
  ghost predicate Lasts(h: seq<Table>, s: Session, p: nat, from: nat, to: nat)
    requires from <= to < |h|
  {
    Throughout(h, s, false, from, to) && forall k :: from <= k <= to && s.slot < |h[k].btmp| ==> HasPid(h[k], s.slot, p)
  }

  ghost predicate HasPid(t: Table, slot: int, p: nat)
  {
    0 <= slot < |t.btmp| && t.btmp[slot].pid == p
  }

  /** Place i was read at one moment and the pid of its slot, p, at another. */
  ghost predicate Sighted(h: seq<Table>, p: nat, i: int, from: nat, to: nat)
  {
    exists e, k :: from <= e <= k <= to < |h| && 0 <= i < |h[e].index| && HasPid(h[k], h[e].index[i], p)
  }

  lemma StaysSighted(h: seq<Table>, g: seq<Table>, p: nat, i: int, from: nat, to: nat)
    requires h <= g && Sighted(h, p, i, from, to)
    ensures Sighted(g, p, i, from, to)
  {
    var e, k :| from <= e <= k <= to < |h| && 0 <= i < |h[e].index| && HasPid(h[k], h[e].index[i], p);
    assert HasPid(g[k], g[e].index[i], p);
  }

  /** Every session of the pid that has lasted so far is still to come. */
  ghost predicate AllAhead(h: seq<Table>, p: nat, from: nat, t: nat, i: int, top: int)
    requires from <= t < |h| && h[from].users == top + 1
  {
    forall s: Session :: Lasts(h, s, p, from, t) ==> Ahead(h[t], s, i, top, h[|h| - 1].eternal + 1)
  }

  lemma SearchStarts(h: seq<Table>, p: nat, t: nat)
    requires History(h) && t < |h| && Sound(h[t])
    ensures AllAhead(h, p, t, t, h[t].users - 1, h[t].users - 1)
  {
    hide History;
    SoundAt(h, |h| - 1);
    forall s: Session | Lasts(h, s, p, t, t)
      ensures Ahead(h[t], s, h[t].users - 1, h[t].users - 1, h[|h| - 1].eternal + 1)
    {
      assert Online(h[t], s, false);
      NumbersRiseOver(h, s.slot, t, |h| - 1);
      var j := BehindStart(h[t], s.slot, s.number);
    }
  }

  lemma SearchGoesOn(h: seq<Table>, p: nat, from: nat, t0: nat, t1: nat, t: nat, i: int, top: int)
    requires History(h) && from <= t0 <= t1 <= t < |h| && h[from].users == top + 1 && 0 <= i <= top < MAXUSERS
    requires AllAhead(h, p, from, t0, i, top)
    requires Shaped(h[t1]) && Shaped(h[t]) && h[t].btmp[h[t1].index[i]].pid != p
    ensures AllAhead(h, p, from, t, i - 1, top)
  {
    hide History, Behind;
    forall s: Session | Lasts(h, s, p, from, t)
      ensures Ahead(h[t], s, i - 1, top, h[|h| - 1].eternal + 1)
    {
      assert Throughout(h, s, false, from, t0) && Throughout(h, s, false, t0, t);
      assert Lasts(h, s, p, from, t0);
      assert Online(h[t], s, false);
      assert HasPid(h[t], s.slot, p);
      Visit(h, s, i, top, h[|h| - 1].eternal + 1, t0, t1, t, t, t, h[t1].index[i]);
    }
  }

  /** The search of remove_loggedin(), while others write: it finds whoever lasts. */
  method Search(h: seq<Table>, start: nat, p: nat) returns (i: int, from: nat, end: nat)
    requires History(h) && start < |h| && p != 0
    ensures start <= from <= end < |h| && -1 <= i < MAXUSERS
    ensures i >= 0 ==> Sighted(h, p, i, from, end)
    ensures i < 0 ==> forall s: Session :: !Lasts(h, s, p, from, end)
  {
    hide History, Sound, AllAhead;
    from := Later(h, start);
    end := from;
    AllShaped(h);
    SoundAt(h, from);
    i := h[from].users - 1;
    ghost var top := i;
    SearchStarts(h, p, from);
    while i >= 0
      invariant start <= from <= end < |h| && -1 <= i <= top < MAXUSERS && h[from].users == top + 1
      invariant AllAhead(h, p, from, end, i, top)
    {
      var entry := Later(h, end);
      var q := h[entry].index[i];
      var t := Later(h, entry);
      if h[t].btmp[q].pid == p {
        assert HasPid(h[t], h[entry].index[i], p);
        end := t;
        return;
      }
      SearchGoesOn(h, p, from, end, entry, t, i, top);
      end := t;
      i := i - 1;
    }
    NobodyLasts(h, p, from, end, top);
  }

  lemma NobodyLasts(h: seq<Table>, p: nat, from: nat, end: nat, top: int)
    requires from <= end < |h| && h[from].users == top + 1 && AllAhead(h, p, from, end, -1, top)
    ensures forall s: Session :: !Lasts(h, s, p, from, end)
  {
  }

  /** Place i of the index named the slot at some moment between the two. */
  ghost predicate Named(h: seq<Table>, slot: int, i: int, from: nat, end: nat)
    requires from <= end < |h|
  {
    exists e :: from <= e <= end && 0 <= i < |h[e].index| && h[e].index[i] == slot
  }

  /** What the search comes to for a pid that is online in one session all along: it finds that session. */
  lemma SearchFindsOwn(h: seq<Table>, s: Session, p: nat, since: nat, i: int, from: nat, end: nat)
    requires History(h) && since <= from <= end < |h| && Own(h[since], s, p)
    requires Undisturbed(h, s.slot, p, since, end)
    requires if i >= 0 then Sighted(h, p, i, from, end) else forall r: Session :: !Lasts(h, r, p, from, end)
    ensures i >= 0 && Named(h, s.slot, i, from, end)
  {
    hide History, Spares;
    forall k | since <= k <= end ensures Own(h[k], s, p) {
      OwnStays(h, s, p, since, k);
    }
    hide Undisturbed;
    assert Throughout(h, s, false, from, end);
    assert Lasts(h, s, p, from, end);
    var e, k :| from <= e <= k <= end && 0 <= i < |h[e].index| && HasPid(h[k], h[e].index[i], p);
    assert Own(h[k], s, p);
    assert h[e].index[i] == s.slot;
  }

  lemma MovedAt(index: seq<int>, i: int, k: int)
    requires 0 <= i <= k < |index|
    ensures |Moved(index, i, k)| == |index|
    ensures forall p :: i <= p < k ==> Moved(index, i, k)[p] == index[p + 1]
    ensures forall p :: (0 <= p < i || k <= p < |index|) ==> Moved(index, i, k)[p] == index[p]
  {
  }

  class BigBtmp {
    var users: int
    const index: array<int>
    var eternal: int
    const btmp: array<Slot>
    /** How far the holder of the lock has come, and the table after every write so far. */
    var op: Op
    var history: seq<Table>

    function Now(): Table
      reads this, index, btmp
    {
      Table(users, index[..], eternal, btmp[..], op)
    }

    ghost predicate Consistent()
      reads this, index, btmp
    {
      && index.Length == MAXUSERS && btmp.Length == MAXUSERS
      && History(history) && history[|history| - 1] == Now() && Sound(Now())
    }

    constructor ()
      ensures Consistent() && op == Idle && users == 0 && fresh(index) && fresh(btmp)
      ensures forall s :: 0 <= s < MAXUSERS ==> btmp[s] == Slot(0, 0, false)
    {
      users, eternal := 0, 0;
      index := new int[MAXUSERS](_ => 0);
      btmp := new Slot[MAXUSERS](_ => Slot(0, 0, false));
      op := Idle;
      new;
      assert forall s :: 0 <= s < MAXUSERS ==> btmp[..][s] == Slot(0, 0, false);
      history := [Now()];
    }

    method Log(ghost before: Table)
      requires index.Length == MAXUSERS && btmp.Length == MAXUSERS
      requires History(history) && history[|history| - 1] == before && Sound(before) && Step(before, Now())
      modifies this`history
      ensures Consistent() && history == old(history) + [Now()]
    {
      SoundStep(before, Now());
      ghost var h := history;
      history := history + [Now()];
      forall k | 0 <= k < |history| - 1 ensures StepAt(history, k) {
        assert k < |h| - 1 ==> StepAt(h, k);
      }
    }

    /** One entry moves down. */
    method MoveDown(slot: int, k: int)
      requires Consistent() && op == Shift(slot, k) && k < users - 1
      modifies this, index
      ensures Consistent() && old(history) <= history && users == old(users) && op == Shift(slot, k + 1)
      ensures 0 <= k < users - 1 < MAXUSERS && index[..] == old(index[..][k := index[k + 1]]) && eternal == old(eternal)
    {
      hide History, Sound;
      ghost var t := Now();
      SoundShape(t);
      index[k] := index[k + 1];
      assert index[..] == t.index[k := t.index[k + 1]];
      op := Shift(slot, k + 1);
      Log(t);
    }

    /** The loop that moves the entries above place i down by one. */
    method CloseGap(slot: int, i: int)
      requires Consistent() && op == Shift(slot, i)
      modifies this, index
      ensures Consistent() && old(history) <= history && users == old(users) && op == Shift(slot, users - 1)
      ensures eternal == old(eternal)
      ensures 0 <= i < users <= MAXUSERS && index[..] == Moved(old(index[..]), i, users - 1)
    {
      SoundShape(Now());
      hide History, Sound, Moved;
      MovedNothing(index[..], i);
      var k := i;
      while k < users - 1
        invariant Consistent() && users == old(users) && i <= k < users <= MAXUSERS && op == Shift(slot, k)
        invariant old(history) <= history && eternal == old(eternal)
        invariant index[..] == Moved(old(index[..]), i, k)
      {
        MovedMore(old(index[..]), i, k);
        MoveDown(slot, k);
        k := k + 1;
      }
    }

    /** The entry dropped, the pid cleared, and the slot given a number of its own. */
    method Leave(slot: int)
      requires Consistent() && op == Shift(slot, users - 1)
      modifies this, btmp
      ensures Consistent() && op == Idle && old(history) <= history
      ensures users == old(users) - 1 && index[..] == old(index[..]) && eternal == old(eternal) + 1
      ensures 0 <= slot < MAXUSERS && btmp[..] == old(btmp[..])[slot := old(btmp[slot]).(pid := 0, eternal := eternal)]
    {
      hide History, Sound;
      ghost var t := Now();
      SoundShape(t);
      users := users - 1;
      op := Shrunk(slot);
      Log(t);
      ghost var t1 := Now();
      btmp[slot] := btmp[slot].(pid := 0);
      op := Gone(slot);
      assert btmp[..] == t1.btmp[slot := t1.btmp[slot].(pid := 0)];
      Log(t1);
      ghost var t2 := Now();
      eternal := eternal + 1;
      op := Redrawn(slot);
      Log(t2);
      ghost var t3 := Now();
      btmp[slot] := btmp[slot].(eternal := eternal);
      op := Idle;
      assert btmp[..] == t3.btmp[slot := t3.btmp[slot].(eternal := eternal)];
      Log(t3);
    }

    /** Everything remove_loggedin() writes once it has found its entry. */
    method RemoveAt(slot: int, i: int)
      requires Consistent() && op == Idle && 0 <= i < users <= MAXUSERS && slot == index[i] && 0 <= slot < MAXUSERS
      requires btmp[slot].pid != 0
      modifies this, index, btmp
      ensures Consistent() && op == Idle && old(history) <= history && 0 <= i < old(users) <= MAXUSERS
      ensures Now() == Removal(old(Now()), slot, i)
    {
      hide History, Sound, Moved;
      ghost var t := Now();
      op := Shift(slot, i);
      Log(t);
      CloseGap(slot, i);
      Leave(slot);
    }

    /** The same from a place beyond the index: nothing is moved. */
    method RemoveStale(i: int)
      requires Consistent() && op == Idle && users <= i < MAXUSERS && btmp[index[i]].pid != 0
      modifies this`users, this`eternal, btmp
      ensures Now() == Removal(old(Now()), old(index[i]), i)
    {
      hide History;
      ghost var t := Now();
      users := users - 1;
      eternal := eternal + 1;
      btmp[index[i]] := btmp[index[i]].(pid := 0, eternal := eternal);
      assert btmp[..] == t.btmp[t.index[i] := t.btmp[t.index[i]].(pid := 0, eternal := eternal)];
    }

    /** What others do in the meantime: logins, and removals of sessions in their places. */
    method Meanwhile()
      requires Consistent() && op == Idle
      modifies this, index, btmp
      ensures Consistent() && op == Idle && old(history) <= history
    {
      hide History, Sound, Removal;
      var n: nat := *;
      while n > 0
        invariant Consistent() && op == Idle && old(history) <= history
      {
        SoundShape(Now());
        var k: nat, pid: nat := *, *;
        if k < users {
          RemoveAt(index[k], k);
        } else if k < MAXUSERS && pid != 0 {
          var _ := TryReserve(k, pid);
        }
        n := n - 1;
      }
    }

    /** remove_loggedin() from its search, which holds no lock, to the end of the locked part.  `seen` is
        the moment the search ended, `t` the table when the lock was had.  Found but gone by then
        (`!done`), the source starts over. */
    method TryRemove(p: nat)
      returns (i: int, done: bool, ghost from: nat, ghost seen: nat, ghost locked: nat, ghost t: Table)
      requires Consistent() && op == Idle && p != 0
      modifies this, index, btmp
      ensures old(history) <= history && |old(history)| <= from + 1 && from <= seen < |history| && History(history)
      ensures seen <= locked < |history| && history[locked] == t
      ensures Sound(t) && t.op == Idle && -1 <= i < MAXUSERS && (done ==> i >= 0)
      ensures i < 0 ==> forall s: Session :: !Lasts(history, s, p, from, seen)
      ensures i >= 0 ==> Sighted(history, p, i, from, seen) && (done <==> t.btmp[t.index[i]].pid == p)
      ensures !done ==> Consistent() && Now() == t
      ensures done ==> Now() == Removal(t, t.index[i], i)
      ensures done && i < t.users ==> Consistent() && op == Idle
      ensures done ==> (Sound(Now()) <==> i < t.users || t.index[i] == t.index[t.users - 1])
    {
      hide History, Sound, Removal, Lasts, Sighted;
      done := false;
      AllShaped(history);
      var start := |history| - 1;
      Meanwhile();
      i, from, seen := Search(history, start, p);
      locked, t := |history| - 1, Now();
      SoundShape(t);
      if i >= 0 && btmp[index[i]].pid == p {
        done := true;
        StalePlace(t, i);
        ghost var h := history;
        if i < users {
          RemoveAt(index[i], i);
          StaysSighted(h, history, p, i, from, seen);
        } else {
          RemoveStale(i);
        }
      }
    }

    /** The choice reserve_slot() makes without the lock: the free slot given up longest ago. */
    method ChooseSlot() returns (k: int)
      requires btmp.Length == MAXUSERS
      ensures 0 <= k < MAXUSERS
      ensures btmp[k].pid == 0 && btmp[k].eternal < NO_NUMBER ==>
        forall s :: 0 <= s < MAXUSERS && btmp[s].pid == 0 ==> btmp[k].eternal <= btmp[s].eternal
      ensures (exists s :: 0 <= s < MAXUSERS && btmp[s].pid == 0 && btmp[s].eternal < NO_NUMBER) ==> btmp[k].pid == 0
    {
      k := 0;
      var mineternal := NO_NUMBER;
      for i := 0 to MAXUSERS
        invariant 0 <= k < MAXUSERS && mineternal <= NO_NUMBER
        invariant mineternal < NO_NUMBER ==> btmp[k].pid == 0 && btmp[k].eternal == mineternal
        invariant forall s :: 0 <= s < i && btmp[s].pid == 0 ==> mineternal <= btmp[s].eternal
      {
        if btmp[i].pid == 0 && btmp[i].eternal < mineternal {
          k := i;
          mineternal := btmp[i].eternal;
        }
      }
    }

    /** What reserve_slot() writes. */
    method Take(k: int, pid: nat)
      requires Consistent() && op == Idle && pid != 0 && 0 <= k < MAXUSERS && btmp[k].pid == 0
      modifies this, index, btmp
      ensures Consistent() && op == Idle && old(history) <= history
      ensures old(users) < MAXUSERS && Now() == Arrival(old(Now()), k, pid)
    {
      hide History, Sound;
      ghost var t0 := Now();
      SoundShape(t0);
      eternal := eternal + 1;
      op := Drawn(k);
      Log(t0);
      ghost var t1 := Now();
      HasRoom(t1);
      btmp[k] := Slot(pid, eternal, true);
      op := Filled(k);
      assert btmp[..] == t1.btmp[k := Slot(pid, eternal, true)];
      Log(t1);
      ghost var t2 := Now();
      index[users] := k;
      op := Indexed(k);
      assert index[..] == t2.index[users := k];
      Log(t2);
      ghost var t3 := Now();
      users := users + 1;
      op := Idle;
      Log(t3);
    }

    /** The locked part of reserve_slot(), for whatever slot was chosen before the lock was had. */
    method TryReserve(k: int, pid: nat) returns (ok: bool)
      requires Consistent() && op == Idle && pid != 0 && 0 <= k < MAXUSERS
      modifies this, index, btmp
      ensures Consistent() && op == Idle && old(history) <= history
      ensures ok == (old(btmp[k].pid) == 0) && Shaped(old(Now())) && Shaped(Now())
      ensures !ok ==> Now() == old(Now())
      ensures ok ==> old(users) < MAXUSERS && Now() == Arrival(old(Now()), k, pid)
      ensures ok ==> Arrived(old(Now()), Now(), k, pid)
    {
      hide History, Sound, Arrived;
      ghost var t := Now();
      SoundShape(t);
      ok := btmp[k].pid == 0;
      if ok {
        Take(k, pid);
        SoundShape(Now());
        ArrivalArrives(t, k, pid);
      }
    }

    /** reserve_slot() from its check of the length to the end of one locked part.  `t` is the table when
        the lock was had; if the slot was taken meanwhile, the source chooses again. */
    method ReserveSlot(pid: nat) returns (full: bool, ok: bool, k: int, ghost t: Table)
      requires Consistent() && op == Idle && pid != 0
      modifies this, index, btmp
      ensures Consistent() && op == Idle && old(history) <= history
      ensures full == (old(users) >= MAXUSERS - 1) && 0 <= k < MAXUSERS
      ensures full ==> !ok && Now() == old(Now())
      ensures !full ==> Sound(t) && (ok <==> t.btmp[k].pid == 0)
      ensures !full && !ok ==> Now() == t
      ensures ok ==> t.users < MAXUSERS && Now() == Arrival(t, k, pid)
      ensures Shaped(Now()) && (ok ==> Shaped(t) && Arrived(t, Now(), k, pid))
      ensures !full && old(eternal) < NO_NUMBER && old(btmp[k].pid) == 0 ==>
        forall s :: 0 <= s < MAXUSERS && old(btmp[s].pid) == 0 ==> old(btmp[k].eternal) <= old(btmp[s].eternal)
    {
      hide History, Sound, Arrived;
      SoundShape(Now());
      full, ok, k, t := users >= MAXUSERS - 1, false, 0, Now();
      if !full {
        NumbersBelow(t);
        k := ChooseSlot();
        Meanwhile();
        t := Now();
        SoundShape(t);
        if btmp[k].pid == 0 {
          HasRoomFor(t, k);
        }
        ok := TryReserve(k, pid);
      }
    }
  }

  /** No other slot has the pid. */
  ghost predicate Alone(t: Table, k: int, pid: nat)
  {
    forall q :: 0 <= q < |t.btmp| && q != k ==> t.btmp[q].pid != pid
  }

  lemma OwnArrived(t: Table, u: Table, k: int, pid: nat)
    requires Shaped(t) && Sound(u) && u.op.Idle? && 0 <= k < MAXUSERS && Arrived(t, u, k, pid) && pid != 0
    requires Alone(u, k, pid)
    ensures Own(u, Session(k, u.btmp[k].eternal), pid)
  {
    assert ListedAt(u, k, t.users);
  }

  /** The session at place i, of slot k, is off the list and its slot is free; the others are as they
      were, in their order. */
  ghost predicate TakenOff(t: Table, u: Table, i: int, k: int)
    requires Shaped(t)
  {
    && Sound(u) && 0 <= i < t.users == u.users + 1 && t.index[i] == k
    && u.index[..u.users] == t.index[..i] + t.index[i + 1..t.users] && u.btmp[k].pid == 0
    && forall s :: 0 <= s < MAXUSERS && s != k ==> u.btmp[s] == t.btmp[s]
  }

  lemma RemovalTakesOff(t: Table, i: int)
    requires Sound(t) && t.op.Idle? && 0 <= i < t.users
    ensures TakenOff(t, Removal(t, t.index[i], i), i, t.index[i])
  {
    hide Removal;
    RemovalIsSound(t, i);
  }

  /** What the search found and the lock confirms is the session's own slot. */
  lemma OwnFound(h: seq<Table>, s: Session, p: nat, since: nat, i: int, from: nat, seen: nat, locked: nat)
    requires History(h) && since <= from <= seen <= locked < |h| && Own(h[since], s, p)
    requires Undisturbed(h, s.slot, p, since, locked) && i < MAXUSERS
    requires if i >= 0 then Sighted(h, p, i, from, seen) else forall r: Session :: !Lasts(h, r, p, from, seen)
    ensures i >= 0 && Named(h, s.slot, i, from, seen) && Shaped(h[locked])
    ensures h[locked].btmp[h[locked].index[i]].pid == p <==> h[locked].index[i] == s.slot
  {
    hide History, Spares, Sighted, Lasts, Named;
    assert Undisturbed(h, s.slot, p, since, seen);
    SearchFindsOwn(h, s, p, since, i, from, seen);
    OwnStays(h, s, p, since, locked);
  }

  /** A process logs in and, some time later, out again, beside whatever others write.  Unless they
      remove its session or its pid is used once more, remove_loggedin() finds its slot, goes on to remove
      exactly if the place found still names it, and where that place is within the index takes exactly
      this session off the list. */
  method LogInAndOut(b: BigBtmp, pid: nat)
      returns (ok: bool, done: bool, k: int, i: int, ghost since: nat, ghost locked: nat, ghost t: Table)
    requires b.Consistent() && b.op == Idle && pid != 0
    modifies b, b.index, b.btmp
    ensures since <= locked < |b.history| && 0 <= k < MAXUSERS && -1 <= i < MAXUSERS && Shaped(t)
    ensures ok && Alone(b.history[since], k, pid) && Undisturbed(b.history, k, pid, since, locked) ==>
      && i >= 0 && (done <==> t.index[i] == k) && b.history[locked] == t
      && (done && i < t.users ==> TakenOff(t, b.Now(), i, k))
  {
    hide History, Sound, Arrived, Alone, Undisturbed, Sighted, Lasts, Removal, TakenOff, Own, Named;
    var full;
    ghost var t0;
    full, ok, k, t0 := b.ReserveSlot(pid);
    AllShaped(b.history);
    since := |b.history| - 1;
    ghost var u, h, from, seen := b.Now(), b.history, 0, 0;
    ghost var s := Session(k, b.btmp[k].eternal);
    i, done, from, seen, locked, t := b.TryRemove(pid);
    assert b.history[since] == h[since] == u;
    SoundShape(t);
    if ok && Alone(u, k, pid) && Undisturbed(b.history, k, pid, since, locked) {
      OwnArrived(t0, u, k, pid);
      OwnFound(b.history, s, pid, since, i, from, seen, locked);
      if done && i < t.users {
        RemovalTakesOff(t, i);
      }
    }
  }

  lemma SoundShape(t: Table)
    requires Sound(t)
    ensures Shaped(t)
    ensures t.op.Idle? ==> forall p :: 0 <= p < t.users ==> t.btmp[t.index[p]].pid != 0
  {
    if t.op.Idle? {
      forall p | 0 <= p < t.users ensures t.btmp[t.index[p]].pid != 0 {
        assert ListedAt(t, t.index[p], p);
      }
    }
  }

  lemma NumbersBelow(t: Table)
    requires Sound(t)
    ensures Shaped(t) && forall s :: 0 <= s < MAXUSERS ==> t.btmp[s].eternal <= t.eternal
  {
  }

  lemma HasRoomFor(t: Table, k: int)
    requires Sound(t) && t.op.Idle? && 0 <= k < MAXUSERS && t.btmp[k].pid == 0
    ensures t.users < MAXUSERS
  {
    Room(t, k);
  }

  lemma HasRoom(t: Table)
    requires Sound(t) && t.op.Drawn?
    ensures t.users < MAXUSERS
  {
    Room(t, t.op.slot);
  }

  // ---------------------------------------------------------------- a removal that starts from a stale place

  lemma RollIndex(t: Table, u: Table, i: int)
    requires 0 <= i < t.users <= MAXUSERS && |t.index| == MAXUSERS && u.users == t.users - 1
    requires u.index == Moved(t.index, i, t.users - 1)
    ensures forall p :: 0 <= p < u.users ==> u.index[p] == t.index[Before(i, p)]
    ensures |u.index| == MAXUSERS && u.index[..u.users] == t.index[..i] + t.index[i + 1..t.users]
  {
  }

  /** Where the entry at place p stood before the one at place i went. */
  function Before(i: int, p: int): int
  {
    if p < i then p else p + 1
  }

  lemma OthersDiffer(t: Table, i: int, p: int)
    requires Shaped(t) && Ordered(t) && t.op.Idle? && 0 <= i < t.users && 0 <= p < t.users && p != i
    ensures t.index[p] != t.index[i]
  {
    assert Number(t, if p < i then p else i) < Number(t, if p < i then i else p);
  }

  lemma StillOrdered(t: Table, u: Table, i: int)
    requires Shaped(t) && Shaped(u) && Ordered(t) && t.op.Idle? && u.op.Idle? && 0 <= i < t.users == u.users + 1
    requires forall p :: 0 <= p < u.users ==> u.index[p] == t.index[Before(i, p)]
    requires forall s :: 0 <= s < MAXUSERS && s != t.index[i] ==> u.btmp[s] == t.btmp[s]
    ensures Ordered(u)
  {
    forall p, q | 0 <= p < q < u.users ensures Number(u, p) < Number(u, q) {
      OthersDiffer(t, i, Before(i, p));
      OthersDiffer(t, i, Before(i, q));
      assert Number(t, Before(i, p)) < Number(t, Before(i, q));
    }
  }

  lemma StillListed(t: Table, u: Table, i: int, s: int)
    requires Shaped(t) && Shaped(u) && Ordered(t) && t.op.Idle? && u.op.Idle? && 0 <= i < t.users == u.users + 1
    requires forall p :: 0 <= p < u.users ==> u.index[p] == t.index[Before(i, p)]
    ensures Listed(u, s) <==> Listed(t, s) && s != t.index[i]
  {
    if Listed(u, s) {
      var p :| ListedAt(u, s, p);
      OthersDiffer(t, i, Before(i, p));
      assert ListedAt(t, s, Before(i, p));
    }
    if Listed(t, s) && s != t.index[i] {
      var p :| ListedAt(t, s, p);
      assert ListedAt(u, s, if p < i then p else p - 1);
    }
  }

  /** Removing the session at place i takes exactly that session off the list and keeps the others
      in their order; the table is sound again. */
  lemma RemovalIsSound(t: Table, i: int)
    requires Sound(t) && t.op.Idle? && 0 <= i < t.users
    ensures var u := Removal(t, t.index[i], i);
      && Sound(u) && u.users == t.users - 1 && u.index[..u.users] == t.index[..i] + t.index[i + 1..t.users]
      && u.btmp[t.index[i]].pid == 0
      && forall s :: 0 <= s < MAXUSERS && s != t.index[i] ==> u.btmp[s] == t.btmp[s]
  {
    var slot := t.index[i];
    var u := Removal(t, slot, i);
    RollIndex(t, u, i);
    MovedWithin(t.index, i, t.users - 1);
    StillNumbered(t, u, slot);
    hide Moved, Numbered;
    assert ListedAt(t, slot, i);
    StillOrdered(t, u, i);
    hide Ordered;
    forall s | 0 <= s < MAXUSERS ensures Listed(u, s) <==> u.btmp[s].pid != 0 {
      StillListed(t, u, i, s);
    }
  }

  lemma StillNumbered(t: Table, u: Table, slot: int)
    requires Shaped(t) && Shaped(u) && Numbered(t) && 0 <= slot < MAXUSERS && u.op.Idle?
    requires u.eternal == t.eternal + 1 && u.btmp == t.btmp[slot := t.btmp[slot].(pid := 0, eternal := u.eternal)]
    ensures Numbered(u)
  {
  }

  lemma MovedWithin(index: seq<int>, i: int, k: int)
    requires 0 <= i <= k < |index| && forall p :: 0 <= p < |index| ==> 0 <= index[p] < MAXUSERS
    ensures |Moved(index, i, k)| == |index| && forall p :: 0 <= p < |index| ==> 0 <= Moved(index, i, k)[p] < MAXUSERS
  {
  }

  /** The session is online before the removal, is not the one removed, and is no longer listed after. */
  ghost predicate Dropped(t: Table, u: Table, slot: int, other: int)
  {
    && Shaped(t) && Shaped(u) && 0 <= slot < MAXUSERS && 0 <= other < MAXUSERS && other != slot
    && Listed(t, other) && t.btmp[other].pid != 0 && u.btmp[other] == t.btmp[other] && !Listed(u, other)
  }

  /** The lock does not help a removal whose place was found before it was had: the place may by then
      lie beyond the index and still name the slot.  The table comes out sound exactly when the place
      is within the index or names the same slot as the last entry; otherwise the session of the last
      entry is dropped instead, and the one that was to go stays listed without a pid. */
  lemma StalePlace(t: Table, i: int)
    requires Sound(t) && t.op.Idle? && 0 <= i < MAXUSERS && t.btmp[t.index[i]].pid != 0
    ensures t.users > 0
    ensures var u := Removal(t, t.index[i], i);
      if i < t.users || t.index[i] == t.index[t.users - 1] then Sound(u)
      else
        && !Sound(u) && Dropped(t, u, t.index[i], t.index[t.users - 1])
        && Listed(u, t.index[i]) && u.btmp[t.index[i]].pid == 0
  {
    var slot := t.index[i];
    var u := Removal(t, slot, i);
    assert Listed(t, slot);
    var p :| ListedAt(t, slot, p);
    if i < t.users {
      RemovalIsSound(t, i);
    } else if p == t.users - 1 {
      assert Moved(t.index, p, p) == t.index;
      RemovalIsSound(t, p);
    } else {
      OthersDiffer(t, t.users - 1, p);
      LastDropped(t, u, slot, p);
    }
  }

  lemma LastDropped(t: Table, u: Table, slot: int, p: int)
    requires Sound(t) && t.op.Idle? && ListedAt(t, slot, p) && p < t.users - 1 && t.index[t.users - 1] != slot
    requires Shaped(u) && u.index == t.index && u.users == t.users - 1 && u.op.Idle?
    requires u.btmp[slot].pid == 0 && forall s :: 0 <= s < MAXUSERS && s != slot ==> u.btmp[s] == t.btmp[s]
    ensures !Sound(u) && Dropped(t, u, slot, t.index[t.users - 1]) && Listed(u, slot)
  {
    var other := t.index[t.users - 1];
    assert ListedAt(t, other, t.users - 1);
    assert ListedAt(u, slot, p);
    if Listed(u, other) {
      var q :| ListedAt(u, other, q);
      OthersDiffer(t, t.users - 1, q);
    }
  }

  method ThreeArrive() returns (b: BigBtmp)
    ensures fresh(b) && fresh(b.index) && fresh(b.btmp) && b.Consistent() && b.op == Idle && b.users == 3
    ensures b.index[0] == 0 && b.index[1] == 1 && b.index[2] == 2
    ensures b.btmp[0].pid == 1 && b.btmp[1].pid == 2 && b.btmp[2].pid == 3 && b.btmp[3].pid == 0
  {
    hide History, Sound;
    b := new BigBtmp();
    var ok := b.TryReserve(0, 1);
    ok := b.TryReserve(1, 2);
    ok := b.TryReserve(2, 3);
  }

  /** Two leave and one arrives. */
  method OthersCome(b: BigBtmp)
    requires b.Consistent() && b.op == Idle && b.users == 3
    requires b.index[0] == 0 && b.index[1] == 1 && b.index[2] == 2
    requires b.btmp[0].pid == 1 && b.btmp[1].pid == 2 && b.btmp[2].pid == 3 && b.btmp[3].pid == 0
    modifies b, b.index, b.btmp
    ensures b.Consistent() && b.op == Idle && old(b.history) <= b.history && b.users == 2
    ensures b.index[0] == 2 && b.index[1] == 3 && b.index[2] == 2 && b.btmp[2].pid == 3 && b.btmp[3].pid == 4
  {
    hide History, Sound, Moved;
    SoundShape(b.Now());
    MovedAt(b.index[..], 0, 2);
    b.RemoveAt(0, 0);
    assert b.index[0] == 1 && b.index[1] == 2 && b.index[..][2] == 2;
    MovedAt(b.index[..], 0, 1);
    b.RemoveAt(1, 0);
    assert b.index[0] == 2 && b.index[1] == 2 && b.index[..][2] == 2;
    assert b.btmp[2].pid == 3 && b.btmp[3].pid == 0;
    var ok := b.TryReserve(3, 4);
  }

  /** Three sessions hold places 0, 1 and 2, and the search for the third finds it at place 2; before the
      lock is had two of them leave, so that the third moves down to place 0, and a fourth arrives.  The
      removal would now drop the fourth. */
  method Mishap() returns (b: BigBtmp, found: nat, i: int, p: nat, other: int)
    ensures fresh(b) && b.Consistent() && b.op == Idle && found < |b.history|
    ensures Sighted(b.history, p, i, found, found) && i < b.history[found].users
    ensures Shaped(b.Now()) && 0 <= i < MAXUSERS && 0 <= other < MAXUSERS
    ensures b.btmp[b.index[i]].pid == p && b.btmp[other].pid !in {0, p}
    ensures Dropped(b.Now(), Removal(b.Now(), b.index[i], i), b.index[i], other)
  {
    hide History, Sound, Dropped;
    b := ThreeArrive();
    AllShaped(b.history);
    found, i, p, other := |b.history| - 1, 2, 3, 3;
    ghost var h := b.history;
    assert HasPid(h[found], h[found].index[2], 3);
    OthersCome(b);
    assert b.history[found] == h[found];
    SoundShape(b.Now());
    StalePlace(b.Now(), 2);
  }
}
