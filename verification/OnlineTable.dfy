/** The table of sessions of user.c: slots, and an index of the occupied ones that is compacted under
    a lock while other processes walk it without one.  A `Table` is the shared memory after one
    write; `op` says how far the holder of the lock has come. */
module OnlineTable {

  import opened Sequences

  const MAXUSERS: nat := 200

  /** `struct btmp` */
  datatype Slot = Slot(pid: nat, eternal: int, connecting: bool)

  /** remove_loggedin(): the copies of the index, `users--`, `pid = 0`, the number drawn.
      reserve_slot(): the number drawn, the slot written, the index entry written. */
  datatype Op = Idle
    | Shift(slot: int, i: int) | Shrunk(slot: int) | Gone(slot: int) | Redrawn(slot: int)
    | Drawn(slot: int) | Filled(slot: int) | Indexed(slot: int)

  datatype Table = Table(users: int, index: seq<int>, eternal: int, btmp: seq<Slot>, op: Op)

  predicate Shaped(t: Table)
  {
    && 0 <= t.users <= MAXUSERS && |t.index| == MAXUSERS && |t.btmp| == MAXUSERS
    && (forall p :: 0 <= p < MAXUSERS ==> 0 <= t.index[p] < MAXUSERS)
    && (t.op != Idle ==> 0 <= t.op.slot < MAXUSERS)
    && (t.op.Shift? ==> 0 <= t.op.i < t.users)
  }

  /** The number of the slot at a place of the index. */
  function Number(t: Table, p: int): int
    requires Shaped(t) && 0 <= p < MAXUSERS
  {
    t.btmp[t.index[p]].eternal
  }

  /** The place a removal is about to overwrite or drop. */
  function Skip(t: Table): int
  {
    if t.op.Shift? then t.op.i else -1
  }

  /** Session slots lists its slot at a settled place of the index. */
  ghost predicate ListedAt(t: Table, slot: int, p: int)
    requires Shaped(t)
  {
    0 <= p < t.users && p != Skip(t) && t.index[p] == slot
  }

  ghost predicate Listed(t: Table, slot: int)
    requires Shaped(t)
  {
    exists p :: ListedAt(t, slot, p)
  }

  /** The slot the holder of the lock is working on, while it has a pid. */
  function Busy(t: Table): int
  {
    if t.op.Shift? || t.op.Shrunk? || t.op.Filled? || t.op.Indexed? then t.op.slot else -1
  }

  /** Settled places are in strictly increasing order of their numbers. */
  ghost predicate Ordered(t: Table)
    requires Shaped(t)
  {
    forall p, q :: 0 <= p < q < t.users && p != Skip(t) && q != Skip(t) ==> Number(t, p) < Number(t, q)
  }

  /** No number is given twice, and none beyond the counter. */
  ghost predicate Numbered(t: Table)
    requires Shaped(t)
  {
    && (forall s :: 0 <= s < MAXUSERS ==> 0 <= t.btmp[s].eternal <= t.eternal)
    && (forall s :: 0 <= s < MAXUSERS && t.btmp[s].pid != 0 ==> t.btmp[s].eternal > 0)
    && (forall a, b :: 0 <= a < b < MAXUSERS && t.btmp[a].eternal == t.btmp[b].eternal ==> t.btmp[a].eternal == 0)
    && (t.op.Drawn? || t.op.Redrawn? ==> forall s :: 0 <= s < MAXUSERS ==> t.btmp[s].eternal < t.eternal)
  }

  ghost predicate OpFits(t: Table)
    requires Shaped(t)
  {
    match t.op
    case Idle => true
    case Shift(s, i) =>
      && t.btmp[s].pid != 0
      && ((t.index[i] == s && forall p, q :: 0 <= p < q < t.users ==> Number(t, p) < Number(t, q))
          || (i > 0 && t.index[i] == t.index[i - 1]))
    case Shrunk(s) => t.btmp[s].pid != 0
    case Gone(s) => t.btmp[s].pid == 0
    case Redrawn(s) => t.btmp[s].pid == 0
    case Drawn(s) => t.btmp[s].pid == 0
    case Filled(s) => t.btmp[s].pid != 0 && t.btmp[s].eternal == t.eternal
    case Indexed(s) =>
      t.btmp[s].pid != 0 && t.btmp[s].eternal == t.eternal && t.users < MAXUSERS && t.index[t.users] == s
  }

  /** The index lists, without repeats and in order of arrival, exactly the slots with a pid, but for
      the one slot the holder of the lock is working on. */
  ghost predicate Sound(t: Table)
  {
    && Shaped(t) && Ordered(t) && Numbered(t) && OpFits(t)
    && forall s :: 0 <= s < MAXUSERS ==> (Listed(t, s) <==> t.btmp[s].pid != 0 && s != Busy(t))
  }

  // ---------------------------------------------------------------- single writes

  /** A login completes: the session is no longer shown as connecting. */
  predicate Completes(t: Table, u: Table, k: int)
    requires Shaped(t)
  {
    0 <= k < MAXUSERS && t.btmp[k].pid != 0 && u == t.(btmp := t.btmp[k := t.btmp[k].(connecting := false)])
  }

  /** One write of whoever holds the lock (taking the lock is a write of `op` alone). */
  ghost predicate Step(t: Table, u: Table)
    requires Shaped(t)
  {
    match t.op
    case Idle =>
      || (u.op.Shift? && u == t.(op := u.op)
          && 0 <= u.op.i < t.users && t.index[u.op.i] == u.op.slot && t.btmp[u.op.slot].pid != 0)
      || (u.op.Drawn? && u == t.(eternal := t.eternal + 1, op := u.op)
          && 0 <= u.op.slot < MAXUSERS && t.btmp[u.op.slot].pid == 0)
      || (exists k :: Completes(t, u, k))
    case Shift(s, i) =>
      if i < t.users - 1 then u == t.(index := t.index[i := t.index[i + 1]], op := Shift(s, i + 1))
      else u == t.(users := t.users - 1, op := Shrunk(s))
    case Shrunk(s) => u == t.(btmp := t.btmp[s := t.btmp[s].(pid := 0)], op := Gone(s))
    case Gone(s) => u == t.(eternal := t.eternal + 1, op := Redrawn(s))
    case Redrawn(s) => u == t.(btmp := t.btmp[s := t.btmp[s].(eternal := t.eternal)], op := Idle)
    case Drawn(s) =>
      && |u.btmp| == MAXUSERS && u.btmp[s].pid != 0 && u.btmp[s].eternal == t.eternal && u.btmp[s].connecting
      && u == t.(btmp := t.btmp[s := u.btmp[s]], op := Filled(s))
    case Filled(s) => t.users < MAXUSERS && u == t.(index := t.index[t.users := s], op := Indexed(s))
    case Indexed(s) => u == t.(users := t.users + 1, op := Idle)
  }

  /** While a slot is free the index has room for it: `users` never passes MAXUSERS. */
  lemma Room(t: Table, slot: int)
    requires Sound(t) && !t.op.Shift? && 0 <= slot < MAXUSERS && !Listed(t, slot)
    ensures t.users < MAXUSERS
  {
    var q := t.index[..t.users];
    forall i | 0 <= i < |q| ensures q[i] != slot {
      assert q[i] == slot ==> ListedAt(t, slot, i);
    }
    forall i, j | 0 <= i < j < |q| ensures q[i] != q[j] {
      assert Number(t, i) < Number(t, j);
    }
    FewerThan(q, MAXUSERS, slot);
  }

  // ---------------------------------------------------------------- every write keeps the table sound

  lemma ShiftStarts(t: Table, u: Table)
    requires Sound(t) && Step(t, u) && t.op.Idle? && u.op.Shift?
    ensures Sound(u)
  {
    var s, i := u.op.slot, u.op.i;
    forall p, q | 0 <= p < q < t.users ensures Number(u, p) < Number(u, q) {
      assert Number(t, p) < Number(t, q);
    }
    forall k | 0 <= k < MAXUSERS ensures Listed(u, k) <==> Listed(t, k) && k != s {
      if Listed(t, k) && k != s {
        var p :| ListedAt(t, k, p);
        assert ListedAt(u, k, p);
      }
      if Listed(u, k) {
        var p :| ListedAt(u, k, p);
        assert ListedAt(t, k, p);
        assert Number(u, p) != Number(u, i);
      }
    }
  }

  lemma ShiftCopies(t: Table, u: Table)
    requires Sound(t) && Step(t, u) && t.op.Shift? && u.op.Shift?
    ensures Sound(u)
  {
    var i := t.op.i;
    forall k | 0 <= k < MAXUSERS ensures Listed(u, k) <==> Listed(t, k) {
      if Listed(t, k) {
        var p :| ListedAt(t, k, p);
        assert ListedAt(u, k, if p == i + 1 then i else p);
      }
      if Listed(u, k) {
        var p :| ListedAt(u, k, p);
        assert ListedAt(t, k, if p == i then i + 1 else p);
      }
    }
    forall p, q | 0 <= p < q < u.users && p != i + 1 && q != i + 1 ensures Number(u, p) < Number(u, q) {
      var p0, q0 := if p == i then i + 1 else p, if q == i then i + 1 else q;
      assert Number(u, p) == Number(t, p0) && Number(u, q) == Number(t, q0);
    }
  }

  lemma ShiftEnds(t: Table, u: Table)
    requires Sound(t) && Step(t, u) && t.op.Shift? && u.op.Shrunk?
    ensures Sound(u)
  {
    forall k | 0 <= k < MAXUSERS ensures Listed(u, k) <==> Listed(t, k) {
      if Listed(t, k) {
        var p :| ListedAt(t, k, p);
        assert ListedAt(u, k, p);
      }
      if Listed(u, k) {
        var p :| ListedAt(u, k, p);
        assert ListedAt(t, k, p);
      }
    }
    forall p, q | 0 <= p < q < u.users ensures Number(u, p) < Number(u, q) {
      assert Number(t, p) < Number(t, q);
    }
  }

  lemma ListStays(t: Table, u: Table)
    requires Shaped(t) && Shaped(u) && Ordered(t) && u.index == t.index && u.users == t.users
    requires Skip(t) == Skip(u) == -1
    requires forall s :: Listed(t, s) && 0 <= s < MAXUSERS ==> u.btmp[s].eternal == t.btmp[s].eternal
    ensures Ordered(u)
    ensures forall s :: Listed(u, s) <==> Listed(t, s)
  {
    forall p | 0 <= p < t.users ensures Number(u, p) == Number(t, p) {
      assert ListedAt(t, t.index[p], p);
    }
    forall p, q | 0 <= p < q < u.users ensures Number(u, p) < Number(u, q) {
      assert Number(t, p) < Number(t, q);
    }
    forall s ensures Listed(u, s) <==> Listed(t, s) {
      forall p ensures ListedAt(u, s, p) <==> ListedAt(t, s, p) {
      }
    }
  }

  lemma CompletionKeeps(t: Table, u: Table, k: int)
    requires Sound(t) && t.op.Idle? && Completes(t, u, k)
    ensures Sound(u)
  {
    ListStays(t, u);
    hide Listed, Ordered;
  }

  /** Writes to the counter. */
  lemma CounterWrites(t: Table, u: Table)
    requires Sound(t) && Step(t, u) && (t.op.Gone? || (t.op.Idle? && u.op.Drawn?))
    ensures Sound(u)
  {
    ListStays(t, u);
    hide Listed, Ordered;
  }

  /** Writes to a slot the index does not list. */
  lemma SlotWrites(t: Table, u: Table)
    requires Sound(t) && Step(t, u) && (t.op.Shrunk? || t.op.Redrawn? || t.op.Drawn?)
    ensures Sound(u)
  {
    ListStays(t, u);
    hide Listed, Ordered;
  }

  lemma DifferentNumbers(t: Table, a: int, b: int)
    requires Shaped(t) && Numbered(t) && 0 <= a < MAXUSERS && 0 <= b < MAXUSERS && a != b && t.btmp[b].eternal > 0
    ensures t.btmp[a].eternal != t.btmp[b].eternal
  {
  }

  lemma EntryWritten(t: Table, u: Table)
    requires Sound(t) && Step(t, u) && t.op.Filled?
    ensures Sound(u)
  {
    forall p, q | 0 <= p < q < u.users ensures Number(u, p) < Number(u, q) {
      assert Number(t, p) < Number(t, q);
    }
    forall k | 0 <= k < MAXUSERS ensures Listed(u, k) <==> Listed(t, k) {
      if Listed(t, k) {
        var p :| ListedAt(t, k, p);
        assert ListedAt(u, k, p);
      }
      if Listed(u, k) {
        var p :| ListedAt(u, k, p);
        assert ListedAt(t, k, p);
      }
    }
  }

  lemma EntryCounted(t: Table, u: Table)
    requires Sound(t) && Step(t, u) && t.op.Indexed?
    ensures Sound(u)
  {
    forall p | 0 <= p < t.users ensures Number(t, p) < t.btmp[t.op.slot].eternal {
      var a, b := t.index[p], t.op.slot;
      assert ListedAt(t, a, p);
      assert Listed(t, a) && a != b;
      DifferentNumbers(t, a, b);
    }
    forall p, q | 0 <= p < q < u.users ensures Number(u, p) < Number(u, q) {
      assert if q < t.users then Number(t, p) < Number(t, q) else Number(t, p) < t.btmp[t.op.slot].eternal;
    }
    forall k | 0 <= k < MAXUSERS ensures Listed(u, k) <==> Listed(t, k) || k == t.op.slot {
      if Listed(t, k) {
        var p :| ListedAt(t, k, p);
        assert ListedAt(u, k, p);
      }
      assert ListedAt(u, t.op.slot, t.users);
      if Listed(u, k) {
        var p :| ListedAt(u, k, p);
        assert p < t.users ==> ListedAt(t, k, p);
      }
    }
  }

  /** Every single write of removals and logins keeps the table sound. */
  lemma SoundStep(t: Table, u: Table)
    requires Sound(t) && Step(t, u)
    ensures Sound(u)
  {
    assert Shaped(t);
    hide Sound, Shaped;
    match t.op
    case Idle =>
      if u.op.Shift? {
        ShiftStarts(t, u);
      } else if u.op.Drawn? {
        CounterWrites(t, u);
      } else {
        var k :| Completes(t, u, k);
        CompletionKeeps(t, u, k);
      }
    case Shift(_, _) => if u.op.Shift? { ShiftCopies(t, u); } else { ShiftEnds(t, u); }
    case Gone(_) => CounterWrites(t, u);
    case Filled(_) => EntryWritten(t, u);
    case Indexed(_) => EntryCounted(t, u);
    case _ => SlotWrites(t, u);
  }

  // ---------------------------------------------------------------- where a session is while it lasts

  /** The session with this slot and number is online: listed, and neither arriving nor leaving. */
  ghost predicate Present(t: Table, slot: int, number: int)
  {
    && Shaped(t) && 0 <= slot < MAXUSERS
    && Listed(t, slot) && t.btmp[slot].eternal == number
  }

  /** The session is listed at place j, and every place above j, up to `bound` or within the index,
      even where the index is stale, holds a slot whose number is at least the session's. */
  ghost predicate Behind(t: Table, slot: int, number: int, j: int, bound: int)
    requires Shaped(t) && bound < MAXUSERS
  {
    && ListedAt(t, slot, j)
    && forall p :: j < p < MAXUSERS && (p <= bound || p < t.users) ==> Number(t, p) >= number
  }

  lemma BehindStart(t: Table, slot: int, number: int) returns (j: int)
    requires Sound(t) && Present(t, slot, number)
    ensures Behind(t, slot, number, j, t.users - 1)
  {
    j :| ListedAt(t, slot, j);
    forall p | j < p < t.users ensures Number(t, p) >= number {
      if p == Skip(t) {
        if t.index[p] == t.index[p - 1] {
          assert j < p - 1 ==> Number(t, j) < Number(t, p - 1);
        } else {
          assert Number(t, j) < Number(t, p);
        }
      } else {
        assert Number(t, j) < Number(t, p);
      }
    }
  }

  /** No slot's number ever falls, and a session that is present has its slot to itself. */
  lemma NumbersRise(t: Table, u: Table, s: int)
    requires Sound(t) && Step(t, u) && 0 <= s < MAXUSERS && Shaped(u)
    ensures u.btmp[s].eternal >= t.btmp[s].eternal
    ensures u.eternal >= t.eternal
    ensures Listed(t, s) ==> u.btmp[s].eternal == t.btmp[s].eternal
  {
  }

  /** One write moves a session that stays present at most one place down, and leaves only slots with
      higher numbers above it. */
  lemma BehindStep(t: Table, u: Table, slot: int, number: int, j: int, bound: int) returns (j': int)
    requires Sound(t) && Sound(u) && Step(t, u) && bound < MAXUSERS
    requires Present(t, slot, number) && Present(u, slot, number) && Behind(t, slot, number, j, bound)
    ensures j' <= j && Behind(u, slot, number, j', bound)
  {
    j' := if t.op.Shift? && u.op.Shift? && j == t.op.i + 1 then t.op.i else j;
    forall p | j' < p < MAXUSERS && (p <= bound || p < u.users) ensures Number(u, p) >= number {
      NumbersRise(t, u, u.index[p]);
      if u.index[p] == t.index[p] {
        assert p <= bound || p < t.users ==> Number(t, p) >= number;
      } else if t.op.Shift? {
        assert p + 1 < t.users && Number(t, p + 1) >= number;
      }
    }
  }
}
