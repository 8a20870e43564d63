/** Which sessions the unlocked walk down the index can show twice, read off what was written meanwhile. */
module OnlineRepeats {
  import opened OnlineTable
  import opened OnlineWalk

  /** Two visits show the session. */
  ghost predicate ShownTwice(v: View, s: Session)
    requires Sensible(v)
  {
    exists j, k :: 0 <= j < k < |v.plan| && ShowsThat(v, j, s) && ShowsThat(v, k, s)
  }

  predicate ShowsThat(v: View, k: nat, s: Session)
    requires Sensible(v) && k < |v.plan|
  {
    Shows(v, k) && Met(v, k) == s
  }

  /** That is, the session occurs twice in what is shown. */
  lemma TwiceInShown(v: View, s: Session)
    requires Sensible(v)
    ensures ShownTwice(v, s) <==> exists a, b :: 0 <= a < b < |Shown(v)| && Shown(v)[a] == Shown(v)[b] == s
  {
    hide Sensible, Visits, Met, Shows;
    var q := Visits(v, |v.plan|);
    if a, b :| 0 <= a < b < |q| && Shown(v)[a] == Shown(v)[b] == s {
      assert ShowsThat(v, q[a], s) && ShowsThat(v, q[b], s);
    }
    if j, k :| 0 <= j < k < |v.plan| && ShowsThat(v, j, s) && ShowsThat(v, k, s) {
      assert j in q && k in q;
      var a :| 0 <= a < |q| && q[a] == j;
      var b :| 0 <= b < |q| && q[b] == k;
      assert Shown(v)[a] == Shown(v)[b] == s;
    }
  }

  /** Slot q, lower in number than the session and listed below it when the walk begins, has a higher
      number at d, which may be kept for it, and at e the session has moved down below q's place. */
  ghost predicate OvertakesAt(h: seq<Table>, settled: bool, from: nat, end: nat, s: Session, q: int, x: int,
                              c: nat, d: nat, e: nat)
  {
    && from <= c <= d <= e <= end < |h| && Shaped(h[from]) && Shaped(h[c]) && Shaped(h[d]) && Shaped(h[e])
    && 0 <= x < h[from].users && h[from].index[x] == q
    && h[from].btmp[q].pid != 0 && h[from].btmp[q].eternal < s.number
    && h[d].btmp[q].eternal > s.number && !(settled && h[c].btmp[q].connecting)
    && exists z :: z < x && ListedAt(h[e], s.slot, z)
  }

  ghost predicate Overtaken(h: seq<Table>, settled: bool, from: nat, end: nat, s: Session)
  {
    exists q, x, c, d, e :: OvertakesAt(h, settled, from, end, s, q, x, c, d, e)
  }

  /** A walk that reads the number of users at `from` and everything else between then and `end`. */
  ghost predicate Walked(h: seq<Table>, settled: bool, from: nat, end: nat, plan: seq<Reads>)
  {
    && from <= end < |h| && |plan| == h[from].users && Timely(plan, from, end)
    && Sensible(View(h, settled, h[from].users - 1, plan))
  }

  // ---------------------------------------------------------------- single tables

  /** Whoever holds a place, even one about to be overwritten, is listed no higher. */
  lemma ListedNoHigher(t: Table, slot: int, number: int, p: int) returns (z: int)
    requires Sound(t) && Present(t, slot, number) && 0 <= p < MAXUSERS && t.index[p] == slot
    ensures z <= p && ListedAt(t, slot, z)
  {
    if p >= t.users {
      z :| ListedAt(t, slot, z);
    } else {
      z := if p == Skip(t) then p - 1 else p;
      assert p == Skip(t) ==> slot != Busy(t);
    }
  }

  /** A session is listed at one place. */
  lemma OneListing(t: Table, slot: int, y: int, z: int)
    requires Sound(t) && ListedAt(t, slot, y) && ListedAt(t, slot, z)
    ensures y == z
  {
    forall a, b | 0 <= a < b < t.users && a != Skip(t) && b != Skip(t) ensures t.index[a] != t.index[b] {
      assert Number(t, a) < Number(t, b);
    }
  }

  /** Higher places hold higher numbers, or the same slot. */
  lemma HigherPlaces(t: Table, a: int, b: int)
    requires Sound(t) && 0 <= a < b < t.users
    ensures t.index[a] == t.index[b] || Number(t, a) < Number(t, b)
  {
    var i := Skip(t);
    if a == i && i > 0 && t.index[i] == t.index[i - 1] {
      assert Number(t, i - 1) < Number(t, b);
    } else if b == i && i > 0 && t.index[i] == t.index[i - 1] {
      assert a < i - 1 ==> Number(t, a) < Number(t, i - 1);
    } else {
      assert a != i && b != i ==> Number(t, a) < Number(t, b);
    }
  }

  /** The highest place that holds the slot. */
  lemma {:induction false} Highest(t: Table, slot: int, x: int) returns (y: int)
    requires Shaped(t) && 0 <= x < t.users && t.index[x] == slot
    ensures x <= y < t.users && t.index[y] == slot && forall p :: y < p < t.users ==> t.index[p] != slot
    decreases t.users - x
  {
    y := x;
    if p :| x < p < t.users && t.index[p] == slot {
      y := Highest(t, slot, p);
    }
  }

  // ---------------------------------------------------------------- where a slot of low number was before

  /** One write back. */
  lemma StepBack(t: Table, u: Table, s: Session, q: int, y: int, top: int) returns (x: int)
    requires Sound(t) && Step(t, u) && Shaped(u) && Online(t, s, false) && 0 <= y < MAXUSERS && top < MAXUSERS
    requires (y <= top || y < u.users) && u.index[y] == q && u.btmp[q].eternal < s.number
    ensures y <= x < MAXUSERS && (x <= top || x < t.users) && t.index[x] == q
  {
    x := if t.op.Shift? && u.op.Shift? && y == t.op.i then y + 1 else y;
  }

  lemma {:induction false} CameFrom(h: seq<Table>, s: Session, from: nat, t: nat, q: int, y: int, top: int)
    returns (x: int)
    requires History(h) && from <= t < |h| && Throughout(h, s, false, from, t) && h[from].users == top + 1 <= MAXUSERS
    requires Shaped(h[t]) && 0 <= y < MAXUSERS && (y <= top || y < h[t].users) && h[t].index[y] == q
    requires h[t].btmp[q].eternal < s.number
    ensures Shaped(h[from]) && y <= x < h[from].users && h[from].index[x] == q
    decreases t
  {
    if t == from {
      x := y;
    } else {
      SoundAt(h, t - 1);
      assert StepAt(h, t - 1) && Online(h[t - 1], s, false);
      var y' := StepBack(h[t - 1], h[t], s, q, y, top);
      NumbersRise(h[t - 1], h[t], q);
      x := CameFrom(h, s, from, t - 1, q, y', top);
    }
  }

  lemma PidBack(t: Table, u: Table, s: Session, q: int)
    requires Sound(t) && Step(t, u) && Shaped(u) && Online(t, s, false) && 0 <= q < MAXUSERS
    requires u.btmp[q].pid != 0 && u.btmp[q].eternal < s.number
    ensures t.btmp[q].pid != 0
  {
  }

  lemma {:induction false} HadPid(h: seq<Table>, s: Session, from: nat, t: nat, q: int)
    requires History(h) && from <= t < |h| && Throughout(h, s, false, from, t) && 0 <= q < MAXUSERS
    requires Shaped(h[t]) && h[t].btmp[q].pid != 0 && h[t].btmp[q].eternal < s.number
    ensures Shaped(h[from]) && h[from].btmp[q].pid != 0
    decreases t
  {
    if t > from {
      SoundAt(h, t - 1);
      assert StepAt(h, t - 1) && Online(h[t - 1], s, false);
      PidBack(h[t - 1], h[t], s, q);
      NumbersRise(h[t - 1], h[t], q);
      HadPid(h, s, from, t - 1, q);
    }
  }

  // ---------------------------------------------------------------- a walk that shows somebody twice

  /** The first visit that has raised the threshold above a number. */
  lemma {:induction false} Raised(v: View, j: nat, n: nat, number: int) returns (l: nat)
    requires Sensible(v) && j < n <= |v.plan| && Shows(v, j) && Kept(v, j) <= number < Mark(v, n)
    ensures j < l < n && Shows(v, l) && Kept(v, l) > number >= Mark(v, l)
    decreases n
  {
    hide Sensible, There, Kept, Met;
    if n - 1 > j && Mark(v, n - 1) > number {
      l := Raised(v, j, n - 1, number);
    } else {
      l := n - 1;
      if n - 1 > j {
        RaisedNow(v, n - 1);
      } else {
        RaisedNow(v, j);
      }
    }
  }

  lemma RaisedNow(v: View, n: nat)
    requires Sensible(v) && n < |v.plan|
    ensures Mark(v, n + 1) == if Shows(v, n) then Kept(v, n) else Mark(v, n)
  {
  }

  /** What a visit that raised the threshold above the session's number says about its slot. */
  lemma RaiserOvertakes(v: View, from: nat, end: nat, s: Session, l: nat, k: nat)
    requires History(v.h) && from <= end < |v.h| && Throughout(v.h, s, v.settled, from, end) && Sensible(v)
    requires v.h[from].users == v.top + 1 && Timely(v.plan, from, end) && l < k < |v.plan|
    requires There(v, l) && Met(v, l).number < s.number < Kept(v, l) && Met(v, k).slot == s.slot
    ensures Overtaken(v.h, v.settled, from, end, s)
  {
    var h, r, q := v.h, v.plan[l], SlotAt(v, l);
    assert Orderly(r, from, end) && Orderly(v.plan[k], from, end) && Within(h, r) && Within(h, v.plan[k]);
    Lasting(h, s, v.settled, from, end);
    hide Overtaken, Sensible, Timely, Orderly, Within;
    AllShaped(h);
    NumbersRiseOver(h, q, from, r.entry);
    NumbersRiseOver(h, q, r.entry, r.pid);
    NumbersRiseOver(h, q, r.pid, r.compared);
    HadPid(h, s, from, r.pid, q);
    var x := CameFrom(h, s, from, r.entry, q, v.top - l, v.top);
    var e := v.plan[k].entry;
    SoundAt(h, e);
    assert Online(h[e], s, v.settled);
    var z := ListedNoHigher(h[e], s.slot, s.number, v.top - k);
    assert OvertakesAt(h, v.settled, from, end, s, q, x, r.connecting, r.kept, e);
    Overtaking(h, v.settled, from, end, s, q, x, r.connecting, r.kept, e);
  }

  lemma Lasting(h: seq<Table>, s: Session, settled: bool, from: nat, end: nat)
    requires from <= end < |h| && Throughout(h, s, settled, from, end)
    ensures forall t :: from <= t <= end ==> Throughout(h, s, false, from, t)
  {
    forall k | from <= k <= end ensures Online(h[k], s, false) {
      assert Online(h[k], s, settled);
    }
  }

  lemma Overtaking(h: seq<Table>, settled: bool, from: nat, end: nat, s: Session, q: int, x: int,
                   c: nat, d: nat, e: nat)
    requires OvertakesAt(h, settled, from, end, s, q, x, c, d, e)
    ensures Overtaken(h, settled, from, end, s)
  {
  }

  lemma TwiceOvertaken(v: View, from: nat, end: nat, s: Session)
    requires History(v.h) && from <= end < |v.h| && Throughout(v.h, s, v.settled, from, end) && Sensible(v)
    requires v.h[from].users == v.top + 1 && Timely(v.plan, from, end) && ShownTwice(v, s)
    ensures Overtaken(v.h, v.settled, from, end, s)
  {
    var j, k :| 0 <= j < k < |v.plan| && ShowsThat(v, j, s) && ShowsThat(v, k, s);
    KeepsOwn(v, from, end, s, j);
    ShowsBelow(v, k);
    var l := Raised(v, j, k, s.number);
    ShowsBelow(v, l);
    assert There(v, l);
    hide Overtaken, History, Sensible, Timely, Throughout, Shows, Mark, Met, Kept;
    RaiserOvertakes(v, from, end, s, l, k);
  }

  /** A lasting session's own number is kept when it is shown. */
  lemma KeepsOwn(v: View, from: nat, end: nat, s: Session, j: nat)
    requires from <= end < |v.h| && Throughout(v.h, s, v.settled, from, end) && Sensible(v)
    requires Timely(v.plan, from, end) && j < |v.plan| && Met(v, j) == s
    ensures Kept(v, j) == s.number
  {
    assert Orderly(v.plan[j], from, end);
    assert Online(v.h[v.plan[j].kept], s, v.settled);
  }

  // ---------------------------------------------------------------- how such a walk can be made

  /** Everything down to place x is read at `from`, but the last two words of place x at c and d; what is
      below is read at e. */
  function Chosen(p: int, x: int, from: nat, c: nat, d: nat, e: nat): Reads
  {
    if p > x then Reads(from, from, from, from, from)
    else if p == x then Reads(from, from, from, c, d)
    else Reads(e, e, e, e, e)
  }

  function Plan(top: int, x: int, from: nat, c: nat, d: nat, e: nat): (plan: seq<Reads>)
    requires -1 <= top
    ensures |plan| == top + 1 && forall k :: 0 <= k <= top ==> plan[k] == Chosen(top - k, x, from, c, d, e)
  {
    seq(top + 1, k => Chosen(top - k, x, from, c, d, e))
  }

  lemma PlanFits(h: seq<Table>, settled: bool, x: int, from: nat, c: nat, d: nat, e: nat, end: nat)
    requires History(h) && from <= c <= d <= e <= end < |h|
    ensures Shaped(h[from]) && Walked(h, settled, from, end, Plan(h[from].users - 1, x, from, c, d, e))
  {
    hide History, Shaped;
    AllShaped(h);
    FewUsers(h[from]);
    var plan := Plan(h[from].users - 1, x, from, c, d, e);
    forall k | 0 <= k < |plan| ensures Orderly(plan[k], from, end) && Within(h, plan[k]) {
    }
  }

  lemma FewUsers(t: Table)
    requires Shaped(t)
    ensures 0 <= t.users <= MAXUSERS
  {
  }

  /** The view such a walk has. */
  ghost predicate Planned(v: View, x: int, from: nat, c: nat, d: nat, e: nat, end: nat)
  {
    && Sensible(v) && History(v.h) && from <= c <= d <= e <= end < |v.h| && 0 <= x <= v.top
    && v.h[from].users == v.top + 1 && v.plan == Plan(v.top, x, from, c, d, e)
  }

  /** What a visit to a place reads. */
  lemma PlannedAt(v: View, x: int, from: nat, c: nat, d: nat, e: nat, end: nat, p: int)
    requires Planned(v, x, from, c, d, e, end) && 0 <= p <= v.top
    ensures Sensible(v) && v.top - p < |v.plan|
    ensures Shaped(v.h[from]) && Shaped(v.h[c]) && Shaped(v.h[d]) && Shaped(v.h[e])
    ensures var k, m := v.top - p, if p >= x then from else e; var q := v.h[m].index[p];
      && Met(v, k) == Session(q, v.h[m].btmp[q].eternal)
      && Kept(v, k) == v.h[if p == x then d else m].btmp[q].eternal
      && (There(v, k) <==> v.h[m].btmp[q].pid != 0 && !(v.settled && v.h[if p == x then c else m].btmp[q].connecting))
  {
    assert Within(v.h, v.plan[v.top - p]);
    AllShaped(v.h);
  }

  /** The threshold stays above the number of a place that is still to come. */
  lemma {:induction false} StillAbove(v: View, x: int, from: nat, c: nat, d: nat, e: nat, end: nat, p: int, n: nat)
    requires Planned(v, x, from, c, d, e, end) && x <= p <= v.top && n <= v.top - p && Sound(v.h[from])
    requires v.h[|v.h| - 1].eternal < NO_NUMBER
    requires forall y :: p < y <= v.top ==> v.h[from].index[y] != v.h[from].index[p]
    ensures Mark(v, n) > Number(v.h[from], p)
    decreases n
  {
    hide Planned, Sensible, Sound, There, Met, Kept;
    PlannedHistory(v, x, from, c, d, e, end);
    PlannedAt(v, x, from, c, d, e, end, p);
    if n == 0 {
      NumbersRiseOver(v.h, v.h[from].index[p], from, |v.h| - 1);
      SoundAt(v.h, |v.h| - 1);
      BelowCounter(v.h[|v.h| - 1], v.h[from].index[p]);
    } else {
      StillAbove(v, x, from, c, d, e, end, p, n - 1);
      PlannedAt(v, x, from, c, d, e, end, v.top - (n - 1));
      HigherPlaces(v.h[from], p, v.top - (n - 1));
    }
  }

  lemma PlannedHistory(v: View, x: int, from: nat, c: nat, d: nat, e: nat, end: nat)
    requires Planned(v, x, from, c, d, e, end)
    ensures History(v.h) && v.h[from].users == v.top + 1 <= MAXUSERS && |v.plan| == v.top + 1
    ensures from <= c <= d <= e <= end < |v.h| && 0 <= x <= v.top
  {
  }

  lemma BelowCounter(t: Table, q: int)
    requires Sound(t) && 0 <= q < MAXUSERS
    ensures t.btmp[q].eternal <= t.eternal
  {
  }

  /** From place x on down, as long as the session has not been shown again, the threshold is above it. */
  lemma {:induction false} MarkedAbove(v: View, x: int, from: nat, c: nat, d: nat, e: nat, end: nat, s: Session,
                                       z: int, n: nat)
    requires Planned(v, x, from, c, d, e, end) && v.top - x < n <= v.top - z && 0 <= z
    requires Sound(v.h[e]) && Online(v.h[e], s, v.settled) && Behind(v.h[e], s.slot, s.number, z, v.top)
    requires Mark(v, v.top - x + 1) > s.number
    ensures Sensible(v) && n <= |v.plan|
    ensures Mark(v, n) > s.number || exists k :: v.top - x < k < n && ShowsThat(v, k, s)
    decreases n
  {
    hide Planned, Sensible, Sound, There, Met, Kept, Behind;
    PlannedHistory(v, x, from, c, d, e, end);
    PlannedAt(v, x, from, c, d, e, end, x);
    if n > v.top - x + 1 {
      MarkedAbove(v, x, from, c, d, e, end, s, z, n - 1);
      if Mark(v, n - 1) > s.number {
        var p := v.top - (n - 1);
        PlannedAt(v, x, from, c, d, e, end, p);
        AboveSession(v.h[e], s, z, v.top, p);
        OnlineThere(v.h[e], s, v.settled);
        if v.h[e].index[p] == s.slot {
          assert ShowsThat(v, n - 1, s);
        }
      }
    }
  }

  lemma AboveSession(t: Table, s: Session, z: int, top: int, p: int)
    requires Sound(t) && Present(t, s.slot, s.number) && top < MAXUSERS && Behind(t, s.slot, s.number, z, top)
    requires z < p <= top
    ensures t.index[p] == s.slot || Number(t, p) > s.number
  {
    OnlineThere(t, s, false);
    if t.index[p] != s.slot {
      DifferentNumbers(t, t.index[p], s.slot);
    }
  }

  lemma OnlineThere(t: Table, s: Session, settled: bool)
    requires Sound(t) && Online(t, s, settled)
    ensures 0 <= s.slot < MAXUSERS && t.btmp[s.slot].pid != 0 && t.btmp[s.slot].eternal == s.number > 0
    ensures !(settled && t.btmp[s.slot].connecting)
  {
  }

  /** The walk shows the session at its place at `from`, then the slot at place x, whose number it keeps
      too late, and the session again. */
  lemma PlannedTwice(v: View, x: int, from: nat, c: nat, d: nat, e: nat, end: nat, s: Session, y: int, z: int)
    requires Planned(v, x, from, c, d, e, end) && x < y <= v.top && 0 <= z < x && v.h[|v.h| - 1].eternal < NO_NUMBER
    requires Sound(v.h[from]) && Online(v.h[from], s, v.settled) && v.h[from].index[y] == s.slot
    requires forall p :: y < p <= v.top ==> v.h[from].index[p] != s.slot
    requires forall p :: x < p <= v.top ==> v.h[from].index[p] != v.h[from].index[x]
    requires Sound(v.h[e]) && Online(v.h[e], s, v.settled) && Behind(v.h[e], s.slot, s.number, z, v.top)
    requires v.h[from].btmp[v.h[from].index[x]].pid != 0
    requires Sound(v.h[c]) && Sound(v.h[d]) && v.h[d].btmp[v.h[from].index[x]].eternal > s.number
    requires !(v.settled && v.h[c].btmp[v.h[from].index[x]].connecting)
    ensures Sensible(v) && ShownTwice(v, s)
  {
    hide Planned, Sensible, Sound, There, Met, Kept, Behind;
    PlannedHistory(v, x, from, c, d, e, end);
    PlannedAt(v, x, from, c, d, e, end, y);
    PlannedAt(v, x, from, c, d, e, end, x);
    PlannedAt(v, x, from, c, d, e, end, z);
    OnlineThere(v.h[from], s, v.settled);
    OnlineThere(v.h[e], s, v.settled);
    StillAbove(v, x, from, c, d, e, end, y, v.top - y);
    assert ShowsThat(v, v.top - y, s);
    StillAbove(v, x, from, c, d, e, end, x, v.top - x);
    assert Shows(v, v.top - x);
    RaisedNow(v, v.top - x);
    MarkedAbove(v, x, from, c, d, e, end, s, z, v.top - z);
    BehindHolds(v.h[e], s, z, v.top);
    if Mark(v, v.top - z) > s.number {
      assert ShowsThat(v, v.top - z, s);
    }
  }

  lemma BehindHolds(t: Table, s: Session, z: int, top: int)
    requires Shaped(t) && top < MAXUSERS && Behind(t, s.slot, s.number, z, top)
    ensures 0 <= z < t.users && t.index[z] == s.slot
  {
  }

  lemma OvertakenTwice(h: seq<Table>, settled: bool, from: nat, end: nat, s: Session, q: int, x0: int,
                       c: nat, d: nat, e: nat)
    requires History(h) && from <= end < |h| && h[|h| - 1].eternal < NO_NUMBER
    requires Throughout(h, s, settled, from, end) && OvertakesAt(h, settled, from, end, s, q, x0, c, d, e)
    ensures exists plan :: (
      Walked(h, settled, from, end, plan) && ShownTwice(View(h, settled, h[from].users - 1, plan), s))
  {
    assert Online(h[from], s, settled) && Online(h[e], s, settled);
    var z :| z < x0 && ListedAt(h[e], s.slot, z);
    var y0 :| ListedAt(h[from], s.slot, y0);
    hide History, Sound, Throughout, OvertakesAt;
    SoundAt(h, from);
    OvertakenFrom(h, settled, from, end, s, q, x0, c, d, e, z, y0);
  }

  lemma OvertakenFrom(h: seq<Table>, settled: bool, from: nat, end: nat, s: Session, q: int, x0: int,
                      c: nat, d: nat, e: nat, z: int, y0: int)
    requires History(h) && from <= end < |h| && h[|h| - 1].eternal < NO_NUMBER && Sound(h[from])
    requires Throughout(h, s, settled, from, end) && OvertakesAt(h, settled, from, end, s, q, x0, c, d, e)
    requires z < x0 && ListedAt(h[e], s.slot, z) && ListedAt(h[from], s.slot, y0)
    requires Online(h[from], s, settled) && Online(h[e], s, settled)
    ensures exists plan :: (
      Walked(h, settled, from, end, plan) && ShownTwice(View(h, settled, h[from].users - 1, plan), s))
  {
    hide History, Sound, Throughout;
    SoundAt(h, c);
    SoundAt(h, d);
    SoundAt(h, e);
    var top := h[from].users - 1;
    var x := Highest(h[from], q, x0);
    var y := Highest(h[from], s.slot, y0);
    if y < x {
      HigherPlaces(h[from], y, x);
    }
    FromBehind(h, settled, from, e, end, s, z);
    PlanFits(h, settled, x, from, c, d, e, end);
    var plan := Plan(top, x, from, c, d, e);
    var v := View(h, settled, top, plan);
    hide Walked, Behind;
    assert Planned(v, x, from, c, d, e, end) by { FewUsers(h[from]); }
    PlannedTwice(v, x, from, c, d, e, end, s, y, z);
  }

  lemma Overtaker(h: seq<Table>, settled: bool, from: nat, end: nat, s: Session)
    requires History(h) && from <= end < |h| && h[|h| - 1].eternal < NO_NUMBER
    requires Throughout(h, s, settled, from, end) && Overtaken(h, settled, from, end, s)
    ensures exists plan :: (
      Walked(h, settled, from, end, plan) && ShownTwice(View(h, settled, h[from].users - 1, plan), s))
  {
    hide OvertakesAt, Walked, ShownTwice, History, Throughout;
    var q, x, c, d, e :| OvertakesAt(h, settled, from, end, s, q, x, c, d, e);
    OvertakenTwice(h, settled, from, end, s, q, x, c, d, e);
  }

  lemma FromBehind(h: seq<Table>, settled: bool, from: nat, e: nat, end: nat, s: Session, z: int)
    requires History(h) && from <= e <= end < |h| && Throughout(h, s, settled, from, end)
    requires Sound(h[from]) && Sound(h[e])
    requires ListedAt(h[e], s.slot, z)
    ensures h[from].users <= MAXUSERS && Behind(h[e], s.slot, s.number, z, h[from].users - 1)
  {
    var top := h[from].users - 1;
    Lasting(h, s, settled, from, end);
    assert Online(h[from], s, settled);
    hide History, Sound, Throughout;
    var j := BehindStart(h[from], s.slot, s.number);
    BehindHolds(h[from], s, j, top);
    SameThroughout(h, s, from, e, end, settled);
    StaysAhead(h, s, top, top, s.number + 1, from, e);
    var i :| i <= top && Behind(h[e], s.slot, s.number, i, top);
    OneListing(h[e], s.slot, i, z);
  }

  lemma SameThroughout(h: seq<Table>, s: Session, from: nat, e: nat, end: nat, settled: bool)
    requires from <= e <= end < |h| && Throughout(h, s, settled, from, end)
    ensures Throughout(h, s, false, from, e)
  {
    Lasting(h, s, settled, from, end);
  }

  /** A session that is online throughout can be shown twice, by a walk that reads when it may, exactly when
      another slot overtakes it: one of lower number, listed below it when the walk begins, that is
      renumbered above it, while the session moves down below that slot's place. */
  lemma TwiceExactly(h: seq<Table>, settled: bool, from: nat, end: nat, s: Session)
    requires History(h) && from <= end < |h| && h[|h| - 1].eternal < NO_NUMBER && Throughout(h, s, settled, from, end)
    ensures (exists plan ::
               Walked(h, settled, from, end, plan) && ShownTwice(View(h, settled, h[from].users - 1, plan), s))
      <==> Overtaken(h, settled, from, end, s)
  {
    hide History, Throughout, Overtaken, ShownTwice;
    if plan :| Walked(h, settled, from, end, plan) && ShownTwice(View(h, settled, h[from].users - 1, plan), s) {
      TwiceOvertaken(View(h, settled, h[from].users - 1, plan), from, end, s);
    }
    if Overtaken(h, settled, from, end, s) {
      Overtaker(h, settled, from, end, s);
    }
  }
}
