/** The unlocked walk down the index in show_online() of who.c and clientwho() of user.c, beside any
    number of removals and logins.  Every word is read at a moment of its own. */
module OnlineWalk {
  import opened OnlineTable

  const NO_NUMBER: int := 999999999

  ghost predicate StepAt(h: seq<Table>, k: int)
    requires 0 <= k < |h| - 1
  {
    Shaped(h[k]) && Step(h[k], h[k + 1])
  }

  /** A run of the table, one moment after every single write. */
  ghost predicate History(h: seq<Table>)
  {
    && h != [] && Sound(h[0])
    && forall k :: 0 <= k < |h| - 1 ==> StepAt(h, k)
  }

  lemma {:induction false} SoundAt(h: seq<Table>, k: nat)
    requires History(h) && k < |h|
    ensures Sound(h[k])
  {
    if k > 0 {
      SoundAt(h, k - 1);
      assert StepAt(h, k - 1);
      SoundStep(h[k - 1], h[k]);
    }
  }

  lemma {:induction false} NumbersRiseOver(h: seq<Table>, s: int, i: nat, j: nat)
    requires History(h) && i <= j < |h| && 0 <= s < MAXUSERS
    ensures Shaped(h[i]) && Shaped(h[j]) && h[i].btmp[s].eternal <= h[j].btmp[s].eternal
    ensures h[i].eternal <= h[j].eternal
    decreases j
  {
    SoundAt(h, i);
    SoundAt(h, j);
    if i < j {
      NumbersRiseOver(h, s, i, j - 1);
      SoundAt(h, j - 1);
      assert StepAt(h, j - 1);
      NumbersRise(h[j - 1], h[j], s);
    }
  }

  /** A session that is shown by its slot and its number. */
  datatype Session = Session(slot: int, number: int)

  /** The session is online, and past its login if `settled`. */
  ghost predicate Online(t: Table, s: Session, settled: bool)
  {
    Present(t, s.slot, s.number) && (settled ==> !t.btmp[s.slot].connecting)
  }

  ghost predicate Throughout(h: seq<Table>, s: Session, settled: bool, i: nat, j: nat)
    requires i <= j < |h|
  {
    forall k :: i <= k <= j ==> Online(h[k], s, settled)
  }

  /** The walk, about to visit place i, has yet to come to the session. */
  ghost predicate Ahead(t: Table, s: Session, i: int, bound: int, mineternal: int)
  {
    && Shaped(t) && bound < MAXUSERS && s.number < mineternal
    && exists j :: j <= i && Behind(t, s.slot, s.number, j, bound)
  }

  /** While the session lasts, no write carries it past the walk. */
  lemma {:induction false} StaysAhead(h: seq<Table>, s: Session, i: int, bound: int, mineternal: int, t: nat, u: nat)
    requires History(h) && t <= u < |h| && Throughout(h, s, false, t, u) && Ahead(h[t], s, i, bound, mineternal)
    ensures Ahead(h[u], s, i, bound, mineternal)
    decreases u
  {
    if t < u {
      StaysAhead(h, s, i, bound, mineternal, t, u - 1);
      SoundAt(h, u - 1);
      SoundAt(h, u);
      assert StepAt(h, u - 1);
      var j :| j <= i && Behind(h[u - 1], s.slot, s.number, j, bound);
      assert Online(h[u - 1], s, false) && Online(h[u], s, false);
      var j' := BehindStep(h[u - 1], h[u], s.slot, s.number, j, bound);
    }
  }

  /** Visiting place i shows the session, or leaves it ahead of the walk and the threshold above it. */
  lemma Visit(h: seq<Table>, s: Session, i: int, bound: int, mineternal: int, t: nat, t1: nat, t2: nat, t3: nat,
              t4: nat, q: int)
    requires History(h) && t <= t1 <= t2 <= t3 <= t4 < |h| && Throughout(h, s, false, t, t4)
    requires Ahead(h[t], s, i, bound, mineternal) && 0 <= i <= bound && Shaped(h[t1]) && q == h[t1].index[i]
    ensures Shaped(h[t2]) && Shaped(h[t3]) && Shaped(h[t4])
    ensures q == s.slot ==> h[t2].btmp[q].pid != 0 && h[t3].btmp[q].eternal == s.number < mineternal
    ensures q != s.slot ==> Ahead(h[t4], s, i - 1, bound, mineternal) && h[t4].btmp[q].eternal > s.number
  {
    SoundAt(h, t2);
    SoundAt(h, t3);
    SoundAt(h, t4);
    assert Online(h[t2], s, false) && Online(h[t3], s, false) && Online(h[t4], s, false);
    StaysAhead(h, s, i, bound, mineternal, t, t1);
    var j :| j <= i && Behind(h[t1], s.slot, s.number, j, bound);
    if q != s.slot {
      assert j < i && Number(h[t1], i) >= s.number;
      assert Ahead(h[t1], s, i - 1, bound, mineternal);
      StaysAhead(h, s, i - 1, bound, mineternal, t1, t4);
      NumbersRiseOver(h, q, t1, t4);
      DifferentNumbers(h[t4], q, s.slot);
    }
  }

  method Later(h: seq<Table>, t: nat) returns (t': nat)
    requires t < |h|
    ensures t <= t' < |h|
  {
    t' :| t <= t' < |h|;
  }

  /** Each number is lower than the one before. */
  ghost predicate Falling(shown: seq<Session>)
  {
    forall a, b :: 0 <= a < b < |shown| ==> shown[a].number > shown[b].number
  }

  /** All sessions that last from `from` to t are shown already or still ahead of the walk. */
  ghost predicate NoneMissed(h: seq<Table>, settled: bool, from: nat, t: nat, shown: seq<Session>, i: int,
                             bound: int, mineternal: int)
    requires from <= t < |h|
  {
    forall s: Session :: Throughout(h, s, settled, from, t) ==> s in shown || Ahead(h[t], s, i, bound, mineternal)
  }

  // ---------------------------------------------------------------- when what is read

  /** The moments at which one place is read: its entry, the pid, the number compared, whether the session
      is connecting, and the number kept. */
  datatype Reads = Reads(entry: nat, pid: nat, compared: nat, connecting: nat, kept: nat)

  /** The walk over run h, from place `top` down; the k-th visit is to place top - k.  With `settled`
      (level 0) sessions still connecting are passed over. */
  datatype View = View(h: seq<Table>, settled: bool, top: int, plan: seq<Reads>)

  ghost predicate Within(h: seq<Table>, r: Reads)
  {
    r.entry < |h| && r.pid < |h| && r.compared < |h| && r.connecting < |h| && r.kept < |h|
  }

  ghost predicate Sensible(v: View)
  {
    && (forall k :: 0 <= k < |v.h| ==> Shaped(v.h[k]))
    && |v.plan| <= v.top + 1 <= MAXUSERS && forall k :: 0 <= k < |v.plan| ==> Within(v.h, v.plan[k])
  }

  function Cut(v: View, n: nat): View
    requires n <= |v.plan|
  {
    v.(plan := v.plan[..n])
  }

  /** The slot found at visit k. */
  function SlotAt(v: View, k: nat): int
    requires Sensible(v) && k < |v.plan|
  {
    assert Within(v.h, v.plan[k]);
    v.h[v.plan[k].entry].index[v.top - k]
  }

  /** The session met at visit k, by the number compared. */
  function Met(v: View, k: nat): Session
    requires Sensible(v) && k < |v.plan|
  {
    assert Within(v.h, v.plan[k]);
    Session(SlotAt(v, k), v.h[v.plan[k].compared].btmp[SlotAt(v, k)].eternal)
  }

  /** The number that is kept if the session is shown. */
  function Kept(v: View, k: nat): int
    requires Sensible(v) && k < |v.plan|
  {
    assert Within(v.h, v.plan[k]);
    v.h[v.plan[k].kept].btmp[SlotAt(v, k)].eternal
  }

  /** The session is there to be shown. */
  predicate There(v: View, k: nat)
    requires Sensible(v) && k < |v.plan|
  {
    assert Within(v.h, v.plan[k]);
    && v.h[v.plan[k].pid].btmp[SlotAt(v, k)].pid != 0
    && !(v.settled && v.h[v.plan[k].connecting].btmp[SlotAt(v, k)].connecting)
  }

  /** `mineternal` before visit n. */
  function Mark(v: View, n: nat): int
    requires Sensible(v) && n <= |v.plan|
    decreases 2 * n
  {
    if n == 0 then NO_NUMBER else if Shows(v, n - 1) then Kept(v, n - 1) else Mark(v, n - 1)
  }

  predicate Shows(v: View, k: nat)
    requires Sensible(v) && k < |v.plan|
    decreases 2 * k + 1
  {
    There(v, k) && Met(v, k).number < Mark(v, k)
  }

  /** The visits before the n-th that show somebody. */
  function Visits(v: View, n: nat): (q: seq<nat>)
    requires Sensible(v) && n <= |v.plan|
    ensures forall a :: 0 <= a < |q| ==> q[a] < n && Shows(v, q[a])
    ensures forall a, b :: 0 <= a < b < |q| ==> q[a] < q[b]
    ensures forall k :: 0 <= k < n && Shows(v, k) ==> k in q
  {
    if n == 0 then [] else Visits(v, n - 1) + if Shows(v, n - 1) then [n - 1] else []
  }

  /** What the walk shows. */
  function Shown(v: View): (r: seq<Session>)
    requires Sensible(v)
    ensures |r| == |Visits(v, |v.plan|)| && forall a :: 0 <= a < |r| ==> r[a] == Met(v, Visits(v, |v.plan|)[a])
  {
    var q := Visits(v, |v.plan|);
    seq(|q|, a requires 0 <= a < |q| => Met(v, q[a]))
  }

  /** Both views agree on a visit that both have made. */
  lemma SameVisit(v: View, w: View, k: nat)
    requires Sensible(v) && Sensible(w) && w == v.(plan := w.plan) && k < |v.plan| <= |w.plan| && v.plan[k] == w.plan[k]
    ensures Met(v, k) == Met(w, k) && Kept(v, k) == Kept(w, k) && There(v, k) == There(w, k)
  {
    assert Within(v.h, v.plan[k]);
  }

  /** One visit more leaves what was seen before as it was. */
  lemma {:induction false} MarkKept(v: View, w: View, n: nat)
    requires Sensible(v) && Sensible(w) && v.plan <= w.plan && w == v.(plan := w.plan) && n <= |v.plan|
    ensures Mark(v, n) == Mark(w, n) && Visits(v, n) == Visits(w, n)
    decreases n
  {
    hide Sensible, Met, Kept, There;
    if n > 0 {
      MarkKept(v, w, n - 1);
      assert v.plan[n - 1] == w.plan[n - 1];
      SameVisit(v, w, n - 1);
    }
  }

  lemma SensibleMore(v: View, r: Reads)
    requires Sensible(v) && |v.plan| < v.top + 1 && Within(v.h, r)
    ensures Sensible(v.(plan := v.plan + [r]))
  {
    hide Shaped, Within;
  }

  lemma ShownMore(v: View, r: Reads)
    requires Sensible(v) && |v.plan| < v.top + 1 && Within(v.h, r)
    ensures var w := v.(plan := v.plan + [r]);
      && Sensible(w) && Mark(w, |v.plan|) == Mark(v, |v.plan|)
      && Shown(w) == Shown(v) + if Shows(w, |v.plan|) then [Met(w, |v.plan|)] else []
  {
    hide Sensible, Met, Kept, There, Shows, Mark, Within;
    var w := v.(plan := v.plan + [r]);
    SensibleMore(v, r);
    MarkKept(v, w, |v.plan|);
    var q := Visits(v, |v.plan|);
    forall a | 0 <= a < |q| ensures Met(w, q[a]) == Met(v, q[a]) {
      assert w.plan[q[a]] == v.plan[q[a]];
      SameVisit(v, w, q[a]);
    }
  }

  /** The reads come one after the other, between two moments. */
  ghost predicate Timely(plan: seq<Reads>, from: nat, end: nat)
  {
    && (forall k :: 0 <= k < |plan| ==> Orderly(plan[k], from, end))
    && forall j, k :: 0 <= j < k < |plan| ==> plan[j].kept <= plan[k].entry
  }

  ghost predicate Orderly(r: Reads, from: nat, end: nat)
  {
    from <= r.entry <= r.pid <= r.compared <= r.connecting <= r.kept <= end
  }

  lemma TimelyMore(plan: seq<Reads>, r: Reads, from: nat, t: nat)
    requires Timely(plan, from, t) && from <= t && Orderly(r, t, r.kept)
    ensures Timely(plan + [r], from, r.kept)
  {
    forall k | 0 <= k < |plan| ensures Orderly(plan[k], from, t) && plan[k].kept <= r.entry {
    }
  }

  // ---------------------------------------------------------------- the walk

  /** The walk down the index, from the moment the number of users is read.  `plan` is when it read what:
      for any such moments it shows everybody who is online throughout. */
  method Walk(h: seq<Table>, start: nat, settled: bool)
    returns (shown: seq<Session>, from: nat, end: nat, ghost plan: seq<Reads>)
    requires History(h) && start < |h| && h[|h| - 1].eternal < NO_NUMBER
    ensures start <= from <= end < |h| && Timely(plan, from, end)
    ensures Shaped(h[from]) && |plan| == h[from].users && Sensible(View(h, settled, h[from].users - 1, plan))
    ensures shown == Shown(View(h, settled, h[from].users - 1, plan))
    ensures forall s: Session :: Throughout(h, s, settled, from, end) ==> s in shown
    ensures Unwritten(h, from, end) ==> Falling(shown)
  {
    hide Shown, Visits, Mark, Shows;
    shown, plan := [], [];
    var t := Later(h, start);
    from := t;
    AllShaped(h);
    SoundAt(h, t);
    var i := h[t].users - 1;
    ghost var top := i;
    var mineternal := NO_NUMBER;
    StartsAhead(h, settled, t);
    NothingShown(View(h, settled, top, []));
    while i >= 0
      invariant start <= from <= t < |h| && -1 <= i <= top < MAXUSERS && |plan| == top - i
      invariant Sensible(View(h, settled, top, plan)) && Timely(plan, from, t)
      invariant shown == Shown(View(h, settled, top, plan)) && mineternal == Mark(View(h, settled, top, plan), |plan|)
      invariant NoneMissed(h, settled, from, t, shown, i, top, mineternal)
    {
      ghost var r;
      shown, mineternal, t, r := Look(h, settled, top, i, shown, mineternal, from, t, plan);
      plan := plan + [r];
      i := i - 1;
    }
    end := t;
    UnwrittenFalls(View(h, settled, top, plan), from, end);
  }

  /** One visit. */
  method Look(h: seq<Table>, settled: bool, ghost top: int, i: int, shown0: seq<Session>, before: int,
              ghost from: nat, t0: nat, ghost plan: seq<Reads>)
    returns (shown: seq<Session>, mineternal: int, t: nat, ghost r: Reads)
    requires History(h) && from <= t0 < |h| && 0 <= i <= top < MAXUSERS && |plan| == top - i
    requires Sensible(View(h, settled, top, plan)) && Timely(plan, from, t0)
    requires shown0 == Shown(View(h, settled, top, plan)) && before == Mark(View(h, settled, top, plan), |plan|)
    requires NoneMissed(h, settled, from, t0, shown0, i, top, before)
    ensures t0 <= t < |h| && Within(h, r) && Timely(plan + [r], from, t)
    ensures Sensible(View(h, settled, top, plan + [r])) && shown == Shown(View(h, settled, top, plan + [r]))
    ensures mineternal == Mark(View(h, settled, top, plan + [r]), |plan| + 1)
    ensures NoneMissed(h, settled, from, t, shown, i - 1, top, mineternal)
  {
    hide History, Shown, Visits, NoneMissed, Timely;
    shown, mineternal := shown0, before;
    AllShaped(h);
    t := Later(h, t0);
    ghost var t1 := t;
    var q := h[t].index[i];
    t := Later(h, t);
    ghost var t2 := t;
    var pid := h[t].btmp[q].pid;
    t := Later(h, t);
    ghost var t3 := t;
    var number := h[t].btmp[q].eternal;
    t := Later(h, t);
    ghost var t4 := t;
    var connecting := h[t].btmp[q].connecting;
    t := Later(h, t);
    r := Reads(t1, t2, t3, t4, t);
    if pid != 0 && number < mineternal && !(settled && connecting) {
      mineternal := h[t].btmp[q].eternal;
      shown := shown + [Session(q, number)];
    }
    TimelyMore(plan, r, from, t0);
    ShownMore(View(h, settled, top, plan), r);
    assert shown0 + [] == shown0;
    NextMissesNone(h, settled, from, t0, r, shown0, shown, i, top, before, mineternal, q);
  }

  lemma NextMissesNone(h: seq<Table>, settled: bool, from: nat, t0: nat, r: Reads, shown0: seq<Session>,
                       shown: seq<Session>, i: int, top: int, before: int, mineternal: int, q: int)
    requires History(h) && Within(h, r) && from <= t0 && Orderly(r, t0, r.kept) && 0 <= i <= top < MAXUSERS
    requires NoneMissed(h, settled, from, t0, shown0, i, top, before)
    requires Shaped(h[r.entry]) && Shaped(h[r.pid]) && Shaped(h[r.compared]) && q == h[r.entry].index[i]
    requires Shaped(h[r.connecting]) && Shaped(h[r.kept])
    requires
      var number := h[r.compared].btmp[q].eternal;
      var shows := h[r.pid].btmp[q].pid != 0 && number < before && !(settled && h[r.connecting].btmp[q].connecting);
      && shown == shown0 + (if shows then [Session(q, number)] else [])
      && mineternal == if shows then h[r.kept].btmp[q].eternal else before
    ensures NoneMissed(h, settled, from, r.kept, shown, i - 1, top, mineternal)
  {
    hide History, Behind;
    forall s: Session | Throughout(h, s, settled, from, r.kept)
      ensures s in shown || Ahead(h[r.kept], s, i - 1, top, mineternal)
    {
      assert Throughout(h, s, settled, from, t0);
      if s !in shown0 {
        assert Throughout(h, s, false, t0, r.kept);
        assert Online(h[r.connecting], s, settled);
        Visit(h, s, i, top, before, t0, r.entry, r.pid, r.compared, r.kept, q);
      }
    }
  }

  lemma AllShaped(h: seq<Table>)
    requires History(h)
    ensures h != [] && forall k :: 0 <= k < |h| ==> Shaped(h[k])
  {
    forall k | 0 <= k < |h| ensures Shaped(h[k]) {
      SoundAt(h, k);
    }
  }

  lemma NothingShown(v: View)
    requires Sensible(v) && v.plan == []
    ensures Shown(v) == [] && Mark(v, 0) == NO_NUMBER
  {
  }

  lemma StartsAhead(h: seq<Table>, settled: bool, t: nat)
    requires History(h) && t < |h| && h[|h| - 1].eternal < NO_NUMBER && Sound(h[t])
    ensures NoneMissed(h, settled, t, t, [], h[t].users - 1, h[t].users - 1, NO_NUMBER)
  {
    forall s: Session | Throughout(h, s, settled, t, t)
      ensures Ahead(h[t], s, h[t].users - 1, h[t].users - 1, NO_NUMBER)
    {
      assert Online(h[t], s, settled);
      NumbersRiseOver(h, s.slot, t, |h| - 1);
      var j := BehindStart(h[t], s.slot, s.number);
    }
  }

  // ---------------------------------------------------------------- who is shown twice

  /** Nothing is shown between visits l and k. */
  ghost predicate Quiet(v: View, l: nat, k: nat)
    requires Sensible(v) && k <= |v.plan|
  {
    forall x :: l < x < k ==> !Shows(v, x)
  }

  lemma {:induction false} MarkIsLast(v: View, l: nat, k: nat)
    requires Sensible(v) && l < k <= |v.plan| && Shows(v, l) && Quiet(v, l, k)
    ensures Mark(v, k) == Kept(v, l)
    decreases k
  {
    if l + 1 < k {
      MarkIsLast(v, l, k - 1);
    }
  }

  /** The session shown at visit j is met again at visit k, while the number last kept, at visit l, is
      above the session's. */
  ghost predicate MeetsAgain(v: View, j: nat, l: nat, k: nat)
    requires Sensible(v)
  {
    && j <= l < k < |v.plan| && Shows(v, j) && Shows(v, l) && Quiet(v, l, k)
    && There(v, k) && Met(v, k) == Met(v, j) && Kept(v, l) > Met(v, j).number
  }

  ghost predicate Repeats(q: seq<Session>)
  {
    exists a, b :: 0 <= a < b < |q| && q[a] == q[b]
  }

  lemma RepeatMeets(v: View, a: nat, b: nat)
    requires Sensible(v) && a < b < |Shown(v)| && Shown(v)[a] == Shown(v)[b]
    ensures exists j, l, k :: MeetsAgain(v, j, l, k)
  {
    hide Sensible, Visits, Mark, Met, Kept, There;
    var q := Visits(v, |v.plan|);
    var l, k := q[b - 1], q[b];
    forall x: nat | l < x < k ensures !Shows(v, x) {
      forall c | 0 <= c < |q| ensures q[c] != x {
      }
      assert x !in q;
    }
    assert Quiet(v, l, k);
    MarkIsLast(v, l, k);
    assert MeetsAgain(v, q[a], l, k);
  }

  lemma MeetsRepeat(v: View, j: nat, l: nat, k: nat)
    requires Sensible(v) && MeetsAgain(v, j, l, k)
    ensures Repeats(Shown(v))
  {
    hide Sensible, Visits, Mark, Met, Kept, There;
    var q := Visits(v, |v.plan|);
    MarkIsLast(v, l, k);
    assert Shows(v, k) && j in q && k in q;
    var a :| 0 <= a < |q| && q[a] == j;
    var b :| 0 <= b < |q| && q[b] == k;
    assert Shown(v)[a] == Shown(v)[b];
  }

  /** Somebody is shown twice exactly when a session already shown is met again at a lower place before a
      number no higher than its own has been kept. */
  lemma RepeatsExactly(v: View)
    requires Sensible(v)
    ensures Repeats(Shown(v)) <==> exists j, l, k :: MeetsAgain(v, j, l, k)
  {
    hide Sensible, Shown, MeetsAgain;
    if Repeats(Shown(v)) {
      var a, b :| 0 <= a < b < |Shown(v)| && Shown(v)[a] == Shown(v)[b];
      RepeatMeets(v, a, b);
    }
    if j, l, k :| MeetsAgain(v, j, l, k) {
      MeetsRepeat(v, j, l, k);
    }
  }

  /** Visit x keeps a higher number than it has compared. */
  ghost predicate Torn(v: View, x: nat)
    requires Sensible(v) && x < |v.plan|
  {
    Shows(v, x) && Kept(v, x) > Met(v, x).number
  }

  lemma {:induction false} MarkFalls(v: View, j: nat, k: nat)
    requires Sensible(v) && j < k <= |v.plan| && Shows(v, j) && forall x :: j <= x < k ==> !Torn(v, x)
    ensures Mark(v, k) <= Met(v, j).number
    decreases k
  {
    if j + 1 < k {
      MarkFalls(v, j, k - 1);
    }
    assert !Torn(v, k - 1);
  }

  /** Nobody is, unless a number was kept that is higher than the one compared. */
  lemma RepeatIsTorn(v: View, j: nat, l: nat, k: nat)
    requires Sensible(v) && MeetsAgain(v, j, l, k)
    ensures exists x :: j <= x <= l && Torn(v, x)
  {
    MarkIsLast(v, l, l + 1);
    if forall x :: j <= x < l + 1 ==> !Torn(v, x) {
      MarkFalls(v, j, l + 1);
    }
  }

  /** No slot gets another number between the two moments. */
  ghost predicate Unwritten(h: seq<Table>, from: nat, end: nat)
  {
    forall k, q :: from <= k < end && end < |h| && 0 <= q < |h[k].btmp| == |h[k + 1].btmp| ==> SameNumber(h, k, q)
  }

  ghost predicate SameNumber(h: seq<Table>, k: nat, q: int)
    requires k + 1 < |h| && 0 <= q < |h[k].btmp| == |h[k + 1].btmp|
  {
    h[k].btmp[q].eternal == h[k + 1].btmp[q].eternal
  }

  lemma {:induction false} NumberStays(h: seq<Table>, from: nat, end: nat, i: nat, j: nat, q: int)
    requires Unwritten(h, from, end) && from <= i <= j <= end < |h| && 0 <= q < MAXUSERS
    requires Shaped(h[i]) && Shaped(h[j]) && forall k :: 0 <= k < |h| ==> Shaped(h[k])
    ensures h[i].btmp[q].eternal == h[j].btmp[q].eternal
    decreases j
  {
    if i < j {
      assert Shaped(h[j - 1]);
      NumberStays(h, from, end, i, j - 1, q);
      assert SameNumber(h, j - 1, q);
    }
  }

  /** A number is torn only if it was written between the two reads. */
  lemma TornIsWritten(v: View, from: nat, end: nat, x: nat)
    requires Sensible(v) && Timely(v.plan, from, end) && end < |v.h| && x < |v.plan| && Torn(v, x)
    ensures !Unwritten(v.h, v.plan[x].compared, v.plan[x].kept)
  {
    var r := v.plan[x];
    assert Orderly(r, from, end) && Within(v.h, r);
    assert 0 <= SlotAt(v, x) < MAXUSERS by { assert Shaped(v.h[r.entry]); }
    if Unwritten(v.h, r.compared, r.kept) {
      NumberStays(v.h, r.compared, r.kept, r.compared, r.kept, SlotAt(v, x));
    }
  }

  /** If no slot gets another number during the walk, every number shown is lower than the one before, so
      that nobody is shown twice. */
  lemma UnwrittenFalls(v: View, from: nat, end: nat)
    requires Sensible(v) && Timely(v.plan, from, end) && end < |v.h|
    ensures Unwritten(v.h, from, end) ==> Falling(Shown(v)) && !Repeats(Shown(v))
  {
    if Unwritten(v.h, from, end) {
      var q := Visits(v, |v.plan|);
      hide Visits, Mark, Shows;
      forall a, b | 0 <= a < b < |q| ensures Shown(v)[a].number > Shown(v)[b].number {
        forall x | q[a] <= x < q[b] ensures !Torn(v, x) {
          if Torn(v, x) {
            assert Orderly(v.plan[x], from, end);
            TornIsWritten(v, from, end, x);
          }
        }
        MarkFalls(v, q[a], q[b]);
        ShowsBelow(v, q[b]);
      }
    }
  }

  lemma ShowsBelow(v: View, k: nat)
    requires Sensible(v) && k < |v.plan| && Shows(v, k)
    ensures Met(v, k).number < Mark(v, k)
  {
  }

  /** Three sessions; the middle one leaves, then the lowest one. */
  function Leaving(): (h: seq<Table>)
    ensures |h| == 9 && forall k :: 0 <= k < 9 ==> Shaped(h[k])
  {
    var t0 := Table(3, seq(MAXUSERS, p => if p == 1 then 1 else if p == 2 then 2 else 0), 3,
                    seq(MAXUSERS, s =>
                      if s < 3 then Slot(if s < 0 then 0 else 10 + s, s + 1, false) else Slot(0, 0, false)), Idle);
    var t1 := t0.(op := Shift(1, 1));
    var t2 := t1.(index := t1.index[1 := 2], op := Shift(1, 2));
    var t3 := t2.(users := 2, op := Shrunk(1));
    var t4 := t3.(btmp := t3.btmp[1 := Slot(0, 2, false)], op := Gone(1));
    var t5 := t4.(eternal := 4, op := Redrawn(1));
    var t6 := t5.(btmp := t5.btmp[1 := Slot(0, 4, false)], op := Idle);
    var t7 := t6.(op := Shift(0, 0));
    var t8 := t7.(index := t7.index[0 := 2], op := Shift(0, 1));
    [t0, t1, t2, t3, t4, t5, t6, t7, t8]
  }

  lemma LeavingStartsSound()
    ensures Sound(Leaving()[0])
  {
    var t := Leaving()[0];
    assert t.index[..3] == [0, 1, 2];
    forall s | 0 <= s < MAXUSERS ensures Listed(t, s) <==> s < 3 {
      if s < 3 { assert ListedAt(t, s, s); }
    }
  }

  lemma LeavingNumbers()
    ensures Leaving()[0].users == 3 && Leaving()[8].eternal == 4
  {
  }

  /** What is read of the run at the three visits. */
  lemma LeavingShows(v: View)
    requires v.h == Leaving() && v.settled && v.top == 2
    requires v.plan == [Reads(0, 0, 0, 0, 0), Reads(0, 0, 0, 0, 6), Reads(8, 8, 8, 8, 8)]
    ensures Sensible(v) && There(v, 0) && There(v, 1) && There(v, 2)
    ensures Met(v, 0) == Met(v, 2) == Session(2, 3) && Met(v, 1) == Session(1, 2)
    ensures Kept(v, 0) == 3 && Kept(v, 1) == 4
  {
    hide Shaped;
    assert Sensible(v);
  }

  lemma {:induction false} VisitsAll(v: View, n: nat)
    requires Sensible(v) && n <= |v.plan| && forall k :: 0 <= k < n ==> Shows(v, k)
    ensures |Visits(v, n)| == n && forall k :: 0 <= k < n ==> Visits(v, n)[k] == k
    decreases n
  {
    hide Sensible, Shows;
    if n > 0 {
      VisitsAll(v, n - 1);
    }
  }

  lemma LeavingIsHistory()
    ensures History(Leaving())
  {
    LeavingStartsSound();
    hide Sound;
    var h := Leaving();
    forall k | 0 <= k < 8 ensures StepAt(h, k) {
      assert Shaped(h[k]);
      assert k == 0 || k == 1 || k == 2 || k == 3 || k == 4 || k == 5 || k == 6 || k == 7;
    }
  }

  /** A number that changes between its comparison and its assignment can raise the threshold, and a
      session that has meanwhile moved down is shown a second time. */
  lemma TornEntryRepeats()
    ensures var h := Leaving(); var plan := [Reads(0, 0, 0, 0, 0), Reads(0, 0, 0, 0, 6), Reads(8, 8, 8, 8, 8)];
      && History(h) && h[0].users == 3 && h[8].eternal < NO_NUMBER && Timely(plan, 0, 8)
      && Sensible(View(h, true, 2, plan))
      && Shown(View(h, true, 2, plan)) == [Session(2, 3), Session(1, 2), Session(2, 3)]
  {
    hide History, Leaving, Met, Kept, There, Visits;
    LeavingIsHistory();
    LeavingNumbers();
    var v := View(Leaving(), true, 2, [Reads(0, 0, 0, 0, 0), Reads(0, 0, 0, 0, 6), Reads(8, 8, 8, 8, 8)]);
    LeavingShows(v);
    assert Shows(v, 0) && Mark(v, 1) == 3;
    assert Shows(v, 1) && Mark(v, 2) == 4;
    assert Shows(v, 2);
    VisitsAll(v, 3);
  }
}
