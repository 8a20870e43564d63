/** The user index of users.c: two mirrored copies of two sorted columns over one table of links,
    an intrusive free list, the selector `which` flipped last, and the generation counter `gen`
    that lets readers search without a lock.

    Shared memory is a sequence of moments, one after every individual write.  A writer (the
    class `UserData`) appends a moment per write; a reader (`FindUser`) reads every word at some
    moment, never going back in time, so that any interleaving of the two is covered. */
module UserIndex {
  import opened Sequences

  const MAXTOTALUSERS: nat := 5000
  const MAXALIAS: nat := 19
  const TWO_TO_THE_31: nat := 0x8000_0000
  const TWO_TO_THE_32: nat := 0x1_0000_0000

  /** `struct userlink` */
  datatype Link = Link(free: int, usernum: nat, name: string)

  /** `struct userdata`: `name` and `num` hold both sides, one after the other. */
  datatype Store = Store(gen: int, which: int, total: seq<int>, free: seq<int>,
                         name: seq<int>, num: seq<int>, link: seq<Link>)

  /** `flipped` says that the last writer has already published its side. */
  datatype Moment = Moment(s: Store, flipped: bool)

  datatype Key = ByName(name: string) | ByNum(num: nat)

  // ---------------------------------------------------------------- comparisons

  /** strcmp() */
  function StrCmp(a: string, b: string): int
  {
    if a == [] && b == [] then 0
    else if a == [] then -1
    else if b == [] then 1
    else if a[0] < b[0] then -1
    else if a[0] > b[0] then 1
    else StrCmp(a[1..], b[1..])
  }

  /** The difference of two uint32_t values, stored into an int32_t. */
  function SignedDiff(a: nat, b: nat): int
  {
    var d := (a - b) % TWO_TO_THE_32;
    if d < TWO_TO_THE_31 then d else d - TWO_TO_THE_32
  }

  function Compare(key: Key, l: Link): int
  {
    match key
    case ByName(n) => StrCmp(n, l.name)
    case ByNum(u) => SignedDiff(u, l.usernum)
  }

  /** Strict order of a column: by name or by number. */
  predicate Before(byName: bool, a: Link, b: Link)
  {
    if byName then StrCmp(a.name, b.name) < 0 else a.usernum < b.usernum
  }

  predicate NumberInRange(u: nat) { 0 < u < TWO_TO_THE_31 }

  predicate GoodKey(key: Key) { key.ByNum? ==> NumberInRange(key.num) }

  lemma {:induction false} StrCmpReverses(a: string, b: string)
    ensures StrCmp(a, b) < 0 <==> StrCmp(b, a) > 0
    ensures StrCmp(a, b) == 0 <==> a == b
  {
    if a != [] && b != [] {
      StrCmpReverses(a[1..], b[1..]);
      assert a == [a[0]] + a[1..] && b == [b[0]] + b[1..];
    }
  }

  lemma {:induction false} StrCmpTransitive(a: string, b: string, c: string)
    requires StrCmp(a, b) < 0 && StrCmp(b, c) < 0
    ensures StrCmp(a, c) < 0
  {
    if a != [] && b != [] && c != [] && a[0] == b[0] == c[0] {
      StrCmpTransitive(a[1..], b[1..], c[1..]);
    }
  }

  /** Numbers below 2^31 are ordered by the sign of the wrapped difference. */
  lemma SignedDiffOrders(a: nat, b: nat)
    requires a < TWO_TO_THE_31 && b < TWO_TO_THE_31
    ensures SignedDiff(a, b) == a - b
  {
  }

  /** A key on one side of a link is on the same side of every link beyond it. */
  lemma CompareCarries(key: Key, a: Link, b: Link)
    requires GoodKey(key) && NumberInRange(a.usernum) && NumberInRange(b.usernum)
    requires Before(key.ByName?, a, b)
    ensures Compare(key, a) <= 0 ==> Compare(key, b) < 0
    ensures Compare(key, b) >= 0 ==> Compare(key, a) > 0
  {
    match key
    case ByName(n) =>
      StrCmpReverses(n, a.name);
      StrCmpReverses(a.name, n);
      StrCmpReverses(b.name, n);
      StrCmpReverses(n, b.name);
      if StrCmp(n, a.name) < 0 { StrCmpTransitive(n, a.name, b.name); }
      if StrCmp(n, b.name) > 0 { StrCmpTransitive(a.name, b.name, n); }
    case ByNum(u) =>
      SignedDiffOrders(u, a.usernum);
      SignedDiffOrders(u, b.usernum);
  }

  // ---------------------------------------------------------------- a side of the index

  function Base(w: int): int { if w == 0 then 0 else MAXTOTALUSERS }

  predicate Shaped(s: Store)
  {
    && 0 <= s.which <= 1 && 0 <= s.gen
    && |s.total| == 2 && |s.free| == 2
    && |s.name| == 2 * MAXTOTALUSERS && |s.num| == 2 * MAXTOTALUSERS
    && |s.link| == MAXTOTALUSERS
  }

  predicate SideShaped(s: Store, w: int)
  {
    Shaped(s) && 0 <= w <= 1 && 0 <= s.total[w] <= MAXTOTALUSERS
  }

  /** The entries of one column of side w. */
  function Column(s: Store, w: int, byName: bool): (col: seq<int>)
    requires SideShaped(s, w)
  {
    (if byName then s.name else s.num)[Base(w) .. Base(w) + s.total[w]]
  }

  predicate InRange(col: seq<int>)
  {
    forall k :: 0 <= k < |col| ==> 0 <= col[k] < MAXTOTALUSERS
  }

  predicate SortedColumn(link: seq<Link>, col: seq<int>, byName: bool)
    requires |link| == MAXTOTALUSERS && InRange(col)
  {
    forall i, j :: 0 <= i < j < |col| ==> Before(byName, link[col[i]], link[col[j]])
  }

  /** `chain` is the free list that starts at `head` (slot number plus one, 0 for none). */
  predicate IsChain(link: seq<Link>, head: int, chain: seq<int>)
    requires |link| == MAXTOTALUSERS
    decreases |chain|
  {
    if chain == [] then head == 0
    else 0 <= chain[0] < MAXTOTALUSERS && head == chain[0] + 1
         && IsChain(link, link[chain[0]].free, chain[1..])
  }

  /** Both columns are strictly sorted over the same slots, whose numbers are in range. */
  ghost predicate ValidColumns(link: seq<Link>, names: seq<int>, nums: seq<int>)
    requires |link| == MAXTOTALUSERS
  {
    && InRange(names) && InRange(nums)
    && SortedColumn(link, names, true) && SortedColumn(link, nums, false)
    && (forall slot :: slot in names <==> slot in nums)
    && (forall slot :: slot in names ==> NumberInRange(link[slot].usernum))
  }

  /** Live and free slots are disjoint and together fill [0, live + free); the slots beyond were
      never on a free list. */
  ghost predicate ValidFreeList(link: seq<Link>, head: int, chain: seq<int>, names: seq<int>)
    requires |link| == MAXTOTALUSERS
  {
    var used := |names| + |chain|;
    && used <= MAXTOTALUSERS
    && IsChain(link, head, chain) && Distinct(chain)
    && (forall slot :: 0 <= slot < used <==> slot in names || slot in chain)
    && (forall slot :: slot in chain ==> slot !in names)
    && (forall slot :: used <= slot < MAXTOTALUSERS ==> link[slot].free == 0)
  }

  /** Side w is a valid index whose free list is `chain`. */
  ghost predicate ValidSide(s: Store, w: int, chain: seq<int>)
  {
    && SideShaped(s, w)
    && ValidColumns(s.link, Column(s, w, true), Column(s, w, false))
    && ValidFreeList(s.link, s.free[w], chain, Column(s, w, true))
  }

  /** The published side is valid. */
  ghost predicate Valid(s: Store)
  {
    Shaped(s) && exists chain :: ValidSide(s, s.which, chain)
  }

  /** The name and number of every slot of a column. */
  function Roster(link: seq<Link>, names: seq<int>): map<int, (string, nat)>
    requires |link| == MAXTOTALUSERS && InRange(names)
  {
    map slot | slot in names :: (link[slot].name, link[slot].usernum)
  }

  /** The published side is valid, and `roster` is what it lists. */
  ghost predicate Publishes(s: Store, roster: map<int, (string, nat)>)
  {
    && Valid(s) && SideShaped(s, s.which) && InRange(Column(s, s.which, true))
    && roster == Roster(s.link, Column(s, s.which, true))
  }

  /** What a search must answer about a store: the slot of the key, or none and the place where the
      key belongs in its column. */
  ghost predicate Answers(s: Store, w: int, key: Key, slot: int, saveindex: int)
    requires SideShaped(s, w)
  {
    var col := Column(s, w, key.ByName?);
    && InRange(col)
    && 0 <= saveindex <= |col|
    && if slot >= 0 then
         && saveindex < |col| && col[saveindex] == slot
         && Compare(key, s.link[slot]) == 0
       else
         && (forall k :: 0 <= k < saveindex ==> Compare(key, s.link[col[k]]) > 0)
         && (forall k :: saveindex <= k < |col| ==> Compare(key, s.link[col[k]]) < 0)
  }

  // ---------------------------------------------------------------- single writes

  /** The links of the slots in `names` keep what a search reads, the others what a free list uses. */
  ghost predicate LinksKept(a: seq<Link>, b: seq<Link>, names: seq<int>)
    requires |a| == |b| == MAXTOTALUSERS
  {
    forall slot :: 0 <= slot < MAXTOTALUSERS ==>
      if slot in names then b[slot].name == a[slot].name && b[slot].usernum == a[slot].usernum
      else b[slot].free == a[slot].free
  }

  /** Nothing a search of side w of s0 looks at, and nothing its free list uses, differs in s. */
  ghost predicate SideKept(s0: Store, s: Store, w: int)
  {
    && SideShaped(s0, w) && SideShaped(s, w)
    && s.total[w] == s0.total[w] && s.free[w] == s0.free[w]
    && Column(s, w, true) == Column(s0, w, true)
    && Column(s, w, false) == Column(s0, w, false)
    && LinksKept(s0.link, s.link, Column(s0, w, true))
  }

  /** One write of a writer.  A writer starts by raising `gen`; until it flips `which` it leaves the
      published side alone; after the flip only links off the published side are cleared. */
  ghost predicate Step(a: Moment, b: Moment)
  {
    && Shaped(a.s) && Shaped(b.s)
    && if b.s.gen != a.s.gen then
         b == Moment(a.s.(gen := a.s.gen + 1), false)
       else if b.s.which != a.s.which then
         && !a.flipped && b.flipped
         && b.s == a.s.(which := 1 - a.s.which)
         && Valid(b.s)
       else
         a.flipped == b.flipped && SideKept(a.s, b.s, a.s.which)
         && (a.flipped ==> Clears(a, b))
  }

  /** A write after the flip: a link off the published side loses its number or its name. */
  ghost predicate Clears(a: Moment, b: Moment)
  {
    a.flipped && b.flipped && exists slot :: ClearsLink(a.s, b.s, slot)
  }

  predicate ClearsLink(s: Store, t: Store, slot: int)
  {
    && SideShaped(s, s.which) && 0 <= slot < MAXTOTALUSERS && slot !in Column(s, s.which, true)
    && (t == s.(link := s.link[slot := s.link[slot].(usernum := 0)])
        || t == s.(link := s.link[slot := s.link[slot].(name := "")]))
  }

  ghost predicate StepAt(h: seq<Moment>, k: int)
    requires 0 <= k < |h| - 1
  {
    Step(h[k], h[k + 1])
  }

  /** A run: it starts from a valid store and every write is a step of some writer. */
  ghost predicate History(h: seq<Moment>)
  {
    && h != [] && Valid(h[0].s)
    && forall k :: 0 <= k < |h| - 1 ==> StepAt(h, k)
  }

  // ---------------------------------------------------------------- what single writes keep

  lemma {:induction false} ChainKept(a: seq<Link>, b: seq<Link>, head: int, chain: seq<int>)
    requires |a| == |b| == MAXTOTALUSERS && IsChain(a, head, chain)
    requires forall slot :: slot in chain && 0 <= slot < MAXTOTALUSERS ==> a[slot].free == b[slot].free
    ensures IsChain(b, head, chain)
    decreases |chain|
  {
    if chain != [] { ChainKept(a, b, a[chain[0]].free, chain[1..]); }
  }

  lemma ColumnsKept(a: seq<Link>, b: seq<Link>, names: seq<int>, nums: seq<int>)
    requires |a| == |b| == MAXTOTALUSERS
    requires ValidColumns(a, names, nums) && LinksKept(a, b, names)
    ensures ValidColumns(b, names, nums)
  {
  }

  lemma FreeListKept(a: seq<Link>, b: seq<Link>, head: int, chain: seq<int>, names: seq<int>)
    requires |a| == |b| == MAXTOTALUSERS
    requires ValidFreeList(a, head, chain, names) && LinksKept(a, b, names)
    ensures ValidFreeList(b, head, chain, names)
  {
    ChainKept(a, b, head, chain);
  }

  /** Writes that leave a side alone leave it valid. */
  lemma SideKeptValid(s0: Store, s: Store, w: int, chain: seq<int>)
    requires ValidSide(s0, w, chain) && SideKept(s0, s, w)
    ensures ValidSide(s, w, chain)
  {
    ColumnsKept(s0.link, s.link, Column(s0, w, true), Column(s0, w, false));
    FreeListKept(s0.link, s.link, s0.free[w], chain, Column(s0, w, true));
  }

  lemma SideKeptTransitive(a: Store, b: Store, c: Store, w: int)
    requires SideKept(a, b, w) && SideKept(b, c, w)
    ensures SideKept(a, c, w)
  {
  }

  lemma ValidKept(s0: Store, s: Store)
    requires Valid(s0) && s.which == s0.which && SideKept(s0, s, s0.which)
    ensures Valid(s)
  {
    var chain :| ValidSide(s0, s0.which, chain);
    SideKeptValid(s0, s, s0.which, chain);
  }

  lemma RosterKept(a: seq<Link>, b: seq<Link>, names: seq<int>)
    requires |a| == |b| == MAXTOTALUSERS && InRange(names) && LinksKept(a, b, names)
    ensures Roster(a, names) == Roster(b, names)
  {
  }

  /** While the published side is left alone, what is published stays the same. */
  lemma PublishesKept(s0: Store, s: Store, roster: map<int, (string, nat)>)
    requires Publishes(s0, roster) && s.which == s0.which && SideKept(s0, s, s0.which)
    ensures Publishes(s, roster)
  {
    ValidKept(s0, s);
    RosterKept(s0.link, s.link, Column(s0, s0.which, true));
  }

  /** No write of any writer ever publishes an invalid side. */
  lemma {:induction false} EveryMomentValid(h: seq<Moment>, k: nat)
    requires History(h) && k < |h|
    ensures Valid(h[k].s)
  {
    if k > 0 {
      EveryMomentValid(h, k - 1);
      assert StepAt(h, k - 1);
      var a, b := h[k - 1], h[k];
      if b.s.which == a.s.which {
        assert SideKept(a.s, b.s, a.s.which);
        ValidKept(a.s, b.s);
      }
    }
  }

  predicate Readable(s: Store)
  {
    && SideShaped(s, s.which)
    && InRange(Column(s, s.which, true)) && InRange(Column(s, s.which, false))
  }

  lemma MomentReadable(h: seq<Moment>, k: nat)
    requires History(h) && k < |h|
    ensures Readable(h[k].s)
  {
    EveryMomentValid(h, k);
  }

  lemma {:induction false} GenGrows(h: seq<Moment>, i: nat, j: nat)
    requires History(h) && i <= j < |h|
    ensures h[i].s.gen <= h[j].s.gen
    decreases j
  {
    if i < j {
      GenGrows(h, i, j - 1);
      assert StepAt(h, j - 1);
    }
  }

  /** Write k clears a link while side w is the stale one. */
  ghost predicate Disturbs(h: seq<Moment>, k: int, w: int)
    requires 0 <= k < |h| - 1
  {
    h[k].s.which != w && Clears(h[k], h[k + 1])
  }

  /** Between moments i and j no link is cleared while the side published at i is the stale one. */
  ghost predicate Undisturbed(h: seq<Moment>, i: nat, j: nat)
    requires i <= j < |h|
  {
    forall k :: i <= k < j ==> !Disturbs(h, k, h[i].s.which)
  }

  /** One write that is not the start of a writer keeps the side w that was published before, as long
      as it does not clear a link while w is stale. */
  lemma StepKeepsSide(a: Moment, b: Moment, w: int)
    requires Step(a, b) && a.s.gen == b.s.gen && SideShaped(a.s, w)
    requires a.s.which == w || a.flipped
    requires !(a.s.which != w && Clears(a, b))
    ensures SideKept(a.s, b.s, w)
    ensures b.s.which == w || b.flipped
  {
  }

  /** As long as `gen` is stable the side published at i is never rewritten. */
  lemma {:induction false} SideStable(h: seq<Moment>, i: nat, j: nat)
    requires History(h) && i <= j < |h|
    requires h[i].s.gen == h[j].s.gen && Undisturbed(h, i, j)
    requires SideShaped(h[i].s, h[i].s.which)
    ensures SideKept(h[i].s, h[j].s, h[i].s.which)
    ensures h[j].s.which == h[i].s.which || h[j].flipped
    decreases j
  {
    if i < j {
      GenGrows(h, i, j - 1);
      GenGrows(h, j - 1, j);
      SideStable(h, i, j - 1);
      assert StepAt(h, j - 1);
      assert !Disturbs(h, j - 1, h[i].s.which);
      StepKeepsSide(h[j - 1], h[j], h[i].s.which);
      SideKeptTransitive(h[i].s, h[j - 1].s, h[j].s, h[i].s.which);
    }
  }

  // ---------------------------------------------------------------- what deletion does to a stale side

  /** A link that may have lost its name or its number since. */
  predicate MayFade(a: Link, b: Link)
  {
    (b.name == a.name || b.name == "") && (b.usernum == a.usernum || b.usernum == 0)
  }

  /** Side w of s0 as it may look in s to who goes on reading it after the flip. */
  ghost predicate Aged(s0: Store, s: Store, w: int)
  {
    && SideShaped(s0, w) && SideShaped(s, w) && s.total[w] == s0.total[w]
    && Column(s, w, true) == Column(s0, w, true) && Column(s, w, false) == Column(s0, w, false)
    && forall slot :: 0 <= slot < MAXTOTALUSERS && slot in Column(s0, w, true) ==> MayFade(s0.link[slot], s.link[slot])
  }

  lemma StepAges(s0: Store, a: Moment, b: Moment, w: int)
    requires Step(a, b) && a.s.gen == b.s.gen && Aged(s0, a.s, w) && (a.s.which == w || a.flipped)
    ensures Aged(s0, b.s, w) && (b.s.which == w || b.flipped)
  {
    if a.s.which != w {
      var slot :| ClearsLink(a.s, b.s, slot);
    }
  }

  /** As long as `gen` is stable, nothing worse befalls the side published at i than that links fade. */
  lemma {:induction false} SideAges(h: seq<Moment>, i: nat, j: nat)
    requires History(h) && i <= j < |h| && h[i].s.gen == h[j].s.gen && SideShaped(h[i].s, h[i].s.which)
    ensures Aged(h[i].s, h[j].s, h[i].s.which) && (h[j].s.which == h[i].s.which || h[j].flipped)
    decreases j
  {
    if i < j {
      GenGrows(h, i, j - 1);
      GenGrows(h, j - 1, j);
      SideAges(h, i, j - 1);
      assert StepAt(h, j - 1);
      StepAges(h[i].s, h[j - 1], h[j], h[i].s.which);
    }
  }

  /** A search among places lower..upper for what is at place p compares with place m. */
  predicate Probes(lower: int, upper: int, p: int, m: int)
    decreases upper - lower
  {
    lower <= upper &&
      var mid := (lower + upper) / 2;
      m == mid || (p < mid && Probes(lower, mid - 1, p, m)) || (p > mid && Probes(mid + 1, upper, p, m))
  }

  /** The key is that of the entry at place p. */
  predicate Matches(s: Store, key: Key, p: int)
    requires Readable(s)
  {
    var col := Column(s, s.which, key.ByName?);
    0 <= p < |col| && Compare(key, s.link[col[p]]) == 0
  }

  /** What the key is compared with has been cleared. */
  predicate Lost(key: Key, a: Link, b: Link)
  {
    if key.ByName? then b.name == "" != a.name else b.usernum == 0 != a.usernum
  }

  /** The search for the entry at place p comes to the entry at place m, not below p, that s has lost. */
  predicate Strays(s0: Store, s: Store, key: Key, p: int, m: int)
    requires Readable(s0) && Shaped(s)
  {
    var col := Column(s0, s0.which, key.ByName?);
    && 0 <= p <= m < |col| && Matches(s0, key, p) && Probes(0, |col| - 1, p, m)
    && Lost(key, s0.link[col[m]], s.link[col[m]])
  }

  /** Between the two moments such an entry has been cleared. */
  ghost predicate Endangered(h: seq<Moment>, at: nat, end: nat, key: Key)
    requires at <= end < |h| && Readable(h[at].s)
  {
    exists k, p, m :: at <= k <= end && Shaped(h[k].s) && Strays(h[at].s, h[k].s, key, p, m)
  }

  predicate Findable(key: Key)
  {
    GoodKey(key) && key != ByName("")
  }

  /** A cleared link looks smaller than any key. */
  lemma LostIsBelow(key: Key, a: Link, b: Link)
    requires Findable(key) && MayFade(a, b)
    ensures if Lost(key, a, b) then Compare(key, b) > 0 else Compare(key, b) == Compare(key, a)
  {
  }

  /** Entries match at one place at most, and the others tell on which side it lies. */
  lemma MatchPlace(s: Store, key: Key, p: int, m: int)
    requires Valid(s) && Readable(s) && GoodKey(key) && Matches(s, key, p)
    requires 0 <= m < |Column(s, s.which, key.ByName?)|
    ensures var cmp := Compare(key, s.link[Column(s, s.which, key.ByName?)[m]]);
      (cmp < 0 <==> p < m) && (cmp > 0 <==> p > m)
  {
    var col := Column(s, s.which, key.ByName?);
    assert col[p] in col && col[m] in col;
    if p < m {
      CompareCarries(key, s.link[col[p]], s.link[col[m]]);
    } else if p > m {
      CompareCarries(key, s.link[col[m]], s.link[col[p]]);
    }
  }

  // ---------------------------------------------------------------- the lock-free reader

  /** What a comparison with entry `mid` tells about the rest of a sorted column. */
  ghost predicate Decides(link: seq<Link>, col: seq<int>, key: Key, mid: int, slot: int, cmp: int)
    requires |link| == MAXTOTALUSERS && InRange(col)
  {
    0 <= mid < |col| ==>
      && slot == col[mid] && cmp == Compare(key, link[slot])
      && (cmp <= 0 ==> forall k :: mid < k < |col| ==> Compare(key, link[col[k]]) < 0)
      && (cmp >= 0 ==> forall k :: 0 <= k < mid ==> Compare(key, link[col[k]]) > 0)
  }

  lemma ValidDecides(s: Store, key: Key, mid: int)
    requires Valid(s) && Readable(s) && GoodKey(key) && 0 <= mid < |Column(s, s.which, key.ByName?)|
    ensures var col := Column(s, s.which, key.ByName?);
      Decides(s.link, col, key, mid, col[mid], Compare(key, s.link[col[mid]]))
  {
    var col := Column(s, s.which, key.ByName?);
    assert col[mid] in col;
    forall k | 0 <= k < |col| && k != mid
      ensures k > mid && Compare(key, s.link[col[mid]]) <= 0 ==> Compare(key, s.link[col[k]]) < 0
      ensures k < mid && Compare(key, s.link[col[mid]]) >= 0 ==> Compare(key, s.link[col[k]]) > 0
    {
      assert col[k] in col;
      if k > mid {
        CompareCarries(key, s.link[col[mid]], s.link[col[k]]);
      } else {
        CompareCarries(key, s.link[col[k]], s.link[col[mid]]);
      }
    }
  }

  /** A slot number read at t1 and its link read at t are those of the side published at `at`, and
      decide on which side of the column the key lies. */
  lemma ReadDecides(h: seq<Moment>, at: nat, t1: nat, t: nat, key: Key, mid: int, linknum: int, l: Link)
    requires History(h) && at <= t1 <= t < |h| && GoodKey(key)
    requires h[at].s.gen == h[t].s.gen && Undisturbed(h, at, t)
    requires Readable(h[at].s) && Shaped(h[t1].s) && Shaped(h[t].s)
    requires 0 <= mid < |Column(h[at].s, h[at].s.which, key.ByName?)|
    requires linknum == (if key.ByName? then h[t1].s.name else h[t1].s.num)[Base(h[at].s.which) + mid]
    requires 0 <= linknum < MAXTOTALUSERS ==> l == h[t].s.link[linknum]
    ensures Decides(h[at].s.link, Column(h[at].s, h[at].s.which, key.ByName?), key, mid, linknum, Compare(key, l))
  {
    hide Decides;
    EveryMomentValid(h, at);
    GenGrows(h, at, t1);
    GenGrows(h, t1, t);
    SideStable(h, at, t1);
    SideStable(h, at, t);
    hide History;
    var s := h[at].s;
    var col := Column(s, s.which, key.ByName?);
    assert Column(h[t1].s, s.which, key.ByName?) == col;
    assert col[mid] in col;
    assert linknum == col[mid];
    ValidDecides(s, key, mid);
  }

  /** A time at which the next word is read. */
  method Later(h: seq<Moment>, t: nat) returns (t': nat)
    requires t < |h|
    ensures t <= t' < |h|
  {
    t' :| t <= t' < |h|;
  }

  /** The reader still sees the moment `at`: nothing has started or disturbed its side since. */
  ghost predicate Steady(h: seq<Moment>, at: nat, t: nat)
    requires at <= t < |h|
  {
    h[t].s.gen == h[at].s.gen && Undisturbed(h, at, t)
  }

  lemma SteadyTotal(h: seq<Moment>, at: nat, t: nat)
    requires History(h) && at <= t < |h| && Steady(h, at, t) && Readable(h[at].s)
    ensures Shaped(h[t].s) && h[t].s.total[h[at].s.which] == h[at].s.total[h[at].s.which]
  {
    SideStable(h, at, t);
  }

  lemma SteadyEarlier(h: seq<Moment>, at: nat, i: nat, j: nat)
    requires History(h) && at <= i <= j < |h|
    ensures Steady(h, at, j) ==> Steady(h, at, i)
  {
    GenGrows(h, at, i);
    GenGrows(h, i, j);
  }

  /** Everything below `lower` is before the key and everything above `upper` is after it. */
  ghost predicate Narrowed(link: seq<Link>, col: seq<int>, key: Key, lower: int, upper: int)
    requires |link| == MAXTOTALUSERS && InRange(col)
  {
    && 0 <= lower <= upper + 1 <= |col|
    && (forall k :: 0 <= k < lower ==> Compare(key, link[col[k]]) > 0)
    && (forall k :: upper < k < |col| ==> Compare(key, link[col[k]]) < 0)
  }

  /** What the search knows when it stops. */
  ghost predicate Searched(s: Store, key: Key, lower: int, upper: int, mid: int, slot: int, cmp: int)
    requires Readable(s)
  {
    var col := Column(s, s.which, key.ByName?);
    if cmp != 0 then Narrowed(s.link, col, key, if cmp > 0 then mid + 1 else lower, if cmp < 0 then mid - 1 else upper)
    else 0 <= lower <= mid <= upper < |col| && col[mid] == slot && Compare(key, s.link[slot]) == 0
  }

  lemma WholeColumn(s: Store, key: Key)
    requires Readable(s)
    ensures Narrowed(s.link, Column(s, s.which, key.ByName?), key, 0, s.total[s.which] - 1)
  {
  }

  lemma NarrowStep(s: Store, key: Key, lower: int, upper: int, mid: int, slot: int, cmp: int)
    requires Readable(s)
    requires var col := Column(s, s.which, key.ByName?);
      Narrowed(s.link, col, key, lower, upper) && lower <= mid <= upper && Decides(s.link, col, key, mid, slot, cmp)
    ensures Searched(s, key, lower, upper, mid, slot, cmp)
  {
  }

  lemma SearchedNarrows(s: Store, key: Key, lower: int, upper: int, mid: int, slot: int, cmp: int)
    requires Readable(s) && Searched(s, key, lower, upper, mid, slot, cmp)
    ensures var col := Column(s, s.which, key.ByName?);
      && (cmp < 0 ==> Narrowed(s.link, col, key, lower, mid - 1))
      && (cmp > 0 ==> Narrowed(s.link, col, key, mid + 1, upper))
  {
  }

  lemma SearchAnswers(s: Store, key: Key, lower: int, upper: int, mid: int, slot: int)
    requires Readable(s)
    ensures lower > upper && Narrowed(s.link, Column(s, s.which, key.ByName?), key, lower, upper)
      ==> Answers(s, s.which, key, -1, lower)
    ensures Searched(s, key, lower, upper, mid, slot, 0) ==> Answers(s, s.which, key, slot, mid) && lower <= upper
  {
  }

  /** `gen` has not changed since `at`. */
  ghost predicate Calm(h: seq<Moment>, at: nat, t: nat)
    requires at <= t < |h|
  {
    h[t].s.gen == h[at].s.gen
  }

  lemma CalmEarlier(h: seq<Moment>, at: nat, i: nat, j: nat)
    requires History(h) && at <= i <= j < |h|
    ensures Calm(h, at, j) ==> Calm(h, at, i)
  {
    GenGrows(h, at, i);
    GenGrows(h, i, j);
  }

  /** A comparison with entry `mid` is right, or the entry has been cleared and looks smaller. */
  predicate Sees(s0: Store, s: Store, key: Key, mid: int, slot: int, cmp: int)
    requires Readable(s0) && Shaped(s)
  {
    var col := Column(s0, s0.which, key.ByName?);
    0 <= mid < |col| ==>
      slot == col[mid] && if Lost(key, s0.link[slot], s.link[slot]) then cmp > 0 else cmp == Compare(key, s0.link[slot])
  }

  /** What is read while `gen` is stable, whatever is cleared meanwhile. */
  lemma ReadSees(h: seq<Moment>, at: nat, t1: nat, t: nat, key: Key, mid: int, linknum: int, l: Link)
    requires History(h) && at <= t1 <= t < |h| && Findable(key) && Calm(h, at, t)
    requires Readable(h[at].s) && Shaped(h[t1].s) && Shaped(h[t].s)
    requires 0 <= mid < |Column(h[at].s, h[at].s.which, key.ByName?)|
    requires linknum == (if key.ByName? then h[t1].s.name else h[t1].s.num)[Base(h[at].s.which) + mid]
    requires 0 <= linknum < MAXTOTALUSERS ==> l == h[t].s.link[linknum]
    ensures Sees(h[at].s, h[t].s, key, mid, linknum, Compare(key, l))
  {
    EveryMomentValid(h, at);
    CalmEarlier(h, at, t1, t);
    hide History;
    SideAges(h, at, t1);
    SideAges(h, at, t);
    var s := h[at].s;
    var col := Column(s, s.which, key.ByName?);
    assert Column(h[t1].s, s.which, key.ByName?) == col;
    assert linknum == col[mid] && col[mid] in col;
    LostIsBelow(key, s.link[linknum], l);
  }

  lemma CalmTotal(h: seq<Moment>, at: nat, t: nat)
    requires History(h) && at <= t < |h| && Calm(h, at, t) && Readable(h[at].s)
    ensures Shaped(h[t].s) && h[t].s.total[h[at].s.which] == h[at].s.total[h[at].s.which]
  {
    SideAges(h, at, t);
  }

  /** A search for what is at place p that has come to the range lower..upper. */
  ghost predicate OnPath(n: int, p: int, lower: int, upper: int)
  {
    lower <= p <= upper && forall m :: Probes(lower, upper, p, m) ==> Probes(0, n - 1, p, m)
  }

  /** The entry of the key, if there is one, is still ahead of the search, or it is endangered. */
  ghost predicate Ahead(h: seq<Moment>, at: nat, t: nat, key: Key, lower: int, upper: int)
    requires at <= t < |h| && Readable(h[at].s)
  {
    var n := |Column(h[at].s, h[at].s.which, key.ByName?)|;
    && 0 <= lower && upper < n
    && forall p :: Matches(h[at].s, key, p) ==> OnPath(n, p, lower, upper) || Endangered(h, at, t, key)
  }

  lemma EndangeredLater(h: seq<Moment>, at: nat, t0: nat, t: nat, key: Key)
    requires at <= t0 <= t < |h| && Readable(h[at].s) && Endangered(h, at, t0, key)
    ensures Endangered(h, at, t, key)
  {
    var k, p, m :| at <= k <= t0 && Shaped(h[k].s) && Strays(h[at].s, h[k].s, key, p, m);
  }

  lemma AheadStarts(h: seq<Moment>, at: nat, t: nat, key: Key)
    requires at <= t < |h| && Readable(h[at].s)
    ensures Ahead(h, at, t, key, 0, h[at].s.total[h[at].s.which] - 1)
  {
  }

  lemma PathNarrows(n: int, p: int, lower: int, upper: int)
    requires OnPath(n, p, lower, upper)
    ensures var mid := (lower + upper) / 2;
      && Probes(0, n - 1, p, mid)
      && (p < mid ==> OnPath(n, p, lower, mid - 1)) && (p > mid ==> OnPath(n, p, mid + 1, upper))
  {
    var mid := (lower + upper) / 2;
    assert Probes(lower, upper, p, mid);
    var below, above, last := mid - 1, mid + 1, n - 1;
    forall m | p < mid && Probes(lower, below, p, m) ensures Probes(0, last, p, m) {
      assert Probes(lower, upper, p, m);
    }
    forall m | p > mid && Probes(above, upper, p, m) ensures Probes(0, last, p, m) {
      assert Probes(lower, upper, p, m);
    }
  }

  /** One comparison narrows the range on the side of the entry, finds it, or comes upon a cleared link
      that is not below it. */
  lemma AheadNarrows(h: seq<Moment>, at: nat, t0: nat, t: nat, key: Key, lower: int, upper: int, slot: int, cmp: int)
    requires at <= t0 <= t < |h| && Readable(h[at].s) && Valid(h[at].s) && Shaped(h[t].s) && GoodKey(key)
    requires Ahead(h, at, t0, key, lower, upper) && lower <= upper
    requires Sees(h[at].s, h[t].s, key, (lower + upper) / 2, slot, cmp)
    ensures cmp < 0 ==> Ahead(h, at, t, key, lower, (lower + upper) / 2 - 1)
    ensures cmp > 0 ==> Ahead(h, at, t, key, (lower + upper) / 2 + 1, upper)
  {
    hide OnPath, Probes, Compare, Column;
    var s := h[at].s;
    var mid := (lower + upper) / 2;
    var n := |Column(s, s.which, key.ByName?)|;
    forall p | Matches(s, key, p)
      ensures cmp < 0 ==> OnPath(n, p, lower, mid - 1) || Endangered(h, at, t, key)
      ensures cmp > 0 ==> OnPath(n, p, mid + 1, upper) || Endangered(h, at, t, key)
    {
      if Endangered(h, at, t0, key) {
        EndangeredLater(h, at, t0, t, key);
      } else {
        hide Endangered;
        MatchPlace(s, key, p, mid);
        PathNarrows(n, p, lower, upper);
        if mid >= p && cmp > 0 {
          EndangeredNow(h, at, t, key, p, mid);
        }
      }
    }
  }

  lemma EndangeredNow(h: seq<Moment>, at: nat, t: nat, key: Key, p: int, m: int)
    requires at <= t < |h| && Readable(h[at].s) && Shaped(h[t].s) && Strays(h[at].s, h[t].s, key, p, m)
    ensures Endangered(h, at, t, key)
  {
  }

  /** The answer is a slot of the key, or there was none, or its entry is endangered. */
  ghost predicate Reliable(h: seq<Moment>, at: nat, end: nat, key: Key, slot: int)
    requires at <= end < |h| && Readable(h[at].s)
  {
    var s := h[at].s;
    if slot >= 0 then exists p :: Matches(s, key, p) && Column(s, s.which, key.ByName?)[p] == slot
    else (forall p :: !Matches(s, key, p)) || Endangered(h, at, end, key)
  }

  /** What the end of the search says. */
  lemma SearchReliable(h: seq<Moment>, at: nat, t: nat, key: Key, lower: int, upper: int, mid: int, slot: int)
    requires at <= t < |h| && Readable(h[at].s) && Shaped(h[t].s)
    ensures lower > upper && Ahead(h, at, t, key, lower, upper) ==> Reliable(h, at, t, key, -1)
    ensures 0 <= mid < |Column(h[at].s, h[at].s.which, key.ByName?)| && Sees(h[at].s, h[t].s, key, mid, slot, 0)
      ==> slot >= 0 && Reliable(h, at, t, key, slot)
  {
    var s := h[at].s;
    var col := Column(s, s.which, key.ByName?);
    if 0 <= mid < |col| && Sees(s, h[t].s, key, mid, slot, 0) {
      assert Matches(s, key, mid);
    }
  }

  lemma ReliableLater(h: seq<Moment>, at: nat, t0: nat, t: nat, key: Key, slot: int)
    requires at <= t0 <= t < |h| && Readable(h[at].s) && Reliable(h, at, t0, key, slot)
    ensures Reliable(h, at, t, key, slot)
  {
    if slot < 0 && Endangered(h, at, t0, key) {
      EndangeredLater(h, at, t0, t, key);
    }
  }

  /** How far the search has come. */
  ghost predicate Progress(h: seq<Moment>, at: nat, t: nat, key: Key, lower: int, upper: int)
    requires at <= t < |h| && Readable(h[at].s)
  {
    && (Steady(h, at, t) ==> Narrowed(h[at].s.link, Column(h[at].s, h[at].s.which, key.ByName?), key, lower, upper))
    && (Calm(h, at, t) && Findable(key) ==> Ahead(h, at, t, key, lower, upper))
  }

  /** What a comparison made at t tells, after reads that began at t0. */
  ghost predicate Compared(h: seq<Moment>, at: nat, t0: nat, t: nat, key: Key, mid: int, slot: int, cmp: int)
    requires at <= t0 <= t < |h| && Readable(h[at].s)
  {
    && (Steady(h, at, t) ==> Steady(h, at, t0))
    && (Steady(h, at, t) ==>
          Decides(h[at].s.link, Column(h[at].s, h[at].s.which, key.ByName?), key, mid, slot, cmp))
    && (Calm(h, at, t) ==> Calm(h, at, t0) && Shaped(h[t].s))
    && (Calm(h, at, t) && Findable(key) ==> Shaped(h[t].s) && Sees(h[at].s, h[t].s, key, mid, slot, cmp))
  }

  ghost predicate Result(h: seq<Moment>, at: nat, t: nat, key: Key, slot: int, saveindex: int)
    requires at <= t < |h| && Readable(h[at].s)
  {
    && (Steady(h, at, t) ==> Answers(h[at].s, h[at].s.which, key, slot, saveindex))
    && (Calm(h, at, t) && Findable(key) ==> Reliable(h, at, t, key, slot))
  }

  lemma ProgressStarts(h: seq<Moment>, at: nat, t: nat, key: Key, total: int)
    requires History(h) && at <= t < |h| && Readable(h[at].s)
    requires Shaped(h[t].s) && total == h[t].s.total[h[at].s.which]
    ensures Progress(h, at, t, key, 0, total - 1)
  {
    hide History, Steady, Calm, Narrowed, Ahead;
    if Steady(h, at, t) {
      SteadyTotal(h, at, t);
    }
    if Calm(h, at, t) {
      CalmTotal(h, at, t);
    }
    WholeColumn(h[at].s, key);
    AheadStarts(h, at, t, key);
  }

  lemma ProgressGoesOn(h: seq<Moment>, at: nat, t0: nat, t: nat, key: Key, lower: int, upper: int, slot: int, cmp: int)
    requires History(h) && at <= t0 <= t < |h| && Readable(h[at].s) && GoodKey(key)
    requires Progress(h, at, t0, key, lower, upper) && 0 <= lower <= upper
    requires Compared(h, at, t0, t, key, (lower + upper) / 2, slot, cmp)
    ensures cmp < 0 ==> Progress(h, at, t, key, lower, (lower + upper) / 2 - 1)
    ensures cmp > 0 ==> Progress(h, at, t, key, (lower + upper) / 2 + 1, upper)
    ensures cmp == 0 ==> Result(h, at, t, key, slot, (lower + upper) / 2)
  {
    EveryMomentValid(h, at);
    hide History, Steady, Calm, Narrowed, Ahead, Decides, Sees, Searched, Answers, Reliable;
    var s, mid := h[at].s, (lower + upper) / 2;
    if Steady(h, at, t) {
      NarrowStep(s, key, lower, upper, mid, slot, cmp);
      SearchedNarrows(s, key, lower, upper, mid, slot, cmp);
      SearchAnswers(s, key, lower, upper, mid, slot);
    }
    if Calm(h, at, t) && Findable(key) {
      AheadInside(h, at, t0, key, lower, upper);
      AheadNarrows(h, at, t0, t, key, lower, upper, slot, cmp);
      SearchReliable(h, at, t, key, lower, upper, mid, slot);
    }
  }

  lemma ProgressEnds(h: seq<Moment>, at: nat, t: nat, key: Key, lower: int, upper: int)
    requires History(h) && at <= t < |h| && Readable(h[at].s)
    requires Progress(h, at, t, key, lower, upper) && lower > upper
    ensures Result(h, at, t, key, -1, lower)
  {
    hide History, Steady, Calm, Narrowed, Ahead, Searched, Answers, Reliable;
    if Steady(h, at, t) {
      SearchAnswers(h[at].s, key, lower, upper, 0, 0);
    }
    if Calm(h, at, t) {
      CalmTotal(h, at, t);
      SearchReliable(h, at, t, key, lower, upper, 0, 0);
    }
  }

  /** Reads entry `mid` of the side that was published at moment `at`, then its link.  A word outside
      the arrays, or an entry that is no slot, reads as anything at all. */
  method Probe(h: seq<Moment>, at: nat, key: Key, mid: nat, start: nat)
    returns (linknum: int, cmp: int, t: nat)
    requires History(h) && at <= start < |h| && GoodKey(key) && Readable(h[at].s)
    ensures start <= t < |h| && Compared(h, at, start, t, key, mid, linknum, cmp)
  {
    hide History, Undisturbed, Decides, Sees;
    t := Later(h, start);
    ghost var t1 := t;
    MomentReadable(h, t);
    var place := Base(h[at].s.which) + mid;
    if place < 2 * MAXTOTALUSERS {
      linknum := if key.ByName? then h[t].s.name[place] else h[t].s.num[place];
    } else {
      linknum := *;
    }
    t := Later(h, t);
    MomentReadable(h, t);
    var l: Link := *;
    if 0 <= linknum < MAXTOTALUSERS {
      l := h[t].s.link[linknum];
    }
    cmp := Compare(key, l);
    SteadyEarlier(h, at, start, t);
    CalmEarlier(h, at, start, t);
    if mid < |Column(h[at].s, h[at].s.which, key.ByName?)| {
      if Steady(h, at, t) {
        ReadDecides(h, at, t1, t, key, mid, linknum, l);
      }
      if Calm(h, at, t) && Findable(key) {
        ReadSees(h, at, t1, t, key, mid, linknum, l);
      }
    } else {
      BeyondColumn(h, at, t, key, mid, linknum, cmp);
    }
  }

  lemma BeyondColumn(h: seq<Moment>, at: nat, t: nat, key: Key, mid: int, slot: int, cmp: int)
    requires at <= t < |h| && Readable(h[at].s) && Shaped(h[t].s)
    requires mid >= |Column(h[at].s, h[at].s.which, key.ByName?)|
    ensures Decides(h[at].s.link, Column(h[at].s, h[at].s.which, key.ByName?), key, mid, slot, cmp)
    ensures Sees(h[at].s, h[t].s, key, mid, slot, cmp)
  {
  }

  /** The binary search inside finduser() on the side that was published at moment `at`. */
  method Search(h: seq<Moment>, at: nat, key: Key, start: nat)
    returns (slot: int, saveindex: int, t: nat)
    requires History(h) && at <= start < |h| && GoodKey(key) && Readable(h[at].s)
    ensures start <= t < |h| && Result(h, at, t, key, slot, saveindex)
  {
    hide History, Progress, Compared, Result;
    t := Later(h, start);
    MomentReadable(h, t);
    var mid, cmp, linknum := 0, 0, 0;
    var lower, upper := 0, h[t].s.total[h[at].s.which] - 1;
    ProgressStarts(h, at, t, key, upper + 1);
    while lower <= upper
      invariant start <= t < |h| && 0 <= lower && Progress(h, at, t, key, lower, upper)
      invariant lower > upper ==> mid + (if cmp > 0 then 1 else 0) == lower
      decreases upper - lower
    {
      mid := (lower + upper) / 2;
      ghost var t0 := t;
      linknum, cmp, t := Probe(h, at, key, mid, t);
      ProgressGoesOn(h, at, t0, t, key, lower, upper, linknum, cmp);
      if cmp < 0 {
        upper := mid - 1;
      } else if cmp > 0 {
        lower := mid + 1;
      } else {
        break;
      }
    }
    saveindex := mid + if cmp > 0 then 1 else 0;
    slot := if lower > upper then -1 else linknum;
    if lower > upper {
      ProgressEnds(h, at, t, key, lower, upper);
    }
  }

  lemma AheadInside(h: seq<Moment>, at: nat, t: nat, key: Key, lower: int, upper: int)
    requires at <= t < |h| && Readable(h[at].s) && Ahead(h, at, t, key, lower, upper)
    ensures 0 <= lower && upper < |Column(h[at].s, h[at].s.which, key.ByName?)|
  {
  }

  /** finduser().  `at` is when `which` was read, `end` when the search was accepted.  Its answer is right
      for the index published at `at`, unless deletions have meanwhile cleared an entry that the search
      comes to and that is not below the key's; if they have cleared nothing, so is `saveindex`. */
  method FindUser(h: seq<Moment>, start: nat, key: Key)
    returns (slot: int, saveindex: int, at: nat, end: nat)
    requires History(h) && start < |h| && GoodKey(key)
    ensures start <= at <= end < |h|
    ensures Readable(h[at].s) && h[at].s.gen == h[end].s.gen
    ensures Undisturbed(h, at, end) ==> Answers(h[at].s, h[at].s.which, key, slot, saveindex)
    ensures Findable(key) ==> Reliable(h, at, end, key, slot)
  {
    hide History, Undisturbed, Answers, Reliable;
    slot, saveindex := -1, 0;
    end := Later(h, start);
    at := end;
    MomentReadable(h, end);
    var gen, now := -1, h[end].s.gen;
    while gen != now
      invariant start <= at <= end < |h| && gen <= now == h[end].s.gen && 0 <= now
      invariant Readable(h[at].s) && (gen == now ==> h[at].s.gen == gen)
      invariant gen == now && Undisturbed(h, at, end) ==>
        Answers(h[at].s, h[at].s.which, key, slot, saveindex)
      invariant gen == now && Findable(key) ==> Reliable(h, at, end, key, slot)
      decreases |h| - end + if gen != now then 1 else 0
    {
      end := Later(h, end);
      gen := h[end].s.gen;
      ghost var began := end;
      at := Later(h, end);
      MomentReadable(h, at);
      end := Later(h, at);
      GenGrows(h, began, at);
      GenGrows(h, at, end);
      if gen == h[end].s.gen {
        slot, saveindex, end := Search(h, at, key, end);
      }
      ghost var done := end;
      end := Later(h, end);
      now := h[end].s.gen;
      GenGrows(h, began, done);
      GenGrows(h, done, end);
      SteadyEarlier(h, at, done, end);
      CalmEarlier(h, at, done, end);
      if gen == now && Findable(key) {
        ReliableLater(h, at, done, end, key, slot);
      }
    }
  }

  // ---------------------------------------------------------------- building the other side

  function Inserted(q: seq<int>, i: int, v: int): seq<int>
    requires 0 <= i <= |q|
  {
    q[..i] + [v] + q[i..]
  }

  function Removed(q: seq<int>, i: int): seq<int>
    requires 0 <= i < |q|
  {
    q[..i] + q[i + 1..]
  }

  /** `i` is where a link belongs in a column. */
  ghost predicate BelongsAt(link: seq<Link>, col: seq<int>, byName: bool, l: Link, i: int)
    requires |link| == MAXTOTALUSERS && InRange(col)
  {
    && 0 <= i <= |col|
    && (forall k :: 0 <= k < i ==> Before(byName, link[col[k]], l))
    && (forall k :: i <= k < |col| ==> Before(byName, l, link[col[k]]))
  }

  /** `saveindex` of a failed search is the place where the new entry belongs. */
  lemma InsertionPoint(s: Store, w: int, key: Key, slot: int, saveindex: int, l: Link)
    requires SideShaped(s, w) && slot < 0 && Answers(s, w, key, slot, saveindex) && GoodKey(key)
    requires if key.ByName? then l.name == key.name else l.usernum == key.num
    requires forall slot :: slot in Column(s, w, key.ByName?) && 0 <= slot < MAXTOTALUSERS ==>
      NumberInRange(s.link[slot].usernum)
    ensures BelongsAt(s.link, Column(s, w, key.ByName?), key.ByName?, l, saveindex)
  {
    var col := Column(s, w, key.ByName?);
    forall k | 0 <= k < |col|
      ensures k < saveindex ==> Before(key.ByName?, s.link[col[k]], l)
      ensures saveindex <= k ==> Before(key.ByName?, l, s.link[col[k]])
    {
      assert col[k] in col;
      match key
      case ByName(n) =>
        StrCmpReverses(s.link[col[k]].name, n);
        StrCmpReverses(n, s.link[col[k]].name);
      case ByNum(u) =>
        SignedDiffOrders(u, s.link[col[k]].usernum);
    }
  }

  lemma InsertKeepsSorted(link: seq<Link>, col: seq<int>, byName: bool, slot: int, i: int)
    requires |link| == MAXTOTALUSERS && InRange(col) && 0 <= slot < MAXTOTALUSERS
    requires SortedColumn(link, col, byName) && BelongsAt(link, col, byName, link[slot], i)
    ensures InRange(Inserted(col, i, slot)) && SortedColumn(link, Inserted(col, i, slot), byName)
  {
  }

  lemma RemoveKeepsSorted(link: seq<Link>, col: seq<int>, byName: bool, i: int)
    requires |link| == MAXTOTALUSERS && InRange(col) && SortedColumn(link, col, byName)
    requires 0 <= i < |col|
    ensures InRange(Removed(col, i)) && SortedColumn(link, Removed(col, i), byName)
  {
  }

  lemma InsertedMembers(q: seq<int>, i: int, v: int)
    requires 0 <= i <= |q|
    ensures forall x :: x in Inserted(q, i, v) <==> x in q || x == v
  {
  }

  lemma RemovedMembers(q: seq<int>, i: int)
    requires 0 <= i < |q| && Distinct(q)
    ensures forall x :: x in Removed(q, i) <==> x in q && x != q[i]
  {
  }

  lemma SortedDistinct(link: seq<Link>, col: seq<int>, byName: bool)
    requires |link| == MAXTOTALUSERS && InRange(col) && SortedColumn(link, col, byName)
    ensures Distinct(col)
  {
    forall i, j | 0 <= i < j < |col| ensures col[i] != col[j] {
      StrCmpReverses(link[col[i]].name, link[col[j]].name);
    }
  }

  /** The slot adduser() takes: the head of the free list, or the first slot never used. */
  function FreeSlot(head: int, total: int): int
  {
    if head != 0 then head - 1 else total
  }

  /** Adding at the insertion points makes valid columns out of valid columns. */
  lemma AddedColumns(link: seq<Link>, names: seq<int>, nums: seq<int>, i: int, j: int, slot: int)
    requires |link| == MAXTOTALUSERS && ValidColumns(link, names, nums)
    requires 0 <= slot < MAXTOTALUSERS && slot !in names && NumberInRange(link[slot].usernum)
    requires BelongsAt(link, names, true, link[slot], i) && BelongsAt(link, nums, false, link[slot], j)
    ensures ValidColumns(link, Inserted(names, i, slot), Inserted(nums, j, slot))
    ensures Roster(link, Inserted(names, i, slot)) == Roster(link, names)[slot := (link[slot].name, link[slot].usernum)]
  {
    InsertKeepsSorted(link, names, true, slot, i);
    InsertKeepsSorted(link, nums, false, slot, j);
    InsertedMembers(names, i, slot);
    InsertedMembers(nums, j, slot);
  }

  lemma AddedFreeList(a: seq<Link>, b: seq<Link>, head: int, chain: seq<int>, names: seq<int>, i: int, slot: int)
    requires |a| == |b| == MAXTOTALUSERS && ValidFreeList(a, head, chain, names) && Distinct(names)
    requires slot == FreeSlot(head, |names|) && slot < MAXTOTALUSERS && 0 <= i <= |names|
    requires 0 <= slot && b == a[slot := b[slot]] && b[slot].free == a[slot].free
    ensures slot !in names
    ensures ValidFreeList(b, b[slot].free, if chain == [] then [] else chain[1..], Inserted(names, i, slot))
  {
    InsertedMembers(names, i, slot);
    var rest := if chain == [] then [] else chain[1..];
    if chain != [] {
      assert slot == chain[0] && slot in chain;
      ChainKept(a, b, a[slot].free, rest);
      forall x ensures x in chain <==> x == slot || x in rest {
        assert chain == [slot] + rest;
      }
    } else {
      assert slot == |names| && slot !in names;
    }
  }

  /** Deleting takes one entry out of both columns and puts its slot at the head of the free list. */
  lemma RemovedColumns(a: seq<Link>, b: seq<Link>, names: seq<int>, nums: seq<int>, i: int, j: int)
    requires |a| == |b| == MAXTOTALUSERS && ValidColumns(a, names, nums)
    requires 0 <= i < |names| && 0 <= j < |nums| && names[i] == nums[j]
    requires LinksKept(a, b, names)
    ensures ValidColumns(b, Removed(names, i), Removed(nums, j))
    ensures Roster(b, Removed(names, i)) == Roster(a, names) - {names[i]}
  {
    ColumnsKept(a, b, names, nums);
    SortedDistinct(b, names, true);
    SortedDistinct(b, nums, false);
    RemoveKeepsSorted(b, names, true, i);
    RemoveKeepsSorted(b, nums, false, j);
    RemovedMembers(names, i);
    RemovedMembers(nums, j);
  }

  lemma RemovedFreeList(a: seq<Link>, b: seq<Link>, head: int, chain: seq<int>, names: seq<int>, i: int)
    requires |a| == |b| == MAXTOTALUSERS && ValidFreeList(a, head, chain, names) && Distinct(names)
    requires 0 <= i < |names| && 0 <= names[i] < MAXTOTALUSERS
    requires b == a[names[i] := b[names[i]]] && b[names[i]].free == head
    ensures ValidFreeList(b, names[i] + 1, [names[i]] + chain, Removed(names, i))
  {
    var l := names[i];
    assert l in names;
    RemovedMembers(names, i);
    ChainKept(a, b, head, chain);
    assert ([l] + chain)[1..] == chain;
    assert forall x :: x in [l] + chain <==> x == l || x in chain;
  }

  lemma SidePublishes(s: Store, w: int, chain: seq<int>)
    requires SideShaped(s, w) && ValidSide(s, w, chain)
    ensures Publishes(s.(which := w), Roster(s.link, Column(s, w, true)))
  {
    var t := s.(which := w);
    assert Column(t, w, true) == Column(s, w, true) && Column(t, w, false) == Column(s, w, false);
    assert ValidSide(t, w, chain);
  }

  lemma AddedParts(a: seq<Link>, b: seq<Link>, head: int, chain: seq<int>, names: seq<int>, nums: seq<int>,
                   i: int, j: int, slot: int)
    requires |a| == |b| == MAXTOTALUSERS && ValidColumns(a, names, nums) && ValidFreeList(a, head, chain, names)
    requires 0 <= slot == FreeSlot(head, |names|) < MAXTOTALUSERS
    requires b == a[slot := b[slot]] && b[slot].free == a[slot].free && NumberInRange(b[slot].usernum)
    requires BelongsAt(b, names, true, b[slot], i) && BelongsAt(b, nums, false, b[slot], j)
    ensures slot !in names
    ensures ValidFreeList(b, b[slot].free, if chain == [] then [] else chain[1..], Inserted(names, i, slot))
    ensures ValidColumns(b, Inserted(names, i, slot), Inserted(nums, j, slot))
    ensures Roster(b, Inserted(names, i, slot)) == Roster(a, names)[slot := (b[slot].name, b[slot].usernum)]
  {
    SortedDistinct(a, names, true);
    AddedFreeList(a, b, head, chain, names, i, slot);
    ColumnsKept(a, b, names, nums);
    AddedColumns(b, names, nums, i, j, slot);
    RosterKept(a, b, names);
  }

  lemma RemovedParts(a: seq<Link>, b: seq<Link>, head: int, chain: seq<int>, names: seq<int>, nums: seq<int>, i: int,
                     j: int)
    requires |a| == |b| == MAXTOTALUSERS && ValidColumns(a, names, nums) && ValidFreeList(a, head, chain, names)
    requires 0 <= i < |names| && 0 <= j < |nums| && names[i] == nums[j]
    requires b == a[names[i] := a[names[i]].(free := head)]
    ensures ValidFreeList(b, names[i] + 1, [names[i]] + chain, Removed(names, i))
    ensures ValidColumns(b, Removed(names, i), Removed(nums, j))
    ensures Roster(b, Removed(names, i)) == Roster(a, names) - {names[i]}
  {
    SortedDistinct(a, names, true);
    RemovedFreeList(a, b, head, chain, names, i);
    assert names[i] in names;
    RemovedColumns(a, b, names, nums, i, j);
  }

  /** A side built by adduser() is ready to be published. */
  lemma AddedSide(s0: Store, s: Store, roster: map<int, (string, nat)>, i: int, j: int, slot: int, name: string,
                  usernum: nat)
    requires Publishes(s0, roster) && SideKept(s0, s, s0.which) && s.which == s0.which
    requires slot == FreeSlot(s0.free[s0.which], s0.total[s0.which]) < MAXTOTALUSERS
    requires 0 <= slot && s.link == s0.link[slot := Link(s0.link[slot].free, usernum, name)]
    requires NumberInRange(usernum) && SideShaped(s, 1 - s.which)
    requires 0 <= i <= s0.total[s0.which] && 0 <= j <= s0.total[s0.which]
    requires Column(s, 1 - s.which, true) == Inserted(Column(s0, s0.which, true), i, slot)
    requires Column(s, 1 - s.which, false) == Inserted(Column(s0, s0.which, false), j, slot)
    requires s.free[1 - s.which] == s0.link[slot].free
    requires InRange(Column(s, s.which, true)) && InRange(Column(s, s.which, false))
    requires BelongsAt(s.link, Column(s, s.which, true), true, s.link[slot], i)
    requires BelongsAt(s.link, Column(s, s.which, false), false, s.link[slot], j)
    ensures slot !in roster
    ensures Publishes(s.(which := 1 - s.which), roster[slot := (name, usernum)])
  {
    var w := s0.which;
    var chain :| ValidSide(s0, w, chain);
    AddedParts(s0.link, s.link, s0.free[w], chain, Column(s0, w, true), Column(s0, w, false), i, j, slot);
    SidePublishes(s, 1 - w, if chain == [] then [] else chain[1..]);
  }

  /** A side built by deleteuser() is ready to be published. */
  lemma RemovedSide(s0: Store, s: Store, roster: map<int, (string, nat)>, i: int, j: int, slot: int)
    requires Publishes(s0, roster) && SideKept(s0, s, s0.which) && s.which == s0.which
    requires 0 <= i < s0.total[s0.which] && 0 <= j < s0.total[s0.which]
    requires slot == Column(s0, s0.which, true)[i] == Column(s0, s0.which, false)[j]
    requires 0 <= slot < MAXTOTALUSERS && SideShaped(s, 1 - s.which)
    requires s.link == s0.link[slot := s0.link[slot].(free := s0.free[s0.which])]
    requires Column(s, 1 - s.which, true) == Removed(Column(s0, s0.which, true), i)
    requires Column(s, 1 - s.which, false) == Removed(Column(s0, s0.which, false), j)
    requires s.free[1 - s.which] == slot + 1
    ensures Publishes(s.(which := 1 - s.which), roster - {slot})
  {
    var w := s0.which;
    var chain :| ValidSide(s0, w, chain);
    RemovedParts(s0.link, s.link, s0.free[w], chain, Column(s0, w, true), Column(s0, w, false), i, j);
    SidePublishes(s, 1 - w, [slot] + chain);
  }
}
