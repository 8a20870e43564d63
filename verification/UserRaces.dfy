/** What deletion does to a reader that still searches the side published before it. */
module UserRaces {
  import opened UserIndex

  /** The binary search of finduser() when every word is read from one store. */
  function Lookup(s: Store, w: int, key: Key, lower: int, upper: int): int
    requires Shaped(s)
    decreases upper - lower
  {
    if lower > upper then -1 else
      var mid := (lower + upper) / 2;
      var place := Base(w) + mid;
      var col := if key.ByName? then s.name else s.num;
      var linknum := if 0 <= place < |col| then col[place] else -1;
      var cmp := if 0 <= linknum < MAXTOTALUSERS then Compare(key, s.link[linknum]) else 0;
      if cmp < 0 then Lookup(s, w, key, lower, mid - 1)
      else if cmp > 0 then Lookup(s, w, key, mid + 1, upper)
      else linknum
  }

  /** One probe of `Lookup`. */
  lemma Probed(s: Store, w: int, key: Key, lower: int, upper: int, linknum: int)
    requires Shaped(s) && 0 <= w <= 1 && 0 <= lower <= upper < MAXTOTALUSERS && 0 <= linknum < MAXTOTALUSERS
    requires (if key.ByName? then s.name else s.num)[Base(w) + (lower + upper) / 2] == linknum
    ensures var mid, cmp := (lower + upper) / 2, Compare(key, s.link[linknum]);
      Lookup(s, w, key, lower, upper)
        == if cmp < 0 then Lookup(s, w, key, lower, mid - 1)
           else if cmp > 0 then Lookup(s, w, key, mid + 1, upper) else linknum
  {
  }

  /** A side that may have aged since it was valid in s0. */
  ghost predicate Stale(s0: Store, s: Store)
  {
    Valid(s0) && Readable(s0) && Shaped(s) && Aged(s0, s, s0.which)
  }

  /** The column in which a key is searched for. */
  function Searched(s: Store, key: Key): seq<int>
    requires Readable(s)
  {
    Column(s, s.which, key.ByName?)
  }

  /** The search in s for the entry at place p of s0 comes, among places lower..upper, to one that is not
      below p and that s has lost. */
  ghost predicate LosesWay(s0: Store, s: Store, key: Key, lower: int, upper: int, p: int)
    requires Readable(s0) && Shaped(s)
  {
    exists m :: p <= m < |Searched(s0, key)| && Probes(lower, upper, p, m) && LostAt(s0, s, key, m)
  }

  predicate LostAt(s0: Store, s: Store, key: Key, m: int)
    requires Readable(s0) && Shaped(s)
  {
    0 <= m < |Searched(s0, key)| && Lost(key, s0.link[Searched(s0, key)[m]], s.link[Searched(s0, key)[m]])
  }

  /** The comparison at place m of the stale side. */
  lemma Comparison(s0: Store, s: Store, key: Key, lower: int, upper: int)
    requires Stale(s0, s) && Findable(key) && 0 <= lower <= upper < |Searched(s0, key)|
    ensures var m := (lower + upper) / 2; var w := s0.which; var slot := Searched(s0, key)[m];
      && 0 <= slot < MAXTOTALUSERS
      && (LostAt(s0, s, key, m) ==> Lookup(s, w, key, lower, upper) == Lookup(s, w, key, m + 1, upper))
      && (!LostAt(s0, s, key, m) ==>
            (var cmp := Compare(key, s0.link[slot]);
             Lookup(s, w, key, lower, upper)
               == if cmp < 0 then Lookup(s, w, key, lower, m - 1)
                  else if cmp > 0 then Lookup(s, w, key, m + 1, upper) else slot))
  {
    var m, w := (lower + upper) / 2, s0.which;
    var col := Searched(s0, key);
    assert col[m] in col;
    assert Column(s, w, key.ByName?)[m] == col[m];
    LostIsBelow(key, s0.link[col[m]], s.link[col[m]]);
    hide Lookup;
    Probed(s, w, key, lower, upper, col[m]);
  }

  lemma LookupNowhere(s: Store, w: int, key: Key, lower: int, upper: int)
    requires Shaped(s)
    ensures lower > upper ==> Lookup(s, w, key, lower, upper) == -1
  {
  }

  /** Where no entry has the key none is found, whatever has been cleared. */
  lemma {:induction false} NothingFound(s0: Store, s: Store, key: Key, lower: int, upper: int)
    requires Stale(s0, s) && Findable(key) && 0 <= lower && upper < |Searched(s0, key)|
    requires forall p :: lower <= p <= upper ==> !Matches(s0, key, p)
    ensures Lookup(s, s0.which, key, lower, upper) == -1
    decreases upper - lower
  {
    hide Aged, Lookup, Column, Compare, Lost, Valid;
    LookupNowhere(s, s0.which, key, lower, upper);
    if lower <= upper {
      var m := (lower + upper) / 2;
      assert !Matches(s0, key, m);
      Comparison(s0, s, key, lower, upper);
      NothingFound(s0, s, key, lower, m - 1);
      NothingFound(s0, s, key, m + 1, upper);
    }
  }

  /** A search of a stale side misses an entry exactly when it comes to a cleared one at the same place or
      above: for all valid sides, keys, places, and links cleared since. */
  lemma {:induction false} FoundExactly(s0: Store, s: Store, key: Key, lower: int, upper: int, p: int)
    requires Stale(s0, s) && Findable(key) && Matches(s0, key, p) && 0 <= lower <= p <= upper < |Searched(s0, key)|
    ensures Lookup(s, s0.which, key, lower, upper)
         == if LosesWay(s0, s, key, lower, upper, p) then -1 else Searched(s0, key)[p]
    decreases upper - lower
  {
    hide Matches, Compare, Lost, Aged, Column, Lookup;
    var m := (lower + upper) / 2;
    Comparison(s0, s, key, lower, upper);
    MatchPlace(s0, key, p, m);
    if LostAt(s0, s, key, m) {
      if p <= m {
        assert Probes(lower, upper, p, m);
        NobodyBeyond(s0, key, p, m + 1, upper);
        NothingFound(s0, s, key, m + 1, upper);
      } else {
        FoundExactly(s0, s, key, m + 1, upper, p);
        WayAbove(s0, s, key, lower, upper, p);
      }
    } else if p < m {
      FoundExactly(s0, s, key, lower, m - 1, p);
      WayBelow(s0, s, key, lower, upper, p);
    } else if p > m {
      FoundExactly(s0, s, key, m + 1, upper, p);
      WayAbove(s0, s, key, lower, upper, p);
    }
  }

  lemma NobodyBeyond(s0: Store, key: Key, p: int, lower: int, upper: int)
    requires Valid(s0) && Readable(s0) && GoodKey(key) && Matches(s0, key, p) && p < lower
    requires upper < |Searched(s0, key)|
    ensures forall q :: lower <= q <= upper ==> !Matches(s0, key, q)
  {
    forall q | lower <= q <= upper ensures !Matches(s0, key, q) {
      MatchPlace(s0, key, p, q);
    }
  }

  lemma WayAbove(s0: Store, s: Store, key: Key, lower: int, upper: int, p: int)
    requires Readable(s0) && Shaped(s) && 0 <= lower && (lower + upper) / 2 < p <= upper < |Searched(s0, key)|
    ensures LosesWay(s0, s, key, lower, upper, p) <==> LosesWay(s0, s, key, (lower + upper) / 2 + 1, upper, p)
  {
  }

  lemma WayBelow(s0: Store, s: Store, key: Key, lower: int, upper: int, p: int)
    requires Readable(s0) && Shaped(s) && 0 <= lower <= p < (lower + upper) / 2 && upper < |Searched(s0, key)|
    requires !LostAt(s0, s, key, (lower + upper) / 2)
    ensures LosesWay(s0, s, key, lower, upper, p) <==> LosesWay(s0, s, key, lower, (lower + upper) / 2 - 1, p)
  {
  }

  /** A search that reads everything in s, but the side at s0, does not find the key. */
  predicate Misses(s0: Store, s: Store, key: Key, p: int)
    requires Readable(s0) && Shaped(s) && Matches(s0, key, p)
  {
    Lookup(s, s0.which, key, 0, s0.total[s0.which] - 1) != Searched(s0, key)[p]
  }

  lemma MissesStale(s0: Store, s: Store, key: Key, p: int)
    requires Stale(s0, s) && Findable(key) && Readable(s0) && Shaped(s) && Matches(s0, key, p)
    ensures Misses(s0, s, key, p) <==> exists m :: Strays(s0, s, key, p, m)
  {
    hide Lookup, Strays, LosesWay, Valid, Aged;
    var col := Searched(s0, key);
    assert |col| == s0.total[s0.which] && col[p] in col;
    FoundExactly(s0, s, key, 0, |col| - 1, p);
    StraysLosesWay(s0, s, key, p);
  }

  /** While `gen` is stable, a search for a listed key can miss it, by reading everything at one moment,
      exactly when the key is endangered; FindUser says that otherwise no order of reads misses it. */
  lemma MissedExactly(h: seq<Moment>, at: nat, end: nat, key: Key, p: int)
    requires History(h) && at <= end < |h| && h[at].s.gen == h[end].s.gen && Findable(key)
    requires Readable(h[at].s) && Matches(h[at].s, key, p)
    ensures forall k :: at <= k <= end ==> Shaped(h[k].s)
    ensures (exists k :: at <= k <= end && Misses(h[at].s, h[k].s, key, p)) <==> Endangered(h, at, end, key)
  {
    hide History, Stale, Misses, Strays, Matches, Readable;
    var s0 := h[at].s;
    forall k | at <= k <= end
      ensures Shaped(h[k].s) && (Misses(s0, h[k].s, key, p) <==> exists m :: Strays(s0, h[k].s, key, p, m))
    {
      StaleAt(h, at, k, end);
      MissesStale(s0, h[k].s, key, p);
    }
    if Endangered(h, at, end, key) {
      var k, q, m :| at <= k <= end && Shaped(h[k].s) && Strays(s0, h[k].s, key, q, m);
      SamePlace(h, at, key, p, h[k].s, q, m);
    }
  }

  lemma StaleAt(h: seq<Moment>, at: nat, k: nat, end: nat)
    requires History(h) && at <= k <= end < |h| && h[at].s.gen == h[end].s.gen && Readable(h[at].s)
    ensures Stale(h[at].s, h[k].s) && Shaped(h[k].s)
  {
    hide History, Valid, Aged;
    EveryMomentValid(h, at);
    GenGrows(h, at, k);
    GenGrows(h, k, end);
    SideAges(h, at, k);
    AgedShape(h[at].s, h[k].s, h[at].s.which);
  }

  lemma AgedShape(s0: Store, s: Store, w: int)
    requires Aged(s0, s, w)
    ensures Shaped(s) && Shaped(s0)
  {
  }

  lemma StraysLosesWay(s0: Store, s: Store, key: Key, p: int)
    requires Readable(s0) && Shaped(s) && Matches(s0, key, p)
    ensures LosesWay(s0, s, key, 0, |Searched(s0, key)| - 1, p) <==> exists m :: Strays(s0, s, key, p, m)
  {
    hide Probes, Compare, Lost, Column;
    var last := |Searched(s0, key)| - 1;
    if LosesWay(s0, s, key, 0, last, p) {
      var m :| p <= m <= last && Probes(0, last, p, m) && LostAt(s0, s, key, m);
      assert Strays(s0, s, key, p, m);
    }
    if m :| Strays(s0, s, key, p, m) {
      assert LostAt(s0, s, key, m);
    }
  }

  lemma SamePlace(h: seq<Moment>, at: nat, key: Key, p: int, s: Store, q: int, m: int)
    requires History(h) && at < |h| && Findable(key) && Readable(h[at].s) && Matches(h[at].s, key, p)
    requires Shaped(s) && Strays(h[at].s, s, key, q, m)
    ensures p == q
  {
    EveryMomentValid(h, at);
    MatchPlace(h[at].s, key, p, q);
  }

  /** Users "a", "b" and "c" in slots 0, 1 and 2; the other side already lists "a" and "c" only. */
  function BeforeFlip(): (s: Store)
    ensures Shaped(s)
  {
    var col := seq(2 * MAXTOTALUSERS, k => if k == 1 then 1 else if k == 2 || k == MAXTOTALUSERS + 1 then 2 else 0);
    var link := seq(MAXTOTALUSERS, k => if k == 0 then Link(0, 1, "a") else if k == 1 then Link(0, 2, "b")
                                        else if k == 2 then Link(0, 3, "c") else Link(0, 0, ""));
    Store(7, 0, [3, 2], [0, 2], col, col, link)
  }

  /** The writes with which deleteuser() ends: the flip, the number, the name. */
  function Ending(): (h: seq<Moment>)
    ensures |h| == 4 && forall k :: 0 <= k < 4 ==> Shaped(h[k].s)
  {
    var s0 := BeforeFlip();
    var s1 := s0.(which := 1);
    var s2 := s1.(link := s1.link[1 := Link(0, 0, "b")]);
    var s3 := s2.(link := s2.link[1 := Link(0, 0, "")]);
    [Moment(s0, false), Moment(s1, true), Moment(s2, true), Moment(s3, true)]
  }

  lemma EndingColumns()
    ensures forall k :: 0 <= k < 4 ==> SideShaped(Ending()[k].s, 0) && SideShaped(Ending()[k].s, 1)
    ensures forall k, byName :: 0 <= k < 4 ==> Column(Ending()[k].s, 0, byName) == [0, 1, 2]
    ensures forall k, byName :: 0 <= k < 4 ==> Column(Ending()[k].s, 1, byName) == [0, 2]
  {
    var s0 := BeforeFlip();
    var col := s0.name;
    assert col[0 .. 3] == [0, 1, 2] && col[MAXTOTALUSERS .. MAXTOTALUSERS + 2] == [0, 2];
    forall k | 0 <= k < 4
      ensures Ending()[k].s.name == Ending()[k].s.num == col && Ending()[k].s.total == [3, 2]
    {
    }
  }

  predicate ThreeLinks(link: seq<Link>)
  {
    && |link| == MAXTOTALUSERS
    && link[0] == Link(0, 1, "a") && link[1] == Link(0, 2, "b") && link[2] == Link(0, 3, "c")
    && forall k :: 3 <= k < MAXTOTALUSERS ==> link[k].free == 0
  }

  lemma AllListed(link: seq<Link>)
    requires ThreeLinks(link)
    ensures ValidColumns(link, [0, 1, 2], [0, 1, 2]) && ValidFreeList(link, 0, [], [0, 1, 2])
  {
    assert StrCmp("a", "b") == StrCmp("b", "c") == StrCmp("a", "c") == -1;
  }

  lemma TwoListed(link: seq<Link>)
    requires ThreeLinks(link)
    ensures ValidColumns(link, [0, 2], [0, 2]) && ValidFreeList(link, 2, [1], [0, 2])
  {
    assert StrCmp("a", "c") == -1;
    assert IsChain(link, link[1].free, [1][1..]);
  }

  lemma EndingSides()
    ensures ValidSide(Ending()[0].s, 0, []) && ValidSide(Ending()[1].s, 1, [1])
  {
    var h := Ending();
    EndingColumns();
    AllListed(h[0].s.link);
    TwoListed(h[1].s.link);
    hide ValidColumns, ValidFreeList;
  }

  lemma EndingIsHistory()
    ensures History(Ending())
  {
    var h := Ending();
    EndingColumns();
    EndingSides();
    hide ValidSide;
    assert ClearsLink(h[1].s, h[2].s, 1) && ClearsLink(h[2].s, h[3].s, 1);
    forall k | 0 <= k < 3 ensures StepAt(h, k) {
    }
  }

  lemma LookupBefore()
    ensures Lookup(Ending()[0].s, 0, ByName("a"), 0, 2) == 0
  {
    var s, key := Ending()[0].s, ByName("a");
    assert StrCmp("a", "a") == 0 && StrCmp("a", "b") == -1;
    hide Lookup;
    Probed(s, 0, key, 0, 2, 1);
    Probed(s, 0, key, 0, 0, 0);
  }

  lemma LookupAfter()
    ensures Lookup(Ending()[3].s, 0, ByName("a"), 0, 2) == -1
  {
    var s, key := Ending()[3].s, ByName("a");
    assert StrCmp("a", "c") == -1 && StrCmp("a", "") == 1;
    assert Lookup(s, 0, key, 2, 1) == -1;
    hide Lookup;
    Probed(s, 0, key, 0, 2, 1);
    Probed(s, 0, key, 2, 2, 2);
  }

  /** A reader that read `which` before the flip and everything else after the clearing misses "a",
      who is listed from first to last and whose deletion nobody asked for; `gen` never changed, so
      the search is accepted.  Waiting for readers of the old side before clearing excludes this:
      then `Undisturbed` holds and `FindUser` is right. */
  lemma ClearingMisleadsReader()
    ensures var h := Ending();
      && History(h) && h[0].s.gen == h[3].s.gen && h[0].s.which == 0 && h[0].s.total[0] == 3
      && Readable(h[0].s) && Endangered(h, 0, 3, ByName("a"))
      && (forall k :: 0 <= k < 4 ==> 0 in Column(h[k].s, h[k].s.which, true) && h[k].s.link[0].name == "a")
      && Lookup(h[0].s, 0, ByName("a"), 0, 2) == 0
      && Lookup(h[3].s, 0, ByName("a"), 0, 2) == -1
  {
    hide History, Lookup, Strays;
    var h := Ending();
    EndingIsHistory();
    EndingColumns();
    LookupBefore();
    LookupAfter();
    MomentReadable(h, 0);
    assert Column(h[0].s, 0, true)[0] == 0 && StrCmp("a", "a") == 0;
    assert Matches(h[0].s, ByName("a"), 0);
    assert Misses(h[0].s, h[3].s, ByName("a"), 0);
    MissedExactly(h, 0, 3, ByName("a"), 0);
  }
}
