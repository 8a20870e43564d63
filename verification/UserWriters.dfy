/** adduser() and deleteuser() of users.c.  Every write to the shared index goes through a small
    method that appends the resulting store to `history`, so that `history` is what a concurrent
    reader, or a reader after a crash at any point, can see. */
module UserWriters {
  import opened Sequences
  import opened UserIndex

  const THIRTY_MINUTES := 30 * 60

  /** What adduser() looks at in a `struct user`. */
  datatype Page = Page(usernum: nat, timeoff: int)

  type Listing = map<int, (string, nat)>

  /** The slot listed under a name, if any. */
  ghost predicate Holds(roster: Listing, slot: int, name: string)
  {
    slot in roster && roster[slot].0 == name
  }

  ghost predicate NumberTaken(roster: Listing, usernum: nat)
  {
    exists slot :: slot in roster && roster[slot].1 == usernum
  }

  class UserData {
    var gen: int
    var which: int
    const total: array<int>
    const free: array<int>
    const name: array<int>
    const num: array<int>
    const link: array<Link>
    const page: array<Page>
    /** The store after every write so far. */
    var history: seq<Moment>

    /** An index without users. */
    constructor ()
      ensures Consistent() && Lists(map[])
    {
      gen, which := 0, 0;
      total, free := new int[2](_ => 0), new int[2](_ => 0);
      name, num := new int[2 * MAXTOTALUSERS](_ => 0), new int[2 * MAXTOTALUSERS](_ => 0);
      link := new Link[MAXTOTALUSERS](_ => Link(0, 0, ""));
      page := new Page[MAXTOTALUSERS](_ => Page(0, 0));
      new;
      assert ValidSide(Now(), 0, []);
      history := [Moment(Now(), false)];
    }

    ghost predicate Laid()
    {
      && total.Length == 2 && free.Length == 2
      && name.Length == 2 * MAXTOTALUSERS && num.Length == 2 * MAXTOTALUSERS
      && link.Length == MAXTOTALUSERS && page.Length == MAXTOTALUSERS
      && total != free && total != name && total != num && free != name && free != num && name != num
    }

    function Now(): Store
      reads this, total, free, name, num, link
    {
      Store(gen, which, total[..], free[..], name[..], num[..], link[..])
    }

    /** The history is a run that ends in the present store. */
    ghost predicate Consistent()
      reads this, total, free, name, num, link
    {
      Laid() && History(history) && history[|history| - 1].s == Now()
    }

    ghost predicate Lists(roster: Listing)
      reads this, total, free, name, num, link
    {
      Publishes(Now(), roster)
    }

    /** The writer that raised `gen` at moment n has left the side published then alone. */
    ghost predicate Building(s0: Store, n: nat)
      reads this, total, free, name, num, link
    {
      && Consistent()
      && n < |history| && !history[|history| - 1].flipped
      && gen == s0.gen && which == s0.which && SideKept(s0, Now(), which)
      && forall k :: n <= k < |history| ==> Unpublished(s0, history[k])
    }

    method Log(ghost s0: Store, ghost n: nat, ghost before: Store)
      requires Laid() && History(history) && n < |history|
      requires history[|history| - 1] == Moment(before, false)
      requires before.gen == gen == s0.gen && before.which == which == s0.which
      requires SideKept(s0, before, which) && SideKept(before, Now(), which)
      requires forall k :: n <= k < |history| ==> Unpublished(s0, history[k])
      modifies this`history
      ensures history == old(history) + [Moment(Now(), false)]
      ensures Building(s0, n)
    {
      var m := Moment(Now(), false);
      AppendStep(history, m);
      SideKeptTransitive(s0, before, m.s, which);
      history := history + [m];
    }

    method PutTotal(w: int, v: int, ghost s0: Store, ghost n: nat)
      requires Building(s0, n) && w == 1 - which
      modifies total, this`history
      ensures Building(s0, n) && old(history) <= history
      ensures Now() == old(Now()).(total := old(Now()).total[w := v])
    {
      ghost var before := Now();
      total[w] := v;
      assert total[..] == before.total[w := v];
      Log(s0, n, before);
    }

    method PutFree(w: int, v: int, ghost s0: Store, ghost n: nat)
      requires Building(s0, n) && w == 1 - which
      modifies free, this`history
      ensures Building(s0, n) && old(history) <= history
      ensures Now() == old(Now()).(free := old(Now()).free[w := v])
    {
      ghost var before := Now();
      free[w] := v;
      assert free[..] == before.free[w := v];
      Log(s0, n, before);
    }

    method PutEntry(byName: bool, place: int, v: int, ghost s0: Store, ghost n: nat)
      requires Building(s0, n) && Base(1 - which) <= place < Base(1 - which) + MAXTOTALUSERS
      modifies name, num, this`history
      ensures Building(s0, n) && old(history) <= history
      ensures Now() == Written(old(Now()), byName, place, [v])
    {
      ghost var before := Now();
      WrittenElsewhere(before, byName, place, v);
      if byName {
        name[place] := v;
        assert name[..] == Spliced(before.name, place, [v]);
      } else {
        num[place] := v;
        assert num[..] == Spliced(before.num, place, [v]);
      }
      assert Now() == Written(before, byName, place, [v]);
      Log(s0, n, before);
    }

    method PutLink(slot: int, l: Link, ghost s0: Store, ghost n: nat)
      requires Building(s0, n) && 0 <= slot < MAXTOTALUSERS
      requires slot in Column(s0, which, true) ==> l.name == link[slot].name && l.usernum == link[slot].usernum
      requires slot !in Column(s0, which, true) ==> l.free == link[slot].free
      modifies link, this`history
      ensures Building(s0, n) && old(history) <= history
      ensures Now() == old(Now()).(link := old(Now()).link[slot := l])
    {
      ghost var before := Now();
      link[slot] := l;
      assert link[..] == before.link[slot := l];
      Log(s0, n, before);
    }

    /** memcpy() from the published side to the other one, entry by entry. */
    method CopyRange(byName: bool, to: int, from: int, count: int, ghost s0: Store, ghost n: nat)
      requires Building(s0, n) && CopyFits(Now(), to, from, count)
      modifies name, num, this`history
      ensures Building(s0, n) && old(history) <= history
      ensures Now() == Copied(old(Now()), byName, to, from, count)
    {
      hide History, SideKept, Unpublished, Copied, Written;
      ghost var before := Now();
      CopiedNone(before, byName, to, from);
      for k := 0 to count
        invariant Building(s0, n) && old(history) <= history
        invariant Now() == Copied(before, byName, to, from, k)
      {
        var v := if byName then name[from + k] else num[from + k];
        CopiedNext(before, byName, to, from, k, v);
        PutEntry(byName, to + k, v, s0, n);
      }
    }

    /** Takes the lock and raises `gen`. */
    method Begin() returns (ghost s0: Store, ghost n: nat)
      requires Consistent()
      modifies this`gen, this`history
      ensures Now() == old(Now()).(gen := old(gen) + 1) == s0
      ensures n == |old(history)| && Building(s0, n) && old(history) <= history
      ensures SideShaped(s0, s0.which)
    {
      ghost var before := Now();
      MomentReadable(history, |history| - 1);
      gen := gen + 1;
      s0, n := Now(), |history|;
      var m := Moment(Now(), false);
      assert Step(history[|history| - 1], m);
      AppendStep(history, m);
      history := history + [m];
    }

    /** Flips `which`: the other side becomes the published one. */
    method Publish(ghost s0: Store, ghost n: nat, ghost roster: Listing)
      requires Building(s0, n) && Publishes(Now().(which := 1 - which), roster)
      modifies this`which, this`history
      ensures Consistent() && Lists(roster)
      ensures Now() == old(Now()).(which := 1 - old(which))
      ensures history == old(history) + [Moment(Now(), true)]
    {
      hide History, Step, Publishes, SideKept;
      ghost var before := Now();
      KeptColumns(s0, before);
      assert history[|history| - 1].s == before;
      which := 1 - which;
      var m := Moment(Now(), true);
      FlipStep(history[|history| - 1], m, roster);
      AppendStep(history, m);
      history := history + [m];
    }

    /** A write to a link after the flip. */
    method ClearLink(slot: int, l: Link, ghost roster: Listing)
      requires Consistent() && Lists(roster) && history[|history| - 1].flipped
      requires 0 <= slot < MAXTOTALUSERS && slot !in roster
      requires l == link[slot].(usernum := 0) || l == link[slot].(name := "")
      modifies link, this`history
      ensures Consistent() && Lists(roster)
      ensures Now() == old(Now()).(link := old(Now()).link[slot := l])
      ensures history == old(history) + [Moment(Now(), true)]
    {
      ghost var before := Now();
      link[slot] := l;
      assert link[..] == before.link[slot := l];
      var m := Moment(Now(), true);
      assert ClearsLink(before, Now(), slot);
      assert Step(history[|history| - 1], m);
      PublishesKept(before, Now(), roster);
      AppendStep(history, m);
      history := history + [m];
    }

    /** finduser() by a process that holds the lock: nothing else writes meanwhile. */
    method Find(key: Key) returns (slot: int, saveindex: int)
      requires Consistent() && GoodKey(key)
      ensures SideShaped(Now(), which) && Answers(Now(), which, key, slot, saveindex)
    {
      EveryMomentValid(history, |history| - 1);
      var at, end;
      slot, saveindex, at, end := FindUser([Moment(Now(), false)], 0, key);
    }

    /** Builds one column of the other side without its entry i. */
    method DropEntry(byName: bool, i: int, ghost s0: Store, ghost n: nat)
      requires Building(s0, n) && SideShaped(Now(), which)
      requires total[1 - which] == total[which] - 1 && 0 <= i < total[which]
      modifies name, num, this`history
      ensures Building(s0, n) && old(history) <= history
      ensures Now() == Dropped(old(Now()), byName, i)
    {
      hide History, SideKept, Unpublished, Copied, Written;
      var from, to, t := Base(which), Base(1 - which), total[which];
      CopyRange(byName, to, from, i, s0, n);
      CopyRange(byName, to + i, from + i + 1, t - 1 - i, s0, n);
      PutEntry(byName, to + t - 1, 0, s0, n);
    }

    /** Builds one column of the other side with a slot added at i. */
    method AddEntry(byName: bool, i: int, slot: int, ghost s0: Store, ghost n: nat)
      requires Building(s0, n) && SideShaped(Now(), which) && SideShaped(Now(), 1 - which)
      requires total[1 - which] == total[which] + 1 && 0 <= i <= total[which]
      modifies name, num, this`history
      ensures Building(s0, n) && old(history) <= history
      ensures Now() == WithEntry(old(Now()), byName, i, slot)
    {
      hide History, SideKept, Unpublished, Copied, Written;
      var from, to, t := Base(which), Base(1 - which), total[which];
      CopyRange(byName, to, from, i, s0, n);
      PutEntry(byName, to + i, slot, s0, n);
      CopyRange(byName, to + i + 1, from + i, t - i, s0, n);
    }

    /** The part of deleteuser() between its two searches and the flip. */
    method BuildWithout(i: int, l: int, ghost who: string, ghost roster: Listing, ghost s0: Store, ghost n: nat)
      returns (j: int)
      requires Building(s0, n) && Publishes(s0, roster) && SideShaped(s0, which) && Now() == Lowered(s0)
      requires HeldAt(Now(), roster, l, i, who)
      modifies free, name, num, link, this`history
      ensures Building(s0, n) && old(history) <= history
      ensures Deletable(s0, i, j, l) && Now() == Deleted(s0, i, j, l)
    {
      hide History, SideKept, Publishes, Unpublished, Dropped, Answers;
      PutLink(l, link[l].(free := free[1 - which]), s0, n);
      PutFree(1 - which, l + 1, s0, n);
      assert Now() == Unlinked(Lowered(s0), l);
      DropEntry(true, i, s0, n);
      var again;
      KeptColumns(s0, Now());
      assert Column(Now(), which, true)[i] == l;
      again, j := Find(ByNum(link[l].usernum));
      BuildingPublishes(history, s0, n, roster);
      FoundByNum(Now(), roster, again, j, l);
      if again < 0 {
        assert false;
      }
      DropEntry(false, j, s0, n);
    }

    /** The flip of deleteuser() and the writes after it. */
    method Retire(l: int, ghost s0: Store, ghost n: nat, ghost before: Listing, ghost after: Listing)
      requires Building(s0, n) && Publishes(Now().(which := 1 - which), after)
      requires AllPublish(history, n, before, before) && 0 <= l < MAXTOTALUSERS && l !in after
      modifies this`which, link, this`history
      ensures Consistent() && Lists(after) && old(history) <= history
      ensures AllPublish(history, n, before, after)
    {
      hide History, SideKept, Publishes, Unpublished, AllPublish;
      ghost var h := history;
      Publish(s0, n, after);
      ghost var m1 := Moment(Now(), true);
      ClearLink(l, link[l].(usernum := 0), after);
      ghost var m2 := Moment(Now(), true);
      ClearLink(l, link[l].(name := ""), after);
      ghost var m3 := Moment(Now(), true);
      AllPublishLater(h, [m1, m2, m3], n, before, after);
      assert history == h + [m1, m2, m3];
    }

    /** The part of deleteuser() after the user was found. */
    method DeleteEntry(i: int, l: int, ghost who: string, ghost roster: Listing, ghost s0: Store, ghost n: nat)
      requires Building(s0, n) && Publishes(s0, roster) && SideShaped(s0, which) && Now() == Lowered(s0)
      requires HeldAt(Now(), roster, l, i, who) && 0 <= l < MAXTOTALUSERS
      modifies this`which, free, name, num, link, this`history
      ensures Consistent() && Lists(roster - {l}) && old(history) <= history
      ensures AllPublish(history, n, roster, roster - {l})
    {
      hide History, SideKept, Publishes, Unpublished, Dropped, Answers, AllPublish, Valid, Roster, Deletable, Deleted;
      var j := BuildWithout(i, l, who, roster, s0, n);
      DeletedPublishes(s0, roster, i, j, l);
      BuildingPublishes(history, s0, n, roster);
      Retire(l, s0, n, roster, roster - {l});
    }

    /** deleteuser() */
    method DeleteUser(who: string, ghost roster: Listing) returns (ok: bool, ghost slot: int)
      requires Consistent() && Lists(roster)
      modifies this, total, free, name, num, link, page
      ensures Consistent() && old(history) <= history
      ensures ok ==> Holds(roster, slot, who) && Lists(roster - {slot})
      ensures !ok ==> Lists(roster) && Vacated(roster, who)
      ensures ok ==> 0 <= slot < MAXTOTALUSERS && page[..] == old(page[..])[slot := Page(0, 0)]
      ensures !ok ==> page[..] == old(page[..])
      ensures AllPublish(history, |old(history)|, roster, if ok then roster - {slot} else roster)
    {
      hide History, SideKept, Publishes, Unpublished, Dropped, Answers, AllPublish, Valid, Roster, Deletable, Deleted;
      ghost var start := Now();
      ghost var s0, n;
      s0, n := Begin();
      Relabelled(start, roster);
      PutFree(1 - which, free[which], s0, n);
      PutTotal(1 - which, total[which] - 1, s0, n);
      var found, i := Find(ByName(who));
      BuildingPublishes(history, s0, n, roster);
      FoundByName(Now(), roster, found, i, who);
      ok, slot := found >= 0, found;
      if ok {
        var l := name[Base(which) + i];
        page[l] := Page(0, 0);
        DeleteEntry(i, l, who, roster, s0, n);
      }
    }

    /** The part of adduser() after the name was found to be new: false if the number is in use. */
    method BuildWith(i: int, l: int, who: string, usernum: nat, ghost roster: Listing, ghost s0: Store, ghost n: nat)
      returns (ok: bool)
      requires Building(s0, n) && Publishes(s0, roster) && Addable(s0, l) && NumberInRange(usernum)
      requires Now() == Linked(Raised(s0), l, who, usernum) && Fits(Now(), l, true, i)
      modifies name, num, this`history
      ensures Building(s0, n) && old(history) <= history
      ensures !ok <==> NumberTaken(roster, usernum)
      ensures ok ==> l !in roster && Publishes(Now().(which := 1 - which), roster[l := (who, usernum)])
    {
      hide History, SideKept, Publishes, Unpublished, Answers, WithEntry, BelongsAt, NumberTaken;
      KeptColumns(s0, Now());
      AddEntry(true, i, l, s0, n);
      KeptColumns(s0, Now());
      var other, j := Find(ByNum(usernum));
      BuildingPublishes(history, s0, n, roster);
      NumberFound(Now(), roster, other, j, usernum);
      ok := other < 0;
      if ok {
        NumberFits(Now(), roster, other, j, l);
        AddEntry(false, j, l, s0, n);
        AddedPublishes(s0, roster, i, j, l, who, usernum);
      }
    }

    /** The rest of a round of adduser() for a name that is new. */
    method Complete(i: int, l: int, who: string, usernum: nat, ghost roster: Listing, ghost s0: Store, ghost n: nat)
      returns (ok: bool)
      requires Building(s0, n) && Publishes(s0, roster) && Addable(s0, l) && NumberInRange(usernum)
      requires Now() == Linked(Raised(s0), l, who, usernum) && Fits(Now(), l, true, i)
      modifies this`which, name, num, this`history
      ensures Consistent() && old(history) <= history
      ensures !ok <==> NumberTaken(roster, usernum)
      ensures ok ==> l !in roster
      ensures var after := if ok then roster[l := (who, usernum)] else roster;
        Lists(after) && AllPublish(history, n, roster, after)
      ensures Unclearing(history, n)
    {
      hide History, SideKept, Publishes, Unpublished, AllPublish, NumberTaken, Linked, Raised, Fits, Unclearing;
      ok := BuildWith(i, l, who, usernum, roster, s0, n);
      BuildingPublishes(history, s0, n, roster);
      BuildingClearsNothing(history, s0, n, history[|history| - 1]);
      if ok {
        AllPublishLater(history, [Moment(Now().(which := 1 - which), true)], n, roster, roster[l := (who, usernum)]);
        BuildingClearsNothing(history, s0, n, Moment(Now().(which := 1 - which), true));
        Publish(s0, n, roster[l := (who, usernum)]);
      }
    }

    /** A round of adduser() once it has a slot l. */
    method Enter(l: int, who: string, usernum: nat, now: int, ghost roster: Listing, ghost s0: Store, ghost n: nat)
      returns (o: Outcome)
      requires Building(s0, n) && Publishes(s0, roster) && Addable(s0, l) && NumberInRange(usernum)
      requires l !in Column(s0, s0.which, true) && Now() == Raised(s0)
      modifies this`which, total, free, name, num, link, this`history
      ensures Consistent() && old(history) <= history
      ensures Lists(After(roster, o, who, usernum))
      ensures Verdict(roster, page[..], who, usernum, now, o)
      ensures AllPublish(history, n, roster, After(roster, o, who, usernum)) && Unclearing(history, n)
    {
      hide History, SideKept, Publishes, Unpublished, Answers, AllPublish, NumberTaken, Unclearing;
      PutLink(l, link[l].(usernum := usernum), s0, n);
      PutLink(l, link[l].(name := who), s0, n);
      PutFree(1 - which, link[l].free, s0, n);
      assert Now() == Linked(Raised(s0), l, who, usernum);
      hide Linked, Raised;
      var found, i := Find(ByName(who));
      BuildingPublishes(history, s0, n, roster);
      FoundByName(Now(), roster, found, i, who);
      if found >= 0 {
        BuildingClearsNothing(history, s0, n, history[|history| - 1]);
        o := if page[found].usernum != 0 || now < page[found].timeoff + THIRTY_MINUTES then Refused else Stale(found);
      } else {
        assert Now().link[l].name == who;
        NameFits(Now(), roster, found, i, l);
        var ok := Complete(i, l, who, usernum, roster, s0, n);
        o := if ok then Added(l) else Refused;
      }
    }

    /** One round of adduser(), up to where it finds an abandoned entry under the name. */
    method TryAdd(who: string, usernum: nat, now: int, ghost roster: Listing) returns (o: Outcome)
      requires Consistent() && Lists(roster) && NumberInRange(usernum)
      modifies this, total, free, name, num, link
      ensures Consistent() && old(history) <= history
      ensures Lists(After(roster, o, who, usernum))
      ensures Verdict(roster, page[..], who, usernum, now, o)
      ensures AllPublish(history, |old(history)|, roster, After(roster, o, who, usernum))
      ensures Unclearing(history, |old(history)| - 1)
    {
      hide History, SideKept, Publishes, Unpublished, AllPublish, Unclearing;
      ghost var start := Now();
      ghost var s0, n;
      s0, n := Begin();
      Relabelled(start, roster);
      FreeSlotUsable(s0, roster);
      PutFree(1 - which, free[which], s0, n);
      PutTotal(1 - which, total[which] + 1, s0, n);
      var l := if free[1 - which] != 0 then free[1 - which] - 1 else total[which];
      BuildingPublishes(history, s0, n, roster);
      BuildingClearsNothing(history, s0, n, history[|history| - 1]);
      assert !history[n].flipped by { assert Unpublished(s0, history[n]); BuildingUnflipped(history, s0, n); }
      if l >= MAXTOTALUSERS {
        o := Refused;
      } else {
        o := Enter(l, who, usernum, now, roster, s0, n);
      }
      ClearsNothingBefore(history, n);
    }

    /** adduser(): `slot` is the new user's slot or -1.  `kept` is the listing less an entry found
        abandoned under the same name, which is deleted before the second round. */
    method AddUser(who: string, usernum: nat, now: int, ghost roster: Listing) returns (slot: int, ghost kept: Listing)
      requires Consistent() && Lists(roster) && NumberInRange(usernum) && |who| <= MAXALIAS
      modifies this, total, free, name, num, link, page
      ensures Consistent() && old(history) <= history
      ensures kept == roster || exists x :: Abandoned(roster, old(page[..]), x, who, now) && kept == roster - {x}
      ensures slot >= 0 ==>
        && Verdict(kept, page[..], who, usernum, now, Added(slot)) && Lists(kept[slot := (who, usernum)])
        && page[slot].timeoff == now
      ensures slot < 0 ==> Lists(kept) && Verdict(kept, page[..], who, usernum, now, Refused)
      ensures EachPublishes(history, |old(history)|, roster, kept,
                            if slot < 0 then kept else kept[slot := (who, usernum)])
      ensures kept == roster ==> Unclearing(history, |old(history)| - 1)
      ensures kept == roster ==> forall x :: 0 <= x < MAXTOTALUSERS && x != slot ==> page[x] == old(page[x])
    {
      hide History, Publishes, NumberTaken;
      ghost var n, page0 := |history|, page[..];
      kept := roster;
      var o := TryAdd(who, usernum, now, kept);
      while o.Stale?
        invariant Consistent() && old(history) <= history && Lists(After(kept, o, who, usernum))
        invariant Verdict(kept, page[..], who, usernum, now, o)
        invariant EachPublishes(history, n, roster, kept, After(kept, o, who, usernum))
        invariant kept == roster ==> page[..] == page0 && Unclearing(history, n - 1)
        invariant kept != roster ==>
          Vacated(kept, who) && exists x :: Abandoned(roster, page0, x, who, now) && kept == roster - {x}
        decreases if kept == roster then 1 else 0
      {
        OneHolder(Now(), kept, who);
        ghost var ok, x;
        ok, x := DeleteUser(who, kept);
        NobodyLeft(kept, x, who);
        kept := kept - {x};
        o := TryAdd(who, usernum, now, kept);
      }
      slot := -1;
      if o.Added? {
        slot := o.slot;
        page[slot] := page[slot].(timeoff := now);
      }
    }
  }

  /** From moment n on, whatever moment a crash leaves behind publishes one of three listings. */
  ghost predicate EachPublishes(h: seq<Moment>, n: nat, a: Listing, b: Listing, c: Listing)
  {
    forall k :: n <= k < |h| ==> Publishes(h[k].s, a) || Publishes(h[k].s, b) || Publishes(h[k].s, c)
  }

  /** A listed user whose page was never completed, or wiped by an interrupted deletion. */
  ghost predicate Abandoned(roster: Listing, page: seq<Page>, x: int, who: string, now: int)
    requires |page| == MAXTOTALUSERS
  {
    0 <= x < MAXTOTALUSERS && Holds(roster, x, who) && page[x].usernum == 0 && now >= page[x].timeoff + THIRTY_MINUTES
  }

  datatype Outcome = Added(slot: int) | Refused | Stale(holder: int)

  function After(roster: Listing, o: Outcome, who: string, usernum: nat): Listing
  {
    if o.Added? then roster[o.slot := (who, usernum)] else roster
  }

  ghost predicate Verdict(roster: Listing, page: seq<Page>, who: string, usernum: nat, now: int, o: Outcome)
    requires |page| == MAXTOTALUSERS
  {
    match o
    case Added(slot) =>
      && 0 <= slot < MAXTOTALUSERS && slot !in roster && !NumberTaken(roster, usernum)
      && Vacated(roster, who)
    case Stale(x) => Abandoned(roster, page, x, who, now)
    case Refused =>
      || |roster| == MAXTOTALUSERS
      || NumberTaken(roster, usernum)
      || exists x :: 0 <= x < MAXTOTALUSERS && Holds(roster, x, who) && !Abandoned(roster, page, x, who, now)
  }

  /** From moment n on, whatever moment a crash leaves behind publishes one of two listings. */
  ghost predicate AllPublish(h: seq<Moment>, n: nat, before: Listing, after: Listing)
  {
    forall k :: n <= k < |h| ==> Publishes(h[k].s, before) || Publishes(h[k].s, after)
  }

  lemma AllPublishLater(h: seq<Moment>, ms: seq<Moment>, n: nat, before: Listing, after: Listing)
    requires AllPublish(h, n, before, before)
    requires forall k :: 0 <= k < |ms| ==> Publishes(ms[k].s, after)
    ensures AllPublish(h + ms, n, before, after)
  {
  }

  lemma BuildingUnflipped(h: seq<Moment>, s0: Store, n: nat)
    requires n < |h| && Unpublished(s0, h[n])
    ensures !h[n].flipped
  {
  }

  lemma BuildingClearsNothing(h: seq<Moment>, s0: Store, n: nat, m: Moment)
    requires forall k :: n <= k < |h| ==> Unpublished(s0, h[k])
    ensures Unclearing(h, n) && Unclearing(h + [m], n)
  {
  }

  lemma ClearsNothingBefore(h: seq<Moment>, n: nat)
    requires Unclearing(h, n) && n < |h| && !h[n].flipped
    ensures Unclearing(h, n - 1)
  {
  }

  lemma Relabelled(s: Store, roster: Listing)
    requires Publishes(s, roster)
    ensures Publishes(s.(gen := s.gen + 1), roster)
  {
    PublishesKept(s, s.(gen := s.gen + 1), roster);
  }

  /** Only one column differs. */
  predicate OnlyColumn(s: Store, t: Store, byName: bool)
  {
    t == if byName then s.(name := t.name) else s.(num := t.num)
  }

  lemma DroppedColumn(q: seq<int>, to: int, from: int, t: int, i: int)
    requires 0 <= i < t && 0 <= to && to + t <= |q| && 0 <= from && from + t <= |q|
    requires from + t <= to || to + t <= from
    ensures var q1 := Spliced(q, to, q[from .. from + i]);
      var q2 := Spliced(q1, to + i, q1[from + i + 1 .. from + t]);
      var q3 := Spliced(q2, to + t - 1, [0]);
      q3[to .. to + t - 1] == Removed(q[from .. from + t], i)
  {
    var q1 := Spliced(q, to, q[from .. from + i]);
    var q2 := Spliced(q1, to + i, q1[from + i + 1 .. from + t]);
    var q3 := Spliced(q2, to + t - 1, [0]);
    forall k {:trigger Removed(q[from .. from + t], i)[k]} | 0 <= k < t - 1
      ensures q3[to + k] == Removed(q[from .. from + t], i)[k]
    {
      assert q3[to + k] == q2[to + k];
      if k < i {
        assert q2[to + k] == q1[to + k] == q[from + k];
      } else {
        assert q2[to + k] == q1[from + k + 1] == q[from + k + 1];
      }
    }
  }

  lemma AddedColumn(q: seq<int>, to: int, from: int, t: int, i: int, slot: int)
    requires 0 <= i <= t && 0 <= to && to + t + 1 <= |q| && 0 <= from && from + t <= |q|
    requires from + t <= to || to + t + 1 <= from
    ensures var q1 := Spliced(q, to, q[from .. from + i]);
      var q2 := Spliced(q1, to + i, [slot]);
      var q3 := Spliced(q2, to + i + 1, q2[from + i .. from + t]);
      q3[to .. to + t + 1] == Inserted(q[from .. from + t], i, slot)
  {
    var q1 := Spliced(q, to, q[from .. from + i]);
    var q2 := Spliced(q1, to + i, [slot]);
    var q3 := Spliced(q2, to + i + 1, q2[from + i .. from + t]);
    forall k {:trigger Inserted(q[from .. from + t], i, slot)[k]} | 0 <= k < t + 1
      ensures q3[to + k] == Inserted(q[from .. from + t], i, slot)[k]
    {
      if k < i {
        assert q3[to + k] == q2[to + k] == q1[to + k] == q[from + k];
      } else if k == i {
        assert q3[to + k] == q2[to + k] == slot;
      } else {
        assert q3[to + k] == q2[from + k - 1] == q1[from + k - 1] == q[from + k - 1];
      }
    }
  }

  /** The two copies and the final zero of deleteuser(). */
  function Dropped(s: Store, byName: bool, i: int): (r: Store)
    requires SideShaped(s, s.which) && s.total[1 - s.which] == s.total[s.which] - 1 && 0 <= i < s.total[s.which]
    ensures Shaped(r) && OnlyColumn(s, r, byName)
  {
    var from, to, t := Base(s.which), Base(1 - s.which), s.total[s.which];
    var s1 := Copied(s, byName, to, from, i);
    var s2 := Copied(s1, byName, to + i, from + i + 1, t - 1 - i);
    Written(s2, byName, to + t - 1, [0])
  }

  lemma DroppedLeaves(s: Store, byName: bool, i: int)
    requires SideShaped(s, s.which) && s.total[1 - s.which] == s.total[s.which] - 1 && 0 <= i < s.total[s.which]
    ensures Column(Dropped(s, byName, i), 1 - s.which, byName) == Removed(Column(s, s.which, byName), i)
  {
    hide Spliced, Removed;
    DroppedColumn(if byName then s.name else s.num, Base(1 - s.which), Base(s.which), s.total[s.which], i);
  }

  /** The two copies and the write of adduser(). */
  function WithEntry(s: Store, byName: bool, i: int, slot: int): (r: Store)
    requires SideShaped(s, s.which) && SideShaped(s, 1 - s.which)
    requires s.total[1 - s.which] == s.total[s.which] + 1 && 0 <= i <= s.total[s.which]
    ensures Shaped(r) && OnlyColumn(s, r, byName)
  {
    var from, to, t := Base(s.which), Base(1 - s.which), s.total[s.which];
    var s1 := Copied(s, byName, to, from, i);
    var s2 := Written(s1, byName, to + i, [slot]);
    Copied(s2, byName, to + i + 1, from + i, t - i)
  }

  lemma WithEntryLeaves(s: Store, byName: bool, i: int, slot: int)
    requires SideShaped(s, s.which) && SideShaped(s, 1 - s.which)
    requires s.total[1 - s.which] == s.total[s.which] + 1 && 0 <= i <= s.total[s.which]
    ensures Column(WithEntry(s, byName, i, slot), 1 - s.which, byName) == Inserted(Column(s, s.which, byName), i, slot)
  {
    hide Spliced, Inserted;
    AddedColumn(if byName then s.name else s.num, Base(1 - s.which), Base(s.which), s.total[s.which], i, slot);
  }

  function Spliced(q: seq<int>, at: int, v: seq<int>): (r: seq<int>)
    requires 0 <= at && at + |v| <= |q|
    ensures |r| == |q|
  {
    q[..at] + v + q[at + |v|..]
  }

  /** A store after v was written into one of its columns. */
  function Written(s: Store, byName: bool, at: int, v: seq<int>): (r: Store)
    requires 0 <= at && at + |v| <= |if byName then s.name else s.num|
    ensures Shaped(s) ==> Shaped(r)
    ensures OnlyColumn(s, r, byName)
  {
    if byName then s.(name := Spliced(s.name, at, v)) else s.(num := Spliced(s.num, at, v))
  }

  lemma SplicedElsewhere(q: seq<int>, at: int, v: int, lo: int, hi: int)
    requires 0 <= at < |q| && 0 <= lo <= hi <= |q| && (hi <= at || at < lo)
    ensures Spliced(q, at, [v])[lo..hi] == q[lo..hi]
  {
    var r := Spliced(q, at, [v]);
    assert r == q[at := v];
  }

  lemma WrittenElsewhere(s: Store, byName: bool, place: int, v: int)
    requires SideShaped(s, s.which)
    requires Base(1 - s.which) <= place < Base(1 - s.which) + MAXTOTALUSERS
    ensures SideKept(s, Written(s, byName, place, [v]), s.which)
  {
    var lo := Base(s.which);
    var hi := lo + s.total[s.which];
    SplicedElsewhere(s.name, place, v, lo, hi);
    SplicedElsewhere(s.num, place, v, lo, hi);
    hide Spliced;
  }

  lemma SplicedNext(q: seq<int>, to: int, from: int, k: int)
    requires 0 <= k && 0 <= to && to + k < |q| && 0 <= from && from + k < |q|
    requires from + k < to || to + k < from
    ensures Spliced(q, to, q[from .. from + k])[from + k] == q[from + k]
    ensures Spliced(Spliced(q, to, q[from .. from + k]), to + k, [q[from + k]])
         == Spliced(q, to, q[from .. from + k + 1])
  {
  }

  /** Both ranges lie within their side, the source on the published one. */
  predicate CopyFits(s: Store, to: int, from: int, count: int)
  {
    && Shaped(s) && 0 <= count
    && Base(1 - s.which) <= to && to + count <= Base(1 - s.which) + MAXTOTALUSERS
    && Base(s.which) <= from && from + count <= Base(s.which) + MAXTOTALUSERS
  }

  /** A store after `count` entries of a column were copied to its other side. */
  function Copied(s: Store, byName: bool, to: int, from: int, count: int): (r: Store)
    requires CopyFits(s, to, from, count)
    ensures Shaped(r) && OnlyColumn(s, r, byName)
  {
    Written(s, byName, to, (if byName then s.name else s.num)[from .. from + count])
  }

  lemma CopiedNone(s: Store, byName: bool, to: int, from: int)
    requires CopyFits(s, to, from, 0)
    ensures Copied(s, byName, to, from, 0) == s
  {
  }

  lemma CopiedNext(s: Store, byName: bool, to: int, from: int, k: int, v: int)
    requires CopyFits(s, to, from, k + 1) && 0 <= k
    ensures var t := Copied(s, byName, to, from, k);
      && Shaped(t)
      && (v == (if byName then t.name else t.num)[from + k] ==>
            Written(t, byName, to + k, [v]) == Copied(s, byName, to, from, k + 1))
  {
    SplicedNext(if byName then s.name else s.num, to, from, k);
  }

  /** A moment that a crash would leave with the content of s0 published. */
  ghost predicate Unpublished(s0: Store, m: Moment)
  {
    !m.flipped && m.s.which == s0.which && SideKept(s0, m.s, s0.which)
  }

  /** No link is cleared by the writes from moment n on. */
  ghost predicate Unclearing(h: seq<Moment>, n: int)
  {
    forall k :: 0 <= n <= k < |h| - 1 ==> !(h[k].flipped && h[k + 1].flipped)
  }

  // ---------------------------------------------------------------- a lookup beside any number of writers

  datatype Request = Add(who: string, usernum: nat, now: int) | Delete(who: string)

  predicate Admissible(r: Request)
  {
    r.Add? ==> NumberInRange(r.usernum) && |r.who| <= MAXALIAS
  }

  /** Only additions, all within half an hour of `from`, and no page left incomplete since before then. */
  ghost predicate Peaceful(roster: Listing, page: seq<Page>, requests: seq<Request>, from: int)
    requires |page| == MAXTOTALUSERS
  {
    && (forall i :: 0 <= i < |requests| ==> requests[i].Add? && from <= requests[i].now < from + THIRTY_MINUTES)
    && forall x :: 0 <= x < MAXTOTALUSERS && x in roster ==> page[x].usernum != 0 || from <= page[x].timeoff
  }

  ghost predicate Among(s: Store, listings: seq<Listing>)
  {
    exists i :: 0 <= i < |listings| && Publishes(s, listings[i])
  }

  /** adduser() or deleteuser(). */
  method Apply(u: UserData, r: Request, ghost roster: Listing) returns (ghost kept: Listing, ghost after: Listing)
    requires u.Consistent() && u.Lists(roster) && Admissible(r)
    modifies u, u.total, u.free, u.name, u.num, u.link, u.page
    ensures u.Consistent() && old(u.history) <= u.history && u.Lists(after)
    ensures EachPublishes(u.history, |old(u.history)|, roster, kept, after)
    ensures forall from :: Peaceful(roster, old(u.page[..]), [r], from) ==>
      Peaceful(after, u.page[..], [], from) && Unclearing(u.history, |old(u.history)| - 1)
  {
    hide History, Publishes, Unclearing, Verdict;
    match r
    case Add(who, usernum, now) =>
      ghost var page0 := u.page[..];
      var slot;
      slot, kept := u.AddUser(who, usernum, now, roster);
      after := if slot < 0 then kept else kept[slot := (who, usernum)];
      forall from | Peaceful(roster, page0, [r], from)
        ensures Peaceful(after, u.page[..], [], from) && Unclearing(u.history, |old(u.history)| - 1)
      {
        assert [r][0] == r;
        assert kept == roster;
      }
    case Delete(who) =>
      var ok;
      ghost var slot;
      ok, slot := u.DeleteUser(who, roster);
      kept, after := roster, if ok then roster - {slot} else roster;
      assert !Peaceful(roster, old(u.page[..]), [r], 0) by { assert [r][0] == r; }
  }

  lemma PeacefulParts(roster: Listing, page: seq<Page>, requests: seq<Request>, i: nat, from: int)
    requires |page| == MAXTOTALUSERS && i < |requests|
    ensures Peaceful(roster, page, requests[i..], from) ==> Peaceful(roster, page, [requests[i]], from)
    ensures forall after, page' | |page'| == MAXTOTALUSERS && Peaceful(after, page', [], from) ::
      Peaceful(roster, page, requests[i..], from) ==> Peaceful(after, page', requests[i + 1..], from)
  {
    assert requests[i..][0] == requests[i];
    assert requests[i..][1..] == requests[i + 1..];
  }

  lemma UnclearingOn(h: seq<Moment>, g: seq<Moment>, n: nat)
    requires n < |h| && h <= g && Unclearing(h, n) && Unclearing(g, |h| - 1)
    ensures Unclearing(g, n)
  {
  }

  lemma AmongOn(h: seq<Moment>, g: seq<Moment>, n: nat, listings: seq<Listing>, kept: Listing, after: Listing)
    requires listings != [] && h <= g && EachPublishes(g, |h|, listings[|listings| - 1], kept, after)
    requires forall k :: n <= k < |h| ==> Among(h[k].s, listings)
    ensures forall k :: n <= k < |g| ==> Among(g[k].s, listings + [kept, after])
  {
    hide Publishes;
    var more := listings + [kept, after];
    var last := |listings| - 1;
    assert more[last] == listings[last] && more[last + 1] == kept && more[last + 2] == after;
    forall k | n <= k < |g| ensures Among(g[k].s, more) {
      if k < |h| {
        assert Among(h[k].s, listings);
        var i :| 0 <= i < |listings| && Publishes(h[k].s, listings[i]);
        assert Publishes(g[k].s, more[i]);
      }
    }
  }

  /** A lookup by a process without the lock beside any number of additions and deletions.  The side it
      searches publishes one of the listings the writers go through, and its answer is right for that one
      but for what FindUser says of deletions; beside additions that find no abandoned entry, it is right. */
  method Serve(u: UserData, requests: seq<Request>, key: Key, ghost roster: Listing)
    returns (slot: int, saveindex: int, at: nat, end: nat, ghost listings: seq<Listing>)
    requires u.Consistent() && u.Lists(roster) && GoodKey(key)
    requires forall i :: 0 <= i < |requests| ==> Admissible(requests[i])
    modifies u, u.total, u.free, u.name, u.num, u.link, u.page
    ensures u.Consistent() && old(u.history) <= u.history && |old(u.history)| - 1 <= at <= end < |u.history|
    ensures listings != [] && listings[0] == roster && u.Lists(listings[|listings| - 1])
    ensures Readable(u.history[at].s) && Among(u.history[at].s, listings)
    ensures Findable(key) ==> Reliable(u.history, at, end, key, slot)
    ensures forall from :: Peaceful(roster, old(u.page[..]), requests, from) ==>
      Answers(u.history[at].s, u.history[at].s.which, key, slot, saveindex)
  {
    hide History, Publishes, Unclearing, EachPublishes, Among, Reliable, Answers, Peaceful, Undisturbed;
    var n := |u.history| - 1;
    ghost var page0 := u.page[..];
    listings := [roster];
    StartsAmong(u, roster);
    for i := 0 to |requests|
      invariant u.Consistent() && old(u.history) <= u.history && 0 <= n == |old(u.history)| - 1
      invariant listings != [] && listings[0] == roster && u.Lists(listings[|listings| - 1])
      invariant forall k :: n <= k < |u.history| ==> Among(u.history[k].s, listings)
      invariant forall from :: Peaceful(roster, page0, requests, from) ==>
        Peaceful(listings[|listings| - 1], u.page[..], requests[i..], from) && Unclearing(u.history, n)
    {
      ghost var h, now, page := u.history, listings[|listings| - 1], u.page[..];
      ghost var kept, after;
      kept, after := Apply(u, requests[i], now);
      AmongOn(h, u.history, n, listings, kept, after);
      listings := listings + [kept, after];
      forall from | Peaceful(roster, page0, requests, from)
        ensures Peaceful(after, u.page[..], requests[i + 1..], from) && Unclearing(u.history, n)
      {
        PeacefulParts(now, page, requests, i, from);
        UnclearingOn(h, u.history, n);
      }
    }
    slot, saveindex, at, end := FindUser(u.history, n, key);
    if Unclearing(u.history, n) {
      UnclearingUndisturbed(u.history, n, at, end);
    }
  }

  lemma StartsAmong(u: UserData, roster: Listing)
    requires u.Consistent() && u.Lists(roster)
    ensures u.history != [] && Among(u.history[|u.history| - 1].s, [roster]) && Unclearing(u.history, |u.history| - 1)
  {
    assert [roster][0] == roster;
  }

  lemma UnclearingUndisturbed(h: seq<Moment>, n: nat, i: nat, j: nat)
    requires n <= i <= j < |h| && Unclearing(h, n)
    ensures Undisturbed(h, i, j)
  {
  }

  lemma FlipStep(a: Moment, b: Moment, roster: Listing)
    requires Shaped(a.s) && !a.flipped && b.flipped && b.s == a.s.(which := 1 - a.s.which) && Publishes(b.s, roster)
    ensures Step(a, b)
  {
  }

  lemma AppendStep(h: seq<Moment>, m: Moment)
    requires History(h) && Step(h[|h| - 1], m)
    ensures History(h + [m])
  {
    var g := h + [m];
    forall k | 0 <= k < |g| - 1 ensures StepAt(g, k) {
      if k < |h| - 1 {
        assert StepAt(h, k);
      }
    }
  }

  lemma BuildingPublishes(h: seq<Moment>, s0: Store, n: nat, roster: Listing)
    requires Publishes(s0, roster) && forall k :: n <= k < |h| ==> Unpublished(s0, h[k])
    ensures forall k :: n <= k < |h| ==> Publishes(h[k].s, roster)
    ensures AllPublish(h, n, roster, roster)
  {
    forall k | n <= k < |h| ensures Publishes(h[k].s, roster) {
      PublishesKept(s0, h[k].s, roster);
    }
  }

  lemma KeptColumns(s0: Store, s: Store)
    requires SideKept(s0, s, s0.which)
    ensures SideShaped(s, s0.which) && SideShaped(s0, s0.which) && s.total[s0.which] == s0.total[s0.which]
    ensures Column(s, s0.which, true) == Column(s0, s0.which, true)
    ensures Column(s, s0.which, false) == Column(s0, s0.which, false)
  {
  }

  lemma FoundByName(s: Store, roster: Listing, slot: int, i: int, who: string)
    requires Publishes(s, roster) && Answers(s, s.which, ByName(who), slot, i)
    ensures slot >= 0 ==> HeldAt(s, roster, slot, i, who)
    ensures slot < 0 ==> Vacated(roster, who)
  {
    var names := Column(s, s.which, true);
    forall k | 0 <= k < |names|
      ensures Compare(ByName(who), s.link[names[k]]) == 0 <==> s.link[names[k]].name == who
    {
      StrCmpReverses(who, s.link[names[k]].name);
    }
  }

  /** Entry i of the published names is the slot of a user with a usable number. */
  ghost predicate HeldAt(s: Store, roster: Listing, slot: int, i: int, who: string)
  {
    && SideShaped(s, s.which) && 0 <= i < s.total[s.which]
    && Column(s, s.which, true)[i] == slot && 0 <= slot < MAXTOTALUSERS
    && NumberInRange(s.link[slot].usernum) && Holds(roster, slot, who)
  }

  /** The number of a listed user is found, at that user. */
  lemma FoundByNum(s: Store, roster: Listing, slot: int, j: int, l: int)
    requires Publishes(s, roster) && l in Column(s, s.which, true) && 0 <= l < MAXTOTALUSERS
    requires Answers(s, s.which, ByNum(s.link[l].usernum), slot, j)
    ensures slot == l && 0 <= j < s.total[s.which] && Column(s, s.which, false)[j] == l
  {
    var nums := Column(s, s.which, false);
    var k :| 0 <= k < |nums| && nums[k] == l;
    forall k | 0 <= k < |nums|
      ensures Compare(ByNum(s.link[l].usernum), s.link[nums[k]]) == 0 <==> s.link[nums[k]].usernum == s.link[l].usernum
    {
      assert nums[k] in nums;
      SignedDiffOrders(s.link[l].usernum, s.link[nums[k]].usernum);
    }
  }

  /** The first writes of deleteuser(): the head of the free list and the number of users. */
  function Lowered(s: Store): (r: Store)
    requires SideShaped(s, s.which)
    ensures Shaped(r)
  {
    var w := s.which;
    s.(free := s.free[1 - w := s.free[w]], total := s.total[1 - w := s.total[w] - 1])
  }

  /** Its next writes: slot l becomes the head of the free list. */
  function Unlinked(s: Store, l: int): (r: Store)
    requires Shaped(s) && 0 <= l < MAXTOTALUSERS
    ensures Shaped(r)
  {
    s.(link := s.link[l := s.link[l].(free := s.free[1 - s.which])], free := s.free[1 - s.which := l + 1])
  }

  predicate Deletable(s: Store, i: int, j: int, l: int)
  {
    && SideShaped(s, s.which) && 0 <= i < s.total[s.which] && 0 <= j < s.total[s.which]
    && 0 <= l < MAXTOTALUSERS && Column(s, s.which, true)[i] == l == Column(s, s.which, false)[j]
  }

  /** The store deleteuser() has built when it is about to flip `which`. */
  function Deleted(s0: Store, i: int, j: int, l: int): (r: Store)
    requires Deletable(s0, i, j, l)
    ensures Shaped(r)
  {
    Dropped(Dropped(Unlinked(Lowered(s0), l), true, i), false, j)
  }

  lemma DeletedColumns(s0: Store, i: int, j: int, l: int)
    requires Deletable(s0, i, j, l)
    ensures var s := Deleted(s0, i, j, l);
      && s.which == s0.which && SideShaped(s, 1 - s.which)
      && s.link == s0.link[l := s0.link[l].(free := s0.free[s0.which])]
      && s.free[1 - s.which] == l + 1
      && Column(s, 1 - s.which, true) == Removed(Column(s0, s0.which, true), i)
      && Column(s, 1 - s.which, false) == Removed(Column(s0, s0.which, false), j)
  {
    var s3 := Unlinked(Lowered(s0), l);
    var s4 := Dropped(s3, true, i);
    hide Dropped, Removed;
    DroppedLeaves(s3, true, i);
    DroppedLeaves(s4, false, j);
  }

  lemma DeletedPublishes(s0: Store, roster: Listing, i: int, j: int, l: int)
    requires Publishes(s0, roster) && Deletable(s0, i, j, l)
    requires SideKept(s0, Deleted(s0, i, j, l), s0.which)
    ensures Publishes(Deleted(s0, i, j, l).(which := 1 - s0.which), roster - {l})
  {
    DeletedColumns(s0, i, j, l);
    hide Deleted, Publishes, Removed, SideKept;
    RemovedSide(s0, Deleted(s0, i, j, l), roster, i, j, l);
  }

  predicate Addable(s: Store, l: int)
  {
    && SideShaped(s, s.which) && s.total[s.which] < MAXTOTALUSERS
    && 0 <= l < MAXTOTALUSERS && l == FreeSlot(s.free[s.which], s.total[s.which])
  }

  /** The first writes of adduser(): the head of the free list and the number of users. */
  function Raised(s: Store): (r: Store)
    requires SideShaped(s, s.which)
    ensures Shaped(r)
  {
    var w := s.which;
    s.(free := s.free[1 - w := s.free[w]], total := s.total[1 - w := s.total[w] + 1])
  }

  /** Its next writes: slot l gets the name and number and leaves the free list. */
  function Linked(s: Store, l: int, who: string, usernum: nat): (r: Store)
    requires Shaped(s) && 0 <= l < MAXTOTALUSERS
    ensures Shaped(r)
  {
    s.(link := s.link[l := Link(s.link[l].free, usernum, who)], free := s.free[1 - s.which := s.link[l].free])
  }

  /** Slot l belongs at place i of a published column. */
  ghost predicate Fits(s: Store, l: int, byName: bool, i: int)
  {
    && SideShaped(s, s.which) && 0 <= l < MAXTOTALUSERS && 0 <= i <= s.total[s.which]
    && InRange(Column(s, s.which, byName))
    && BelongsAt(s.link, Column(s, s.which, byName), byName, s.link[l], i)
  }

  ghost predicate FitsIn(s0: Store, link: seq<Link>, l: int, byName: bool, i: int)
    requires SideShaped(s0, s0.which) && |link| == MAXTOTALUSERS && 0 <= l < MAXTOTALUSERS
  {
    && InRange(Column(s0, s0.which, byName))
    && BelongsAt(link, Column(s0, s0.which, byName), byName, link[l], i)
  }

  lemma NumbersInRange(s: Store, roster: Listing)
    requires Publishes(s, roster)
    ensures InRange(Column(s, s.which, false))
    ensures forall slot :: slot in Column(s, s.which, true) && 0 <= slot < MAXTOTALUSERS ==>
      NumberInRange(s.link[slot].usernum)
    ensures forall slot :: slot in Column(s, s.which, false) && 0 <= slot < MAXTOTALUSERS ==>
      NumberInRange(s.link[slot].usernum)
    ensures forall slot :: slot in Column(s, s.which, true) <==> slot in Column(s, s.which, false)
  {
  }

  lemma NameFits(s: Store, roster: Listing, slot: int, i: int, l: int)
    requires Publishes(s, roster) && 0 <= l < MAXTOTALUSERS && slot < 0
    requires Answers(s, s.which, ByName(s.link[l].name), slot, i)
    ensures Fits(s, l, true, i)
  {
    NumbersInRange(s, roster);
    InsertionPoint(s, s.which, ByName(s.link[l].name), slot, i, s.link[l]);
  }

  lemma NumberFits(s: Store, roster: Listing, slot: int, i: int, l: int)
    requires Publishes(s, roster) && 0 <= l < MAXTOTALUSERS && slot < 0 && NumberInRange(s.link[l].usernum)
    requires Answers(s, s.which, ByNum(s.link[l].usernum), slot, i)
    ensures Fits(s, l, false, i)
  {
    NumbersInRange(s, roster);
    InsertionPoint(s, s.which, ByNum(s.link[l].usernum), slot, i, s.link[l]);
  }

  lemma NumberFound(s: Store, roster: Listing, slot: int, j: int, usernum: nat)
    requires Publishes(s, roster) && NumberInRange(usernum) && Answers(s, s.which, ByNum(usernum), slot, j)
    ensures slot >= 0 <==> NumberTaken(roster, usernum)
  {
    NumbersInRange(s, roster);
    var nums := Column(s, s.which, false);
    forall k | 0 <= k < |nums|
      ensures Compare(ByNum(usernum), s.link[nums[k]]) == 0 <==> s.link[nums[k]].usernum == usernum
    {
      assert nums[k] in nums;
      SignedDiffOrders(usernum, s.link[nums[k]].usernum);
    }
    if slot >= 0 {
      assert slot in nums && roster[slot].1 == usernum;
    } else {
      forall x | x in roster ensures roster[x].1 != usernum {
        assert x in nums;
      }
    }
  }

  /** The store adduser() has built when it is about to flip `which`. */
  function Joined(s0: Store, i: int, j: int, l: int, who: string, usernum: nat): (r: Store)
    requires Addable(s0, l) && 0 <= i <= s0.total[s0.which] && 0 <= j <= s0.total[s0.which]
    ensures Shaped(r)
  {
    WithEntry(WithEntry(Linked(Raised(s0), l, who, usernum), true, i, l), false, j, l)
  }

  lemma JoinedColumns(s0: Store, i: int, j: int, l: int, who: string, usernum: nat)
    requires Addable(s0, l) && 0 <= i <= s0.total[s0.which] && 0 <= j <= s0.total[s0.which]
    ensures var s := Joined(s0, i, j, l, who, usernum);
      && s.which == s0.which && SideShaped(s, 1 - s.which)
      && s.link == s0.link[l := Link(s0.link[l].free, usernum, who)]
      && s.free[1 - s.which] == s0.link[l].free
      && Column(s, 1 - s.which, true) == Inserted(Column(s0, s0.which, true), i, l)
      && Column(s, 1 - s.which, false) == Inserted(Column(s0, s0.which, false), j, l)
  {
    var s3 := Linked(Raised(s0), l, who, usernum);
    var s4 := WithEntry(s3, true, i, l);
    hide WithEntry, Inserted;
    WithEntryLeaves(s3, true, i, l);
    WithEntryLeaves(s4, false, j, l);
  }

  lemma AddedPublishes(s0: Store, roster: Listing, i: int, j: int, l: int, who: string, usernum: nat)
    requires Publishes(s0, roster) && Addable(s0, l) && NumberInRange(usernum)
    requires 0 <= i <= s0.total[s0.which] && 0 <= j <= s0.total[s0.which]
    requires SideKept(s0, Joined(s0, i, j, l, who, usernum), s0.which)
    requires var link := Linked(Raised(s0), l, who, usernum).link;
      FitsIn(s0, link, l, true, i) && FitsIn(s0, link, l, false, j)
    ensures l !in roster
    ensures Publishes(Joined(s0, i, j, l, who, usernum).(which := 1 - s0.which), roster[l := (who, usernum)])
  {
    JoinedColumns(s0, i, j, l, who, usernum);
    hide Joined, Publishes, Inserted, SideKept, BelongsAt;
    AddedSide(s0, Joined(s0, i, j, l, who, usernum), roster, i, j, l, who, usernum);
  }

  ghost predicate Vacated(roster: Listing, who: string)
  {
    forall x :: !Holds(roster, x, who)
  }

  lemma NobodyLeft(roster: Listing, x: int, who: string)
    requires Holds(roster, x, who) && forall y, z :: Holds(roster, y, who) && Holds(roster, z, who) ==> y == z
    ensures Vacated(roster - {x}, who)
  {
    forall y ensures !Holds(roster - {x}, y, who) {
      assert Holds(roster - {x}, y, who) ==> Holds(roster, y, who);
    }
  }

  /** No name is listed twice. */
  lemma OneHolder(s: Store, roster: Listing, who: string)
    requires Publishes(s, roster)
    ensures forall x, y :: Holds(roster, x, who) && Holds(roster, y, who) ==> x == y
  {
    var names := Column(s, s.which, true);
    forall i, j | 0 <= i < j < |names| ensures s.link[names[i]].name != s.link[names[j]].name {
      StrCmpReverses(s.link[names[i]].name, s.link[names[j]].name);
    }
  }

  lemma FreeSlotParts(link: seq<Link>, head: int, chain: seq<int>, names: seq<int>)
    requires |link| == MAXTOTALUSERS && ValidFreeList(link, head, chain, names)
    ensures var l := FreeSlot(head, |names|);
      0 <= l && l !in names && (l < MAXTOTALUSERS <==> |names| < MAXTOTALUSERS) && |names| <= MAXTOTALUSERS
  {
  }

  lemma RosterSize(link: seq<Link>, names: seq<int>)
    requires |link| == MAXTOTALUSERS && InRange(names) && SortedColumn(link, names, true)
    ensures |Roster(link, names)| == |names|
  {
    SortedDistinct(link, names, true);
    MembersCount(names);
    assert Roster(link, names).Keys == Members(names);
  }

  /** The slot adduser() takes is a slot unless the index is full, and nobody's. */
  lemma FreeSlotUsable(s: Store, roster: Listing)
    requires Publishes(s, roster)
    ensures var l := FreeSlot(s.free[s.which], s.total[s.which]);
      && SideShaped(s, s.which) && l !in Column(s, s.which, true)
      && if l < MAXTOTALUSERS then Addable(s, l) else |roster| == MAXTOTALUSERS
  {
    var chain :| ValidSide(s, s.which, chain);
    FreeSlotParts(s.link, s.free[s.which], chain, Column(s, s.which, true));
    RosterSize(s.link, Column(s, s.which, true));
  }
}
