/** entermessage(), fr_delete() and readmessage() on the message file and the windows together: what a
    number in a window leads to. */
module MessageBoard {
  import opened MessageLog
  import opened RoomBase
  import opened RoomWindows
  import L = CircularLog
  import R = XRecords

  const MES_SYSOP: int := 69
  const MES_XYELL: int := 70

  // ---------------------------------------------------------------- numbers and the messages they were given to

  /** The message has been given number id, and none since. */
  ghost predicate Latest(home: seq<nat>, k: nat, id: int)
  {
    0 < id <= |home| && home[id - 1] == k && forall n :: id <= n < |home| ==> home[n] != k
  }

  /** home[n - 1] is the message that number n was given to; each bears the last of its numbers. */
  ghost predicate Numbered(home: seq<nat>, q: seq<Entry>)
  {
    && (forall n :: 0 <= n < |home| ==> home[n] < |q|)
    && forall k :: 0 <= k < |q| ==> Latest(home, k, Id(q[k].bytes))
  }

  /** Nobody has deleted the message since it was given number n. */
  ghost predicate Undeleted(home: seq<nat>, n: int)
  {
    0 < n <= |home| && Latest(home, home[n - 1], n)
  }

  lemma EnteredNumbered(home: seq<nat>, q: seq<Entry>, e: Entry)
    requires Numbered(home, q) && Id(e.bytes) == |home| + 1
    ensures Numbered(home + [|q|], q + [e])
  {
    var g, p := home + [|q|], q + [e];
    forall k | 0 <= k < |p| ensures Latest(g, k, Id(p[k].bytes)) {
      if k < |q| {
        assert Latest(home, k, Id(q[k].bytes));
      }
    }
  }

  lemma MarkedNumbered(home: seq<nat>, q: seq<Entry>, k: nat, e: Entry)
    requires Numbered(home, q) && k < |q| && Id(e.bytes) == |home| + 1
    ensures Numbered(home + [k], q[k := e])
  {
    var g, p := home + [k], q[k := e];
    forall j | 0 <= j < |p| ensures Latest(g, j, Id(p[j].bytes)) {
      if j != k {
        assert Latest(home, j, Id(q[j].bytes));
      }
    }
  }

  /** A message bears a number it was given as long as it has not been deleted since. */
  lemma BearsNumber(home: seq<nat>, q: seq<Entry>, k: nat, n: int)
    requires Numbered(home, q) && k < |q| && 0 < n <= |home|
    ensures Id(q[k].bytes) == n <==> home[n - 1] == k && Undeleted(home, n)
  {
    assert Latest(home, k, Id(q[k].bytes));
  }

  // ---------------------------------------------------------------- windows and places

  /** The place a window gives for a number is where the message of that number was written. */
  ghost predicate Leads(home: seq<nat>, q: seq<Entry>, s: Slot)
  {
    s.num == 0 || (0 < s.num <= |home| && home[s.num - 1] < |q| && s.pos == q[home[s.num - 1]].pos)
  }

  ghost predicate AllLead(home: seq<nat>, q: seq<Entry>, w: seq<Slot>)
  {
    forall i :: 0 <= i < |w| ==> Leads(home, q, w[i])
  }

  lemma LeadOn(home: seq<nat>, q: seq<Entry>, g: seq<nat>, p: seq<Entry>, w: seq<Slot>)
    requires AllLead(home, q, w) && home <= g && |q| <= |p| && forall k :: 0 <= k < |q| ==> p[k].pos == q[k].pos
    ensures AllLead(g, p, w)
  {
    forall i | 0 <= i < |w| ensures Leads(g, p, w[i]) {
      assert Leads(home, q, w[i]);
    }
  }

  lemma LeadPushed(home: seq<nat>, q: seq<Entry>, w: seq<Slot>, s: Slot)
    requires AllLead(home, q, w) && w != [] && Leads(home, q, s)
    ensures AllLead(home, q, Pushed(w, s))
  {
  }

  lemma LeadLost(home: seq<nat>, q: seq<Entry>, w: seq<Slot>, i: int)
    requires AllLead(home, q, w) && i < |w|
    ensures AllLead(home, q, Lost(w, i))
  {
  }

  lemma LeadMailLost(home: seq<nat>, q: seq<Entry>, w: seq<Mail>, i: int)
    requires AllLead(home, q, ShownAll(w)) && i < |w|
    ensures AllLead(home, q, ShownAll(MailLost(w, i)))
  {
    var s, t := ShownAll(w), ShownAll(MailLost(w, i));
    forall j | 0 <= j < |t| ensures Leads(home, q, t[j]) {
      assert t[j].num == 0 || t[j] == s[if i >= 0 && 0 < j <= i then j - 1 else j];
    }
  }

  /** Every place in every window leads to the message of its number. */
  ghost predicate Filed(home: seq<nat>, q: seq<Entry>, w: Windows)
  {
    && (forall r :: 0 <= r < |w.rooms| ==> AllLead(home, q, w.rooms[r]))
    && forall u :: 0 <= u < |w.mail| ==> AllLead(home, q, ShownAll(w.mail[u]))
  }

  lemma FiledOn(home: seq<nat>, q: seq<Entry>, g: seq<nat>, p: seq<Entry>, w: Windows)
    requires Filed(home, q, w) && home <= g && |q| <= |p| && forall k :: 0 <= k < |q| ==> p[k].pos == q[k].pos
    ensures Filed(g, p, w)
  {
    hide AllLead;
    forall r | 0 <= r < |w.rooms| ensures AllLead(g, p, w.rooms[r]) {
      LeadOn(home, q, g, p, w.rooms[r]);
    }
    forall u | 0 <= u < |w.mail| ensures AllLead(g, p, ShownAll(w.mail[u])) {
      LeadOn(home, q, g, p, ShownAll(w.mail[u]));
    }
  }

  /** A message that is in the file may be posted anywhere. */
  lemma PostedFiled(home: seq<nat>, q: seq<Entry>, w: Windows, rm: nat, msgnum: int, pos: int, mmhi: int, tmpuser: int)
    requires Laid(w) && Addressed(w, rm, tmpuser) && Filed(home, q, w) && pos >= 0 && Leads(home, q, Slot(mmhi, 0, pos))
    ensures Filed(home, q, Posted(w, rm, msgnum, pos, mmhi, tmpuser))
  {
    hide AllLead, Pushed;
    var p := Posted(w, rm, msgnum, pos, mmhi, tmpuser);
    forall r | 0 <= r < |p.rooms| ensures AllLead(home, q, p.rooms[r]) {
      LeadPushed(home, q, w.rooms[r], Slot(mmhi, msgnum, pos));
    }
    forall u | 0 <= u < |p.mail| ensures AllLead(home, q, ShownAll(p.mail[u])) {
      var m := Mail(mmhi, if u == tmpuser then pos else -pos);
      ShownPushed(w.mail[u], m);
      LeadPushed(home, q, ShownAll(w.mail[u]), Slot(mmhi, mmhi, pos));
    }
  }

  lemma DeletedFiled(home: seq<nat>, q: seq<Entry>, w: Windows, delnum: int)
    requires Laid(w) && Filed(home, q, w)
    ensures Filed(home, q, Deleted(w, delnum))
  {
    hide AllLead, Lost, MailLost, PlaceOf;
    if w.curr == MAIL_RM_NBR {
      LeadMailLost(home, q, w.mail[w.ouruser], PlaceOf(MailNums(w.mail[w.ouruser]), delnum));
    } else {
      LeadLost(home, q, w.rooms[w.curr], PlaceOf(Nums(w.rooms[w.curr]), delnum));
    }
  }

  /** What the private copy says leads to the message as well. */
  lemma CopyLeads(home: seq<nat>, q: seq<Entry>, w: Windows, i: nat)
    requires InStep(w) && Filed(home, q, w) && i < WINDOW
    ensures Leads(home, q, w.room[i])
  {
    var l := Loaded(w);
    assert AllLead(home, q, l);
    assert SameSlot(w.room[i], l[i]) && Leads(home, q, l[i]);
  }

  /** Whatever window gives a number and a place, the checks find the message there if nothing has been
      written over it and it has not been deleted since it was given that number, and find none if it has. */
  lemma NumberLeadsHome(f: seq<R.byte>, home: seq<nat>, q: seq<Entry>, s: Slot)
    requires AllIntact(f, q) && Numbered(home, q) && |home| < R.WORD
    requires Leads(home, q, s) && s.num != 0 && Whole(q, home[s.num - 1])
    ensures 0 <= s.pos && s.pos + HEADER <= |f| && f[s.pos] == M_MAGIC
    ensures Checked(f, s.pos, s.num) == if Undeleted(home, s.num) then Passes else NotFound
  {
    var k := home[s.num - 1];
    hide AllIntact, Latest, Checked, Whole;
    CheckFindsMessage(f, q, k, s.num);
    BearsNumber(home, q, k, s.num);
  }

  /** A whole message found at the place of a slot is the slot's own, undeleted, exactly when it passes the
      checks for the slot's number. */
  lemma OwnMessage(f: seq<R.byte>, home: seq<nat>, q: seq<Entry>, k: nat, n: int)
    requires AllIntact(f, q) && Numbered(home, q) && |home| < R.WORD && Whole(q, k) && 0 < n <= |home|
    ensures q[k].pos + HEADER <= |f|
    ensures Checked(f, q[k].pos, n) == Passes <==> home[n - 1] == k && Undeleted(home, n)
  {
    hide AllIntact, Latest, Checked;
    CheckFindsMessage(f, q, k, n);
    BearsNumber(home, q, k, n);
  }

  /** In a file of 500 bytes the third message of 200 begins where the first did.  Whoever still holds the
      number and place of the first, and deletes it, marks the third. */
  lemma PlaceReused(b1: seq<R.byte>, b2: seq<R.byte>, b3: seq<R.byte>)
    requires |b1| == |b2| == |b3| == 200 && Id(b1) == 1 && Id(b2) == 2 && Id(b3) == 3
    ensures var l := Appended(Appended(Appended(Log([], 0, 0, 0), b1, 500), b2, 500), b3, 500);
      var home := [0, 1, 2];
      && l.q == [Entry(0, b1), Entry(200, b2), Entry(0, b3)] && !Whole(l.q, 0) && Whole(l.q, 1) && Whole(l.q, 2)
      && Numbered(home, l.q) && Leads(home, l.q, Slot(1, 1, 0)) && home[0] != 2 && home[2] == 2 && Undeleted(home, 3)
  {
    var l1 := Appended(Log([], 0, 0, 0), b1, 500);
    var l2 := Appended(l1, b2, 500);
    assert l2.q == [Entry(0, b1), Entry(200, b2)] && l2.cur == 400;
    var l3 := Appended(l2, b3, 500);
    assert l3.q == [Entry(0, b1), Entry(200, b2), Entry(0, b3)];
    assert !Clear(l3.q[2], l3.q[0]);
    hide Id;
    forall k | 0 <= k < 3 ensures Latest([0, 1, 2], k, Id(l3.q[k].bytes)) {
      assert k == 0 || k == 1 || k == 2;
    }
  }

  // ---------------------------------------------------------------- where a message is posted again

  datatype Again = Nowhere | ToMail | ToSysop

  /** A yell goes to the sender's mailbox as well, and what a sysop or moderator writes to the room for it. */
  function SecondPost(tosysop: bool, mtype: int): Again
  {
    if tosysop && mtype != MES_XYELL then ToMail
    else if mtype == MES_SYSOP || mtype == MES_FM then ToSysop
    else Nowhere
  }

  /** How often room r gets the message: it goes to its own room, from a yell to the sender's mailbox as well,
      and one of the types of sysops and moderators that is not such a yell to their room. */
  function Postings(r: int, rm: nat, tosysop: bool, mtype: int): nat
  {
    var yell, ours := tosysop && mtype != MES_XYELL, mtype in {MES_SYSOP, MES_FM};
    (if r == rm then 1 else 0) + (if r == MAIL_RM_NBR && yell then 1 else 0)
      + if r == SYSOP_RM_NBR && ours && !yell then 1 else 0
  }

  /** The windows after both postings; `posted` counts what each room has been sent. */
  function Entered(w: Windows, posted: seq<int>, rm: nat, pos: int, mmhi: int, tmpuser: int, again: Again): (p: Windows)
    requires Laid(w) && Addressed(w, rm, tmpuser) && |posted| == |w.rooms|
    ensures Laid(p)
  {
    var first := Posted(w, rm, posted[rm] + 1, pos, mmhi, tmpuser);
    var next := posted[rm := posted[rm] + 1];
    match again
    case Nowhere => first
    case ToMail => Posted(first, MAIL_RM_NBR, next[MAIL_RM_NBR] + 1, pos, mmhi, -1)
    case ToSysop => Posted(first, SYSOP_RM_NBR, next[SYSOP_RM_NBR] + 1, pos, mmhi, tmpuser)
  }

  lemma EnteredInStep(w: Windows, posted: seq<int>, rm: nat, pos: int, mmhi: int, tmpuser: int, again: Again)
    requires InStep(w) && Addressed(w, rm, tmpuser) && |posted| == |w.rooms| && pos >= 0
    ensures InStep(Entered(w, posted, rm, pos, mmhi, tmpuser, again))
  {
    hide Posted, Agrees;
    var first := Posted(w, rm, posted[rm] + 1, pos, mmhi, tmpuser);
    var next := posted[rm := posted[rm] + 1];
    PostedInStep(w, rm, posted[rm] + 1, pos, mmhi, tmpuser);
    match again
    case Nowhere =>
    case ToMail => PostedInStep(first, MAIL_RM_NBR, next[MAIL_RM_NBR] + 1, pos, mmhi, -1);
    case ToSysop => PostedInStep(first, SYSOP_RM_NBR, next[SYSOP_RM_NBR] + 1, pos, mmhi, tmpuser);
  }

  lemma EnteredFiled(home: seq<nat>, q: seq<Entry>, w: Windows, posted: seq<int>, rm: nat, pos: int, mmhi: int,
                     tmpuser: int, again: Again)
    requires Laid(w) && Addressed(w, rm, tmpuser) && |posted| == |w.rooms| && pos >= 0
    requires Filed(home, q, w) && Leads(home, q, Slot(mmhi, 0, pos))
    ensures Filed(home, q, Entered(w, posted, rm, pos, mmhi, tmpuser, again))
  {
    hide Filed, Posted, Leads;
    var first := Posted(w, rm, posted[rm] + 1, pos, mmhi, tmpuser);
    var next := posted[rm := posted[rm] + 1];
    PostedFiled(home, q, w, rm, posted[rm] + 1, pos, mmhi, tmpuser);
    match again
    case Nowhere =>
    case ToMail => PostedFiled(home, q, first, MAIL_RM_NBR, next[MAIL_RM_NBR] + 1, pos, mmhi, -1);
    case ToSysop => PostedFiled(home, q, first, SYSOP_RM_NBR, next[SYSOP_RM_NBR] + 1, pos, mmhi, tmpuser);
  }

  /** A window that gets the same number twice is no longer in order. */
  lemma TwiceUnordered(w: seq<Slot>, s: Slot, t: Slot)
    requires |w| >= 2 && s.num == t.num > 0
    ensures !Ordered(Nums(Pushed(Pushed(w, s), t)))
  {
    var q := Nums(Pushed(Pushed(w, s), t));
    assert q[|q| - 2] == s.num && q[|q| - 1] == t.num;
  }

  /** A new message keeps the windows in order, unless it is written as sysop or moderator in the very room
      that its second posting goes to. */
  lemma EnteredOrderly(w: Windows, posted: seq<int>, rm: nat, pos: int, mmhi: int, tmpuser: int, again: Again)
    requires Laid(w) && Addressed(w, rm, tmpuser) && |posted| == |w.rooms| && mmhi > 0 && Orderly(w, mmhi - 1)
    requires again == ToMail ==> rm != MAIL_RM_NBR
    ensures Orderly(Entered(w, posted, rm, pos, mmhi, tmpuser, again), mmhi)
      <==> !(rm == SYSOP_RM_NBR && again == ToSysop)
  {
    hide Pushed, MailNums, Nums, Fits;
    AllOlder(w, mmhi);
    var first := Posted(w, rm, posted[rm] + 1, pos, mmhi, tmpuser);
    var next := posted[rm := posted[rm] + 1];
    PostedOrderly(w, rm, posted[rm] + 1, pos, mmhi, tmpuser, mmhi);
    match again
    case Nowhere =>
    case ToMail =>
      assert Newest(w, MAIL_RM_NBR, -1, mmhi) && first.mail[w.ouruser] == w.mail[w.ouruser];
      PostedOrderly(first, MAIL_RM_NBR, next[MAIL_RM_NBR] + 1, pos, mmhi, -1, mmhi);
    case ToSysop =>
      if rm == SYSOP_RM_NBR {
        SentTwice(w, posted, pos, mmhi, tmpuser);
      } else {
        assert Newest(w, SYSOP_RM_NBR, -1, mmhi) && first.rooms[SYSOP_RM_NBR] == w.rooms[SYSOP_RM_NBR];
        PostedOrderly(first, SYSOP_RM_NBR, next[SYSOP_RM_NBR] + 1, pos, mmhi, tmpuser, mmhi);
      }
  }

  /** Even then no window falls. */
  lemma EnteredTidy(w: Windows, posted: seq<int>, rm: nat, pos: int, mmhi: int, tmpuser: int, again: Again)
    requires Laid(w) && Addressed(w, rm, tmpuser) && |posted| == |w.rooms| && mmhi > 0 && AllTidy(w, mmhi - 1)
    ensures AllTidy(Entered(w, posted, rm, pos, mmhi, tmpuser, again), mmhi)
  {
    hide Posted, AllTidy;
    TidyOn(w, mmhi - 1);
    var first := Posted(w, rm, posted[rm] + 1, pos, mmhi, tmpuser);
    var next := posted[rm := posted[rm] + 1];
    PostedTidy(w, rm, posted[rm] + 1, pos, mmhi, tmpuser);
    match again
    case Nowhere =>
    case ToMail => PostedTidy(first, MAIL_RM_NBR, next[MAIL_RM_NBR] + 1, pos, mmhi, -1);
    case ToSysop => PostedTidy(first, SYSOP_RM_NBR, next[SYSOP_RM_NBR] + 1, pos, mmhi, tmpuser);
  }

  lemma SentTwice(w: Windows, posted: seq<int>, pos: int, mmhi: int, tmpuser: int)
    requires Laid(w) && Addressed(w, SYSOP_RM_NBR, tmpuser) && |posted| == |w.rooms| && mmhi > 0
    ensures !Orderly(Entered(w, posted, SYSOP_RM_NBR, pos, mmhi, tmpuser, ToSysop), mmhi)
  {
    var p := Entered(w, posted, SYSOP_RM_NBR, pos, mmhi, tmpuser, ToSysop);
    var s, t := Slot(mmhi, posted[SYSOP_RM_NBR] + 1, pos), Slot(mmhi, posted[SYSOP_RM_NBR] + 2, pos);
    assert p.rooms[SYSOP_RM_NBR] == Pushed(Pushed(w.rooms[SYSOP_RM_NBR], s), t);
    TwiceUnordered(w.rooms[SYSOP_RM_NBR], s, t);
    assert !Fits(Nums(p.rooms[SYSOP_RM_NBR]), mmhi);
  }

  lemma AllOlder(w: Windows, mmhi: int)
    requires Laid(w) && Orderly(w, mmhi - 1)
    ensures Orderly(w, mmhi) && forall rm: nat, tmpuser :: Addressed(w, rm, tmpuser) ==> Newest(w, rm, tmpuser, mmhi)
  {
    forall r | 0 <= r < |w.rooms| ensures Fits(Nums(w.rooms[r]), mmhi) && OlderThan(Nums(w.rooms[r]), mmhi) {
      assert Fits(Nums(w.rooms[r]), mmhi - 1);
    }
    forall u | 0 <= u < |w.mail| ensures Fits(MailNums(w.mail[u]), mmhi) && OlderThan(MailNums(w.mail[u]), mmhi) {
      assert Fits(MailNums(w.mail[u]), mmhi - 1);
    }
  }

  /** The windows once a message about to be deleted has been kept, or not. */
  ghost function Copied(w: Windows, kept: bool, msgnum: int, pos: int, mmhi: int): (c: Windows)
    requires Laid(w)
    ensures Laid(c)
  {
    if kept then Posted(w, DELMSG_RM_NBR, msgnum, pos, mmhi, -1) else w
  }

  // ---------------------------------------------------------------- the board

  class Board {
    const file: MessageFile
    const windows: MessageBase
    var posted: seq<int>
    ghost var home: seq<nat>

    constructor (f: MessageFile, w: MessageBase)
      requires f.Valid() && f.entries == [] && f.highest == 0 && w.Shaped() && InStep(w.Now()) && Orderly(w.Now(), 0)
      ensures Sound() && InOrder() && file == f && windows == w && home == []
    {
      file, windows, posted, home := f, w, seq(|w.rooms|, _ => 0), [];
      new;
      NothingFiled(w.Now());
      OrderlyTidy(w.Now(), 0);
    }

    /** File, windows and the private copy fit together, and no window falls. */
    ghost predicate Sound()
      reads this, file, file.msgmain, windows, windows.rooms, windows.mail, windows.room
    {
      && file.Valid() && windows.Shaped() && InStep(windows.Now()) && |posted| == |windows.rooms|
      && |home| == file.highest && Numbered(home, file.entries) && Filed(home, file.entries, windows.Now())
      && AllTidy(windows.Now(), file.highest)
    }

    /** Nor does any window hold a number twice. */
    ghost predicate InOrder()
      reads this, file, windows, windows.rooms, windows.mail, windows.room
    {
      windows.Shaped() && Orderly(windows.Now(), file.highest)
    }

    /** The message is stored under the next number. */
    method StoreMessage(tmp: seq<R.byte>, hlen: nat, textlen: nat) returns (mmpos: nat, mmhi: nat)
      requires Sound()
      requires file.highest + 1 < R.WORD && |tmp| >= HEADER && tmp[0] == M_MAGIC && MES_NORMAL <= tmp[MTYPE] <= MES_FM
      requires hlen >= HEADER && WordLength(hlen, textlen) <= |tmp| && WordLength(hlen, textlen) < file.msgmain.Length
      modifies this`home, file, file.msgmain
      ensures Sound() && mmhi == file.highest == old(file.highest) + 1
      ensures home == old(home) + [|old(file.entries)|] && Leads(home, file.entries, Slot(mmhi, 0, mmpos))
      ensures file.Now()
        == Appended(old(file.Now()), WithId(tmp[..WordLength(hlen, textlen)], mmhi), file.msgmain.Length)
      ensures mmpos == Place(old(file.Now()), WordLength(hlen, textlen), file.msgmain.Length)
    {
      hide MessageFile.Valid, Numbered, Filed, InStep, AllTidy;
      ghost var q, g := file.entries, home;
      TidyOn(windows.Now(), file.highest);
      mmpos, mmhi := file.EnterMessage(tmp, hlen, textlen);
      home := g + [|q|];
      ghost var e := Entry(mmpos, WithId(tmp[..WordLength(hlen, textlen)], mmhi));
      assert file.entries == q + [e];
      IdOfWithId(tmp[..WordLength(hlen, textlen)], mmhi);
      EnteredNumbered(g, q, e);
      FiledOn(g, q, home, file.entries, windows.Now());
    }

    /** The message goes to its room, or to the mailboxes, and perhaps to a second one. */
    method PostMessage(mmpos: nat, mmhi: nat, rm: nat, tmpuser: int, tosysop: bool, mtype: R.byte)
      requires windows.Shaped() && |posted| == |windows.rooms| && rm < |windows.rooms| && -1 <= tmpuser < |windows.mail|
      modifies this`posted, windows.rooms, windows.mail, windows.room
      ensures windows.Shaped() && |posted| == |windows.rooms|
      ensures windows.Now()
        == Entered(old(windows.Now()), old(posted), rm, mmpos, mmhi, tmpuser, SecondPost(tosysop, mtype))
      ensures |posted| == |old(posted)|
      ensures forall r :: 0 <= r < |posted| ==> posted[r] == old(posted)[r] + Postings(r, rm, tosysop, mtype)
    {
      hide Posted, Laid, Received, RoomGets, BoxGets;
      posted := posted[rm := posted[rm] + 1];
      windows.FrPost(rm, posted[rm], mmpos, mmhi, tmpuser);
      if tosysop && mtype != MES_XYELL {
        posted := posted[MAIL_RM_NBR := posted[MAIL_RM_NBR] + 1];
        windows.FrPost(MAIL_RM_NBR, posted[MAIL_RM_NBR], mmpos, mmhi, -1);
      } else if mtype == MES_SYSOP || mtype == MES_FM {
        posted := posted[SYSOP_RM_NBR := posted[SYSOP_RM_NBR] + 1];
        windows.FrPost(SYSOP_RM_NBR, posted[SYSOP_RM_NBR], mmpos, mmhi, tmpuser);
      }
    }

    /** entermessage() from its lock on.  It keeps the windows in order unless its second posting goes to
        the same room as its first. */
    method EnterMessage(tmp: seq<R.byte>, hlen: nat, textlen: nat, rm: nat, tmpuser: int, tosysop: bool)
      returns (mmpos: nat, mmhi: nat)
      requires Sound() && rm < |windows.rooms| && -1 <= tmpuser < |windows.mail| && (tosysop ==> rm == YELLS_RM_NBR)
      requires file.highest + 1 < R.WORD && |tmp| >= HEADER && tmp[0] == M_MAGIC && MES_NORMAL <= tmp[MTYPE] <= MES_FM
      requires hlen >= HEADER && WordLength(hlen, textlen) <= |tmp| && WordLength(hlen, textlen) < file.msgmain.Length
      modifies this, file, file.msgmain, windows.rooms, windows.mail, windows.room
      ensures Sound() && mmhi == file.highest == old(file.highest) + 1
      ensures home == old(home) + [|old(file.entries)|]
      ensures file.Now()
        == Appended(old(file.Now()), WithId(tmp[..WordLength(hlen, textlen)], mmhi), file.msgmain.Length)
      ensures mmpos == Place(old(file.Now()), WordLength(hlen, textlen), file.msgmain.Length)
      ensures windows.Now()
        == Entered(old(windows.Now()), old(posted), rm, mmpos, mmhi, tmpuser, SecondPost(tosysop, tmp[MTYPE]))
      ensures |posted| == |old(posted)|
      ensures forall r :: 0 <= r < |posted| ==> posted[r] == old(posted)[r] + Postings(r, rm, tosysop, tmp[MTYPE])
      ensures old(InOrder()) ==> (InOrder() <==> !(rm == SYSOP_RM_NBR && SecondPost(tosysop, tmp[MTYPE]) == ToSysop))
    {
      hide MessageFile.Valid, Numbered, Filed, InStep, Orderly, AllTidy, Entered, Place, Appended, Leads, Postings;
      ghost var w, counts, again := windows.Now(), posted, SecondPost(tosysop, tmp[MTYPE]);
      ghost var tidy := file.highest;
      mmpos, mmhi := StoreMessage(tmp, hlen, textlen);
      EnteredInStep(w, posted, rm, mmpos, mmhi, tmpuser, again);
      EnteredFiled(home, file.entries, w, posted, rm, mmpos, mmhi, tmpuser, again);
      EnteredTidy(w, posted, rm, mmpos, mmhi, tmpuser, again);
      if Orderly(w, mmhi - 1) {
        EnteredOrderly(w, posted, rm, mmpos, mmhi, tmpuser, again);
      }
      PostMessage(mmpos, mmhi, rm, tmpuser, tosysop, tmp[MTYPE]);
    }

    /** loadroom() */
    method LoadRoom(rm: nat)
      requires Sound() && rm < |windows.rooms|
      modifies windows`curr, windows.room
      ensures Sound() && (old(InOrder()) ==> InOrder())
      ensures windows.Now() == old(windows.Now()).(curr := rm, room := Loaded(windows.Now()))
    {
      hide MessageFile.Valid, Numbered, AllLead, InStep, Fits, Tidy;
      windows.LoadRoom(rm);
    }

    /** The checks of readmessage() for a message of the current room. */
    method ReadSlot(i: nat) returns (v: Reading)
      requires Sound() && i < WINDOW && windows.room[i].num != 0
      ensures var n := windows.room[i].num;
        && 0 < n <= |home| && home[n - 1] < |file.entries| && windows.room[i].pos == file.entries[home[n - 1]].pos
        && (Whole(file.entries, home[n - 1]) ==> v == if Undeleted(home, n) then Passes else NotFound)
    {
      hide Numbered, Filed, InStep, AllTidy, Latest, AllIntact, L.Laid, MessageLog.Sound, Checked, Whole;
      CopyLeads(home, file.entries, windows.Now(), i);
      var s := windows.room[i];
      assert windows.Now().room[i] == s;
      ghost var k := home[s.num - 1];
      assert HadRoom(file.entries[k], file.msgmain.Length);
      LongEnough(file.entries[k].bytes);
      v := file.CheckMessage(s.pos, s.num);
      if Whole(file.entries, k) {
        NumberLeadsHome(file.msgmain[..], home, file.entries, s);
      }
    }

    /** A whole message begins at pos. */
    ghost predicate AtMessage(pos: int)
      reads file
    {
      exists k :: Whole(file.entries, k) && file.entries[k].pos == pos
    }

    /** The message at pos is marked as deleted, under a new number. */
    method MarkMessage(pos: nat, d: Deletion) returns (msgid: nat, ghost k: nat)
      requires Sound() && file.highest + 1 < R.WORD && AtMessage(pos) && Writable(d)
      modifies this`home, file`highest, file`entries, file.msgmain
      ensures Sound() && msgid == file.highest == old(file.highest) + 1
      ensures Whole(old(file.entries), k) && old(file.entries)[k].pos == pos && |old(file.entries)[k].bytes| >= HEADER
      ensures file.entries == old(file.entries)[k := Entry(pos, Marked(old(file.entries)[k].bytes, msgid, d))]
      ensures home == old(home) + [k] && Leads(home, file.entries, Slot(msgid, 0, pos))
    {
      hide Numbered, Filed, InStep, AllTidy, AllIntact, L.Laid, MessageLog.Sound, Marked;
      ghost var q, g := file.entries, home;
      TidyOn(windows.Now(), file.highest);
      k :| Whole(q, k) && q[k].pos == pos;
      assert HadRoom(q[k], file.msgmain.Length);
      msgid := file.MarkDeleted(k, pos, d);
      home := g + [k];
      MarkedSound(q[k].bytes, msgid, d);
      MarkedNumbered(g, q, k, Entry(pos, Marked(q[k].bytes, msgid, d)));
      FiledOn(g, q, home, file.entries, windows.Now());
    }

    /** The message is marked and goes to the room of deleted ones. */
    method KeepDeleted(pos: nat, d: Deletion) returns (ghost k: nat)
      requires Sound() && file.highest + 1 < R.WORD && AtMessage(pos) && Writable(d)
      modifies this, file`highest, file`entries, file.msgmain, windows.rooms, windows.mail, windows.room
      ensures Sound() && file.highest == old(file.highest) + 1 && (old(InOrder()) ==> InOrder())
      ensures Whole(old(file.entries), k) && old(file.entries)[k].pos == pos && |old(file.entries)[k].bytes| >= HEADER
      ensures file.entries == old(file.entries)[k := Entry(pos, Marked(old(file.entries)[k].bytes, file.highest, d))]
      ensures home == old(home) + [k] && |posted| == |windows.rooms|
      ensures windows.Now()
        == Posted(old(windows.Now()), DELMSG_RM_NBR, posted[DELMSG_RM_NBR], pos, file.highest, -1)
    {
      hide MessageFile.Valid, Numbered, Filed, InStep, Orderly, AllTidy, Posted, Marked, Leads, Whole;
      ghost var w := windows.Now();
      var msgid;
      msgid, k := MarkMessage(pos, d);
      posted := posted[DELMSG_RM_NBR := posted[DELMSG_RM_NBR] + 1];
      PostedInStep(w, DELMSG_RM_NBR, posted[DELMSG_RM_NBR], pos, msgid, -1);
      PostedFiled(home, file.entries, w, DELMSG_RM_NBR, posted[DELMSG_RM_NBR], pos, msgid, -1);
      PostedTidy(w, DELMSG_RM_NBR, posted[DELMSG_RM_NBR], pos, msgid, -1);
      PostedNext(w, DELMSG_RM_NBR, posted[DELMSG_RM_NBR], pos, msgid, -1);
      windows.FrPost(DELMSG_RM_NBR, posted[DELMSG_RM_NBR], pos, msgid, -1);
    }

    /** fr_delete().  Outside the mailbox a message that is in the file first goes to the room of deleted
        ones under a new number; without the magic byte at its place nothing is done.  pos < 0 asks for
        the windows alone. */
    method FrDelete(delnum: int, pos: int, d: Deletion) returns (ghost k: int)
      requires Sound() && delnum != 0 && file.highest + 1 < R.WORD && pos + HEADER <= file.msgmain.Length && Writable(d)
      requires windows.curr != MAIL_RM_NBR && pos >= 0 && file.msgmain[pos] == M_MAGIC ==> AtMessage(pos)
      modifies this, file, file.msgmain, windows.rooms, windows.mail, windows.room
      ensures Sound() && |posted| == |windows.rooms| && (old(InOrder()) ==> InOrder())
      ensures k >= 0 <==> old(windows.curr != MAIL_RM_NBR && pos >= 0 && file.msgmain[pos] == M_MAGIC)
      ensures k < 0 ==>
        file.entries == old(file.entries) && home == old(home) && file.msgmain[..] == old(file.msgmain[..])
      ensures k >= 0 ==>
        && Whole(old(file.entries), k)
        && old(file.entries)[k].pos == pos && |old(file.entries)[k].bytes| >= HEADER
        && file.entries == old(file.entries)[k := Entry(pos, Marked(old(file.entries)[k].bytes, file.highest, d))]
        && home == old(home) + [k]
      ensures old(windows.curr != MAIL_RM_NBR) && pos >= 0 && k < 0 ==> windows.Now() == old(windows.Now())
      ensures old(windows.curr == MAIL_RM_NBR) || pos < 0 || k >= 0 ==>
        var w := Copied(old(windows.Now()), k >= 0, posted[DELMSG_RM_NBR], pos, file.highest);
        && windows.Now() == Deleted(w, delnum) && (delnum in Nums(windows.room[..]) <==> Twice(Nums(w.room), delnum))
        && (old(InOrder()) ==> delnum !in Nums(windows.room[..]))
    {
      hide Sound, InOrder, InStep, Posted, Deleted, Marked, Whole, AtMessage, Twice;
      k := -1;
      Shapes();
      if windows.curr != MAIL_RM_NBR && pos >= 0 {
        if file.msgmain[pos] != M_MAGIC {
          return;
        }
        k := KeepDeleted(pos, d);
      }
      DropNumber(delnum);
    }

    lemma Shapes()
      requires Sound()
      ensures windows.Shaped() && file.Valid() && |posted| == |windows.rooms|
    {
    }

    method DropNumber(delnum: int)
      requires Sound() && delnum != 0
      modifies windows.rooms, windows.mail, windows.room
      ensures Sound() && |posted| == |windows.rooms| && windows.Now() == Deleted(old(windows.Now()), delnum)
      ensures delnum in Nums(windows.room[..]) <==> Twice(old(Nums(windows.room[..])), delnum)
      ensures old(InOrder()) ==> InOrder() && delnum !in Nums(windows.room[..])
    {
      hide MessageFile.Valid, Numbered, Filed, InStep, Orderly, AllTidy, Deleted, Twice;
      ghost var w := windows.Now();
      DeletedInStep(w, delnum);
      DeletedFiled(home, file.entries, w, delnum);
      DeletedOrderly(w, delnum, file.highest);
      DeletedGone(w, delnum);
      if Orderly(w, file.highest) {
        OrderlyOnce(w, delnum, file.highest);
      }
      windows.Delete(delnum);
    }
  }

  /** The next number may be posted anywhere once. */
  lemma PostedNext(w: Windows, rm: nat, msgnum: int, pos: int, mmhi: int, tmpuser: int)
    requires Laid(w) && Addressed(w, rm, tmpuser) && 0 < mmhi
    ensures Orderly(w, mmhi - 1) ==> Orderly(Posted(w, rm, msgnum, pos, mmhi, tmpuser), mmhi)
  {
    hide Orderly, Posted;
    if Orderly(w, mmhi - 1) {
      AllOlder(w, mmhi);
      PostedOrderly(w, rm, msgnum, pos, mmhi, tmpuser, mmhi);
    }
  }

  lemma NothingFiled(w: Windows)
    requires Laid(w) && Orderly(w, 0)
    ensures Filed([], [], w)
  {
    forall r | 0 <= r < |w.rooms| ensures AllLead([], [], w.rooms[r]) {
      assert RoomBase.Fits(Nums(w.rooms[r]), 0);
    }
    forall u | 0 <= u < |w.mail| ensures AllLead([], [], ShownAll(w.mail[u])) {
      assert RoomBase.Fits(MailNums(w.mail[u]), 0);
    }
  }
}
