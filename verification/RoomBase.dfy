/** fr_post(), the window side of fr_delete(), and loadroom(), on everybody's windows and the session's
    private copy. */
module RoomBase {
  import opened RoomWindows

  // ---------------------------------------------------------------- the windows as values

  /** The windows of all rooms and mailboxes, and the copy of the one this user is reading. */
  datatype Windows = Windows(rooms: seq<seq<Slot>>, mail: seq<seq<Mail>>, room: seq<Slot>, curr: nat, ouruser: nat)

  predicate Laid(w: Windows)
  {
    && |w.rooms| > SYSOP_RM_NBR && w.curr < |w.rooms| && w.ouruser < |w.mail| && |w.room| == WINDOW
    && (forall r :: 0 <= r < |w.rooms| ==> |w.rooms[r]| == WINDOW)
    && forall u :: 0 <= u < |w.mail| ==> |w.mail[u]| == WINDOW
  }

  /** What loadroom() would make of the current room. */
  function Loaded(w: Windows): seq<Slot>
    requires Laid(w)
  {
    if w.curr == MAIL_RM_NBR then ShownAll(w.mail[w.ouruser]) else w.rooms[w.curr]
  }

  /** The private copy is what loadroom() would load. */
  ghost predicate InStep(w: Windows)
  {
    Laid(w) && Agrees(w.room, Loaded(w))
  }

  /** Nothing in the window is as new as n. */
  ghost predicate OlderThan(q: seq<int>, n: int)
  {
    forall i :: 0 <= i < |q| ==> q[i] < n
  }

  ghost predicate Fits(q: seq<int>, highest: int)
  {
    Ordered(q) && OlderThan(q, highest + 1)
  }

  /** Every window is ordered and holds nothing newer than the newest message. */
  ghost predicate Orderly(w: Windows, highest: int)
  {
    && (forall r :: 0 <= r < |w.rooms| ==> Fits(Nums(w.rooms[r]), highest))
    && forall u :: 0 <= u < |w.mail| ==> Fits(MailNums(w.mail[u]), highest)
  }

  ghost predicate Tidy(q: seq<int>, highest: int)
  {
    Rising(q) && OlderThan(q, highest + 1)
  }

  /** The same, but for messages that stand in a window twice. */
  ghost predicate AllTidy(w: Windows, highest: int)
  {
    && (forall r :: 0 <= r < |w.rooms| ==> Tidy(Nums(w.rooms[r]), highest))
    && forall u :: 0 <= u < |w.mail| ==> Tidy(MailNums(w.mail[u]), highest)
  }

  lemma OrderlyTidy(w: Windows, highest: int)
    requires Orderly(w, highest)
    ensures AllTidy(w, highest)
  {
    forall r | 0 <= r < |w.rooms| ensures Tidy(Nums(w.rooms[r]), highest) {
      assert Fits(Nums(w.rooms[r]), highest);
    }
    forall u | 0 <= u < |w.mail| ensures Tidy(MailNums(w.mail[u]), highest) {
      assert Fits(MailNums(w.mail[u]), highest);
    }
  }

  lemma TidyOn(w: Windows, highest: int)
    requires AllTidy(w, highest)
    ensures AllTidy(w, highest + 1)
  {
    forall r | 0 <= r < |w.rooms| ensures Tidy(Nums(w.rooms[r]), highest + 1) {
      assert Tidy(Nums(w.rooms[r]), highest);
    }
    forall u | 0 <= u < |w.mail| ensures Tidy(MailNums(w.mail[u]), highest + 1) {
      assert Tidy(MailNums(w.mail[u]), highest);
    }
  }

  predicate Addressed(w: Windows, rm: nat, tmpuser: int)
  {
    rm < |w.rooms| && -1 <= tmpuser < |w.mail|
  }

  /** The windows a message goes to hold nothing as new as it. */
  ghost predicate Newest(w: Windows, rm: nat, tmpuser: int, mmhi: int)
    requires Laid(w) && Addressed(w, rm, tmpuser)
  {
    if rm == MAIL_RM_NBR then
      && OlderThan(MailNums(w.mail[w.ouruser]), mmhi)
      && (tmpuser >= 0 ==> OlderThan(MailNums(w.mail[tmpuser]), mmhi))
    else OlderThan(Nums(w.rooms[rm]), mmhi)
  }

  /** A window that gets the message, or does not. */
  function Received<T>(w: seq<T>, gets: bool, s: T): (r: seq<T>)
    requires w != []
    ensures |r| == |w|
  {
    if gets then Pushed(w, s) else w
  }

  function RoomGets(w: Windows, r: nat, rm: nat, s: Slot): (q: seq<Slot>)
    requires Laid(w) && r < |w.rooms|
    ensures |q| == WINDOW
  {
    Received(w.rooms[r], r == rm && rm != MAIL_RM_NBR, s)
  }

  function BoxGets(w: Windows, u: nat, rm: nat, mmhi: int, pos: int, tmpuser: int): (q: seq<Mail>)
    requires Laid(w) && u < |w.mail|
    ensures |q| == WINDOW
  {
    Received(w.mail[u], rm == MAIL_RM_NBR && (u == w.ouruser || u == tmpuser),
             Mail(mmhi, if u == tmpuser then pos else -pos))
  }

  /** Message mmhi, at pos of the message file, posted to a room, where it is the msgnum-th, or to the
      mailboxes of this user and of tmpuser. */
  function Posted(w: Windows, rm: nat, msgnum: int, pos: int, mmhi: int, tmpuser: int): (p: Windows)
    requires Laid(w) && Addressed(w, rm, tmpuser)
    ensures Laid(p) && |p.rooms| == |w.rooms| && |p.mail| == |w.mail| && p.curr == w.curr && p.ouruser == w.ouruser
    ensures forall r :: 0 <= r < |p.rooms| ==> p.rooms[r] == RoomGets(w, r, rm, Slot(mmhi, msgnum, pos))
    ensures forall u :: 0 <= u < |p.mail| ==> p.mail[u] == BoxGets(w, u, rm, mmhi, pos, tmpuser)
  {
    Windows(seq(|w.rooms|, r requires 0 <= r < |w.rooms| => RoomGets(w, r, rm, Slot(mmhi, msgnum, pos))),
            seq(|w.mail|, u requires 0 <= u < |w.mail| => BoxGets(w, u, rm, mmhi, pos, tmpuser)),
            Received(w.room, rm == w.curr, Slot(mmhi, if rm == MAIL_RM_NBR then mmhi else msgnum, pos)),
            w.curr, w.ouruser)
  }

  /** The message of that number taken out of the current room, or of this user's mailbox, and of the copy. */
  ghost function Deleted(w: Windows, delnum: int): (d: Windows)
    requires Laid(w)
    ensures Laid(d) && |d.rooms| == |w.rooms| && |d.mail| == |w.mail| && d.curr == w.curr && d.ouruser == w.ouruser
  {
    var c, u := w.curr, w.ouruser;
    w.(rooms := if c == MAIL_RM_NBR then w.rooms else w.rooms[c := Lost(w.rooms[c], PlaceOf(Nums(w.rooms[c]), delnum))],
       mail := if c != MAIL_RM_NBR then w.mail
               else w.mail[u := MailLost(w.mail[u], PlaceOf(MailNums(w.mail[u]), delnum))],
       room := Lost(w.room, PlaceOf(Nums(w.room), delnum)))
  }

  // ---------------------------------------------------------------- what posting and deleting keep

  /** The private copy stays what loadroom() would load. */
  lemma PostedInStep(w: Windows, rm: nat, msgnum: int, pos: int, mmhi: int, tmpuser: int)
    requires pos >= 0 && InStep(w) && Addressed(w, rm, tmpuser)
    ensures InStep(Posted(w, rm, msgnum, pos, mmhi, tmpuser))
  {
    hide Agrees, Pushed;
    if rm == w.curr {
      var s := Slot(mmhi, if rm == MAIL_RM_NBR then mmhi else msgnum, pos);
      ShownPushed(w.mail[w.ouruser], Mail(mmhi, pos));
      ShownPushed(w.mail[w.ouruser], Mail(mmhi, -pos));
      AgreesPushed(w.room, Loaded(w), s, s);
    }
  }

  /** Windows stay ordered when they get a message newer than what they hold. */
  lemma PostedOrderly(w: Windows, rm: nat, msgnum: int, pos: int, mmhi: int, tmpuser: int, highest: int)
    requires Laid(w) && Addressed(w, rm, tmpuser) && Orderly(w, highest) && Newest(w, rm, tmpuser, mmhi)
    requires 0 < mmhi <= highest
    ensures Orderly(Posted(w, rm, msgnum, pos, mmhi, tmpuser), highest)
  {
    hide Fits, OlderThan, Pushed;
    var p := Posted(w, rm, msgnum, pos, mmhi, tmpuser);
    forall r | 0 <= r < |p.rooms| ensures Fits(Nums(p.rooms[r]), highest) {
      if r == rm != MAIL_RM_NBR {
        PushedSlotFits(w.rooms[r], Slot(mmhi, msgnum, pos), highest);
      }
    }
    forall u | 0 <= u < |p.mail| ensures Fits(MailNums(p.mail[u]), highest) {
      if rm == MAIL_RM_NBR && (u == w.ouruser || u == tmpuser) {
        PushedMailFits(w.mail[u], Mail(mmhi, if u == tmpuser then pos else -pos), highest);
      }
    }
  }

  /** Whatever goes where, and however often, no window ever falls. */
  lemma PostedTidy(w: Windows, rm: nat, msgnum: int, pos: int, mmhi: int, tmpuser: int)
    requires Laid(w) && Addressed(w, rm, tmpuser) && AllTidy(w, mmhi) && 0 < mmhi
    ensures AllTidy(Posted(w, rm, msgnum, pos, mmhi, tmpuser), mmhi)
  {
    hide Tidy, Pushed;
    var p := Posted(w, rm, msgnum, pos, mmhi, tmpuser);
    forall r | 0 <= r < |p.rooms| ensures Tidy(Nums(p.rooms[r]), mmhi) {
      PushedTidy(Nums(w.rooms[r]), mmhi);
      NumsPushed(w.rooms[r], Slot(mmhi, msgnum, pos));
    }
    forall u | 0 <= u < |p.mail| ensures Tidy(MailNums(p.mail[u]), mmhi) {
      PushedTidy(MailNums(w.mail[u]), mmhi);
      MailNumsPushed(w.mail[u], Mail(mmhi, if u == tmpuser then pos else -pos));
    }
  }

  lemma PushedTidy(q: seq<int>, n: int)
    requires q != [] && Tidy(q, n) && 0 < n
    ensures Tidy(Pushed(q, n), n)
  {
    PushedRising(q, n);
  }

  lemma NumsPushed(w: seq<Slot>, s: Slot)
    requires w != []
    ensures Nums(Pushed(w, s)) == Pushed(Nums(w), s.num)
  {
  }

  lemma MailNumsPushed(w: seq<Mail>, m: Mail)
    requires w != []
    ensures MailNums(Pushed(w, m)) == Pushed(MailNums(w), m.num)
  {
  }

  lemma NumsLost(w: seq<Slot>, i: int)
    requires 0 <= i < |w|
    ensures Nums(Lost(w, i)) == [0] + Nums(w)[..i] + Nums(w)[i + 1..]
  {
  }

  lemma MailNumsLost(w: seq<Mail>, i: int)
    requires 0 <= i < |w|
    ensures MailNums(MailLost(w, i)) == [0] + MailNums(w)[..i] + MailNums(w)[i + 1..]
  {
  }

  /** The private copy loses the same place as the window it is a copy of. */
  lemma DeletedInStep(w: Windows, delnum: int)
    requires InStep(w)
    ensures InStep(Deleted(w, delnum))
  {
    hide Agrees, LastAt, PlaceOf, Lost, MailLost;
    var a, b := w.room, Loaded(w);
    ShownNums(w.mail[w.ouruser]);
    SamePlace(a, b, delnum);
    var k := PlaceOf(Nums(b), delnum);
    AgreesLost(a, b, k);
    if w.curr == MAIL_RM_NBR {
      ShownLost(w.mail[w.ouruser], k);
      AgreesBack(Lost(a, k), Lost(b, k), ShownAll(MailLost(w.mail[w.ouruser], k)));
    }
  }

  lemma DeletedOrderly(w: Windows, delnum: int, highest: int)
    requires Laid(w) && highest >= 0
    ensures Orderly(w, highest) ==> Orderly(Deleted(w, delnum), highest)
    ensures AllTidy(w, highest) ==> AllTidy(Deleted(w, delnum), highest)
  {
    hide Fits, Tidy, LastAt, Lost, MailLost;
    if w.curr == MAIL_RM_NBR {
      MailLostFits(w.mail[w.ouruser], PlaceOf(MailNums(w.mail[w.ouruser]), delnum), highest);
    } else {
      LostFits(w.rooms[w.curr], PlaceOf(Nums(w.rooms[w.curr]), delnum), highest);
    }
  }

  /** The window holds the number at more than one place. */
  ghost predicate Twice(q: seq<int>, n: int)
  {
    exists i, j :: 0 <= i < j < |q| && q[i] == q[j] == n
  }

  /** One message of that number is gone: the number itself is, unless it was there twice. */
  lemma DeletedGone(w: Windows, delnum: int)
    requires Laid(w) && delnum != 0
    ensures delnum in Nums(Deleted(w, delnum).room) <==> Twice(Nums(w.room), delnum)
  {
    hide Laid;
    var q, k := Nums(w.room), PlaceOf(Nums(w.room), delnum);
    assert LastAt(q, delnum, k);
    if k >= 0 {
      NumsLost(w.room, k);
      var r := [0] + q[..k] + q[k + 1..];
      if delnum in r {
        var i :| 0 <= i < |r| && r[i] == delnum;
        assert 0 < i <= k && q[i - 1] == q[k] == delnum;
      }
      if Twice(q, delnum) {
        var i, j :| 0 <= i < j < |q| && q[i] == q[j] == delnum;
        assert j <= k && r[i + 1] == delnum;
      }
    }
  }

  lemma OrderlyOnce(w: Windows, n: int, highest: int)
    requires InStep(w) && Orderly(w, highest) && n != 0
    ensures !Twice(Nums(w.room), n)
  {
    hide Lost;
    ShownNums(w.mail[w.ouruser]);
    var q, p := Nums(w.room), Nums(Loaded(w));
    assert Fits(p, highest);
    forall i | 0 <= i < |q| ensures q[i] == p[i] {
      assert SameSlot(w.room[i], Loaded(w)[i]);
    }
  }

  lemma PushedSlotFits(w: seq<Slot>, s: Slot, highest: int)
    requires w != [] && Fits(Nums(w), highest) && OlderThan(Nums(w), s.num) && 0 < s.num <= highest
    ensures Fits(Nums(Pushed(w, s)), highest)
  {
    NumsPushed(w, s);
    PushedOrdered(Nums(w), s.num);
  }

  lemma PushedMailFits(w: seq<Mail>, m: Mail, highest: int)
    requires w != [] && Fits(MailNums(w), highest) && OlderThan(MailNums(w), m.num) && 0 < m.num <= highest
    ensures Fits(MailNums(Pushed(w, m)), highest)
  {
    MailNumsPushed(w, m);
    PushedOrdered(MailNums(w), m.num);
  }

  lemma ShownNums(w: seq<Mail>)
    ensures Nums(ShownAll(w)) == MailNums(w)
  {
  }

  lemma SamePlace(a: seq<Slot>, b: seq<Slot>, n: int)
    requires Agrees(a, b)
    ensures |a| == |b| && PlaceOf(Nums(a), n) == PlaceOf(Nums(b), n)
  {
    var k, i := PlaceOf(Nums(a), n), PlaceOf(Nums(b), n);
    assert LastAt(Nums(a), n, k) && LastAt(Nums(b), n, i);
  }

  lemma AgreesBack(a: seq<Slot>, b: seq<Slot>, c: seq<Slot>)
    requires Agrees(a, b) && Agrees(c, b)
    ensures Agrees(a, c)
  {
  }

  lemma AgreesLost(a: seq<Slot>, b: seq<Slot>, i: int)
    requires Agrees(a, b) && i < |a|
    ensures |a| == |b| && Agrees(Lost(a, i), Lost(b, i))
  {
    if i >= 0 {
      AgreesDropped(a, b, i);
    }
  }

  lemma ShownLost(w: seq<Mail>, i: int)
    requires i < |w|
    ensures Agrees(ShownAll(MailLost(w, i)), Lost(ShownAll(w), i))
  {
    if i >= 0 {
      ShownDropped(w, i);
    }
  }

  lemma LostFits(w: seq<Slot>, i: int, highest: int)
    requires i < |w| && highest >= 0
    ensures Fits(Nums(w), highest) ==> Fits(Nums(Lost(w, i)), highest)
    ensures Tidy(Nums(w), highest) ==> Tidy(Nums(Lost(w, i)), highest)
  {
    if i >= 0 {
      NumsLost(w, i);
      DroppedOrdered(Nums(w), i);
    }
  }

  lemma MailLostFits(w: seq<Mail>, i: int, highest: int)
    requires i < |w| && highest >= 0
    ensures Fits(MailNums(w), highest) ==> Fits(MailNums(MailLost(w, i)), highest)
    ensures Tidy(MailNums(w), highest) ==> Tidy(MailNums(MailLost(w, i)), highest)
  {
    if i >= 0 {
      MailNumsLost(w, i);
      DroppedOrdered(MailNums(w), i);
    }
  }

  lemma Reflexive(w: seq<Slot>)
    ensures Agrees(w, w)
  {
  }

  // ---------------------------------------------------------------- the windows in memory

  class MessageBase {
    const rooms: seq<array<Slot>>
    const mail: seq<array<Mail>>
    const room: array<Slot>
    const ouruser: nat
    var curr: nat

    ghost predicate Shaped()
      reads this
    {
      && |rooms| > SYSOP_RM_NBR && curr < |rooms| && ouruser < |mail| && room.Length == WINDOW
      && (forall r :: 0 <= r < |rooms| ==> rooms[r].Length == WINDOW && rooms[r] != room)
      && (forall r, s :: 0 <= r < s < |rooms| ==> rooms[r] != rooms[s])
      && (forall u :: 0 <= u < |mail| ==> mail[u].Length == WINDOW)
      && (forall u, v :: 0 <= u < v < |mail| ==> mail[u] != mail[v])
    }

    ghost function Now(): (w: Windows)
      requires Shaped()
      reads this, rooms, mail, room
      ensures Laid(w) && |w.rooms| == |rooms| && |w.mail| == |mail|
      ensures w.room == room[..] && w.curr == curr && w.ouruser == ouruser
      ensures forall r :: 0 <= r < |rooms| ==> w.rooms[r] == rooms[r][..]
      ensures forall u :: 0 <= u < |mail| ==> w.mail[u] == mail[u][..]
    {
      Windows(seq(|rooms|, r requires 0 <= r < |rooms| reads rooms => rooms[r][..]),
              seq(|mail|, u requires 0 <= u < |mail| reads mail => mail[u][..]), room[..], curr, ouruser)
    }

    /** Nothing has been posted yet. */
    constructor (windows: seq<array<Slot>>, boxes: seq<array<Mail>>, user: nat)
      requires |windows| > SYSOP_RM_NBR && user < |boxes|
      requires forall r :: 0 <= r < |windows| ==>
        windows[r].Length == WINDOW && windows[r][..] == seq(WINDOW, _ => Slot(0, 0, 0))
      requires forall u :: 0 <= u < |boxes| ==>
        boxes[u].Length == WINDOW && boxes[u][..] == seq(WINDOW, _ => Mail(0, 0))
      requires forall r, s :: 0 <= r < s < |windows| ==> windows[r] != windows[s]
      requires forall u, v :: 0 <= u < v < |boxes| ==> boxes[u] != boxes[v]
      ensures rooms == windows && mail == boxes && ouruser == user && curr == 0 && fresh(room)
      ensures Shaped() && InStep(Now()) && Orderly(Now(), 0)
    {
      rooms, mail, ouruser, curr := windows, boxes, user, 0;
      room := new Slot[WINDOW](_ => Slot(0, 0, 0));
    }

    /** loadroom(), on entering a room. */
    method LoadRoom(rm: nat)
      requires Shaped() && rm < |rooms|
      modifies this`curr, room
      ensures Shaped() && InStep(Now()) && Now() == old(Now()).(curr := rm, room := Loaded(Now()))
    {
      hide Agrees;
      curr := rm;
      for i := 0 to WINDOW
        invariant Shaped() && curr == rm && Now() == old(Now()).(curr := rm, room := room[..])
        invariant forall k :: 0 <= k < i ==> room[k] == Loaded(Now())[k]
      {
        if curr == MAIL_RM_NBR {
          var m := mail[ouruser][i];
          room[i] := Slot(m.num, m.num, if m.pos < 0 then -m.pos else m.pos);
        } else {
          room[i] := rooms[curr][i];
        }
        assert Now().rooms == old(Now()).rooms && Now().mail == old(Now()).mail;
      }
      assert room[..] == Loaded(Now());
      Reflexive(room[..]);
    }

    /** fr_post() */
    method FrPost(rm: nat, msgnum: int, pos: int, mmhi: int, tmpuser: int)
      requires Shaped() && rm < |rooms| && -1 <= tmpuser < |mail|
      modifies rooms, mail, room
      ensures Shaped() && Now() == Posted(old(Now()), rm, msgnum, pos, mmhi, tmpuser)
    {
      hide Pushed;
      ghost var w := Now();
      if rm == MAIL_RM_NBR {
        if tmpuser >= 0 {
          PushMail(mail[ouruser], mail[tmpuser], mmhi, pos);
        } else {
          PushOwn(mail[ouruser], mmhi, pos);
        }
      } else {
        Push(rooms[rm], Slot(mmhi, msgnum, pos));
      }
      if rm == curr {
        Push(room, Slot(mmhi, if rm == MAIL_RM_NBR then mmhi else msgnum, pos));
      }
      ghost var p := Posted(w, rm, msgnum, pos, mmhi, tmpuser);
      assert forall r :: 0 <= r < |rooms| ==> Now().rooms[r] == p.rooms[r];
      assert forall u :: 0 <= u < |mail| ==> Now().mail[u] == p.mail[u];
      assert Now().rooms == p.rooms && Now().mail == p.mail;
    }

    /** The searches and shifts of fr_delete(). */
    method Delete(delnum: int)
      requires Shaped()
      modifies rooms, mail, room
      ensures Shaped() && Now() == Deleted(old(Now()), delnum)
    {
      hide PlaceOf, LastAt, Lost, MailLost;
      ghost var w := Now();
      if curr == MAIL_RM_NBR {
        var i := DropMail(mail[ouruser], delnum);
      } else {
        var i := Drop(rooms[curr], delnum);
      }
      var k := Drop(room, delnum);
      ghost var d := Deleted(w, delnum);
      assert forall r :: 0 <= r < |rooms| ==> Now().rooms[r] == d.rooms[r];
      assert forall u :: 0 <= u < |mail| ==> Now().mail[u] == d.mail[u];
      assert Now().rooms == d.rooms && Now().mail == d.mail;
    }
  }
}
