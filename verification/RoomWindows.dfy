/** The windows of messages that doc_routines.c and doc_rooms.c keep for every room and mailbox, and the
    private copy of the window one session is reading. */
module RoomWindows {

  const WINDOW: nat := 200
  const MAIL_RM_NBR: nat := 1
  const YELLS_RM_NBR: nat := 2
  const DELMSG_RM_NBR: nat := 3
  const SYSOP_RM_NBR: nat := 6

  /** num, chron and pos of one place of a room; num is 0 where the room holds nothing yet. */
  datatype Slot = Slot(num: int, chron: int, pos: int)

  /** One place of a user's mailbox; pos is negative for what the user has sent. */
  datatype Mail = Mail(num: int, pos: int)

  function Abs(n: int): int { if n < 0 then -n else n }

  function Shown(m: Mail): Slot { Slot(m.num, m.num, Abs(m.pos)) }

  /** Empty places first, then ever newer messages. */
  ghost predicate Ordered(q: seq<int>)
  {
    && (forall i :: 0 <= i < |q| ==> q[i] >= 0)
    && (forall i, j :: 0 <= i < j < |q| && q[i] != 0 ==> q[i] < q[j])
  }

  /** Empty places first, then never older messages. */
  ghost predicate Rising(q: seq<int>)
  {
    && (forall i :: 0 <= i < |q| ==> q[i] >= 0)
    && (forall i, j :: 0 <= i < j < |q| && q[i] != 0 ==> q[i] <= q[j])
  }

  function Nums(w: seq<Slot>): (r: seq<int>)
    ensures |r| == |w| && forall i :: 0 <= i < |w| ==> r[i] == w[i].num
  {
    seq(|w|, i requires 0 <= i < |w| => w[i].num)
  }

  function MailNums(w: seq<Mail>): (r: seq<int>)
    ensures |r| == |w| && forall i :: 0 <= i < |w| ==> r[i] == w[i].num
  {
    seq(|w|, i requires 0 <= i < |w| => w[i].num)
  }

  /** The two show the same messages; the order of posting matters only where there is a message. */
  predicate Agrees(a: seq<Slot>, b: seq<Slot>)
  {
    |a| == |b| && forall i :: 0 <= i < |a| ==> SameSlot(a[i], b[i])
  }

  predicate SameSlot(s: Slot, t: Slot)
  {
    s.num == t.num && s.pos == t.pos && (s.num != 0 ==> s.chron == t.chron)
  }

  /** The oldest message makes way for a new one. */
  function Pushed<T>(w: seq<T>, s: T): seq<T>
    requires w != []
  {
    w[1..] + [s]
  }

  /** The messages older than the one at place i move up into its place; the first place is emptied. */
  function Dropped(w: seq<Slot>, i: nat): (r: seq<Slot>)
    requires i < |w|
    ensures |r| == |w| && forall k :: 0 < k < |r| ==> r[k] == w[if k <= i then k - 1 else k]
  {
    [Slot(0, w[0].chron, 0)] + w[..i] + w[i + 1..]
  }

  function MailDropped(w: seq<Mail>, i: nat): (r: seq<Mail>)
    requires i < |w|
    ensures |r| == |w| && forall k :: 0 < k < |r| ==> r[k] == w[if k <= i then k - 1 else k]
  {
    [Mail(0, 0)] + w[..i] + w[i + 1..]
  }

  // ---------------------------------------------------------------- windows stay ordered

  lemma PushedOrdered(q: seq<int>, n: int)
    requires Ordered(q) && q != [] && n > 0 && forall i :: 0 <= i < |q| ==> q[i] < n
    ensures Ordered(Pushed(q, n))
  {
  }

  lemma PushedRising(q: seq<int>, n: int)
    requires Rising(q) && q != [] && n > 0 && forall i :: 0 <= i < |q| ==> q[i] <= n
    ensures Rising(Pushed(q, n))
  {
  }

  lemma DroppedOrdered(q: seq<int>, i: nat)
    requires i < |q|
    ensures Ordered(q) ==> Ordered([0] + q[..i] + q[i + 1..])
    ensures Rising(q) ==> Rising([0] + q[..i] + q[i + 1..])
  {
  }

  lemma AgreesPushed(a: seq<Slot>, b: seq<Slot>, s: Slot, t: Slot)
    requires Agrees(a, b) && a != [] && SameSlot(s, t)
    ensures Agrees(Pushed(a, s), Pushed(b, t))
  {
  }

  lemma AgreesDropped(a: seq<Slot>, b: seq<Slot>, i: nat)
    requires Agrees(a, b) && i < |a|
    ensures Agrees(Dropped(a, i), Dropped(b, i))
  {
  }

  function ShownAll(w: seq<Mail>): (r: seq<Slot>)
    ensures |r| == |w| && forall i :: 0 <= i < |w| ==> r[i] == Shown(w[i])
  {
    seq(|w|, i requires 0 <= i < |w| => Shown(w[i]))
  }

  lemma ShownPushed(w: seq<Mail>, m: Mail)
    requires w != []
    ensures ShownAll(Pushed(w, m)) == Pushed(ShownAll(w), Shown(m))
  {
  }

  lemma ShownDropped(w: seq<Mail>, i: nat)
    requires i < |w|
    ensures Agrees(ShownAll(MailDropped(w, i)), Dropped(ShownAll(w), i))
  {
  }

  // ---------------------------------------------------------------- the loops

  method Push(a: array<Slot>, s: Slot)
    requires a.Length == WINDOW
    modifies a
    ensures a[..] == Pushed(old(a[..]), s)
  {
    ghost var w := a[..];
    for i := 0 to WINDOW - 1
      invariant forall k :: 0 <= k < i ==> a[k] == w[k + 1]
      invariant forall k :: i <= k < WINDOW ==> a[k] == w[k]
    {
      a[i] := Slot(a[i + 1].num, a[i + 1].chron, a[i + 1].pos);
    }
    a[WINDOW - 1] := s;
    ghost var p := Pushed(w, s);
    assert forall k :: 0 <= k < WINDOW ==> a[k] == p[k];
  }

  /** The loop of fr_post() over the mailboxes of sender and receiver, which may be one. */
  method PushMail(a: array<Mail>, b: array<Mail>, mmhi: int, pos: int)
    requires a.Length == b.Length == WINDOW
    modifies a, b
    ensures b[..] == Pushed(old(b[..]), Mail(mmhi, pos))
    ensures a != b ==> a[..] == Pushed(old(a[..]), Mail(mmhi, -pos))
  {
    ghost var v, w := a[..], b[..];
    for i := 0 to WINDOW - 1
      invariant forall k :: 0 <= k < i ==> a[k] == v[k + 1] && b[k] == w[k + 1]
      invariant forall k :: i <= k < WINDOW ==> a[k] == v[k] && b[k] == w[k]
    {
      a[i] := Mail(a[i + 1].num, a[i + 1].pos);
      b[i] := Mail(b[i + 1].num, b[i + 1].pos);
    }
    a[WINDOW - 1], b[WINDOW - 1] :=
      a[WINDOW - 1].(num := mmhi), if a == b then a[WINDOW - 1].(num := mmhi) else b[WINDOW - 1].(num := mmhi);
    a[WINDOW - 1] := a[WINDOW - 1].(pos := -pos);
    b[WINDOW - 1] := b[WINDOW - 1].(pos := pos);
    ghost var p, q := Pushed(v, Mail(mmhi, -pos)), Pushed(w, Mail(mmhi, pos));
    assert forall k :: 0 <= k < WINDOW ==> b[k] == q[k];
    assert a != b ==> forall k :: 0 <= k < WINDOW ==> a[k] == p[k];
  }

  /** The loop of fr_post() over one mailbox. */
  method PushOwn(a: array<Mail>, mmhi: int, pos: int)
    requires a.Length == WINDOW
    modifies a
    ensures a[..] == Pushed(old(a[..]), Mail(mmhi, -pos))
  {
    ghost var w := a[..];
    for i := 0 to WINDOW - 1
      invariant forall k :: 0 <= k < i ==> a[k] == w[k + 1]
      invariant forall k :: i <= k < WINDOW ==> a[k] == w[k]
    {
      a[i] := Mail(a[i + 1].num, a[i + 1].pos);
    }
    a[WINDOW - 1] := Mail(mmhi, -pos);
    ghost var p := Pushed(w, Mail(mmhi, -pos));
    assert forall k :: 0 <= k < WINDOW ==> a[k] == p[k];
  }

  /** The place of the newest message of that number, or -1. */
  ghost predicate LastAt(q: seq<int>, n: int, i: int)
  {
    -1 <= i < |q| && (i >= 0 ==> q[i] == n) && forall k :: i < k < |q| ==> q[k] != n
  }

  ghost function PlaceOf(q: seq<int>, n: int): (i: int)
    ensures -1 <= i < |q| && LastAt(q, n, i)
  {
    if q == [] then -1 else if q[|q| - 1] == n then |q| - 1 else PlaceOf(q[..|q| - 1], n)
  }

  /** The search of fr_delete() in one window. */
  method Find(a: array<Slot>, delnum: int) returns (i: int)
    requires a.Length == WINDOW
    ensures i == PlaceOf(Nums(a[..]), delnum)
  {
    i := WINDOW - 1;
    while i >= 0 && a[i].num != delnum
      invariant -1 <= i < WINDOW && forall k :: i < k < WINDOW ==> a[k].num != delnum
      decreases i
    {
      i := i - 1;
    }
    ghost var at := PlaceOf(Nums(a[..]), delnum);
    assert LastAt(Nums(a[..]), delnum, at);
  }

  /** The shift of fr_delete(): older messages move up. */
  method CloseUp(a: array<Slot>, i: nat)
    requires a.Length == WINDOW && i < WINDOW
    modifies a
    ensures a[..] == Dropped(old(a[..]), i)
  {
    ghost var w := a[..];
    var j := i;
    while j > 0
      invariant 0 <= j <= i
      invariant forall k :: j < k <= i ==> a[k] == w[k - 1]
      invariant forall k :: (0 <= k <= j || i < k < WINDOW) ==> a[k] == w[k]
    {
      a[j] := Slot(a[j - 1].num, a[j - 1].chron, a[j - 1].pos);
      j := j - 1;
    }
    a[0] := a[0].(num := 0, pos := 0);
    ghost var d := Dropped(w, i);
    assert forall k :: 0 <= k < WINDOW ==> a[k] == d[k];
  }

  /** The window without the message at place i, if that is a place. */
  function Lost(w: seq<Slot>, i: int): (r: seq<Slot>)
    requires i < |w|
    ensures |r| == |w|
  {
    if i >= 0 then Dropped(w, i) else w
  }

  function MailLost(w: seq<Mail>, i: int): (r: seq<Mail>)
    requires i < |w|
    ensures |r| == |w|
  {
    if i >= 0 then MailDropped(w, i) else w
  }

  method Drop(a: array<Slot>, delnum: int) returns (i: int)
    requires a.Length == WINDOW
    modifies a
    ensures i == PlaceOf(Nums(old(a[..])), delnum) < WINDOW && a[..] == Lost(old(a[..]), i)
  {
    i := Find(a, delnum);
    if i >= 0 {
      CloseUp(a, i);
    }
  }

  method FindMail(a: array<Mail>, delnum: int) returns (i: int)
    requires a.Length == WINDOW
    ensures i == PlaceOf(MailNums(a[..]), delnum)
  {
    i := WINDOW - 1;
    while i >= 0 && a[i].num != delnum
      invariant -1 <= i < WINDOW && forall k :: i < k < WINDOW ==> a[k].num != delnum
      decreases i
    {
      i := i - 1;
    }
    ghost var at := PlaceOf(MailNums(a[..]), delnum);
    assert LastAt(MailNums(a[..]), delnum, at);
  }

  method CloseUpMail(a: array<Mail>, i: nat)
    requires a.Length == WINDOW && i < WINDOW
    modifies a
    ensures a[..] == MailDropped(old(a[..]), i)
  {
    ghost var w := a[..];
    var j := i;
    while j > 0
      invariant 0 <= j <= i
      invariant forall k :: j < k <= i ==> a[k] == w[k - 1]
      invariant forall k :: (0 <= k <= j || i < k < WINDOW) ==> a[k] == w[k]
    {
      a[j] := Mail(a[j - 1].num, a[j - 1].pos);
      j := j - 1;
    }
    a[0] := Mail(0, 0);
    ghost var d := MailDropped(w, i);
    assert forall k :: 0 <= k < WINDOW ==> a[k] == d[k];
  }

  method DropMail(a: array<Mail>, delnum: int) returns (i: int)
    requires a.Length == WINDOW
    modifies a
    ensures i == PlaceOf(MailNums(old(a[..])), delnum) < WINDOW && a[..] == MailLost(old(a[..]), i)
  {
    i := FindMail(a, delnum);
    if i >= 0 {
      CloseUpMail(a, i);
    }
  }

  /** resetpos(): the message that was last read or, if it has gone, the next newer one. */
  method ResetPos(room: array<Slot>, savedid: int) returns (i: nat)
    requires room.Length == WINDOW && Rising(Nums(room[..]))
    ensures i <= WINDOW
    ensures i < WINDOW ==> room[i].num >= savedid
    ensures i < WINDOW ==> forall k :: 0 <= k < WINDOW && room[k].num >= savedid ==> room[i].num <= room[k].num
    ensures i == WINDOW ==> forall k :: 0 <= k < WINDOW ==> room[k].num < savedid
    ensures savedid != 0 ==> forall k :: 0 <= k < WINDOW && room[k].num == savedid ==> i <= k && room[i].num == savedid
  {
    i := 0;
    while i < WINDOW
      invariant i <= WINDOW && forall k :: 0 <= k < i ==> room[k].num < savedid
    {
      if room[i].num >= savedid {
        ghost var q := Nums(room[..]);
        assert forall k :: i < k < WINDOW && q[i] != 0 ==> q[i] <= q[k];
        return;
      }
      i := i + 1;
    }
  }
}
