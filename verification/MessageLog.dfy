/** The message file of doc_msgs.c: entermessage() writes it in a circle, fr_delete() marks messages in
    place, and newreadmessage() checks what it is asked to show. */
module MessageLog {
  import L = CircularLog
  import R = XRecords

  const M_MAGIC: int := 0xfd
  const MES_NORMAL: int := 65
  const MES_FM: int := 71
  const MAXALIAS: nat := 19
  const MAXNAME: nat := 40

  /** Where the fields of `struct mheader` are, and the shortest `hlen`. */
  const DELETED: nat := 8
  const DELETED_BY: nat := 12
  const DELETED_BY_NAME: nat := 16
  const MSGID: nat := 44
  const MTYPE: nat := 50
  const DEL_ROOM_NAME: nat := 84
  const DEL_ROOM_NUM: nat := 125
  const DTIME: nat := 128
  const OLDID: nat := 136
  const HEADER: nat := 196

  /** A message as it stands in the file now. */
  datatype Entry = Entry(pos: nat, bytes: seq<R.byte>)

  function Id(b: seq<R.byte>): R.word
  {
    R.Word(b, MSGID)
  }

  /** Some bytes replaced. */
  function Put(b: seq<R.byte>, at: nat, v: seq<R.byte>): (r: seq<R.byte>)
    requires at + |v| <= |b|
    ensures |r| == |b|
    ensures forall i :: 0 <= i < |b| ==> r[i] == if at <= i < at + |v| then v[i - at] else b[i]
  {
    b[..at] + v + b[at + |v|..]
  }

  /** The bytes with another message number. */
  function WithId(b: seq<R.byte>, id: R.word): (r: seq<R.byte>)
    requires |b| >= HEADER
    ensures |r| == |b| && forall i :: 0 <= i < |b| && !(MSGID <= i < MSGID + 4) ==> r[i] == b[i]
  {
    Put(b, MSGID, R.Bytes(id))
  }

  /** Who deletes a message, the number and name of the room, and the time. */
  datatype Deletion = Deletion(who: R.word, name: seq<R.byte>, room: R.byte, roomName: seq<R.byte>, time: seq<R.byte>)

  predicate Writable(d: Deletion)
  {
    |d.name| <= MAXALIAS && |d.roomName| <= MAXNAME && |d.time| == 8
  }

  /** What fr_delete() makes of them: the old number kept, a new one, the mark, who deleted it, where and
      when, and the plain type. */
  function Marked(b: seq<R.byte>, id: R.word, d: Deletion): (r: seq<R.byte>)
    requires |b| >= HEADER && Writable(d)
    ensures |r| == |b|
  {
    var b1 := Put(Put(WithId(Put(b, OLDID, R.Bytes(Id(b))), id), DELETED, [1]), DELETED_BY, R.Bytes(d.who));
    var b2 := Put(Put(Put(b1, DEL_ROOM_NUM, [d.room]), DTIME, d.time), MTYPE, [MES_NORMAL]);
    Put(Put(b2, DELETED_BY_NAME, d.name + [0]), DEL_ROOM_NAME, d.roomName + [0])
  }

  lemma WordPut(b: seq<R.byte>, at: nat, w: R.word)
    requires at + 4 <= |b|
    ensures R.Word(Put(b, at, R.Bytes(w)), at) == w
  {
    var r := Put(b, at, R.Bytes(w));
    assert r[at..at + 4] == R.Bytes(w);
    R.WordOfBytes(r, at, w);
  }

  lemma IdOfWithId(b: seq<R.byte>, id: R.word)
    requires |b| >= HEADER
    ensures Id(WithId(b, id)) == id
  {
    WordPut(b, MSGID, id);
  }

  predicate Sound(b: seq<R.byte>)
  {
    |b| >= HEADER && |b| % 4 == 0 && b[0] == M_MAGIC && MES_NORMAL <= b[MTYPE] <= MES_FM
  }

  function Spans(q: seq<Entry>): (r: seq<L.Span>)
    ensures |r| == |q| && forall k :: 0 <= k < |q| ==> r[k] == L.Span(q[k].pos, q[k].pos + |q[k].bytes|)
  {
    seq(|q|, k requires 0 <= k < |q| => L.Span(q[k].pos, q[k].pos + |q[k].bytes|))
  }

  /** The message can be read at its place, byte for byte. */
  ghost predicate Intact(f: seq<R.byte>, e: Entry)
  {
    Sound(e.bytes) && e.pos % 4 == 0 && e.pos + |e.bytes| <= |f| && f[e.pos..e.pos + |e.bytes|] == e.bytes
  }

  /** Nothing has been written over the message since. */
  ghost predicate Whole(q: seq<Entry>, k: int)
  {
    0 <= k < |q| && forall j :: k < j < |q| ==> Clear(q[j], q[k])
  }

  predicate Clear(a: Entry, b: Entry)
  {
    a.pos + |a.bytes| <= b.pos || b.pos + |b.bytes| <= a.pos
  }

  ghost predicate AllIntact(f: seq<R.byte>, q: seq<Entry>)
  {
    forall k :: Whole(q, k) ==> Intact(f, q[k])
  }

  /** The file with some bytes overwritten. */
  function Written(f: seq<R.byte>, pos: nat, b: seq<R.byte>): (g: seq<R.byte>)
    requires pos + |b| <= |f|
    ensures |g| == |f|
  {
    f[..pos] + b + f[pos + |b|..]
  }

  /** A write leaves alone what does not overlap it. */
  lemma WriteSpares(f: seq<R.byte>, e: Entry, pos: nat, b: seq<R.byte>)
    requires Intact(f, e) && pos + |b| <= |f| && Clear(Entry(pos, b), e)
    ensures Intact(Written(f, pos, b), e)
  {
  }

  /** What is overwritten by a message: what overlaps it, and nothing else. */
  lemma WholeAppended(q: seq<Entry>, e: Entry, k: int)
    ensures Whole(q + [e], k) <==> k == |q| || (Whole(q, k) && Clear(e, q[k]))
  {
    var p := q + [e];
    if 0 <= k < |q| {
      assert p[k] == q[k] && p[|q|] == e;
      forall j | k < j < |q| ensures p[j] == q[j] {
      }
    }
  }

  /** So a message stays until the cursor comes to it in the next round. */
  lemma WhoSurvives(q: seq<Entry>, base: nat, lap: nat, cur: int, e: Entry, k: nat)
    requires L.Laid(Spans(q), base, lap, 0, cur) && base <= k < |q| && e.pos == cur && |e.bytes| > 0
    requires |q[k].bytes| > 0
    ensures Whole(q, k)
    ensures Whole(q + [e], k) <==> k >= lap || q[k].pos >= cur + |e.bytes|
  {
    forall j | k < j < |q| ensures Clear(q[j], q[k]) {
      L.Apart(Spans(q), base, lap, 0, cur, j, k);
    }
    WholeAppended(q, e, k);
    assert Spans(q)[k] == L.Span(q[k].pos, q[k].pos + |q[k].bytes|);
  }

  /** The messages ever written, the numbers of `Laid`, and the cursor. */
  datatype Log = Log(q: seq<Entry>, base: nat, lap: nat, cur: nat)

  /** Where a message of len bytes goes. */
  function Place(l: Log, len: nat, size: nat): nat
  {
    if l.cur + len >= size then 0 else l.cur
  }

  /** One message more; the round it belongs to, and the first of the round before that it leaves alone. */
  ghost function Appended(l: Log, b: seq<R.byte>, size: nat): Log
  {
    var a := Around(l, |b|, size);
    Log(l.q + [Entry(a.cur, b)],
        if a.base <= a.lap <= |l.q| then L.Spared(Spans(l.q), a.base, a.lap, a.cur + |b|) else a.base,
        a.lap, a.cur + |b|)
  }

  /** The log with its cursor where a message of len bytes goes. */
  function Around(l: Log, len: nat, size: nat): Log
  {
    if l.cur + len >= size then Log(l.q, l.lap, |l.q|, 0) else l
  }

  /** There was room for the message where it was written. */
  predicate HadRoom(e: Entry, size: nat)
  {
    Sound(e.bytes) && e.pos % 4 == 0 && e.pos + |e.bytes| < size
  }

  /** So there was for all of them, and none has a number beyond the highest. */
  ghost predicate AllFit(q: seq<Entry>, size: nat, highest: int)
  {
    forall k :: 0 <= k < |q| ==> HadRoom(q[k], size) && Id(q[k].bytes) <= highest
  }

  lemma FitsAppended(q: seq<Entry>, size: nat, highest: int, e: Entry)
    requires AllFit(q, size, highest) && HadRoom(e, size) && Id(e.bytes) <= highest
    ensures AllFit(q + [e], size, highest)
  {
  }

  lemma FitsMarked(q: seq<Entry>, size: nat, highest: nat, k: nat, b: seq<R.byte>)
    requires AllFit(q, size, highest) && k < |q| && Sound(b) && |b| == |q[k].bytes| && Id(b) == highest + 1
    ensures AllFit(q[k := Entry(q[k].pos, b)], size, highest + 1)
  {
    assert HadRoom(q[k], size);
  }

  lemma FitsHigher(q: seq<Entry>, size: nat, highest: int)
    requires AllFit(q, size, highest)
    ensures AllFit(q, size, highest + 1)
  {
  }

  lemma HoldsMarked(f: seq<R.byte>, l: Log, highest: nat, k: nat, b: seq<R.byte>)
    requires L.Laid(Spans(l.q), l.base, l.lap, 0, l.cur) && AllIntact(f, l.q) && AllFit(l.q, |f|, highest)
    requires Whole(l.q, k) && Sound(b) && |b| == |l.q[k].bytes| && Id(b) == highest + 1
    ensures l.q[k].pos + |b| <= |f|
    ensures var q := l.q[k := Entry(l.q[k].pos, b)];
      && L.Laid(Spans(q), l.base, l.lap, 0, l.cur) && AllIntact(Written(f, l.q[k].pos, b), q)
      && AllFit(q, |f|, highest + 1)
  {
    hide L.Laid, AllIntact, AllFit, Sound, Id, Written;
    Rewritten(f, l.q, k, b);
    FitsMarked(l.q, |f|, highest, k, b);
  }

  class MessageFile {
    const msgmain: array<R.byte>
    var curpos: nat
    var highest: nat
    ghost var entries: seq<Entry>
    ghost var base: nat
    ghost var lap: nat

    /** Every message nothing has been written over is in the file, on word boundaries, and unchanged. */
    ghost predicate Valid()
      reads this, msgmain
    {
      && curpos < msgmain.Length && highest < R.WORD
      && L.Laid(Spans(entries), base, lap, 0, curpos)
      && AllIntact(msgmain[..], entries)
      && AllFit(entries, msgmain.Length, highest)
    }

    constructor (length: nat)
      requires length > 0
      ensures Valid() && entries == [] && curpos == 0 && highest == 0 && msgmain.Length == length && fresh(msgmain)
    {
      msgmain := new R.byte[length](_ => 0);
      curpos, highest, entries, base, lap := 0, 0, [], 0, 0;
    }

    /** memcpy() into the file. */
    method Copy(pos: nat, b: seq<R.byte>)
      requires pos + |b| <= msgmain.Length
      modifies msgmain
      ensures msgmain[..] == Written(old(msgmain[..]), pos, b)
    {
      ghost var f := msgmain[..];
      for i := 0 to |b|
        invariant forall x :: 0 <= x < msgmain.Length && !(pos <= x < pos + i) ==> msgmain[x] == f[x]
        invariant forall x :: pos <= x < pos + i ==> msgmain[x] == b[x - pos]
      {
        msgmain[pos + i] := b[i];
      }
      ghost var g := Written(f, pos, b);
      assert forall x :: 0 <= x < msgmain.Length ==> msgmain[x] == g[x];
    }

    ghost function Now(): Log
      reads this
    {
      Log(entries, base, lap, curpos)
    }

    /** The message goes to the cursor, or to the start of the file if it does not fit there.  Gone is what
        it overlaps; of the round it belongs to and the one before, that is what lies before its end. */
    method Append(b: seq<R.byte>) returns (mmpos: nat)
      requires Valid() && Sound(b) && |b| < msgmain.Length && Id(b) <= highest
      modifies this`curpos, this`entries, this`base, this`lap, msgmain
      ensures Valid() && mmpos == Place(old(Now()), |b|, msgmain.Length)
      ensures Now() == Appended(old(Now()), b, msgmain.Length)
      ensures forall k :: 0 <= k < |old(entries)| ==>
        (Whole(entries, k) <==> Whole(old(entries), k) && Clear(Entry(mmpos, b), old(entries)[k]))
      ensures forall k :: Around(old(Now()), |b|, msgmain.Length).base <= k < |old(entries)| ==>
        (Whole(entries, k) <==> k >= lap || old(entries)[k].pos >= curpos)
    {
      hide L.Laid, L.Spared, AllIntact, AllFit, Spans, Written, Sound, Id, Whole, Clear;
      ghost var l := Now();
      ghost var e := Entry(Place(l, |b|, msgmain.Length), b);
      AppendKeeps(msgmain[..], l, b, msgmain.Length);
      FitsAppended(entries, msgmain.Length, highest, e);
      mmpos := if curpos + |b| >= msgmain.Length then 0 else curpos;
      curpos := mmpos + |b|;
      Copy(mmpos, b);
      forall k | 0 <= k < |l.q|
        ensures Whole(l.q + [e], k) <==> Whole(l.q, k) && Clear(e, l.q[k])
        ensures Around(l, |b|, msgmain.Length).base <= k ==>
          (Whole(l.q + [e], k) <==> k >= Around(l, |b|, msgmain.Length).lap || l.q[k].pos >= curpos)
      {
        WholeAppended(l.q, e, k);
        if Around(l, |b|, msgmain.Length).base <= k {
          AroundSurvives(l, b, msgmain.Length, highest, k);
        }
      }
      base := Appended(l, b, msgmain.Length).base;
      entries, lap := entries + [e], Appended(l, b, msgmain.Length).lap;
    }

    /** The locked part of entermessage(): `tmp` is the message as it was made, hlen and textlen its lengths. */
    method EnterMessage(tmp: seq<R.byte>, hlen: nat, textlen: nat) returns (mmpos: nat, mmhi: nat)
      requires Valid() && highest + 1 < R.WORD && hlen >= HEADER
      requires |tmp| >= HEADER && tmp[0] == M_MAGIC && MES_NORMAL <= tmp[MTYPE] <= MES_FM
      requires WordLength(hlen, textlen) <= |tmp| && WordLength(hlen, textlen) < msgmain.Length
      modifies this, msgmain
      ensures Valid() && mmhi == highest == old(highest) + 1
      ensures mmpos == Place(old(Now()), WordLength(hlen, textlen), msgmain.Length)
      ensures Now() == Appended(old(Now()), WithId(tmp[..WordLength(hlen, textlen)], mmhi), msgmain.Length)
    {
      var len := WordLength(hlen, textlen);
      highest := highest + 1;
      mmhi := highest;
      IdOfWithId(tmp[..len], mmhi);
      FitsHigher(entries, msgmain.Length, highest - 1);
      hide L.Laid, AllIntact, AllFit, Id, Appended, Place, Whole, Clear;
      mmpos := Append(WithId(tmp[..len], mmhi));
    }

    /** One field of a header. */
    method PutField(pos: nat, ghost f: seq<R.byte>, ghost b: seq<R.byte>, at: nat, v: seq<R.byte>)
      requires pos + |b| <= |f| == msgmain.Length && at + |v| <= |b| && msgmain[..] == Written(f, pos, b)
      modifies msgmain
      ensures msgmain[..] == Written(f, pos, Put(b, at, v))
    {
      hide Written, Put;
      Copy(pos + at, v);
      WrittenInside(f, pos, b, at, v);
    }

    /** The writes of fr_delete() into a header. */
    method Mark(pos: nat, msgid: R.word, d: Deletion, ghost b: seq<R.byte>)
      requires Intact(msgmain[..], Entry(pos, b)) && Writable(d)
      modifies msgmain
      ensures |b| >= HEADER && pos + |b| <= msgmain.Length
      ensures msgmain[..] == Written(old(msgmain[..]), pos, Marked(b, msgid, d))
    {
      hide Written, Put, R.Bytes;
      ghost var f, c := msgmain[..], b;
      StandsThere(f, pos, b);
      var oldid := R.Word(msgmain[..], pos + MSGID);
      IdThere(f, pos, b);
      PutField(pos, f, c, OLDID, R.Bytes(oldid));
      c := Put(c, OLDID, R.Bytes(oldid));
      PutField(pos, f, c, MSGID, R.Bytes(msgid));
      c := WithId(c, msgid);
      PutField(pos, f, c, DELETED, [1]);
      c := Put(c, DELETED, [1]);
      PutField(pos, f, c, DELETED_BY, R.Bytes(d.who));
      c := Put(c, DELETED_BY, R.Bytes(d.who));
      PutField(pos, f, c, DEL_ROOM_NUM, [d.room]);
      c := Put(c, DEL_ROOM_NUM, [d.room]);
      PutField(pos, f, c, DTIME, d.time);
      c := Put(c, DTIME, d.time);
      PutField(pos, f, c, MTYPE, [MES_NORMAL]);
      c := Put(c, MTYPE, [MES_NORMAL]);
      PutField(pos, f, c, DELETED_BY_NAME, d.name + [0]);
      c := Put(c, DELETED_BY_NAME, d.name + [0]);
      PutField(pos, f, c, DEL_ROOM_NAME, d.roomName + [0]);
    }

    /** fr_delete() in the file: the message at pos gets a new number, so that it is shown as new among
        the deleted ones. */
    method MarkDeleted(ghost k: nat, pos: nat, d: Deletion) returns (msgid: nat)
      requires Valid() && highest + 1 < R.WORD && Whole(entries, k) && pos == entries[k].pos && Writable(d)
      modifies this`highest, this`entries, msgmain
      ensures Valid() && msgid == highest == old(highest) + 1
      ensures |old(entries)[k].bytes| >= HEADER
      ensures entries == old(entries)[k := Entry(pos, Marked(old(entries)[k].bytes, msgid, d))]
    {
      ghost var q, f, b := entries, msgmain[..], entries[k].bytes;
      ThisIntact(f, q, k);
      highest := highest + 1;
      msgid := highest;
      hide Written, L.Laid, AllIntact, AllFit, Sound, Id, Marked, Intact, Whole;
      MarkedSound(b, msgid, d);
      HoldsMarked(f, Now(), msgid - 1, k, Marked(b, msgid, d));
      Mark(pos, msgid, d, b);
      entries := q[k := Entry(pos, Marked(b, msgid, d))];
    }

    /** The checks of newreadmessage(). */
    method CheckMessage(p: nat, msgid: R.word) returns (r: Reading)
      requires p + HEADER <= msgmain.Length
      ensures r == Checked(msgmain[..], p, msgid)
    {
      if p % 4 != 0 {
        return NotFound;
      }
      if msgmain[p] != M_MAGIC {
        return NotFound;
      }
      if msgmain[p + MTYPE] < MES_NORMAL || msgmain[p + MTYPE] > MES_FM {
        return BadType;
      }
      if msgid > 0 && R.Word(msgmain[..], p + MSGID) != msgid {
        return NotFound;
      }
      return Passes;
    }
  }

  /** The message can be shown, or MNFERR, or FMTERR. */
  datatype Reading = Passes | NotFound | BadType

  function Checked(f: seq<R.byte>, p: nat, msgid: R.word): Reading
    requires p + HEADER <= |f|
  {
    if p % 4 != 0 || f[p] != M_MAGIC then NotFound
    else if !(MES_NORMAL <= f[p + MTYPE] <= MES_FM) then BadType
    else if msgid > 0 && R.Word(f, p + MSGID) != msgid then NotFound
    else Passes
  }

  /** (hlen + len + 4) & ~3 */
  function WordLength(hlen: nat, textlen: nat): (n: nat)
    ensures n % 4 == 0 && hlen + textlen < n <= hlen + textlen + 4
  {
    hlen + textlen + 4 - (hlen + textlen + 4) % 4
  }

  lemma LongEnough(b: seq<R.byte>)
    requires Sound(b)
    ensures |b| >= HEADER
  {
  }

  lemma ThisIntact(f: seq<R.byte>, q: seq<Entry>, k: nat)
    requires AllIntact(f, q) && Whole(q, k)
    ensures 0 <= k < |q| && Intact(f, q[k])
    ensures Sound(q[k].bytes) && |q[k].bytes| >= HEADER && q[k].pos + |q[k].bytes| <= |f|
  {
  }

  lemma SameWord(a: seq<R.byte>, b: seq<R.byte>, i: nat)
    requires i + 4 <= |a| && i + 4 <= |b| && forall j :: i <= j < i + 4 ==> a[j] == b[j]
    ensures R.Word(a, i) == R.Word(b, i)
  {
  }

  /** A marked message bears the new number, and the one it had until then in its place; nothing but the
      fields of the deletion has changed. */
  lemma MarkedSound(b: seq<R.byte>, id: R.word, d: Deletion)
    requires Sound(b) && Writable(d)
    ensures |b| >= HEADER && Sound(Marked(b, id, d)) && Id(Marked(b, id, d)) == id
    ensures R.Word(Marked(b, id, d), OLDID) == Id(b) && R.Word(Marked(b, id, d), DELETED_BY) == d.who
    ensures Marked(b, id, d)[DELETED] == 1 && Marked(b, id, d)[DEL_ROOM_NUM] == d.room
    ensures forall i :: 0 <= i < |d.name| ==> Marked(b, id, d)[DELETED_BY_NAME + i] == d.name[i]
    ensures forall i :: 0 <= i < |d.roomName| ==> Marked(b, id, d)[DEL_ROOM_NAME + i] == d.roomName[i]
    ensures forall i | 0 <= i < |b| && !OfDeletion(i) :: Marked(b, id, d)[i] == b[i]
  {
    var b1 := Put(b, OLDID, R.Bytes(Id(b)));
    var b2 := WithId(b1, id);
    var b3 := Put(Put(b2, DELETED, [1]), DELETED_BY, R.Bytes(d.who));
    var m := Marked(b, id, d);
    WordPut(b, OLDID, Id(b));
    WordPut(b1, MSGID, id);
    WordPut(Put(b2, DELETED, [1]), DELETED_BY, d.who);
    hide R.Word;
    SameWord(m, b1, OLDID);
    SameWord(m, b2, MSGID);
    SameWord(m, b3, DELETED_BY);
  }

  /** The bytes of a header that a deletion may change. */
  predicate OfDeletion(i: int)
  {
    || DELETED == i || DELETED_BY <= i < DELETED_BY_NAME + MAXALIAS + 1 || MSGID <= i < MSGID + 4 || i == MTYPE
    || DEL_ROOM_NAME <= i <= DEL_ROOM_NUM || DTIME <= i < OLDID + 4
  }

  lemma IdThere(f: seq<R.byte>, pos: nat, b: seq<R.byte>)
    requires |b| >= HEADER && pos + |b| <= |f| && f[pos..pos + |b|] == b
    ensures R.Word(f, pos + MSGID) == Id(b)
  {
    forall i | 0 <= i < HEADER ensures f[pos + i] == b[i] {
    }
  }

  lemma StandsThere(f: seq<R.byte>, pos: nat, b: seq<R.byte>)
    requires pos + |b| <= |f| && f[pos..pos + |b|] == b
    ensures Written(f, pos, b) == f
  {
  }

  /** A write into a message is a write of the whole message. */
  lemma WrittenInside(f: seq<R.byte>, pos: nat, b: seq<R.byte>, at: nat, v: seq<R.byte>)
    requires pos + |b| <= |f| && at + |v| <= |b|
    ensures Written(Written(f, pos, b), pos + at, v) == Written(f, pos, Put(b, at, v))
  {
  }

  /** A message rewritten in place. */
  lemma Rewritten(f: seq<R.byte>, q: seq<Entry>, k: nat, b: seq<R.byte>)
    requires AllIntact(f, q) && Whole(q, k) && Sound(b) && |b| == |q[k].bytes|
    ensures var pos := q[k].pos; pos + |b| <= |f| && AllIntact(Written(f, pos, b), q[k := Entry(pos, b)])
    ensures Spans(q[k := Entry(q[k].pos, b)]) == Spans(q)
  {
    hide Intact, Sound, Written, Whole;
    ThisIntact(f, q, k);
    var p := q[k := Entry(q[k].pos, b)];
    forall i | Whole(p, i) ensures 0 <= i < |p| && Intact(Written(f, q[k].pos, b), p[i]) {
      RewrittenAt(f, q, k, b, i);
    }
  }

  lemma RewrittenAt(f: seq<R.byte>, q: seq<Entry>, k: nat, b: seq<R.byte>, i: int)
    requires AllIntact(f, q) && Whole(q, k) && Sound(b) && |b| == |q[k].bytes| && q[k].pos + |b| <= |f|
    requires Whole(q[k := Entry(q[k].pos, b)], i)
    ensures 0 <= i < |q| && Intact(Written(f, q[k].pos, b), q[k := Entry(q[k].pos, b)][i])
  {
    hide Sound, Clear, Written, AllIntact;
    ThisIntact(f, q, k);
    WrittenThere(f, q[k].pos, b);
    if i != k {
      hide Intact, Whole;
      SameWhole(q, k, Entry(q[k].pos, b), i);
      ThisIntact(f, q, i);
      WriteSpares(f, q[i], q[k].pos, b);
    }
  }

  lemma WrittenThere(f: seq<R.byte>, pos: nat, b: seq<R.byte>)
    requires pos + |b| <= |f|
    ensures Written(f, pos, b)[pos..pos + |b|] == b
  {
  }

  lemma SameWhole(q: seq<Entry>, k: nat, e: Entry, i: int)
    requires Whole(q, k) && e.pos == q[k].pos && |e.bytes| == |q[k].bytes| && i != k && Whole(q[k := e], i)
    ensures Whole(q, i) && Clear(e, q[i])
  {
    var p := q[k := e];
    forall j | i < j < |q| ensures Clear(q[j], q[i]) {
      assert Clear(p[j], p[i]);
    }
    if i > k {
      assert Clear(q[i], q[k]);
    }
  }

  /** A whole message passes the checks exactly for the number it bears now. */
  lemma CheckFindsMessage(f: seq<R.byte>, q: seq<Entry>, k: nat, msgid: R.word)
    requires AllIntact(f, q) && Whole(q, k) && msgid != 0
    ensures var p := q[k].pos;
      && p + HEADER <= |f| && f[p] == M_MAGIC
      && Checked(f, p, msgid) == if Id(q[k].bytes) == msgid then Passes else NotFound
  {
    ThisIntact(f, q, k);
    var e := q[k];
    forall i | 0 <= i < HEADER ensures f[e.pos + i] == e.bytes[i] {
      assert f[e.pos..e.pos + |e.bytes|][i] == f[e.pos + i];
    }
  }

  lemma AppendKeeps(f: seq<R.byte>, l: Log, b: seq<R.byte>, size: nat)
    requires L.Laid(Spans(l.q), l.base, l.lap, 0, l.cur) && AllIntact(f, l.q) && Sound(b) && |b| < size == |f|
    ensures l.base <= l.lap <= |l.q| && Place(l, |b|, size) + |b| < size && Place(l, |b|, size) % 4 == 0 < |b|
    ensures var m := Appended(l, b, size);
      L.Laid(Spans(m.q), m.base, m.lap, 0, m.cur) && AllIntact(Written(f, Place(l, |b|, size), b), m.q)
  {
    hide L.Laid, L.Spared, Spans, Written, AllIntact;
    AroundLaid(l, |b|, size);
    var a := Around(l, |b|, size);
    Lays(l.q, a.base, a.lap, a.cur, Entry(a.cur, b));
    AllSurvive(f, l.q, Entry(a.cur, b));
  }

  lemma AroundLaid(l: Log, len: nat, size: nat)
    requires L.Laid(Spans(l.q), l.base, l.lap, 0, l.cur)
    ensures l.base <= l.lap <= |l.q| && l.cur % 4 == 0
    ensures var a := Around(l, len, size); a.q == l.q && L.Laid(Spans(l.q), a.base, a.lap, 0, a.cur)
  {
    L.Returned(Spans(l.q), l.base, l.lap, 0, l.cur);
  }

  lemma AroundSurvives(l: Log, b: seq<R.byte>, size: nat, highest: int, k: nat)
    requires L.Laid(Spans(l.q), l.base, l.lap, 0, l.cur) && AllFit(l.q, size, highest) && |b| > 0
    requires Around(l, |b|, size).base <= k < |l.q|
    ensures var a := Around(l, |b|, size);
      Whole(l.q + [Entry(a.cur, b)], k) <==> k >= a.lap || l.q[k].pos >= a.cur + |b|
  {
    hide L.Laid, Spans, Whole;
    AroundLaid(l, |b|, size);
    var a := Around(l, |b|, size);
    assert HadRoom(l.q[k], size);
    WhoSurvives(l.q, a.base, a.lap, a.cur, Entry(a.cur, b), k);
  }

  lemma Lays(q: seq<Entry>, base: nat, lap: nat, cur: nat, e: Entry)
    requires L.Laid(Spans(q), base, lap, 0, cur) && e.pos == cur && |e.bytes| % 4 == 0
    ensures base <= lap <= |q|
    ensures L.Laid(Spans(q + [e]), L.Spared(Spans(q), base, lap, cur + |e.bytes|), lap, 0, cur + |e.bytes|)
  {
    var s := L.Span(e.pos, e.pos + |e.bytes|);
    assert Spans(q + [e]) == Spans(q) + [s];
    L.Appended(Spans(q), base, lap, 0, cur, s);
  }

  lemma AllSurvive(f: seq<R.byte>, q: seq<Entry>, e: Entry)
    requires AllIntact(f, q) && Sound(e.bytes) && e.pos % 4 == 0 && e.pos + |e.bytes| <= |f|
    ensures AllIntact(Written(f, e.pos, e.bytes), q + [e])
  {
    hide Sound, Written;
    WrittenThere(f, e.pos, e.bytes);
    var g, p := Written(f, e.pos, e.bytes), q + [e];
    forall k | Whole(p, k) ensures Intact(g, p[k]) {
      WholeAppended(q, e, k);
      if k < |q| {
        assert Intact(f, q[k]);
        WriteSpares(f, q[k], e.pos, e.bytes);
      }
    }
  }
}
