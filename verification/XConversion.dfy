/** An X database in the layout before the conversion of rebuild_xmsgs.c, with its users' lists linked in order
    as sendx() links them, and what becomes of those lists. */
module XConversion {
  import opened XRecords
  import opened XRelocation
  import D = XDatabase
  import M = XMessages

  // ---------------------------------------------------------------- the old layout

  /** The first word of a header: one bit, six unused ones, and three bits of the kind. */
  function Flags(h: Header): word
    requires h.kind < 8
  {
    (if h.checkbit then 1 else 0) + 0x80 * h.kind
  }

  /** The fields of the old `struct xheader`, one behind the other. */
  function OldBytes(h: Header): (b: seq<byte>)
    requires h.kind < 8
    ensures |b| == OLD_HEADER
  {
    Bytes(Flags(h)) + Bytes(h.snum) + Bytes(h.rnum) + Bytes(h.sprev) + Bytes(h.snext) + Bytes(h.rprev)
      + Bytes(h.rnext) + Bytes(h.time)
  }

  lemma SliceOfSlice(f: seq<byte>, p: nat, n: nat, i: nat)
    requires p + n <= |f| && i + 4 <= n
    ensures f[p..p + n][i..i + 4] == f[p + i..p + i + 4]
  {
    var a, b := f[p..p + n][i..i + 4], f[p + i..p + i + 4];
    forall k | 0 <= k < 4 ensures a[k] == b[k] {
      assert a[k] == f[p..p + n][i + k];
    }
  }

  /** Some bytes of the file are some bytes of the header. */
  lemma FieldAt(f: seq<byte>, p: nat, b: seq<byte>, i: nat, w: word)
    requires p + |b| <= |f| && f[p..p + |b|] == b && i + 4 <= |b| && b[i..i + 4] == Bytes(w)
    ensures Word(f, p + i) == w
  {
    hide Bytes, Word;
    SliceOfSlice(f, p, |b|, i);
    WordOfBytes(f, p + i, w);
  }

  lemma FlagsBack(h: Header)
    requires h.kind < 8
    ensures (Flags(h) % 2 == 1) == h.checkbit && Flags(h) / 0x80 % 8 == h.kind
  {
  }

  lemma FieldsOf(h: Header)
    requires h.kind < 8
    ensures var b := OldBytes(h);
      && b[0..4] == Bytes(Flags(h)) && b[4..8] == Bytes(h.snum) && b[8..12] == Bytes(h.rnum)
      && b[12..16] == Bytes(h.sprev) && b[16..20] == Bytes(h.snext) && b[20..24] == Bytes(h.rprev)
      && b[24..28] == Bytes(h.rnext) && b[28..32] == Bytes(h.time)
  {
    hide Bytes, Flags;
  }

  /** What was written field by field is read as that header. */
  lemma OldRoundTrip(f: seq<byte>, p: nat, h: Header)
    requires h.kind < 8 && p + OLD_HEADER <= |f| && f[p..p + OLD_HEADER] == OldBytes(h)
    ensures OldHeader(f, p) == h
  {
    hide Bytes, Word, Flags, OldBytes;
    var b := OldBytes(h);
    FieldsOf(h);
    FieldAt(f, p, b, 0, Flags(h));
    FieldAt(f, p, b, 4, h.snum);
    FieldAt(f, p, b, 8, h.rnum);
    FieldAt(f, p, b, 12, h.sprev);
    FieldAt(f, p, b, 16, h.snext);
    FieldAt(f, p, b, 20, h.rprev);
    FieldAt(f, p, b, 24, h.rnext);
    FieldAt(f, p, b, 28, h.time);
    FlagsBack(h);
  }

  // ---------------------------------------------------------------- a database in the old file

  predicate IsWord(n: int) { 0 <= n < WORD }

  function KindNumber(k: M.Kind): word
  {
    match k
    case Normal => 0
    case Question => 1
    case Broadcast => 2
  }

  /** Everything in the header is a number the file has room for. */
  predicate Writable(h: M.XHeader)
  {
    && IsWord(h.m.snum) && IsWord(h.m.rnum) && IsWord(h.m.time)
    && IsWord(h.sprev) && IsWord(h.snext) && IsWord(h.rprev) && IsWord(h.rnext)
  }

  function HeaderOf(h: M.XHeader): (r: Header)
    requires Writable(h)
    ensures r.kind < 8
  {
    Header(true, KindNumber(h.m.kind), h.m.snum, h.m.rnum, h.sprev, h.snext, h.rprev, h.rnext, h.m.time)
  }

  /** The bytes of the header are at the place. */
  predicate HeldAt(f: seq<byte>, p: int, h: M.XHeader)
  {
    Writable(h) && 0 <= p && p + OLD_HEADER <= |f| && f[p..p + OLD_HEADER] == OldBytes(HeaderOf(h))
  }

  /** The file holds the messages still in the log. */
  ghost predicate Holds(f: seq<byte>, x: map<int, M.XHeader>, sent: seq<M.Sent>, base: nat)
    requires M.Stored(x, sent, base)
  {
    && (forall k :: base <= k < |sent| ==> HeldAt(f, sent[k].pos, x[sent[k].pos]))
    && forall k :: 0 <= k < |sent| ==> M.FIRST <= sent[k].pos < WORD
  }

  lemma HeldLinks(f: seq<byte>, p: int, h: M.XHeader, u: word)
    requires HeldAt(f, p, h)
    ensures Link(OldHeader(f, p), u, true) == M.Prev(h, u) && Link(OldHeader(f, p), u, false) == M.Next(h, u)
  {
    OldRoundTrip(f, p, HeaderOf(h));
    hide OldHeader, OldBytes;
  }

  // ---------------------------------------------------------------- the text behind a header

  /** A line sendx() has room for: some characters, and no NUL among them. */
  predicate Plain(line: string)
  {
    line != [] && forall i :: 0 <= i < |line| ==> 0 < line[i] as int < 256
  }

  predicate AllPlain(text: seq<string>)
  {
    forall i :: 0 <= i < |text| ==> Plain(text[i])
  }

  function LineBytes(line: string): (b: seq<byte>)
    requires Plain(line)
    ensures |b| == |line| && forall i :: 0 <= i < |b| ==> b[i] == line[i] as int
  {
    seq(|line|, i requires 0 <= i < |line| => line[i] as int as byte)
  }

  /** The lines, each with its NUL. */
  function Lines(text: seq<string>): (b: seq<byte>)
    requires AllPlain(text)
    ensures |b| == M.TextBytes(text)
  {
    if text == [] then [] else Lines(text[..|text| - 1]) + LineBytes(text[|text| - 1]) + [0]
  }

  /** The last line is copied with one NUL more. */
  function TextOf(m: M.Message): (b: seq<byte>)
    requires AllPlain(m.text) && m.text != []
    ensures |b| == M.Extent(m) - M.HEADER
  {
    Lines(m.text) + [0]
  }

  predicate NoTwoNuls(b: seq<byte>)
  {
    forall i :: 0 < i < |b| ==> b[i - 1] != 0 || b[i] != 0
  }

  lemma OneMore(b: seq<byte>, l: seq<byte>)
    requires NoTwoNuls(b) && l != [] && forall i :: 0 <= i < |l| ==> l[i] != 0
    ensures NoTwoNuls(b + l + [0])
  {
    var c := b + l + [0];
    forall i | 0 < i < |c| ensures c[i - 1] != 0 || c[i] != 0 {
      if i < |b| {
        assert c[i - 1] == b[i - 1] && c[i] == b[i];
      } else if i < |b| + |l| {
        assert c[i] == l[i - |b|];
      } else {
        assert c[i - 1] == l[|l| - 1];
      }
    }
  }

  lemma {:induction false} LinesEnd(text: seq<string>)
    requires AllPlain(text)
    ensures NoTwoNuls(Lines(text)) && (text != [] ==> Lines(text)[|Lines(text)| - 1] == 0)
  {
    if text != [] {
      LinesEnd(text[..|text| - 1]);
      OneMore(Lines(text[..|text| - 1]), LineBytes(text[|text| - 1]));
    }
  }

  /** The scan of the conversion finds the end of a text where sendx() has put it. */
  lemma TextScanned(m: M.Message)
    requires AllPlain(m.text) && m.text != [] && M.Extent(m) - M.HEADER <= MAX_X_SIZE
    ensures TextAt(TextOf(m), 0, M.Extent(m) - M.HEADER)
  {
    var b, n := TextOf(m), M.Extent(m) - M.HEADER;
    var l := Lines(m.text);
    LinesEnd(m.text);
    hide Lines;
    assert b[n - 2] == l[n - 2] && b[n - 1] == 0;
    forall k | 2 <= k < n ensures !TwoNuls(b, 0, k) {
      assert b[k - 1] == l[k - 1] && b[k - 2] == l[k - 2];
    }
  }

  /** So a message with a text, in a header the conversion accepts, is one of the messages of the old file. */
  lemma HeldIsMessage(f: seq<byte>, p: nat, h: M.XHeader, users: seq<word>, now: int)
    requires HeldAt(f, p, h) && Acceptable(HeaderOf(h), users, now)
    requires AllPlain(h.m.text) && h.m.text != [] && M.Extent(h.m) - M.HEADER <= MAX_X_SIZE
    requires var t, at := TextOf(h.m), p + OLD_HEADER; at + |t| <= |f| && f[at..at + |t|] == t
    ensures MessageAt(f, p, users, now) == |TextOf(h.m)|
  {
    hide OldHeader, OldBytes, Acceptable, TextLength, TextOf, Lines;
    OldRoundTrip(f, p, HeaderOf(h));
    TextScanned(h.m);
    TextMoves(f, p + OLD_HEADER, TextOf(h.m));
  }

  // ---------------------------------------------------------------- what becomes of the lists

  predicate AllWords(s: seq<int>)
  {
    forall i :: 0 <= i < |s| ==> IsWord(s[i])
  }

  function AsWords(s: seq<int>): (r: seq<word>)
    requires AllWords(s)
    ensures |r| == |s| && forall i :: 0 <= i < |s| ==> r[i] == s[i]
  {
    seq(|s|, i requires 0 <= i < |s| => s[i])
  }

  function Backwards(s: seq<word>): (r: seq<word>)
    ensures |r| == |s| && forall i :: 0 <= i < |s| ==> r[i] == s[|s| - 1 - i]
  {
    seq(|s|, i requires 0 <= i < |s| => s[|s| - 1 - i])
  }

  /** A message that the conversion has kept, with the header the database had. */
  ghost predicate KeptHeld(f: seq<byte>, q: seq<Record>, x: map<int, M.XHeader>, p: int)
  {
    IsWord(p) && p in x && HeldAt(f, p, x[p]) && KeptFrom(q, p)
  }

  /** Along kept messages the reader of the old file goes the database's own way. */
  lemma {:induction false} OldWalkTrail(f: seq<byte>, q: seq<Record>, x: map<int, M.XHeader>, u: word, pos: int,
                                        back: bool, n: nat)
    requires forall p :: p in D.Trail(x, u, pos, back, n) ==> KeptHeld(f, q, x, p)
    requires IsWord(pos) && |D.Trail(x, u, pos, back, n)| == n
    ensures AllWords(D.Trail(x, u, pos, back, n))
    ensures OldWalk(f, q, u, pos, back, n) == AsWords(D.Trail(x, u, pos, back, n))
    decreases n
  {
    hide HeldAt, OldHeader, Link, KeptFrom;
    if n > 0 {
      var t := D.Trail(x, u, pos, back, n);
      assert pos == t[0] && KeptHeld(f, q, x, pos);
      HeldLinks(f, pos, x[pos], u);
      var next := Link(OldHeader(f, pos), u, back);
      assert t[1..] == D.Trail(x, u, next, back, n - 1);
      assert forall p :: p in t[1..] ==> p in t;
      OldWalkTrail(f, q, x, u, next, back, n - 1);
      assert AsWords(t) == [pos] + AsWords(t[1..]);
    }
  }

  /** A walk that has not ended after n steps goes on from the link of the last message it met. */
  lemma {:induction false} OldWalkJoins(f: seq<byte>, q: seq<Record>, u: word, x: word, back: bool, n: nat, m: nat)
    requires |OldWalk(f, q, u, x, back, n)| == n > 0
    ensures var w := OldWalk(f, q, u, x, back, n);
      OldWalk(f, q, u, x, back, n + m) == w + OldWalk(f, q, u, Link(OldHeader(f, w[n - 1]), u, back), back, m)
    decreases n
  {
    hide OldHeader, Link, KeptFrom;
    if n > 1 {
      OldWalkJoins(f, q, u, Link(OldHeader(f, x), u, back), back, n - 1, m);
    }
  }

  /** A walk ends where there is no link, or no message has been kept. */
  lemma OldWalkEnds(f: seq<byte>, q: seq<Record>, u: word, x: word, back: bool, n: nat, m: nat, w: seq<word>)
    requires w == OldWalk(f, q, u, x, back, n) && |w| == n
    requires var next := if n == 0 then x else Link(OldHeader(f, w[n - 1]), u, back); next == 0 || !KeptFrom(q, next)
    ensures OldWalk(f, q, u, x, back, n + m) == w
  {
    hide OldHeader, Link, KeptFrom;
    if n > 0 {
      OldWalkJoins(f, q, u, x, back, n, m);
    }
  }

  lemma {:induction false} NewPlacesAt(q: seq<Record>, w: seq<word>, i: nat)
    requires i < |w|
    ensures NewPlaces(q, w)[i] == NewPlace(q, w[i])
  {
    if i > 0 {
      NewPlacesAt(q, w[1..], i - 1);
    }
  }

  lemma NewPlacesBackwards(q: seq<Record>, w: seq<word>)
    ensures NewPlaces(q, Backwards(w)) == Backwards(NewPlaces(q, w))
  {
    hide NewPlace, NewPlaces;
    forall i | 0 <= i < |w| ensures NewPlaces(q, Backwards(w))[i] == Backwards(NewPlaces(q, w))[i] {
      NewPlacesAt(q, Backwards(w), i);
      NewPlacesAt(q, w, |w| - 1 - i);
    }
  }

  /** Those of u's messages from the j-th on are whole, and kept by the conversion. */
  ghost predicate KeptOn(q: seq<Record>, sent: seq<M.Sent>, base: nat, c: seq<nat>, j: nat)
    requires M.Within(c, sent)
  {
    forall i :: j <= i < |c| ==> base <= c[i] && IsWord(sent[c[i]].pos) && KeptFrom(q, sent[c[i]].pos)
  }

  /** The places of u's messages from the j-th on. */
  ghost function PlacesOn(sent: seq<M.Sent>, c: seq<nat>, j: nat): (r: seq<word>)
    requires M.Within(c, sent) && j <= |c| && forall k :: 0 <= k < |sent| ==> IsWord(sent[k].pos)
    ensures |r| == |c| - j && forall i :: 0 <= i < |r| ==> r[i] == sent[c[j + i]].pos
  {
    AsWords(D.PlacesOf(sent, c)[j..])
  }

  lemma AllKeptHeld(f: seq<byte>, q: seq<Record>, x: map<int, M.XHeader>, sent: seq<M.Sent>, base: nat, c: seq<nat>,
                    j: nat)
    requires M.Stored(x, sent, base) && Holds(f, x, sent, base) && M.Within(c, sent) && j <= |c|
    requires KeptOn(q, sent, base, c, j)
    ensures AllWords(D.PlacesOf(sent, c)[j..])
    ensures forall p :: p in D.PlacesOf(sent, c)[j..] ==> KeptHeld(f, q, x, p)
  {
    hide HeldAt, KeptFrom;
    var s := D.PlacesOf(sent, c)[j..];
    forall p | p in s ensures KeptHeld(f, q, x, p) {
      var i :| 0 <= i < |s| && s[i] == p;
      assert p == sent[c[j + i]].pos;
    }
  }

  lemma OldForward(f: seq<byte>, q: seq<Record>, x: map<int, M.XHeader>, sent: seq<M.Sent>, base: nat, c: seq<nat>,
                   u: word, j: nat, m: nat)
    requires M.Stored(x, sent, base) && Holds(f, x, sent, base) && M.Within(c, sent) && j <= |c|
    requires M.Linked(x, sent, base, c, u) && KeptOn(q, sent, base, c, j)
    requires forall i, k :: 0 <= i < k < |c| ==> c[i] < c[k]
    ensures IsWord(M.At(sent, c, j))
    ensures OldWalk(f, q, u, M.At(sent, c, j), false, |c| - j + m) == PlacesOn(sent, c, j)
  {
    hide M.Linked, HeldAt, KeptFrom, KeptHeld, D.Trail, Link, OldHeader, OldWalk;
    D.ForwardTrail(x, sent, base, c, u, j, |c| - j);
    var t := D.Trail(x, u, M.At(sent, c, j), false, |c| - j);
    AllKeptHeld(f, q, x, sent, base, c, j);
    OldWalkTrail(f, q, x, u, M.At(sent, c, j), false, |c| - j);
    if j < |c| {
      LinkOut(f, x, sent, base, c, u, |c| - 1);
    }
    OldWalkEnds(f, q, u, M.At(sent, c, j), false, |c| - j, m, PlacesOn(sent, c, j));
  }

  /** The links of u's i-th message in the old file. */
  lemma LinkOut(f: seq<byte>, x: map<int, M.XHeader>, sent: seq<M.Sent>, base: nat, c: seq<nat>, u: word, i: nat)
    requires M.Stored(x, sent, base) && Holds(f, x, sent, base) && M.Within(c, sent) && M.Linked(x, sent, base, c, u)
    requires i < |c| && base <= c[i]
    ensures 0 <= sent[c[i]].pos && Link(OldHeader(f, sent[c[i]].pos), u, false) == M.At(sent, c, i + 1)
    ensures Link(OldHeader(f, sent[c[i]].pos), u, true) == M.At(sent, c, i - 1)
  {
    hide HeldAt, OldHeader;
    D.OneLink(x, sent, base, c, u, i);
    HeldLinks(f, sent[c[i]].pos, x[sent[c[i]].pos], u);
  }

  lemma AsWordsBackwards(s: seq<int>)
    requires AllWords(s)
    ensures AllWords(D.Reversed(s)) && AsWords(D.Reversed(s)) == Backwards(AsWords(s))
    ensures forall p :: p in D.Reversed(s) ==> p in s
  {
  }

  /** The message before the j-th, if there is one, has not been kept. */
  ghost predicate LostBefore(q: seq<Record>, sent: seq<M.Sent>, c: seq<nat>, j: nat)
    requires M.Within(c, sent) && j <= |c|
  {
    j > 0 ==> !IsWord(sent[c[j - 1]].pos) || !KeptFrom(q, sent[c[j - 1]].pos)
  }

  lemma PlacesAreWords(f: seq<byte>, x: map<int, M.XHeader>, sent: seq<M.Sent>, base: nat, c: seq<nat>)
    requires M.Stored(x, sent, base) && Holds(f, x, sent, base) && M.Within(c, sent)
    ensures forall k :: 0 <= k < |sent| ==> IsWord(sent[k].pos) && sent[k].pos >= M.FIRST
    ensures IsWord(M.At(sent, c, |c| - 1))
  {
  }

  lemma OldBackwardKept(f: seq<byte>, q: seq<Record>, x: map<int, M.XHeader>, sent: seq<M.Sent>, base: nat,
                        c: seq<nat>, u: word, j: nat)
    requires M.Stored(x, sent, base) && Holds(f, x, sent, base) && M.Within(c, sent) && j <= |c|
    requires M.Linked(x, sent, base, c, u) && KeptOn(q, sent, base, c, j)
    ensures IsWord(M.At(sent, c, |c| - 1))
    ensures OldWalk(f, q, u, M.At(sent, c, |c| - 1), true, |c| - j) == Backwards(PlacesOn(sent, c, j))
  {
    hide M.Linked, Holds, KeptFrom, KeptHeld, D.Trail, D.Reversed, Backwards, Link, OldHeader, OldWalk;
    PlacesAreWords(f, x, sent, base, c);
    D.BackwardTrail(x, sent, base, c, u, |c| - 1, |c| - j);
    var s := D.PlacesOf(sent, c)[j..];
    assert s == D.PlacesOf(sent, c)[j..|c|];
    AllKeptHeld(f, q, x, sent, base, c, j);
    AsWordsBackwards(s);
    OldWalkTrail(f, q, x, u, M.At(sent, c, |c| - 1), true, |c| - j);
  }

  /** Where the walk backwards ends. */
  lemma EndsBackward(f: seq<byte>, q: seq<Record>, x: map<int, M.XHeader>, sent: seq<M.Sent>, base: nat, c: seq<nat>,
                     u: word, j: nat)
    requires M.Stored(x, sent, base) && Holds(f, x, sent, base) && M.Within(c, sent) && j <= |c|
    requires M.Linked(x, sent, base, c, u) && KeptOn(q, sent, base, c, j) && LostBefore(q, sent, c, j)
    ensures var w := Backwards(PlacesOn(sent, c, j));
      IsWord(M.At(sent, c, |c| - 1))
      && var next := if w == [] then M.At(sent, c, |c| - 1) else Link(OldHeader(f, w[|w| - 1]), u, true);
      next == 0 || !KeptFrom(q, next)
  {
    hide M.Linked, HeldAt, KeptFrom, Link, OldHeader;
    var w := Backwards(PlacesOn(sent, c, j));
    if j < |c| {
      LinkOut(f, x, sent, base, c, u, j);
      assert w[|w| - 1] == sent[c[j]].pos;
    }
  }

  lemma OldBackward(f: seq<byte>, q: seq<Record>, x: map<int, M.XHeader>, sent: seq<M.Sent>, base: nat, c: seq<nat>,
                    u: word, j: nat, m: nat)
    requires M.Stored(x, sent, base) && Holds(f, x, sent, base) && M.Within(c, sent) && j <= |c|
    requires M.Linked(x, sent, base, c, u) && KeptOn(q, sent, base, c, j) && LostBefore(q, sent, c, j)
    ensures IsWord(M.At(sent, c, |c| - 1))
    ensures OldWalk(f, q, u, M.At(sent, c, |c| - 1), true, |c| - j + m) == Backwards(PlacesOn(sent, c, j))
  {
    hide M.Linked, HeldAt, KeptFrom, Link, OldHeader, OldWalk, Holds, KeptOn, LostBefore, PlacesOn, Backwards;
    PlacesAreWords(f, x, sent, base, c);
    OldBackwardKept(f, q, x, sent, base, c, u, j);
    EndsBackward(f, q, x, sent, base, c, u, j);
    OldWalkEnds(f, q, u, M.At(sent, c, |c| - 1), true, |c| - j, m, Backwards(PlacesOn(sent, c, j)));
  }

  lemma NewForward(f: seq<byte>, users: seq<word>, now: int, q: seq<Record>, x: map<int, M.XHeader>,
                   sent: seq<M.Sent>, base: nat, c: seq<nat>, u: word, j: nat, m: nat)
    requires q == Scan(f, FILE_START, FILE_START, users, now) && M.Within(c, sent) && j <= |c|
    requires M.Stored(x, sent, base) && Holds(f, x, sent, base) && M.Linked(x, sent, base, c, u)
    requires KeptOn(q, sent, base, c, j) && forall i, k :: 0 <= i < k < |c| ==> c[i] < c[k]
    ensures Encodable(RelinkedTo(q, |q|)) && IsWord(M.At(sent, c, j))
    ensures NewWalk(File(RelinkedTo(q, |q|)), u, NewPlace(q, M.At(sent, c, j)), false, |c| - j + m)
      == NewPlaces(q, PlacesOn(sent, c, j))
  {
    hide M.Linked, Scan, File, Encodable, RelinkedTo, OldWalk, NewWalk, NewPlaces, NewPlace, HeldAt, KeptFrom;
    OldForward(f, q, x, sent, base, c, u, j, m);
    WalksCommute(f, users, now, q, u, M.At(sent, c, j), false, |c| - j + m);
  }

  lemma NewBackward(f: seq<byte>, users: seq<word>, now: int, q: seq<Record>, x: map<int, M.XHeader>,
                    sent: seq<M.Sent>, base: nat, c: seq<nat>, u: word, j: nat, m: nat)
    requires q == Scan(f, FILE_START, FILE_START, users, now) && M.Within(c, sent) && j <= |c|
    requires M.Stored(x, sent, base) && Holds(f, x, sent, base) && M.Linked(x, sent, base, c, u)
    requires KeptOn(q, sent, base, c, j) && LostBefore(q, sent, c, j)
    ensures Encodable(RelinkedTo(q, |q|)) && IsWord(M.At(sent, c, |c| - 1))
    ensures NewWalk(File(RelinkedTo(q, |q|)), u, NewPlace(q, M.At(sent, c, |c| - 1)), true, |c| - j + m)
      == Backwards(NewPlaces(q, PlacesOn(sent, c, j)))
  {
    hide M.Linked, Scan, File, Encodable, RelinkedTo, OldWalk, NewWalk, NewPlaces, NewPlace, HeldAt, KeptFrom;
    OldBackward(f, q, x, sent, base, c, u, j, m);
    WalksCommute(f, users, now, q, u, M.At(sent, c, |c| - 1), true, |c| - j + m);
    NewPlacesBackwards(q, PlacesOn(sent, c, j));
  }

  /** Walks of n steps from either end show these places, and the reversal of them. */
  ghost predicate Shows(file: seq<byte>, u: word, from: word, to: word, n: nat, places: seq<word>)
  {
    NewWalk(file, u, from, false, n) == places && NewWalk(file, u, to, true, n) == Backwards(places)
  }

  /** The walks in the new file from both ends of what the conversion has kept of a user's list, from the
      j-th message on: however long, forwards they show exactly the new places of those messages in the
      order they were sent, and backwards the reversal of that. */
  lemma ListsSurvive(f: seq<byte>, users: seq<word>, now: int, q: seq<Record>, file: seq<byte>,
                     x: map<int, M.XHeader>, sent: seq<M.Sent>, base: nat, user: User, p: M.Places, g: M.Reading,
                     c: seq<nat>, j: nat, m: nat)
    requires q == Scan(f, FILE_START, FILE_START, users, now)
    requires Encodable(RelinkedTo(q, |q|)) && file == File(RelinkedTo(q, |q|))
    requires M.Stored(x, sent, base) && M.UserFits(x, sent, base, user.usernum, p, g) && Holds(f, x, sent, base)
    requires user.xminpos == p.xminpos && user.xmaxpos == p.xmaxpos
    requires c == M.Mine(sent, g.since, user.usernum) && j <= |c|
    requires KeptOn(q, sent, base, c, j) && LostBefore(q, sent, c, j)
    ensures IsWord(M.At(sent, c, j))
    ensures Shows(file, user.usernum, NewPlace(q, M.At(sent, c, j)), Relocated(q, user).xmaxpos, |c| - j + m,
                  NewPlaces(q, PlacesOn(sent, c, j)))
    ensures j == 0 ==> NewPlace(q, M.At(sent, c, j)) == Relocated(q, user).xminpos
  {
    hide M.Mine, M.Linked, M.SeenFits, Scan, File, Encodable, RelinkedTo, NewWalk, NewPlaces, NewPlace, HeldAt,
         KeptOn, LostBefore, Backwards, PlacesOn;
    NewForward(f, users, now, q, x, sent, base, c, user.usernum, j, m);
    NewBackward(f, users, now, q, x, sent, base, c, user.usernum, j, m);
  }

  /** A message of the old file is kept exactly if it does not begin inside one that was. */
  lemma KeptExactly(f: seq<byte>, users: seq<word>, now: int, q: seq<Record>, at: nat)
    requires q == Scan(f, FILE_START, FILE_START, users, now)
    requires FILE_START <= at < OLDXMSGSIZE && MessageAt(f, at, users, now) > 0
    ensures KeptFrom(q, at) <==> !exists r :: r in q && r.from < at < End(r)
  {
    hide Scan, MessageAt, Genuine;
    ScanMissesNone(f, FILE_START, FILE_START, users, now, at);
    ScanKeeps(f, FILE_START, FILE_START, users, now);
    forall i, k | 0 <= i < k < |q| ensures End(q[i]) <= q[k].from {
      EndsBefore(f, q, users, now, i, k);
    }
  }

  lemma {:induction false} EndsBefore(f: seq<byte>, q: seq<Record>, users: seq<word>, now: int, i: nat, k: nat)
    requires Moved(f, FILE_START, FILE_START, q, users, now) && i < k < |q|
    ensures End(q[i]) <= q[k].from
    decreases k
  {
    if i < k - 1 {
      EndsBefore(f, q, users, now, i, k - 1);
    }
  }
}
