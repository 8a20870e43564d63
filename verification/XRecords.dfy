/** The two layouts of the X database that convert_x86_x64/rebuild_xmsgs.c reads and writes, and what its
    scan keeps of a damaged file. */
module XRecords {

  const FILE_START: nat := 4
  const CONV_MAX: nat := 65534
  const MAX_X_SIZE: nat := 2048
  const OLDXMSGSIZE: nat := 5000000
  const OLD_HEADER: nat := 32
  const NEW_HEADER: nat := 40
  const FIRST_TIME: nat := 1420070400
  const WORD: int := 0x1_0000_0000

  type byte = x: int | 0 <= x < 256
  type word = x: int | 0 <= x < 0x1_0000_0000

  datatype Header = Header(checkbit: bool, kind: word, snum: word, rnum: word,
                           sprev: word, snext: word, rprev: word, rnext: word, time: word)

  /** Beyond its end a file reads as zeros. */
  function Get(f: seq<byte>, i: nat): byte
  {
    if i < |f| then f[i] else 0
  }

  // ---------------------------------------------------------------- words, least significant byte first

  function Word(f: seq<byte>, i: nat): word
  {
    Get(f, i) + 0x100 * Get(f, i + 1) + 0x1_0000 * Get(f, i + 2) + 0x100_0000 * Get(f, i + 3)
  }

  function Bytes(w: word): (b: seq<byte>)
    ensures |b| == 4
  {
    [w % 0x100, w / 0x100 % 0x100, w / 0x1_0000 % 0x100, w / 0x100_0000]
  }

  lemma WordOfBytes(f: seq<byte>, i: nat, w: word)
    requires i + 4 <= |f| && f[i..i + 4] == Bytes(w)
    ensures Word(f, i) == w
  {
    var b := f[i..i + 4];
    assert f[i] == b[0] && f[i + 1] == b[1] && f[i + 2] == b[2] && f[i + 3] == b[3];
    Digits(w);
  }

  lemma Digits(w: word)
    ensures w % 0x100 + 0x100 * (w / 0x100 % 0x100)
      + 0x1_0000 * (w / 0x1_0000 % 0x100) + 0x100_0000 * (w / 0x100_0000) == w
  {
    var a := w / 0x100;
    var b := a / 0x100;
    assert b == w / 0x1_0000 && b / 0x100 == w / 0x100_0000;
    assert w == 0x100 * a + w % 0x100 && a == 0x100 * b + a % 0x100 && b == 0x100 * (b / 0x100) + b % 0x100;
  }

  // ---------------------------------------------------------------- headers

  function OldHeader(f: seq<byte>, p: nat): Header
  {
    Header(Word(f, p) % 2 == 1, Word(f, p) / 0x80 % 8, Word(f, p + 4), Word(f, p + 8),
           Word(f, p + 12), Word(f, p + 16), Word(f, p + 20), Word(f, p + 24), Word(f, p + 28))
  }

  /** Four bytes of padding come before the time, which has grown to eight. */
  function NewHeader(f: seq<byte>, p: nat): Header
  {
    FromWords(WordsAt(f, p))
  }

  function WordsAt(f: seq<byte>, p: nat): (ws: seq<word>)
    ensures |ws| == 10
  {
    [Word(f, p), Word(f, p + 4), Word(f, p + 8), Word(f, p + 12), Word(f, p + 16),
     Word(f, p + 20), Word(f, p + 24), Word(f, p + 28), Word(f, p + 32), Word(f, p + 36)]
  }

  function FromWords(ws: seq<word>): Header
    requires |ws| == 10
  {
    Header(ws[0] % 2 == 1, ws[0] / 0x80 % 8, ws[1], ws[2], ws[3], ws[4], ws[5], ws[6], ws[8])
  }

  function Words(h: Header): (ws: seq<word>)
    requires h.kind < 8
    ensures |ws| == 10
  {
    [(if h.checkbit then 1 else 0) + 0x80 * h.kind, h.snum, h.rnum, h.sprev, h.snext, h.rprev, h.rnext, 0, h.time, 0]
  }

  function Joined(ws: seq<word>): (b: seq<byte>)
    ensures |b| == 4 * |ws|
  {
    if ws == [] then [] else Bytes(ws[0]) + Joined(ws[1..])
  }

  /** A header as it stands in memory, and so in the new file. */
  function Encoded(h: Header): (b: seq<byte>)
    requires h.kind < 8
    ensures |b| == NEW_HEADER
  {
    Joined(Words(h))
  }

  lemma {:induction false} JoinedWord(f: seq<byte>, p: nat, ws: seq<word>, k: nat)
    requires p + 4 * |ws| <= |f| && f[p..p + 4 * |ws|] == Joined(ws) && k < |ws|
    ensures Word(f, p + 4 * k) == ws[k]
    decreases k
  {
    var g := f[p..p + 4 * |ws|];
    if k == 0 {
      assert f[p..p + 4] == g[..4] == Bytes(ws[0]);
      WordOfBytes(f, p, ws[0]);
    } else {
      assert f[p + 4..p + 4 + 4 * |ws[1..]|] == g[4..] == Joined(ws[1..]);
      JoinedWord(f, p + 4, ws[1..], k - 1);
    }
  }

  /** What the second pass reads is what the first pass wrote. */
  lemma HeaderRoundTrip(f: seq<byte>, p: nat, h: Header)
    requires p + NEW_HEADER <= |f| && h.kind < 8 && f[p..p + NEW_HEADER] == Encoded(h)
    ensures NewHeader(f, p) == h
  {
    var ws := Words(h);
    WordsBack(h);
    hide Words, Joined, FromWords;
    forall k | 0 <= k < 10 ensures WordsAt(f, p)[k] == ws[k] {
      hide Word;
      JoinedWord(f, p, ws, k);
      assert WordsAt(f, p)[k] == Word(f, p + 4 * k);
    }
    assert WordsAt(f, p) == ws;
  }

  lemma WordsBack(h: Header)
    requires h.kind < 8
    ensures FromWords(Words(h)) == h
  {
  }

  /** The checks of get_xmsgs(). */
  predicate Acceptable(h: Header, users: seq<word>, now: int)
  {
    && h.checkbit && h.kind <= 2
    && (h.snum in users || h.rnum in users)
    && h.sprev <= OLDXMSGSIZE && h.snext <= OLDXMSGSIZE && h.rprev <= OLDXMSGSIZE && h.rnext <= OLDXMSGSIZE
    && FIRST_TIME <= h.time <= now
  }

  // ---------------------------------------------------------------- texts

  predicate TwoNuls(f: seq<byte>, p: nat, n: nat)
  {
    n >= 2 && Get(f, p + n - 1) == 0 && Get(f, p + n - 2) == 0
  }

  /** A text of n bytes starts at p: its first two NULs in a row are its last bytes. */
  ghost predicate TextAt(f: seq<byte>, p: nat, n: nat)
  {
    && 2 <= n <= MAX_X_SIZE && TwoNuls(f, p, n)
    && forall m :: 2 <= m < n ==> !TwoNuls(f, p, m)
  }

  ghost predicate NoTextAt(f: seq<byte>, p: nat)
  {
    forall m :: 2 <= m <= MAX_X_SIZE ==> !TwoNuls(f, p, m)
  }

  /** The length of the text at p, 0 if none ends within the limit. */
  ghost function TextLength(f: seq<byte>, p: nat): (n: nat)
    ensures n > 0 ==> TextAt(f, p, n)
    ensures n == 0 ==> NoTextAt(f, p)
  {
    FirstText(f, p, 2)
  }

  ghost function FirstText(f: seq<byte>, p: nat, m: nat): (n: nat)
    requires 2 <= m <= MAX_X_SIZE + 1 && forall k :: 2 <= k < m ==> !TwoNuls(f, p, k)
    ensures n > 0 ==> TextAt(f, p, n)
    ensures n == 0 ==> NoTextAt(f, p)
    decreases MAX_X_SIZE + 1 - m
  {
    if m > MAX_X_SIZE then 0 else if TwoNuls(f, p, m) then m else FirstText(f, p, m + 1)
  }

  lemma TextUnique(f: seq<byte>, p: nat, n: nat)
    requires TextAt(f, p, n)
    ensures TextLength(f, p) == n
  {
  }

  // ---------------------------------------------------------------- what the scan keeps

  /** A message: its old and its new place. */
  datatype Record = Record(from: nat, to: word, h: Header, text: seq<byte>)

  function Slice(f: seq<byte>, p: nat, n: nat): (t: seq<byte>)
    ensures |t| == n && forall i :: 0 <= i < n ==> t[i] == Get(f, p + i)
  {
    if n == 0 then [] else Slice(f, p, n - 1) + [Get(f, p + n - 1)]
  }

  /** The length of the text of the message at p of the old file, 0 if there is no message there. */
  ghost function MessageAt(f: seq<byte>, p: nat, users: seq<word>, now: int): nat
  {
    if Acceptable(OldHeader(f, p), users, now) then TextLength(f, p + OLD_HEADER) else 0
  }

  const SCAN_END: nat := OLDXMSGSIZE + OLD_HEADER + MAX_X_SIZE

  /** A message grows by less than its own length, so the new places fit a word. */
  predicate Fits(p: nat, to: nat)
  {
    p <= SCAN_END && to + 2 * (SCAN_END - p) < WORD
  }

  /** The scan moves past a message it has found, and otherwise by one byte. */
  ghost function Scan(f: seq<byte>, p: nat, to: nat, users: seq<word>, now: int): seq<Record>
    requires Fits(p, to)
    decreases SCAN_END - p
  {
    if p >= OLDXMSGSIZE then [] else
    var n := MessageAt(f, p, users, now);
    if n == 0 then Scan(f, p + 1, to, users, now)
    else [Record(p, to, OldHeader(f, p), Slice(f, p + OLD_HEADER, n))]
         + Scan(f, p + OLD_HEADER + n, to + NEW_HEADER + n, users, now)
  }

  /** A message of the old file, as the scan found it. */
  ghost predicate Genuine(f: seq<byte>, r: Record, users: seq<word>, now: int)
  {
    && r.h == OldHeader(f, r.from) && Acceptable(r.h, users, now)
    && TextAt(f, r.from + OLD_HEADER, |r.text|) && r.text == Slice(f, r.from + OLD_HEADER, |r.text|)
  }

  function End(r: Record): nat { r.from + OLD_HEADER + |r.text| }

  /** Messages of the old file from p on, no two of which overlap, laid end to end from `to` on. */
  ghost predicate Moved(f: seq<byte>, p: nat, to: nat, q: seq<Record>, users: seq<word>, now: int)
  {
    && (forall i :: 0 <= i < |q| ==> p <= q[i].from < OLDXMSGSIZE && Genuine(f, q[i], users, now))
    && (forall i :: 0 < i < |q| ==> End(q[i - 1]) <= q[i].from && q[i].to == q[i - 1].to + NEW_HEADER + |q[i - 1].text|)
    && (q != [] ==> q[0].to == to)
  }

  lemma MovedFirst(f: seq<byte>, r: Record, q: seq<Record>, users: seq<word>, now: int)
    requires r.from < OLDXMSGSIZE && Genuine(f, r, users, now)
    requires Moved(f, End(r), r.to + NEW_HEADER + |r.text|, q, users, now)
    ensures Moved(f, r.from, r.to, [r] + q, users, now)
  {
    hide Genuine;
    var g := [r] + q;
    forall i | 0 < i < |g|
      ensures End(g[i - 1]) <= g[i].from && g[i].to == g[i - 1].to + NEW_HEADER + |g[i - 1].text|
    {
      assert g[i] == q[i - 1] && (i > 1 ==> g[i - 1] == q[i - 2]);
    }
  }

  lemma MovedNone(f: seq<byte>, p: nat, to: nat, users: seq<word>, now: int)
    ensures Moved(f, p, to, [], users, now)
  {
  }

  lemma MovedLater(f: seq<byte>, p: nat, to: nat, q: seq<Record>, users: seq<word>, now: int)
    requires Moved(f, p + 1, to, q, users, now)
    ensures Moved(f, p, to, q, users, now)
  {
    hide Genuine;
  }

  lemma FoundIsGenuine(f: seq<byte>, p: nat, to: word, users: seq<word>, now: int)
    ensures var n := MessageAt(f, p, users, now);
      n > 0 ==> n <= MAX_X_SIZE && Genuine(f, Record(p, to, OldHeader(f, p), Slice(f, p + OLD_HEADER, n)), users, now)
  {
    hide TextLength;
  }

  /** The scan keeps messages only. */
  lemma {:induction false} ScanKeeps(f: seq<byte>, p: nat, to: nat, users: seq<word>, now: int)
    requires Fits(p, to)
    ensures Moved(f, p, to, Scan(f, p, to, users, now), users, now)
    decreases SCAN_END - p
  {
    hide Moved, Genuine, MessageAt, OldHeader, Slice;
    MovedNone(f, p, to, users, now);
    if p < OLDXMSGSIZE {
      var n := MessageAt(f, p, users, now);
      if n == 0 {
        ScanKeeps(f, p + 1, to, users, now);
        MovedLater(f, p, to, Scan(f, p + 1, to, users, now), users, now);
      } else {
        FoundIsGenuine(f, p, to, users, now);
        ScanKeeps(f, p + OLD_HEADER + n, to + NEW_HEADER + n, users, now);
        var r := Record(p, to, OldHeader(f, p), Slice(f, p + OLD_HEADER, n));
        MovedFirst(f, r, Scan(f, p + OLD_HEADER + n, to + NEW_HEADER + n, users, now), users, now);
      }
    }
  }

  /** The scan misses no message but those that start inside one it has kept. */
  lemma {:induction false} ScanMissesNone(f: seq<byte>, p: nat, to: nat, users: seq<word>, now: int, at: nat)
    requires Fits(p, to) && p <= at < OLDXMSGSIZE && MessageAt(f, at, users, now) > 0
    ensures exists r :: r in Scan(f, p, to, users, now) && r.from <= at < End(r)
    decreases SCAN_END - p
  {
    hide MessageAt, OldHeader, Slice;
    var n := MessageAt(f, p, users, now);
    if n == 0 {
      ScanMissesNone(f, p + 1, to, users, now, at);
    } else if at < p + OLD_HEADER + n {
      var r := Record(p, to, OldHeader(f, p), Slice(f, p + OLD_HEADER, n));
      assert r == Scan(f, p, to, users, now)[0];
    } else {
      ScanMissesNone(f, p + OLD_HEADER + n, to + NEW_HEADER + n, users, now, at);
      var r :| r in Scan(f, p + OLD_HEADER + n, to + NEW_HEADER + n, users, now) && r.from <= at < End(r);
      assert r in Scan(f, p, to, users, now);
    }
  }

  // ---------------------------------------------------------------- the new file

  ghost function Bytewise(r: Record): (b: seq<byte>)
    requires r.h.kind < 8
    ensures |b| == NEW_HEADER + |r.text|
  {
    Encoded(r.h) + r.text
  }

  ghost predicate Encodable(q: seq<Record>)
  {
    forall i :: 0 <= i < |q| ==> q[i].h.kind < 8
  }

  /** Messages one behind the other. */
  ghost function Image(q: seq<Record>): seq<byte>
    requires Encodable(q)
  {
    if q == [] then [] else Image(q[..|q| - 1]) + Bytewise(q[|q| - 1])
  }

  lemma ImageGrows(q: seq<Record>, r: Record)
    requires Encodable(q) && r.h.kind < 8
    ensures Encodable(q + [r]) && Image(q + [r]) == Image(q) + Bytewise(r)
  {
  }

  lemma Associates(a: seq<byte>, b: seq<byte>, c: seq<byte>)
    ensures (a + b) + c == a + (b + c)
  {
  }

  lemma {:induction false} ImageJoins(q: seq<Record>, r: seq<Record>)
    requires Encodable(q) && Encodable(r)
    ensures Encodable(q + r) && Image(q + r) == Image(q) + Image(r)
    decreases |r|
  {
    if r == [] {
      assert q + r == q;
    } else {
      var s, l := r[..|r| - 1], r[|r| - 1];
      assert l.h.kind < 8 && Encodable(s);
      hide Image, Bytewise, Encodable;
      ImageJoins(q, s);
      ImageGrows(q + s, l);
      ImageGrows(s, l);
      assert q + r == q + s + [l] && r == s + [l];
      Associates(Image(q), Image(s), Bytewise(l));
    }
  }

  lemma ImageSplit(q: seq<Record>, k: nat)
    requires Encodable(q) && k < |q|
    ensures Image(q) == Image(q[..k]) + Bytewise(q[k]) + Image(q[k + 1..])
  {
    hide Image, Bytewise;
    ImageGrows(q[..k], q[k]);
    ImageJoins(q[..k] + [q[k]], q[k + 1..]);
    assert q == q[..k] + [q[k]] + q[k + 1..];
  }

  /** Headers may change, but not the lengths of the texts. */
  lemma {:induction false} ImageLength(q: seq<Record>, r: seq<Record>)
    requires Encodable(q) && Encodable(r) && |q| == |r| && forall i :: 0 <= i < |q| ==> |q[i].text| == |r[i].text|
    ensures |Image(q)| == |Image(r)|
    decreases |q|
  {
    if q != [] {
      ImageLength(q[..|q| - 1], r[..|r| - 1]);
    }
  }

  /** Where a message's bytes are, the second pass finds the message. */
  lemma FindsBack(f: seq<byte>, at: nat, r: Record)
    requires r.h.kind < 8 && TextAt(r.text, 0, |r.text|) && at + NEW_HEADER + |r.text| <= |f|
    requires f[at..at + NEW_HEADER] == Encoded(r.h) && f[at + NEW_HEADER..at + NEW_HEADER + |r.text|] == r.text
    ensures NewHeader(f, at) == r.h && TextLength(f, at + NEW_HEADER) == |r.text|
    ensures Slice(f, at + NEW_HEADER, |r.text|) == r.text
  {
    hide NewHeader, Encoded, TextAt, TextLength, Slice;
    HeaderRoundTrip(f, at, r.h);
    TextMoves(f, at + NEW_HEADER, r.text);
  }

  lemma Middle(a: seq<byte>, e: seq<byte>, t: seq<byte>, b: seq<byte>)
    ensures var f := a + (e + t) + b;
      f[|a|..|a| + |e|] == e && f[|a| + |e|..|a| + |e| + |t|] == t
  {
  }

  lemma TextMoves(f: seq<byte>, p: nat, t: seq<byte>)
    requires p + |t| <= |f| && f[p..p + |t|] == t && TextAt(t, 0, |t|)
    ensures TextLength(f, p) == |t| && Slice(f, p, |t|) == t
  {
    hide TextLength, Slice;
    forall i | 0 <= i < |t| ensures Get(f, p + i) == t[i] {
      assert f[p..p + |t|][i] == t[i];
    }
    forall m | 2 <= m <= |t| ensures TwoNuls(f, p, m) == TwoNuls(t, 0, m) {
    }
    TextUnique(f, p, |t|);
  }

  lemma OwnText(f: seq<byte>, p: nat, n: nat)
    requires TextAt(f, p, n)
    ensures TextAt(Slice(f, p, n), 0, n)
  {
    var t := Slice(f, p, n);
    forall m | 2 <= m <= n ensures TwoNuls(t, 0, m) == TwoNuls(f, p, m) {
    }
  }
}
