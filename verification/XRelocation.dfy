/** rebuild_xmsgs() of convert_x86_x64/rebuild_xmsgs.c: the messages are copied in one pass, and in a
    second one every link is rewritten through the map of old to new places. */
module XRelocation {
  import opened XRecords

  datatype User = User(usernum: word, xminpos: word, xmaxpos: word)

  /** The new place of what was at x, 0 if nothing there was kept. */
  ghost function NewPlace(q: seq<Record>, x: word): word
  {
    if x == 0 || q == [] then 0 else if q[0].from == x then q[0].to else NewPlace(q[1..], x)
  }

  ghost predicate Ascending(q: seq<Record>)
  {
    forall i, j :: 0 <= i < j < |q| ==> q[i].from < q[j].from
  }

  /** No two messages share an old place, so each has the new place it was given. */
  lemma {:induction false} NewPlaceOf(q: seq<Record>, i: nat)
    requires Ascending(q) && i < |q| && 0 < q[i].from < WORD
    ensures NewPlace(q, q[i].from) == q[i].to
    decreases i
  {
    if i > 0 {
      assert q[1..][i - 1] == q[i] && q[0].from < q[i].from;
      NewPlaceOf(q[1..], i - 1);
    }
  }

  lemma {:induction false} NoNewPlace(q: seq<Record>, x: word)
    requires forall i :: 0 <= i < |q| ==> q[i].from != x
    ensures NewPlace(q, x) == 0
  {
    if q != [] {
      NoNewPlace(q[1..], x);
    }
  }

  /** A message with its links rewritten. */
  ghost function Relinked(q: seq<Record>, r: Record): Record
  {
    r.(h := r.h.(sprev := NewPlace(q, r.h.sprev), snext := NewPlace(q, r.h.snext),
                 rprev := NewPlace(q, r.h.rprev), rnext := NewPlace(q, r.h.rnext)))
  }

  /** The first k messages with their links rewritten. */
  ghost function RelinkedTo(q: seq<Record>, k: nat): (r: seq<Record>)
    requires k <= |q|
    ensures |r| == |q|
  {
    seq(|q|, i requires 0 <= i < |q| => if i < k then Relinked(q, q[i]) else q[i])
  }

  /** The new file: its first bytes belong to nobody. */
  ghost function File(q: seq<Record>): seq<byte>
    requires Encodable(q)
  {
    [0, 0, 0, 0] + Image(q)
  }

  ghost predicate KeptOne(r: Record, users: seq<word>, now: int)
  {
    Acceptable(r.h, users, now) && TextAt(r.text, 0, |r.text|) && FILE_START <= r.from < OLDXMSGSIZE
  }

  /** Messages as the first pass leaves them: every one's new place is where its bytes start. */
  ghost predicate Kept(q: seq<Record>, users: seq<word>, now: int)
  {
    && Encodable(q) && Ascending(q)
    && (forall i :: 0 <= i < |q| ==> KeptOne(q[i], users, now))
    && (forall i :: 0 <= i < |q| ==> |File(q[..i])| == q[i].to)
  }

  lemma {:induction false} PlaceAt(f: seq<byte>, q: seq<Record>, users: seq<word>, now: int, i: nat)
    requires Moved(f, FILE_START, FILE_START, q, users, now) && Encodable(q) && i < |q|
    ensures |File(q[..i])| == q[i].to
    decreases i
  {
    if i == 0 {
      NothingWritten();
      assert q[..0] == [];
    } else {
      PlaceAt(f, q, users, now, i - 1);
      hide Image;
      ImageGrows(q[..i - 1], q[i - 1]);
      assert q[..i] == q[..i - 1] + [q[i - 1]];
    }
  }

  lemma {:induction false} FromsAscend(f: seq<byte>, q: seq<Record>, users: seq<word>, now: int, i: nat, j: nat)
    requires Moved(f, FILE_START, FILE_START, q, users, now) && i < j < |q|
    ensures q[i].from < q[j].from
    decreases j
  {
    if i < j - 1 {
      FromsAscend(f, q, users, now, i, j - 1);
    }
  }

  /** What the scan keeps is what the second pass can rely on. */
  lemma ScanIsKept(f: seq<byte>, users: seq<word>, now: int)
    ensures Kept(Scan(f, FILE_START, FILE_START, users, now), users, now)
  {
    var q := Scan(f, FILE_START, FILE_START, users, now);
    ScanKeeps(f, FILE_START, FILE_START, users, now);
    hide Scan, Genuine, File, Image, KeptOne;
    EachKept(f, q, users, now);
    forall i | 0 <= i < |q| ensures |File(q[..i])| == q[i].to {
      PlaceAt(f, q, users, now, i);
    }
    forall i, j | 0 <= i < j < |q| ensures q[i].from < q[j].from {
      FromsAscend(f, q, users, now, i, j);
    }
  }

  lemma EachKept(f: seq<byte>, q: seq<Record>, users: seq<word>, now: int)
    requires Moved(f, FILE_START, FILE_START, q, users, now)
    ensures Encodable(q) && forall i :: 0 <= i < |q| ==> KeptOne(q[i], users, now)
  {
    forall i | 0 <= i < |q| ensures KeptOne(q[i], users, now) && q[i].h.kind < 8 {
      assert Genuine(f, q[i], users, now);
      OwnText(f, q[i].from + OLD_HEADER, |q[i].text|);
    }
  }

  function Users(users: seq<User>): (r: seq<word>)
    ensures |r| == |users| && forall i :: 0 <= i < |users| ==> r[i] == users[i].usernum
  {
    if users == [] then [] else Users(users[..|users| - 1]) + [users[|users| - 1].usernum]
  }

  class Converter {
    const posMap: array<(nat, word)>
    var convertedMsgs: nat
    const udata: array<User>
    var xmsgdata: seq<byte>
    var xcurpos: nat

    ghost predicate Valid()
      reads this, posMap
    {
      posMap.Length == CONV_MAX && convertedMsgs <= CONV_MAX
    }

    /** The map says where the messages of q went. */
    ghost predicate Maps(q: seq<Record>)
      reads this, posMap
    {
      Valid() && convertedMsgs == |q| && forall i :: 0 <= i < |q| ==> posMap[i] == (q[i].from, q[i].to)
    }

    constructor (users: seq<User>)
      ensures Maps([]) && udata[..] == users && fresh(posMap) && fresh(udata)
    {
      posMap := new (nat, word)[CONV_MAX](_ => (0, 0));
      convertedMsgs := 0;
      udata := new User[|users|](i requires 0 <= i < |users| => users[i]);
      xmsgdata, xcurpos := [], 0;
    }

    method ValidUser(usernum: word) returns (found: bool)
      ensures found <==> usernum in Users(udata[..])
    {
      var i := 0;
      while i < udata.Length
        invariant 0 <= i <= udata.Length && usernum !in Users(udata[..])[..i]
      {
        if udata[i].usernum == usernum {
          assert Users(udata[..])[i] == usernum;
          return true;
        }
        i := i + 1;
      }
      return false;
    }

    method StoreXmsgMap(oldloc: nat, newloc: word)
      requires Valid() && convertedMsgs < CONV_MAX
      modifies posMap, this`convertedMsgs
      ensures Valid() && convertedMsgs == old(convertedMsgs) + 1 && posMap[old(convertedMsgs)] == (oldloc, newloc)
      ensures forall i :: 0 <= i < old(convertedMsgs) ==> posMap[i] == old(posMap[i])
    {
      posMap[convertedMsgs] := (oldloc, newloc);
      convertedMsgs := convertedMsgs + 1;
    }

    method LookupXmsgLoc(ghost q: seq<Record>, xloc: word) returns (r: word)
      requires Maps(q)
      ensures r == NewPlace(q, xloc)
    {
      if xloc != 0 {
        var i := 0;
        while i < convertedMsgs
          invariant 0 <= i <= convertedMsgs && NewPlace(q[i..], xloc) == NewPlace(q, xloc)
        {
          assert q[i..][1..] == q[i + 1..];
          if posMap[i].0 == xloc {
            return posMap[i].1;
          }
          i := i + 1;
        }
      }
      return 0;
    }

    /** get_xmsgs(): the header and the text of the message at p, or no text if there is none. */
    method GetXmsgs(f: seq<byte>, p: nat, after: bool, now: int) returns (xh: Header, text: seq<byte>)
      ensures xh == if after then NewHeader(f, p) else OldHeader(f, p)
      ensures var start := p + if after then NEW_HEADER else OLD_HEADER;
        text == if Acceptable(xh, Users(udata[..]), now) then Slice(f, start, TextLength(f, start)) else []
    {
      xh := if after then NewHeader(f, p) else OldHeader(f, p);
      text := [];
      if !xh.checkbit || xh.kind > 2 {
        return;
      }
      var s := ValidUser(xh.snum);
      var r := ValidUser(xh.rnum);
      if !s && !r {
        return;
      }
      if xh.sprev > OLDXMSGSIZE || xh.snext > OLDXMSGSIZE || xh.rnext > OLDXMSGSIZE || xh.rprev > OLDXMSGSIZE {
        return;
      }
      if xh.time > now || xh.time < FIRST_TIME {
        return;
      }
      text := ReadText(f, p + if after then NEW_HEADER else OLD_HEADER);
    }

    /** The loop that reads a text byte by byte, until two NULs in a row or too many bytes. */
    method ReadText(f: seq<byte>, start: nat) returns (text: seq<byte>)
      ensures text == Slice(f, start, TextLength(f, start))
    {
      text := [];
      var idx := 0;
      while true
        invariant 0 <= idx <= MAX_X_SIZE && text == Slice(f, start, idx)
        invariant forall m :: 2 <= m <= idx ==> !TwoNuls(f, start, m)
        decreases MAX_X_SIZE - idx
      {
        text := text + [Get(f, start + idx)];
        idx := idx + 1;
        if idx > MAX_X_SIZE {
          assert NoTextAt(f, start);
          TextNone(f, start);
          return [];
        }
        if idx > 1 && text[idx - 1] == 0 && text[idx - 2] == 0 {
          assert TextAt(f, start, idx);
          TextUnique(f, start, idx);
          return;
        }
      }
    }

    /** A message goes to the end of the new file and into the map. */
    method KeepMessage(msgStart: nat, filePosition: word, xh: Header, text: seq<byte>, ghost q: seq<Record>)
      requires Maps(q) && convertedMsgs < CONV_MAX && xh.kind < 8 && Encodable(q) && xmsgdata == File(q)
      modifies posMap, this`convertedMsgs, this`xmsgdata
      ensures var g := q + [Record(msgStart, filePosition, xh, text)]; Maps(g) && Encodable(g) && xmsgdata == File(g)
      ensures |xmsgdata| == |old(xmsgdata)| + NEW_HEADER + |text|
    {
      ghost var r := Record(msgStart, filePosition, xh, text);
      StoreXmsgMap(msgStart, filePosition);
      ImageGrows(q, r);
      WrittenBehind(q, r);
      hide Image, Encoded, Bytewise;
      xmsgdata := xmsgdata + Encoded(xh) + text;
    }

    /** The first loop of rebuild_xmsgs(). */
    method FirstPass(f: seq<byte>, now: int) returns (ghost q: seq<Record>)
      requires Maps([]) && |f| <= OLDXMSGSIZE
      requires |Scan(f, FILE_START, FILE_START, Users(udata[..]), now)| <= CONV_MAX
      modifies posMap, this`convertedMsgs, this`xmsgdata, this`xcurpos
      ensures q == Scan(f, FILE_START, FILE_START, Users(udata[..]), now) && Maps(q) && Encodable(q)
      ensures xmsgdata == File(q) && xcurpos == |xmsgdata|
    {
      hide OldHeader, NewHeader, TextLength, Slice, Image, File, Users, Encoded, Scan, Acceptable, Encodable;
      ghost var users := Users(udata[..]);
      ghost var all := Scan(f, FILE_START, FILE_START, users, now);
      q := [];
      xmsgdata := [0, 0, 0, 0];
      NothingWritten();
      var filePosition, pos := FILE_START, FILE_START;
      var loc := pos;
      while loc < OLDXMSGSIZE
        invariant Maps(q) && Encodable(q) && xmsgdata == File(q) && filePosition == |xmsgdata|
        invariant Fits(pos, filePosition)
        invariant pos == loc || pos == loc + 1 <= OLDXMSGSIZE + 1
        invariant q + Scan(f, pos, filePosition, users, now) == all
        decreases SCAN_END + 1 - pos, OLDXMSGSIZE - loc
      {
        loc := pos;
        var xh, text := GetXmsgs(f, loc, false, now);
        ScanFinds(f, loc, filePosition, users, now, xh, text);
        if |text| == 0 {
          pos := loc + 1;
          continue;
        }
        var msgStart := loc;
        loc := loc + OLD_HEADER + |text|;
        pos := loc;
        ghost var r := Record(msgStart, filePosition, xh, text);
        assert q + ([r] + Scan(f, pos, filePosition + NEW_HEADER + |text|, users, now)) == all;
        KeepMessage(msgStart, filePosition, xh, text, q);
        q := q + [r];
        filePosition := filePosition + NEW_HEADER + |text|;
      }
      ScanEnds(f, pos, filePosition, users, now);
      xcurpos := filePosition;
    }

    /** The links of one message of the new file are replaced. */
    method Relink(msgStart: nat, xh: Header, ghost q: seq<Record>, ghost k: nat)
      requires Maps(q) && k < |q| && Encodable(RelinkedTo(q, k)) && xmsgdata == File(RelinkedTo(q, k))
      requires xh == q[k].h && xh.kind < 8 && msgStart == |File(RelinkedTo(q, k)[..k])|
      modifies this`xmsgdata
      ensures Encodable(RelinkedTo(q, k + 1)) && xmsgdata == File(RelinkedTo(q, k + 1))
    {
      var rprev := LookupXmsgLoc(q, xh.rprev);
      var sprev := LookupXmsgLoc(q, xh.sprev);
      var rnext := LookupXmsgLoc(q, xh.rnext);
      var snext := LookupXmsgLoc(q, xh.snext);
      var h := xh.(rprev := rprev, sprev := sprev, rnext := rnext, snext := snext);
      ghost var g := RelinkedTo(q, k);
      FileAt(g, k, h);
      assert g[k := g[k].(h := h)] == RelinkedTo(q, k + 1);
      xmsgdata := xmsgdata[..msgStart] + Encoded(h) + xmsgdata[msgStart + NEW_HEADER..];
    }

    /** One message of the new file.  Stepping on by one byte, as the first loop does where it finds no
        message, never happens here. */
    method RelinkNext(loc: nat, now: int, ghost q: seq<Record>, ghost before: int, ghost k: nat) returns (end: nat)
      requires Maps(q) && Kept(q, Users(udata[..]), before) && before <= now && k < |q| && loc == q[k].to
      requires Encodable(RelinkedTo(q, k)) && xmsgdata == File(RelinkedTo(q, k))
      modifies this`xmsgdata
      ensures Encodable(RelinkedTo(q, k + 1)) && xmsgdata == File(RelinkedTo(q, k + 1))
      ensures end == loc + NEW_HEADER + |q[k].text|
    {
      hide Kept, File, Encoded, OldHeader, NewHeader, TextLength, Slice, Users, Acceptable, Encodable, RelinkedTo;
      SecondPassFinds(q, Users(udata[..]), before, now, k);
      var xh, text := GetXmsgs(xmsgdata, loc, true, now);
      assert text != [];
      end := loc + NEW_HEADER + |text|;
      Relink(loc, xh, q, k);
    }

    /** The second loop of rebuild_xmsgs(). */
    method SecondPass(now: int, ghost q: seq<Record>, ghost before: int)
      requires Maps(q) && Kept(q, Users(udata[..]), before) && before <= now && xmsgdata == File(q)
      requires xcurpos == |xmsgdata|
      modifies this`xmsgdata
      ensures Encodable(RelinkedTo(q, |q|)) && xmsgdata == File(RelinkedTo(q, |q|))
    {
      hide Kept, File, Users, Encodable, RelinkedTo;
      var loc := FILE_START;
      ghost var k := 0;
      NothingRelinked(q, Users(udata[..]), before);
      while loc < xcurpos
        invariant 0 <= k <= |q| && Encodable(RelinkedTo(q, k)) && xmsgdata == File(RelinkedTo(q, k))
        invariant loc == if k < |q| then q[k].to else xcurpos
        decreases |q| - k
      {
        KeptPlaces(q, Users(udata[..]), before, k);
        loc := RelinkNext(loc, now, q, before, k);
        k := k + 1;
      }
      assert k < |q| ==> loc < xcurpos by {
        if k < |q| {
          KeptPlaces(q, Users(udata[..]), before, k);
        }
      }
    }

    /** update_users_pos() */
    method UpdateUsersPos(ghost q: seq<Record>)
      requires Maps(q) && posMap as object != udata as object
      modifies udata
      ensures forall i :: 0 <= i < udata.Length ==> udata[i] == Relocated(q, old(udata[i]))
      ensures Users(udata[..]) == Users(old(udata[..]))
    {
      var i := 0;
      while i < udata.Length
        invariant 0 <= i <= udata.Length && Maps(q)
        invariant forall j :: 0 <= j < udata.Length ==>
          udata[j] == if j < i then Relocated(q, old(udata[j])) else old(udata[j])
      {
        var xmaxpos := LookupXmsgLoc(q, udata[i].xmaxpos);
        udata[i] := udata[i].(xmaxpos := xmaxpos);
        var xminpos := LookupXmsgLoc(q, udata[i].xminpos);
        udata[i] := udata[i].(xminpos := xminpos);
        i := i + 1;
      }
      assert forall j :: 0 <= j < udata.Length ==> Users(udata[..])[j] == Users(old(udata[..]))[j];
    }

    /** rebuild_xmsgs(): f is the old file; the clock is read in each pass. */
    method RebuildXmsgs(f: seq<byte>, now: int, later: int) returns (ghost q: seq<Record>)
      requires Maps([]) && posMap as object != udata as object && |f| <= OLDXMSGSIZE && now <= later
      requires |Scan(f, FILE_START, FILE_START, Users(udata[..]), now)| <= CONV_MAX
      modifies this, posMap, udata
      ensures q == Scan(f, FILE_START, FILE_START, old(Users(udata[..])), now)
      ensures Encodable(RelinkedTo(q, |q|)) && xmsgdata == File(RelinkedTo(q, |q|)) && xcurpos == |xmsgdata|
      ensures forall i :: 0 <= i < udata.Length ==> udata[i] == Relocated(q, old(udata[i]))
    {
      hide File, Users, Encodable, RelinkedTo, Scan, Relocated, Kept;
      ghost var users := Users(udata[..]);
      q := FirstPass(f, now);
      ScanIsKept(f, users, now);
      UpdateUsersPos(q);
      SecondPass(later, q, now);
      RelinkedLengths(q, |q|, |q|);
      assert RelinkedTo(q, |q|)[..|q|] == RelinkedTo(q, |q|) && q[..|q|] == q;
    }
  }

  /** A user's list with its ends in the new file. */
  ghost function Relocated(q: seq<Record>, u: User): User
  {
    u.(xminpos := NewPlace(q, u.xminpos), xmaxpos := NewPlace(q, u.xmaxpos))
  }

  // ---------------------------------------------------------------- walking before and after

  /** The link a reader follows from a message. */
  function Link(h: Header, u: word, back: bool): word
  {
    if h.snum == u then (if back then h.sprev else h.snext) else (if back then h.rprev else h.rnext)
  }

  ghost predicate KeptFrom(q: seq<Record>, x: word)
  {
    exists i :: 0 <= i < |q| && q[i].from == x
  }

  /** The places u's walk from x meets in the old file, as far as the messages there were kept. */
  ghost function OldWalk(f: seq<byte>, q: seq<Record>, u: word, x: word, back: bool, n: nat): seq<word>
    decreases n
  {
    if n == 0 || x == 0 || !KeptFrom(q, x) then []
    else [x] + OldWalk(f, q, u, Link(OldHeader(f, x), u, back), back, n - 1)
  }

  /** The places u's walk from y meets in the new file. */
  ghost function NewWalk(g: seq<byte>, u: word, y: word, back: bool, n: nat): seq<word>
    decreases n
  {
    if n == 0 || y == 0 then [] else [y] + NewWalk(g, u, Link(NewHeader(g, y), u, back), back, n - 1)
  }

  ghost function NewPlaces(q: seq<Record>, w: seq<word>): (r: seq<word>)
    ensures |r| == |w|
  {
    if w == [] then [] else [NewPlace(q, w[0])] + NewPlaces(q, w[1..])
  }

  /** At the new place of a message the new file holds that message, its links rewritten. */
  lemma NewFileReads(f: seq<byte>, users: seq<word>, now: int, q: seq<Record>, i: nat)
    requires q == Scan(f, FILE_START, FILE_START, users, now) && i < |q|
    ensures Encodable(RelinkedTo(q, |q|)) && q[i].from < WORD && NewPlace(q, q[i].from) == q[i].to != 0
    ensures var g := File(RelinkedTo(q, |q|));
      && NewHeader(g, q[i].to) == Relinked(q, Record(q[i].from, q[i].to, OldHeader(f, q[i].from), q[i].text)).h
      && Slice(g, q[i].to + NEW_HEADER, |q[i].text|) == q[i].text
      && TextLength(g, q[i].to + NEW_HEADER) == |q[i].text| == TextLength(f, q[i].from + OLD_HEADER)
  {
    ScanIsKept(f, users, now);
    ScanKeeps(f, FILE_START, FILE_START, users, now);
    assert Genuine(f, q[i], users, now);
    TextUnique(f, q[i].from + OLD_HEADER, |q[i].text|);
    hide Scan, File, Encodable, NewHeader, OldHeader, TextLength, Slice, Encoded, Genuine;
    RelinkedReads(q, users, now, i);
  }

  lemma RelinkedReads(q: seq<Record>, users: seq<word>, now: int, i: nat)
    requires Kept(q, users, now) && i < |q|
    ensures Encodable(RelinkedTo(q, |q|)) && q[i].from < WORD && NewPlace(q, q[i].from) == q[i].to != 0
    ensures var g := File(RelinkedTo(q, |q|));
      && NewHeader(g, q[i].to) == Relinked(q, q[i]).h
      && Slice(g, q[i].to + NEW_HEADER, |q[i].text|) == q[i].text
      && TextLength(g, q[i].to + NEW_HEADER) == |q[i].text|
  {
    hide Scan, File, Encodable, NewHeader, TextLength, Slice, Encoded, RelinkedTo, TextAt;
    assert KeptOne(q[i], users, now);
    RelinkedLengths(q, |q|, i);
    NewPlaceOf(q, i);
    KeptPlaces(q, users, now, i);
    RelinkedOne(q, i);
    var r := RelinkedTo(q, |q|);
    FileAt(r, i, r[i].h);
    FindsBack(File(r), q[i].to, r[i]);
  }

  lemma RelinkedOne(q: seq<Record>, i: nat)
    requires i < |q|
    ensures RelinkedTo(q, |q|)[i] == Relinked(q, q[i])
  {
  }

  /** The link of a relocated message is the relocated link. */
  lemma LinksCommute(f: seq<byte>, users: seq<word>, now: int, q: seq<Record>, u: word, x: word, back: bool)
    requires q == Scan(f, FILE_START, FILE_START, users, now) && KeptFrom(q, x)
    ensures Encodable(RelinkedTo(q, |q|)) && NewPlace(q, x) != 0
    ensures Link(NewHeader(File(RelinkedTo(q, |q|)), NewPlace(q, x)), u, back)
      == NewPlace(q, Link(OldHeader(f, x), u, back))
  {
    hide Scan, File, Encodable, NewHeader, OldHeader, TextLength, Slice, Kept, RelinkedTo, NewPlace;
    var i :| 0 <= i < |q| && q[i].from == x;
    NewFileReads(f, users, now, q, i);
  }

  lemma {:induction false} WalkSteps(f: seq<byte>, g: seq<byte>, q: seq<Record>, u: word, x: word, back: bool, n: nat)
    requires forall y: word {:trigger KeptFrom(q, y)} :: KeptFrom(q, y) ==>
      NewPlace(q, y) != 0 && Link(NewHeader(g, NewPlace(q, y)), u, back) == NewPlace(q, Link(OldHeader(f, y), u, back))
    requires forall y: word {:trigger NewPlace(q, y)} :: y == 0 || !KeptFrom(q, y) ==> NewPlace(q, y) == 0
    ensures NewWalk(g, u, NewPlace(q, x), back, n) == NewPlaces(q, OldWalk(f, q, u, x, back, n))
    decreases n
  {
    hide NewHeader, OldHeader, NewPlace, Link, KeptFrom;
    if x != 0 && KeptFrom(q, x) && n > 0 {
      WalkSteps(f, g, q, u, Link(OldHeader(f, x), u, back), back, n - 1);
    }
  }

  /** Relocating commutes with walking: any walk in the new file meets the new places of what the same
      walk met in the old one, and ends where that one came to a message that was not kept. */
  lemma WalksCommute(f: seq<byte>, users: seq<word>, now: int, q: seq<Record>, u: word, x: word, back: bool, n: nat)
    requires q == Scan(f, FILE_START, FILE_START, users, now)
    ensures Encodable(RelinkedTo(q, |q|))
    ensures NewWalk(File(RelinkedTo(q, |q|)), u, NewPlace(q, x), back, n) == NewPlaces(q, OldWalk(f, q, u, x, back, n))
  {
    ScanIsKept(f, users, now);
    AllEncodable(q, users, now);
    hide Scan, File, Encodable, NewHeader, OldHeader, Kept, RelinkedTo, NewPlace,
         Link, KeptFrom, NewWalk, OldWalk, NewPlaces;
    var g := File(RelinkedTo(q, |q|));
    forall y: word | KeptFrom(q, y)
      ensures NewPlace(q, y) != 0
      ensures Link(NewHeader(g, NewPlace(q, y)), u, back) == NewPlace(q, Link(OldHeader(f, y), u, back))
    {
      LinksCommute(f, users, now, q, u, y, back);
    }
    forall y: word | y == 0 || !KeptFrom(q, y) ensures NewPlace(q, y) == 0 {
      NoPlace(q, y);
    }
    WalkSteps(f, g, q, u, x, back, n);
  }

  lemma AllEncodable(q: seq<Record>, users: seq<word>, now: int)
    requires Kept(q, users, now)
    ensures Encodable(RelinkedTo(q, |q|))
  {
  }

  lemma NoPlace(q: seq<Record>, x: word)
    ensures x == 0 || !KeptFrom(q, x) ==> NewPlace(q, x) == 0
  {
  }

  // ---------------------------------------------------------------- the second pass

  lemma NothingRelinked(q: seq<Record>, users: seq<word>, now: int)
    requires Kept(q, users, now)
    ensures Encodable(q) && RelinkedTo(q, 0) == q
    ensures if q == [] then |File(q)| == FILE_START else q[0].to == FILE_START
  {
  }

  lemma EndOf(q: seq<Record>, k: nat)
    requires Encodable(q) && k < |q|
    ensures Encodable(q[..k + 1]) && Encodable(q[..k])
    ensures |File(q[..k + 1])| == |File(q[..k])| + NEW_HEADER + |q[k].text|
  {
    hide Image;
    ImageGrows(q[..k], q[k]);
    assert q[..k + 1] == q[..k] + [q[k]];
  }

  /** The next message starts where this one ends, and the file ends where the last one does. */
  lemma KeptPlaces(q: seq<Record>, users: seq<word>, now: int, k: nat)
    requires Kept(q, users, now) && k < |q|
    ensures Encodable(q) && q[k].to + NEW_HEADER + |q[k].text| == if k + 1 < |q| then q[k + 1].to else |File(q)|
    ensures FILE_START <= q[k].to < |File(q)| && (k == 0 ==> q[k].to == FILE_START)
  {
    EndOf(q, k);
    FileAt(q, k, q[k].h);
    assert q[..|q|] == q && q[..0] == [];
    NothingWritten();
    hide File, KeptOne, Encodable;
  }

  lemma RelinkedLengths(q: seq<Record>, k: nat, i: nat)
    requires Encodable(q) && k <= |q| && i <= |q|
    ensures Encodable(RelinkedTo(q, k)) && Encodable(q[..i]) && Encodable(RelinkedTo(q, k)[..i])
    ensures |File(RelinkedTo(q, k)[..i])| == |File(q[..i])|
  {
    ImageLength(RelinkedTo(q, k)[..i], q[..i]);
  }

  lemma KeptAt(q: seq<Record>, users: seq<word>, before: int, now: int, k: nat)
    requires Kept(q, users, before) && before <= now && k < |q|
    ensures Encodable(q) && q[k].h.kind < 8 && |q[k].text| > 0 && Acceptable(q[k].h, users, now)
    ensures TextAt(q[k].text, 0, |q[k].text|) && |File(q[..k])| == q[k].to && RelinkedTo(q, k)[k] == q[k]
  {
  }

  /** Whatever links have been rewritten so far, message k reads as the first pass wrote it. */
  lemma SecondPassFinds(q: seq<Record>, users: seq<word>, before: int, now: int, k: nat)
    requires Kept(q, users, before) && before <= now && k < |q|
    ensures Encodable(q) && Encodable(RelinkedTo(q, k)) && q[k].h.kind < 8 && |q[k].text| > 0
    ensures |File(RelinkedTo(q, k)[..k])| == q[k].to && Acceptable(q[k].h, users, now)
    ensures var f := File(RelinkedTo(q, k));
      && NewHeader(f, q[k].to) == q[k].h
      && Slice(f, q[k].to + NEW_HEADER, TextLength(f, q[k].to + NEW_HEADER)) == q[k].text
  {
    hide Kept, File, Encodable, NewHeader, TextLength, Slice, Encoded, RelinkedTo;
    KeptAt(q, users, before, now, k);
    RelinkedLengths(q, k, k);
    FileAt(RelinkedTo(q, k), k, q[k].h);
    FindsBack(File(RelinkedTo(q, k)), q[k].to, q[k]);
  }

  lemma FileSplit(q: seq<Record>, k: nat)
    requires Encodable(q) && k < |q|
    ensures Encodable(q[..k]) && Encodable(q[k + 1..]) && q[k].h.kind < 8
    ensures File(q) == File(q[..k]) + (Encoded(q[k].h) + q[k].text) + Image(q[k + 1..])
  {
    ImageSplit(q, k);
    var z: seq<byte> := [0, 0, 0, 0];
    var a, b, c := Image(q[..k]), Bytewise(q[k]), Image(q[k + 1..]);
    assert File(q) == z + (a + b + c);
    hide Image, Encoded, Bytewise, File;
    assert z + (a + b + c) == z + a + b + c;
  }

  /** The bytes of message k, and how rewriting its header changes the file. */
  lemma FileAt(q: seq<Record>, k: nat, h: Header)
    requires Encodable(q) && k < |q| && h.kind < 8
    ensures Encodable(q[..k]) && |File(q[..k])| + NEW_HEADER + |q[k].text| <= |File(q)| && q[k].h.kind < 8
    ensures var f, p, e := File(q), |File(q[..k])|, |File(q[..k])| + NEW_HEADER;
      && f[p..e] == Encoded(q[k].h) && f[e..e + |q[k].text|] == q[k].text
      && Encodable(q[k := q[k].(h := h)]) && File(q[k := q[k].(h := h)]) == f[..p] + Encoded(h) + f[e..]
  {
    var g := q[k := q[k].(h := h)];
    assert Encodable(g) && g[..k] == q[..k] && g[k + 1..] == q[k + 1..];
    hide Image, Encoded, Encodable, File;
    FileSplit(q, k);
    FileSplit(g, k);
    var a, b := File(q[..k]), Image(q[k + 1..]);
    Middle(a, Encoded(q[k].h), q[k].text, b);
    Replaced(a, Encoded(q[k].h), Encoded(h), q[k].text, b);
  }

  lemma Replaced(a: seq<byte>, e: seq<byte>, d: seq<byte>, t: seq<byte>, b: seq<byte>)
    requires |d| == |e|
    ensures var f := a + (e + t) + b;
      a + (d + t) + b == f[..|a|] + d + f[|a| + |e|..]
  {
  }

  lemma ScanEnds(f: seq<byte>, p: nat, to: nat, users: seq<word>, now: int)
    requires Fits(p, to) && p >= OLDXMSGSIZE
    ensures Scan(f, p, to, users, now) == []
  {
  }

  lemma NothingWritten()
    ensures Encodable([]) && File([]) == [0, 0, 0, 0]
  {
  }

  lemma WrittenBehind(q: seq<Record>, r: Record)
    requires Encodable(q) && Encodable(q + [r]) && r.h.kind < 8 && Image(q + [r]) == Image(q) + Bytewise(r)
    ensures File(q + [r]) == File(q) + Encoded(r.h) + r.text
  {
    hide Image, Encoded;
  }

  /** There is no message at the end of the old file. */
  lemma NothingBeyond(f: seq<byte>, p: nat, users: seq<word>, now: int)
    ensures p >= |f| ==> !Acceptable(OldHeader(f, p), users, now)
  {
  }

  lemma ScanFinds(f: seq<byte>, p: nat, to: nat, users: seq<word>, now: int, xh: Header, text: seq<byte>)
    requires Fits(p, to) && p <= OLDXMSGSIZE && |f| <= OLDXMSGSIZE && xh == OldHeader(f, p)
    requires text == if Acceptable(xh, users, now) then Slice(f, p + OLD_HEADER, TextLength(f, p + OLD_HEADER)) else []
    ensures Fits(p + 1, to)
    ensures text == [] ==> Scan(f, p, to, users, now) == Scan(f, p + 1, to, users, now)
    ensures text != [] ==> p < OLDXMSGSIZE && xh.kind < 8 && |text| <= MAX_X_SIZE
    ensures text != [] ==> Fits(p + OLD_HEADER + |text|, to + NEW_HEADER + |text|)
    ensures text != [] ==> (
      Scan(f, p, to, users, now)
      == [Record(p, to, xh, text)] + Scan(f, p + OLD_HEADER + |text|, to + NEW_HEADER + |text|, users, now))
  {
    NothingBeyond(f, p, users, now);
    hide OldHeader, Slice;
    assert |text| == MessageAt(f, p, users, now);
  }

  lemma TextNone(f: seq<byte>, p: nat)
    requires NoTextAt(f, p)
    ensures TextLength(f, p) == 0
  {
  }
}
