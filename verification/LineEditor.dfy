/** The line editor in makemessage() of doc_msgs.c, as it works for everyone without the BBS client. */
module LineEditor {

  const MARGIN: nat := 80
  const BUFFER: nat := 53248
  const LIMIT: nat := 50000

  const BS: char := 8 as char
  const TAB: char := 9 as char
  const LF: char := 10 as char
  const CTRL_D: char := 4 as char
  const CTRL_R: char := 18 as char
  const CTRL_W: char := 23 as char
  const CTRL_X: char := 24 as char
  const SP: char := ' '

  // ---------------------------------------------------------------- what was written

  /** The characters that leave ink, in order. */
  function Ink(s: string): (r: string)
    ensures |r| <= |s|
  {
    if s == [] then []
    else Ink(s[..|s| - 1]) + if s[|s| - 1] == SP || s[|s| - 1] == LF then [] else [s[|s| - 1]]
  }

  lemma {:induction false} InkJoins(a: string, b: string)
    ensures Ink(a + b) == Ink(a) + Ink(b)
  {
    if b == [] {
      assert a + b == a;
    } else {
      InkJoins(a, b[..|b| - 1]);
      assert (a + b)[..|a + b| - 1] == a + b[..|b| - 1];
    }
  }

  /** Lines, each with its end. */
  function Joined(lines: seq<string>): string
  {
    if lines == [] then [] else Joined(lines[..|lines| - 1]) + lines[|lines| - 1] + [LF]
  }

  predicate Short(line: string)
  {
    |line| < MARGIN && forall i :: 0 <= i < |line| ==> line[i] >= SP
  }

  function NoTrailing(s: string): (r: string)
    ensures r <= s && (r != [] ==> r[|r| - 1] != SP) && forall i :: |r| <= i < |s| ==> s[i] == SP
  {
    if s != [] && s[|s| - 1] == SP then NoTrailing(s[..|s| - 1]) else s
  }

  /** The line without the word at its end. */
  function NoWord(s: string): (r: string)
    ensures r <= s && (r != [] ==> r[|r| - 1] == SP) && forall i :: |r| <= i < |s| ==> s[i] != SP
  {
    if s != [] && s[|s| - 1] != SP then NoWord(s[..|s| - 1]) else s
  }

  lemma {:induction false} BlankInk(s: string, n: nat)
    requires n <= |s| && forall i :: n <= i < |s| ==> s[i] == SP
    ensures Ink(s) == Ink(s[..n])
    decreases |s|
  {
    if n == |s| {
      assert s[..n] == s;
    } else {
      BlankInk(s[..|s| - 1], n);
      assert s[..|s| - 1][..n] == s[..n];
    }
  }

  /** A char is signed: what has its eighth bit set is less than a blank. */
  predicate Visible(c: char)
  {
    SP < c < 128 as char
  }

  predicate Erasing(c: char)
  {
    c == BS || c == CTRL_X || c == CTRL_W
  }

  /** The visible ones among some keys. */
  function Typed(keys: string): string
  {
    if keys == [] then [] else Typed(keys[..|keys| - 1]) + if Visible(keys[|keys| - 1]) then [keys[|keys| - 1]] else []
  }

  function Blanks(n: nat): (r: string)
    ensures |r| == n && forall i :: 0 <= i < n ==> r[i] == SP
  {
    seq(n, _ => SP)
  }

  /** What an erasing key leaves of the line. */
  function Erased(line: string, chr: char): string
  {
    if chr == BS then (if line == [] then [] else line[..|line| - 1])
    else if chr == CTRL_X then []
    else if chr == CTRL_W then NoWord(NoTrailing(line))
    else line
  }

  /** The lines completed, and the line being typed. */
  datatype Text = Text(done: seq<string>, line: string)

  function Ended(line: string): Text { Text([NoTrailing(line)], []) }

  /** What a visible character makes of a line whose last blank is at `lastspace`. */
  function Lettered(line: string, lastspace: nat, chr: char): Text
    requires lastspace <= |line| < MARGIN
  {
    if |line| + 1 < MARGIN then Text([], line + [chr])
    else if lastspace > MARGIN / 2 then Text([line[..lastspace - 1]], line[lastspace..] + [chr])
    else Text([line], [chr])
  }

  /** What a key makes of the line. */
  function Struck(line: string, lastspace: nat, cancelspace: bool, upload: bool, key: char): (r: Text)
    requires lastspace <= |line| < MARGIN
    ensures |r.done| <= 1
  {
    if key == BS || key == CTRL_X || key == CTRL_W then Text([], Erased(line, key))
    else if key == TAB && |line| < MARGIN - 8 then Text([], line + Blanks(8 - |line| % 8))
    else if key == SP then
      if cancelspace then Text([], line) else if |line| + 1 == MARGIN then Ended(line) else Text([], line + [SP])
    else if key == LF || key == TAB || (key == CTRL_D && upload) then
      if |line| > 0 || (key == LF && upload) then Ended(line) else Text([], line)
    else if Visible(key) then Lettered(line, lastspace, key)
    else Text([], line)
  }

  /** What a key does to the ink: writing and erasing are all there is. */
  function InkAfter(stored: string, line: string, chr: char): string
  {
    var kept := Ink(stored) + Ink(Erased(line, chr));
    if Visible(chr) then kept + [chr] else kept
  }

  /** The keys the editor pays attention to. */
  predicate Accepted(chr: char, upload: bool)
  {
    || SP <= chr < 128 as char || (chr == CTRL_D && upload)
    || chr == BS || chr == TAB || chr == LF || chr == CTRL_X || chr == CTRL_W || chr == CTRL_R
  }

  /** The message so far, behind `start` bytes of header, the line being typed, and the two things the
      editor remembers about it. */
  datatype Doc = Doc(start: nat, stored: string, line: string, lastspace: nat, cancelspace: bool)

  predicate Fits(d: Doc)
  {
    d.lastspace <= |d.line| < MARGIN
  }

  function Size(d: Doc): nat { d.start + |d.stored| }

  function AllInk(d: Doc): string { Ink(d.stored) + Ink(d.line) }

  /** The place of the last blank, counted from 1; 0 if there is none. */
  function LastBlank(s: string): (n: nat)
    ensures n <= |s| && (n > 0 ==> s[n - 1] == SP) && forall i :: n <= i < |s| ==> s[i] != SP
  {
    if s == [] || s[|s| - 1] == SP then |s| else LastBlank(s[..|s| - 1])
  }

  /** What `lastspace` is after a key. */
  function SpaceAfter(line: string, lastspace: nat, cancelspace: bool, upload: bool, key: char): nat
    requires lastspace <= |line| < MARGIN
  {
    if key == BS then if line != [] && |line| == lastspace then LastBlank(line[..|line| - 1]) else lastspace
    else if key == CTRL_X then 0
    else if key == CTRL_W then |Erased(line, key)|
    else if key == SP && !cancelspace then if |line| + 1 == MARGIN then 0 else |line| + 1
    else if key == SP || (key == TAB && |line| < MARGIN - 8) then lastspace
    else if key == LF || key == TAB || (key == CTRL_D && upload) then 0
    else if Visible(key) && |line| + 1 == MARGIN then 0
    else lastspace
  }

  function CancelAfter(line: string, cancelspace: bool, upload: bool, key: char): bool
  {
    if key == SP then !cancelspace && |line| + 1 == MARGIN
    else if Visible(key) || key == LF || (key == CTRL_D && upload) then false
    else cancelspace
  }

  /** A key the editor listens to. */
  function After(d: Doc, upload: bool, key: char): (r: Doc)
    requires Fits(d)
    ensures Fits(r) && r.start == d.start
  {
    var t := Struck(d.line, d.lastspace, d.cancelspace, upload, key);
    Doc(d.start, d.stored + Joined(t.done), t.line, SpaceAfter(d.line, d.lastspace, d.cancelspace, upload, key),
        CancelAfter(d.line, d.cancelspace, upload, key))
  }

  /** Once more than 50000 bytes have been written only CTRL_D is listened to. */
  predicate Heard(d: Doc, key: char)
  {
    Size(d) <= LIMIT || key == CTRL_D
  }

  function Next(d: Doc, upload: bool, key: char): (r: Doc)
    requires Fits(d)
    ensures Fits(r) && r.start == d.start
  {
    if Heard(d, key) then After(d, upload, key) else d
  }

  /** Any number of keys. */
  function Run(d: Doc, upload: bool, keys: string): (r: Doc)
    requires Fits(d)
    ensures Fits(r) && r.start == d.start
    decreases |keys|
  {
    if keys == [] then d else Next(Run(d, upload, keys[..|keys| - 1]), upload, keys[|keys| - 1])
  }

  /** The key leads to the menu behind the text. */
  predicate Ends(d: Doc, upload: bool, key: char)
  {
    Heard(d, key) && ((key == CTRL_D && upload) || (key == LF && d.line == [] && !upload))
  }

  /** The last of these keys does. */
  predicate Reaches(d: Doc, upload: bool, keys: string)
    requires Fits(d)
  {
    keys != [] && Ends(Run(d, upload, keys[..|keys| - 1]), upload, keys[|keys| - 1])
  }

  class Editor {
    const tmpstart: array<char>
    const hlen: nat
    var tmpp: nat
    const thisline: array<char>
    var lnlngth: nat
    var lastspace: nat
    var cancelspace: bool
    const upload: bool

    ghost var lines: seq<string>

    /** The line being typed. */
    function Line(): string
      requires lnlngth < thisline.Length
      reads this, thisline
    {
      thisline[1..lnlngth + 1]
    }

    /** What has been stored of the message. */
    function Stored(): string
      requires hlen <= tmpp <= tmpstart.Length
      reads this, tmpstart
    {
      tmpstart[hlen..tmpp]
    }

    function Now(): Doc
      requires hlen <= tmpp <= tmpstart.Length && lnlngth < thisline.Length
      reads this, tmpstart, thisline
    {
      Doc(hlen, Stored(), Line(), lastspace, cancelspace)
    }

    ghost predicate Shaped()
      reads this
    {
      && tmpstart.Length == BUFFER && thisline.Length == MARGIN + 1 && tmpstart != thisline
      && hlen <= tmpp <= LIMIT + 2 * MARGIN && lnlngth < MARGIN
    }

    /** Between keys: the line is short of the margin, `lastspace` is 0 or the place of a space in it,
        and what is stored are lines of at most 79 characters. */
    ghost predicate Valid()
      reads this, tmpstart, thisline
    {
      && Shaped() && (tmpp <= LIMIT + MARGIN || lnlngth == 0)
      && lastspace <= lnlngth && (lastspace > 0 ==> thisline[lastspace] == SP)
      && Short(Line()) && Stored() == Joined(lines) && forall i :: 0 <= i < |lines| ==> Short(lines[i])
    }

    constructor (header: nat, uploading: bool)
      requires header <= 300
      ensures Valid() && Stored() == [] && Line() == [] && upload == uploading && fresh(tmpstart) && fresh(thisline)
    {
      tmpstart := new char[BUFFER](_ => SP);
      thisline := new char[MARGIN + 1](_ => SP);
      hlen, tmpp, lnlngth, lastspace, cancelspace, upload, lines := header, header, 0, 0, false, uploading, [];
    }

    /** The first n characters of the line are stored, with a line end. */
    method StoreLine(n: nat)
      requires Shaped() && tmpp <= LIMIT + MARGIN && n < MARGIN && Short(thisline[1..n + 1])
      requires Stored() == Joined(lines) && forall i :: 0 <= i < |lines| ==> Short(lines[i])
      modifies this`tmpp, this`lines, tmpstart
      ensures Shaped() && tmpp == old(tmpp) + n + 1 && lines == old(lines) + [thisline[1..n + 1]]
      ensures Stored() == old(Stored()) + thisline[1..n + 1] + [LF]
      ensures Stored() == Joined(lines) && forall i :: 0 <= i < |lines| ==> Short(lines[i])
    {
      hide Joined, Short;
      ghost var s, line := Stored(), thisline[1..n + 1];
      var i := 1;
      while i <= n
        invariant 1 <= i <= n + 1 && tmpp == old(tmpp) + i - 1 && lines == old(lines)
        invariant Shaped() && Stored() == s + line[..i - 1]
      {
        Put(thisline[i]);
        assert line[..i] == line[..i - 1] + [thisline[i]];
        i := i + 1;
      }
      assert line[..i - 1] == line;
      Put(LF);
      JoinedMore(lines, line);
      lines := lines + [line];
    }

    /** *tmpp++ = c */
    method Put(c: char)
      requires Shaped() && tmpp < LIMIT + 2 * MARGIN
      modifies this`tmpp, tmpstart
      ensures Shaped() && tmpp == old(tmpp) + 1 && Stored() == old(Stored()) + [c]
    {
      tmpstart[tmpp] := c;
      tmpp := tmpp + 1;
    }

    // ---------------------------------------------------------------- erasing

    method BlankBefore(m: nat) returns (n: nat)
      requires Shaped() && m <= lnlngth
      ensures n == LastBlank(thisline[1..m + 1])
    {
      n := m;
      while n > 0 && thisline[n] != SP
        invariant n <= m && LastBlank(thisline[1..n + 1]) == LastBlank(thisline[1..m + 1])
      {
        assert thisline[1..n + 1][..n - 1] == thisline[1..n];
        n := n - 1;
      }
    }

    method Backspace()
      requires Valid()
      modifies this`lnlngth, this`lastspace
      ensures Valid() && Line() == Erased(old(Line()), BS)
      ensures lastspace == SpaceAfter(old(Line()), old(lastspace), cancelspace, upload, BS)
    {
      if lnlngth > 0 {
        ghost var l := Line();
        lnlngth := lnlngth - 1;
        assert Line() == l[..lnlngth];
        if lnlngth + 1 == lastspace {
          lastspace := BlankBefore(lastspace - 1);
          assert lastspace > 0 ==> Line()[lastspace - 1] == thisline[lastspace];
        }
      }
    }

    method EraseLine()
      requires Valid()
      modifies this`lnlngth, this`lastspace
      ensures Valid() && Line() == [] && lastspace == 0
    {
      lnlngth := 0;
      lastspace := 0;
    }

    lemma FrontOfLine(n: nat)
      requires Shaped() && n <= lnlngth
      ensures thisline[1..n + 1] == Line()[..n]
    {
    }

    method TrimBlanks() returns (n: nat)
      requires Shaped()
      ensures n <= lnlngth && thisline[1..n + 1] == NoTrailing(Line())
    {
      n := lnlngth;
      while n > 0 && thisline[n] == SP
        invariant n <= lnlngth && NoTrailing(thisline[1..n + 1]) == NoTrailing(Line())
      {
        assert thisline[1..n + 1][..n - 1] == thisline[1..n];
        n := n - 1;
      }
    }

    method TrimWord(m: nat) returns (n: nat)
      requires Shaped() && m <= lnlngth
      ensures n <= m && thisline[1..n + 1] == NoWord(thisline[1..m + 1])
    {
      n := m;
      while n > 0 && thisline[n] != SP
        invariant n <= m && NoWord(thisline[1..n + 1]) == NoWord(thisline[1..m + 1])
      {
        assert thisline[1..n + 1][..n - 1] == thisline[1..n];
        n := n - 1;
      }
    }

    method EraseWord()
      requires Valid()
      modifies this`lnlngth, this`lastspace
      ensures Valid() && Line() == NoWord(NoTrailing(old(Line()))) && lastspace == lnlngth
    {
      var m := TrimBlanks();
      var n := TrimWord(m);
      ghost var l := Line();
      lnlngth := n;
      lastspace := lnlngth;
      assert n > 0 ==> Line()[n - 1] == thisline[n];
      assert Line() == l[..n];
    }

    /** CTRL_R shows the line again, which needs a NUL behind it. */
    method Redisplay()
      requires Valid()
      modifies thisline
      ensures Valid() && Line() == old(Line())
    {
      ghost var l := Line();
      thisline[lnlngth + 1] := 0 as char;
      assert Line() == l;
    }

    // ---------------------------------------------------------------- writing

    /** One blank that a tab stands for; `lastspace` does not notice it. */
    method Blank()
      requires Valid() && tmpp <= LIMIT && lnlngth + 1 < MARGIN
      modifies this`lnlngth, thisline
      ensures Valid() && lnlngth == old(lnlngth) + 1 && Line() == old(Line()) + [SP] && Ink(Line()) == Ink(old(Line()))
    {
      hide Joined, Ink;
      ghost var l := Line();
      BlankAdded(l);
      lnlngth := lnlngth + 1;
      thisline[lnlngth] := SP;
      assert Line() == l + [SP];
    }

    /** A tab, away from the margin: blanks up to the next eighth column. */
    method TabBlanks()
      requires Valid() && tmpp <= LIMIT && lnlngth < MARGIN - 8
      modifies this`lnlngth, thisline
      ensures Valid() && Ink(Line()) == Ink(old(Line())) && lnlngth % 8 == 0
      ensures Line() == old(Line()) + Blanks(8 - old(lnlngth) % 8)
    {
      hide Ink, Joined, Blanks, Short;
      BlanksMore(Line(), 0);
      Blank();
      while lnlngth % 8 != 0
        invariant Valid() && tmpp <= LIMIT && old(lnlngth) < lnlngth <= MARGIN - 8 && Ink(Line()) == Ink(old(Line()))
        invariant lnlngth <= old(lnlngth) + 8 - old(lnlngth) % 8
        invariant Line() == old(Line()) + Blanks(lnlngth - old(lnlngth))
        decreases MARGIN - lnlngth
      {
        BlanksMore(old(Line()), lnlngth - old(lnlngth));
        Blank();
      }
    }

    /** The line is stored without the blanks at its end. */
    method EndLine()
      requires Valid() && tmpp <= LIMIT + MARGIN
      modifies this`tmpp, this`lines, this`lnlngth, this`lastspace, tmpstart
      ensures Valid() && Line() == [] && lastspace == 0 && old(tmpp) <= tmpp <= old(tmpp) + MARGIN
      ensures lines == old(lines) + [NoTrailing(old(Line()))]
      ensures Ink(Stored()) == Ink(old(Stored())) + Ink(old(Line()))
    {
      hide Joined, Ink, NoTrailing;
      ghost var s, l := Stored(), Line();
      var n := TrimBlanks();
      FrontOfLine(n);
      TrimmedInk(s, l, n);
      StoreLine(n);
      lastspace, lnlngth := 0, 0;
    }

    /** A blank, which at the margin becomes a line end and swallows a blank that follows. */
    method WriteBlank()
      requires Valid() && tmpp <= LIMIT
      modifies this`tmpp, this`lines, this`lnlngth, this`lastspace, this`cancelspace, tmpstart, thisline
      ensures Valid() && old(tmpp) <= tmpp <= old(tmpp) + MARGIN
      ensures old(lnlngth) + 1 < MARGIN ==>
        && Line() == old(Line()) + [SP] && lines == old(lines) && lastspace == lnlngth
        && cancelspace == old(cancelspace)
      ensures old(lnlngth) + 1 == MARGIN ==>
        Line() == [] && lines == old(lines) + [NoTrailing(old(Line()))] && cancelspace && lastspace == 0
      ensures Ink(Stored()) + Ink(Line()) == Ink(old(Stored())) + Ink(old(Line()))
    {
      hide Joined, Ink;
      ghost var l := Line();
      NoInk();
      BlankAdded(l);
      if lnlngth + 1 == MARGIN {
        cancelspace := true;
        EndLine();
      } else {
        lnlngth := lnlngth + 1;
        lastspace := lnlngth;
        thisline[lnlngth] := SP;
        assert Line() == l + [SP];
      }
    }

    /** The word behind the last blank moves to the front. */
    method Shift() returns (n: nat)
      requires Shaped() && lnlngth == MARGIN - 1 && 0 < lastspace < MARGIN
      modifies thisline
      ensures n == MARGIN - lastspace && thisline[1..n] == old(Line())[lastspace..]
    {
      ghost var l := Line();
      n := 1;
      while n + lastspace < MARGIN
        invariant 1 <= n <= MARGIN - lastspace
        invariant forall k :: 1 <= k < n ==> thisline[k] == l[k + lastspace - 1]
        invariant forall k :: n <= k < MARGIN ==> thisline[k] == l[k - 1]
      {
        thisline[n] := thisline[n + lastspace];
        n := n + 1;
      }
      assert thisline[1..n] == l[lastspace..];
    }

    /** The last word goes to a new line, behind which the character is written. */
    method WrapWord(chr: char)
      requires Valid() && tmpp <= LIMIT && lnlngth == MARGIN - 1 && lastspace > MARGIN / 2 && chr > SP
      modifies this`tmpp, this`lines, this`lnlngth, this`lastspace, tmpstart, thisline
      ensures lines == old(lines) + [old(Line()[..lastspace - 1])] && lnlngth < MARGIN
      ensures Line() == old(Line())[old(lastspace)..] + [chr]
      ensures Valid() && lastspace == 0 && old(tmpp) <= tmpp <= old(tmpp) + MARGIN
      ensures Ink(Stored()) + Ink(Line()) == Ink(old(Stored())) + Ink(old(Line())) + [chr]
    {
      hide Joined, Ink;
      ghost var s, l := Stored(), Line();
      FrontOfLine(lastspace - 1);
      StoreLine(lastspace - 1);
      WrappedInk(s, l, lastspace, chr);
      assert Line() == l;
      var n := Shift();
      ghost var moved := thisline[1..n];
      thisline[n] := chr;
      assert thisline[1..n + 1] == moved + [chr];
      assert thisline[1..n + 1] == l[lastspace..] + [chr];
      lnlngth, lastspace := n, 0;
    }

    /** A line without a blank to break it at is broken at the margin. */
    method WrapHard(chr: char)
      requires Valid() && tmpp <= LIMIT && lnlngth == MARGIN - 1 && chr > SP
      modifies this`tmpp, this`lines, this`lnlngth, this`lastspace, tmpstart, thisline
      ensures lines == old(lines) + [old(Line())] && lnlngth == 1 && Line() == [chr]
      ensures Valid() && lastspace == 0 && old(tmpp) <= tmpp <= old(tmpp) + MARGIN
      ensures Ink(Stored()) + Ink(Line()) == Ink(old(Stored())) + Ink(old(Line())) + [chr]
    {
      hide Joined, Ink;
      ghost var s, l := Stored(), Line();
      StoreLine(MARGIN - 1);
      lnlngth, lastspace := 1, 0;
      thisline[1] := chr;
      assert Line() == [chr];
      BrokenInk(s, l, chr);
    }

    /** A visible character, before which a full line is broken: at its last blank if that is in its
        right half, otherwise at the margin. */
    method Write(chr: char)
      requires Valid() && tmpp <= LIMIT && chr > SP
      modifies this`tmpp, this`lines, this`lnlngth, this`lastspace, tmpstart, thisline
      ensures Valid() && old(tmpp) <= tmpp <= old(tmpp) + MARGIN
      ensures var r := Lettered(old(Line()), old(lastspace), chr); lines == old(lines) + r.done && Line() == r.line
      ensures lastspace == if old(lnlngth) + 1 == MARGIN then 0 else old(lastspace)
      ensures Ink(Stored()) + Ink(Line()) == Ink(old(Stored())) + Ink(old(Line())) + [chr]
    {
      hide Joined, Ink;
      if lnlngth + 1 == MARGIN {
        if lastspace > MARGIN / 2 {
          WrapWord(chr);
        } else {
          assert Line()[..MARGIN - 1] == Line();
          WrapHard(chr);
        }
      } else {
        ghost var s, l := Stored(), Line();
        lnlngth := lnlngth + 1;
        thisline[lnlngth] := chr;
        assert Line() == l + [chr];
        WrittenInk(l, chr);
        assert lines + [] == lines;
      }
    }

    // ---------------------------------------------------------------- keys

    /** A key that erases or shows; says whether it was one. */
    method EditingKey(chr: char) returns (done: bool)
      requires Valid()
      modifies this`lnlngth, this`lastspace, thisline
      ensures Valid() && done == (chr == BS || chr == CTRL_X || chr == CTRL_W || chr == CTRL_R)
      ensures !done ==> lnlngth == old(lnlngth) && lastspace == old(lastspace)
      ensures done ==> lastspace == SpaceAfter(old(Line()), old(lastspace), cancelspace, upload, chr)
      ensures Line() == Erased(old(Line()), chr) && Stored() == old(Stored())
    {
      hide Joined;
      done := true;
      if chr == BS {
        Backspace();
      } else if chr == CTRL_X {
        EraseLine();
      } else if chr == CTRL_W {
        EraseWord();
      } else if chr == CTRL_R {
        Redisplay();
      } else {
        done := false;
      }
    }

    /** A line end or the end of the message; says whether the menu is reached. */
    method EndKey(chr: char) returns (menu: bool)
      requires Valid() && (tmpp <= LIMIT || chr == CTRL_D) && (chr == LF || chr == CTRL_D)
      modifies this`tmpp, this`lines, this`lnlngth, this`lastspace, tmpstart
      ensures Valid() && old(tmpp) <= tmpp <= old(tmpp) + MARGIN && Line() == [] && lastspace == 0
      ensures Ink(Stored()) + Ink(Line()) == Ink(old(Stored())) + Ink(old(Line()))
      ensures menu == (chr == CTRL_D || (old(lnlngth) == 0 && !upload))
      ensures lines == old(lines) + if old(lnlngth) > 0 || (chr == LF && upload) then [NoTrailing(old(Line()))] else []
    {
      hide Joined, Ink;
      NoInk();
      assert lnlngth == 0 ==> Line() == [];
      if lnlngth > 0 || (chr == LF && upload) {
        var save := lnlngth;
        EndLine();
        if chr == LF && (save > 0 || upload) {
          return false;
        }
      }
      return true;
    }

    /** A tab away from the margin, or a blank, which is swallowed behind a line that a blank has ended. */
    method TypeBlank(key: char)
      requires Valid() && tmpp <= LIMIT && ((key == TAB && lnlngth < MARGIN - 8) || key == SP)
      modifies this`tmpp, this`lines, this`lnlngth, this`lastspace, this`cancelspace, tmpstart, thisline
      ensures Valid() && old(tmpp) <= tmpp <= old(tmpp) + MARGIN
      ensures var r := Struck(old(Line()), old(lastspace), old(cancelspace), upload, key);
        lines == old(lines) + r.done && Line() == r.line
      ensures lastspace == SpaceAfter(old(Line()), old(lastspace), old(cancelspace), upload, key)
      ensures cancelspace == CancelAfter(old(Line()), old(cancelspace), upload, key)
    {
      hide Joined, Ink, Short, Lettered, NoTrailing, Blanks;
      assert lines + [] == lines;
      if key == TAB {
        TabBlanks();
      } else if cancelspace {
        cancelspace := false;
      } else {
        WriteBlank();
      }
    }

    /** A key that writes a character, or ends something. */
    method Type(key: char) returns (menu: bool)
      requires Valid() && (tmpp <= LIMIT || key == CTRL_D) && Accepted(key, upload) && key != SP
      requires key != BS && key != CTRL_X && key != CTRL_W && key != CTRL_R && (key == TAB ==> lnlngth >= MARGIN - 8)
      modifies this`tmpp, this`lines, this`lnlngth, this`lastspace, this`cancelspace, tmpstart, thisline
      ensures Valid() && old(tmpp) <= tmpp <= old(tmpp) + MARGIN
      ensures var r := Struck(old(Line()), old(lastspace), old(cancelspace), upload, key);
        lines == old(lines) + r.done && Line() == r.line
      ensures lastspace == SpaceAfter(old(Line()), old(lastspace), old(cancelspace), upload, key)
      ensures cancelspace == CancelAfter(old(Line()), old(cancelspace), upload, key)
      ensures menu <==> (key == CTRL_D && upload) || (key == LF && old(lnlngth) == 0 && !upload)
    {
      hide Joined, Ink, Short, Lettered, NoTrailing;
      menu := false;
      var chr := if key == TAB then LF else key;
      if key != TAB {
        cancelspace := false;
      }
      if chr == LF || chr == CTRL_D {
        menu := EndKey(chr);
      } else {
        Write(chr);
      }
    }

    /** One key.  Whatever it is, the line stays short of the margin, only whole lines are stored, and
        ink is neither lost nor doubled nor moved: a written character adds its own, an erasing key takes
        away what it erases, and no wrapping, tab, line end or blank changes any of it. */
    method Key(key: char) returns (menu: bool)
      requires Valid() && (tmpp <= LIMIT || key == CTRL_D)
      modifies this`tmpp, this`lines, this`lnlngth, this`lastspace, this`cancelspace, tmpstart, thisline
      ensures Valid() && old(tmpp) <= tmpp <= old(tmpp) + MARGIN
      ensures var r := Struck(old(Line()), old(lastspace), old(cancelspace), upload, key);
        lines == old(lines) + r.done && Line() == r.line
      ensures Ink(Stored()) + Ink(Line()) == InkAfter(old(Stored()), old(Line()), key)
      ensures lastspace == SpaceAfter(old(Line()), old(lastspace), old(cancelspace), upload, key)
      ensures cancelspace == CancelAfter(old(Line()), old(cancelspace), upload, key)
      ensures !Accepted(key, upload) ==>
        !menu && Line() == old(Line()) && Stored() == old(Stored()) && tmpp == old(tmpp)
      ensures Now() == After(old(Now()), upload, key) && menu == Ends(old(Now()), upload, key)
    {
      hide Joined, Ink, Short, Lettered, NoTrailing, InkAfter, Blanks;
      menu := false;
      assert lines + [] == lines;
      if !Accepted(key, upload) {
        Ignored(Now(), upload, key);
        KeyInk(Now(), upload, key);
        return;
      }
      KeyInk(Now(), upload, key);
      var done := EditingKey(key);
      if !done {
        assert Erased(Line(), key) == Line();
        if (key == TAB && lnlngth < MARGIN - 8) || key == SP {
          TypeBlank(key);
        } else {
          menu := Type(key);
        }
      }
      hide Struck, SpaceAfter, CancelAfter, InkAfter;
      JoinedFew(old(lines), Struck(old(Line()), old(lastspace), old(cancelspace), upload, key).done);
    }

    /** Any number of keys, up to the menu. */
    method Edit(keys: string) returns (menu: bool, used: nat)
      requires Valid()
      modifies this`tmpp, this`lines, this`lnlngth, this`lastspace, this`cancelspace, tmpstart, thisline
      ensures Valid() && used <= |keys| && (!menu ==> used == |keys|)
      ensures Now() == Run(old(Now()), upload, keys[..used]) && menu == Reaches(old(Now()), upload, keys[..used])
      ensures forall i :: 0 <= i < used ==> !Reaches(old(Now()), upload, keys[..i])
    {
      hide Joined, Ink, Short, Struck, After, Reaches, Run;
      RunNone(Now(), upload, keys);
      ghost var d := Now();
      used, menu := 0, false;
      while used < |keys| && !menu
        invariant Valid() && used <= |keys| && Fits(d)
        invariant Now() == Run(d, upload, keys[..used]) && menu == Reaches(d, upload, keys[..used])
        invariant forall i :: 0 <= i < used ==> !Reaches(d, upload, keys[..i])
        decreases |keys| - used
      {
        RunMore(d, upload, keys, used);
        if tmpp <= LIMIT || keys[used] == CTRL_D {
          menu := Key(keys[used]);
        }
        used := used + 1;
      }
    }
  }

  lemma JoinedMore(lines: seq<string>, line: string)
    ensures Joined(lines + [line]) == Joined(lines) + line + [LF]
  {
  }

  lemma JoinedOne(line: string)
    ensures Joined([]) == [] && Joined([line]) == line + [LF]
  {
    JoinedMore([], line);
    assert [] + [line] == [line] && [] + line == line;
  }

  lemma JoinedFew(lines: seq<string>, more: seq<string>)
    requires |more| <= 1
    ensures Joined(lines + more) == Joined(lines) + Joined(more)
  {
    hide Joined;
    if more == [] {
      JoinedOne([]);
      assert lines + more == lines && Joined(lines) + [] == Joined(lines);
    } else {
      JoinedMore(lines, more[0]);
      JoinedOne(more[0]);
      assert more == [more[0]] && Joined(lines) + (more[0] + [LF]) == Joined(lines) + more[0] + [LF];
    }
  }

  /** What the editor pays no attention to changes nothing. */
  lemma Ignored(d: Doc, upload: bool, key: char)
    requires Fits(d) && !Accepted(key, upload)
    ensures After(d, upload, key) == d && !Ends(d, upload, key)
  {
    assert d.stored + [] == d.stored;
  }

  // ---------------------------------------------------------------- any number of keys

  lemma RunMore(d: Doc, upload: bool, keys: string, n: nat)
    requires Fits(d) && n < |keys|
    ensures var e := Run(d, upload, keys[..n]);
      && Run(d, upload, keys[..n + 1]) == Next(e, upload, keys[n])
      && Reaches(d, upload, keys[..n + 1]) == Ends(e, upload, keys[n])
  {
    assert keys[..n + 1][..n] == keys[..n];
  }

  lemma RunNone(d: Doc, upload: bool, keys: string)
    requires Fits(d)
    ensures keys[..0] == [] && Run(d, upload, []) == d && !Reaches(d, upload, [])
  {
  }

  lemma PrefixInk(line: string, n: nat)
    requires n <= |line|
    ensures Ink(line[..n]) <= Ink(line) && |Ink(line)| <= |Ink(line[..n])| + |line| - n
  {
    InkJoins(line[..n], line[n..]);
    assert line == line[..n] + line[n..];
    hide Ink;
  }

  lemma ErasedPrefix(line: string, key: char)
    ensures Erased(line, key) <= line && (!Erasing(key) ==> Erased(line, key) == line)
    ensures key == BS ==> |line| <= |Erased(line, key)| + 1
  {
  }

  /** How much of the ink of the line an erasing key takes away. */
  function Rubbed(line: string, key: char): (n: nat)
  {
    assert Erased(line, key) <= line && Ink(Erased(line, key)) <= Ink(line) by {
      ErasedPrefix(line, key);
      PrefixInk(line, |Erased(line, key)|);
      assert line[..|Erased(line, key)|] == Erased(line, key);
    }
    |Ink(line)| - |Ink(Erased(line, key))|
  }

  /** A backspace takes one character at most. */
  lemma BackspaceRubsOne(line: string)
    ensures Rubbed(line, BS) <= 1 && Rubbed(line, CTRL_X) == |Ink(line)|
  {
    PrefixInk(line, |Erased(line, BS)|);
  }

  predicate Sane(d: Doc)
  {
    Fits(d) && (d.lastspace > 0 ==> d.line[d.lastspace - 1] == SP)
  }

  /** `lastspace` is 0 or the place of a blank in the line. */
  lemma AfterSane(d: Doc, upload: bool, key: char)
    requires Sane(d)
    ensures Sane(After(d, upload, key))
  {
    hide Joined;
    ErasedPrefix(d.line, key);
  }

  lemma StoredInk(stored: string, more: string)
    ensures Ink(stored) <= Ink(stored + more)
  {
    InkJoins(stored, more);
    hide Ink;
  }

  lemma KeyInk(d: Doc, upload: bool, key: char)
    requires Sane(d)
    ensures AllInk(After(d, upload, key)) == InkAfter(d.stored, d.line, key)
  {
    hide Ink, Joined, Struck, Erased;
    var t := Struck(d.line, d.lastspace, d.cancelspace, upload, key);
    InkJoins(d.stored, Joined(t.done));
    StruckInk(d, upload, key);
    ErasedPrefix(d.line, key);
    assert Ink(d.stored) + (Ink(Joined(t.done)) + Ink(t.line)) == Ink(d.stored) + Ink(Joined(t.done)) + Ink(t.line);
    assert Ink(d.stored) + (Ink(d.line) + [key]) == Ink(d.stored) + Ink(d.line) + [key];
  }

  /** A key the editor listens to adds its own ink, or takes away what it rubs out of the line being
      typed; what has been stored stays. */
  lemma AfterInk(d: Doc, upload: bool, key: char)
    requires Sane(d)
    ensures var e := After(d, upload, key);
      && Ink(d.stored) <= Ink(e.stored) && Rubbed(d.line, key) <= |Ink(d.line)|
      && AllInk(e) == if Visible(key) then AllInk(d) + [key] else AllInk(d)[..|AllInk(d)| - Rubbed(d.line, key)]
  {
    hide Ink, Joined, Struck, Erased;
    var t := Struck(d.line, d.lastspace, d.cancelspace, upload, key);
    StoredInk(d.stored, Joined(t.done));
    KeyInk(d, upload, key);
    var erased := Erased(d.line, key);
    ErasedPrefix(d.line, key);
    PrefixInk(d.line, |erased|);
    assert d.line[..|erased|] == erased;
    assert Ink(d.stored) + Ink(erased) == (Ink(d.stored) + Ink(d.line))[..|Ink(d.stored)| + |Ink(erased)|];
  }

  /** The lines completed and the line left hold the ink of the line before, but for what was added or
      erased. */
  lemma StruckInk(d: Doc, upload: bool, key: char)
    requires Sane(d)
    ensures var t := Struck(d.line, d.lastspace, d.cancelspace, upload, key);
      Ink(Joined(t.done)) + Ink(t.line) == if Visible(key) then Ink(d.line) + [key] else Ink(Erased(d.line, key))
  {
    hide Ink, Joined, NoTrailing, NoWord, Lettered;
    NoInk();
    JoinedOne(d.line);
    EndedInk(d.line);
    BlankAdded(d.line);
    BlanksInk(d.line, 8 - |d.line| % 8);
    if Visible(key) {
      LetteredInk(d.line, d.lastspace, key);
    }
  }

  lemma EndedInk(line: string)
    ensures Ink(Joined([NoTrailing(line)])) == Ink(line)
  {
    hide Joined, Ink;
    var l := NoTrailing(line);
    JoinedOne(l);
    NoInk();
    assert line[..|l|] == l && [] + l == l && [] + l + [LF] == l + [LF] && [] + Ink(line) == Ink(line);
    TrimmedInk([], line, |l|);
  }

  lemma BlanksMore(line: string, n: nat)
    ensures (line + Blanks(n)) + [SP] == line + Blanks(n + 1) && (n == 0 ==> line + Blanks(n) == line)
  {
    assert Blanks(n) + [SP] == Blanks(n + 1);
  }

  lemma BlanksInk(line: string, n: nat)
    ensures Ink(line + Blanks(n)) == Ink(line)
  {
    BlankInk(line + Blanks(n), |line|);
    assert (line + Blanks(n))[..|line|] == line;
  }

  lemma LetteredInk(line: string, lastspace: nat, chr: char)
    requires lastspace <= |line| < MARGIN && (lastspace > 0 ==> line[lastspace - 1] == SP) && chr > SP
    ensures var t := Lettered(line, lastspace, chr); Ink(Joined(t.done)) + Ink(t.line) == Ink(line) + [chr]
  {
    hide Ink, Joined;
    if |line| + 1 < MARGIN {
      LetterAdded(line, chr);
    } else if lastspace > MARGIN / 2 {
      WrappedAlone(line, lastspace, chr);
    } else {
      BrokenAlone(line, chr);
    }
  }

  lemma LetterAdded(line: string, chr: char)
    requires chr > SP
    ensures Ink(Joined([])) + Ink(line + [chr]) == Ink(line) + [chr]
  {
    hide Ink, Joined;
    NoInk();
    JoinedOne(line);
    WrittenInk(line, chr);
    assert [] + (Ink(line) + [chr]) == Ink(line) + [chr];
  }

  lemma WrappedAlone(line: string, at: nat, chr: char)
    requires 0 < at <= |line| && line[at - 1] == SP && chr > SP
    ensures Ink(Joined([line[..at - 1]])) + Ink(line[at..] + [chr]) == Ink(line) + [chr]
  {
    hide Ink, Joined;
    NoInk();
    JoinedOne(line[..at - 1]);
    WrappedInk([], line, at, chr);
    assert [] + line[..at - 1] == line[..at - 1] && [] + Ink(line) == Ink(line);
  }

  lemma BrokenAlone(line: string, chr: char)
    requires chr > SP
    ensures Ink(Joined([line])) + Ink([chr]) == Ink(line) + [chr]
  {
    hide Ink, Joined;
    NoInk();
    JoinedOne(line);
    BrokenInk([], line, chr);
    assert [] + line == line && [] + Ink(line) == Ink(line);
  }

  /** The ink there should be after some keys: every visible one is added at the end, and every erasing
      one takes its share of the line being typed away from the end. */
  function Net(d: Doc, upload: bool, keys: string): string
    requires Fits(d)
    decreases |keys|
  {
    if keys == [] then AllInk(d) else
    var n := |keys| - 1;
    var ink, e := Net(d, upload, keys[..n]), Run(d, upload, keys[..n]);
    if !Heard(e, keys[n]) then ink
    else if Visible(keys[n]) then ink + [keys[n]]
    else if Rubbed(e.line, keys[n]) <= |ink| then ink[..|ink| - Rubbed(e.line, keys[n])]
    else []
  }

  lemma NextInk(e: Doc, upload: bool, key: char)
    requires Sane(e)
    ensures Sane(Next(e, upload, key)) && Ink(e.stored) <= Ink(Next(e, upload, key).stored)
    ensures AllInk(Next(e, upload, key)) ==
      if !Heard(e, key) then AllInk(e)
      else if Visible(key) then AllInk(e) + [key]
      else if Rubbed(e.line, key) <= |AllInk(e)| then AllInk(e)[..|AllInk(e)| - Rubbed(e.line, key)]
      else []
  {
    hide Sane, After, Ink, Visible, Rubbed;
    AfterSane(e, upload, key);
    AfterInk(e, upload, key);
  }

  /** Over any keys whatever the ink is what was typed, net of what was erased, and no key takes away
      anything of what has been stored. */
  lemma {:induction false} RunInk(d: Doc, upload: bool, keys: string)
    requires Sane(d)
    ensures Sane(Run(d, upload, keys)) && AllInk(Run(d, upload, keys)) == Net(d, upload, keys)
    ensures Ink(d.stored) <= Ink(Run(d, upload, keys).stored)
    decreases |keys|
  {
    hide Next, AllInk, Visible, Rubbed, Ink, Heard;
    if keys != [] {
      var n := |keys| - 1;
      RunInk(d, upload, keys[..n]);
      NextInk(Run(d, upload, keys[..n]), upload, keys[n]);
    }
  }

  /** The keys that were listened to. */
  function Listened(d: Doc, upload: bool, keys: string): string
    requires Fits(d)
    decreases |keys|
  {
    if keys == [] then [] else
    var n := |keys| - 1;
    Listened(d, upload, keys[..n]) + if Heard(Run(d, upload, keys[..n]), keys[n]) then [keys[n]] else []
  }

  /** As long as nothing is erased the ink is what was typed, as far as it was listened to. */
  lemma {:induction false} NetTyped(d: Doc, upload: bool, keys: string)
    requires Fits(d) && forall i :: 0 <= i < |keys| ==> !Erasing(keys[i])
    ensures Net(d, upload, keys) == AllInk(d) + Typed(Listened(d, upload, keys))
    decreases |keys|
  {
    if keys == [] {
      assert AllInk(d) + Typed([]) == AllInk(d);
    } else {
      var n := |keys| - 1;
      var before := keys[..n];
      NetTyped(d, upload, before);
      hide AllInk, Run, Erased, Ink, Rubbed;
      var e, l := Run(d, upload, before), Listened(d, upload, before);
      RubsNothing(e.line, keys[n]);
      TypedOne(AllInk(d), l, keys[n]);
    }
  }

  lemma RubsNothing(line: string, key: char)
    ensures !Erasing(key) ==> Rubbed(line, key) == 0
  {
    ErasedPrefix(line, key);
  }

  lemma TypedOne(ink: string, l: string, key: char)
    ensures l + [] == l && ink + Typed(l + [key]) == if Visible(key) then ink + Typed(l) + [key] else ink + Typed(l)
    ensures (ink + Typed(l))[..|ink + Typed(l)| - 0] == ink + Typed(l)
  {
    assert (l + [key])[..|l|] == l;
    assert ink + (Typed(l) + [key]) == ink + Typed(l) + [key] && Typed(l) + [] == Typed(l);
  }

  // ---------------------------------------------------------------- whether the editor can be left

  /** To somebody who does not upload the editor is deaf once too much has been written. */
  lemma {:induction false} Deaf(d: Doc, keys: string)
    requires Fits(d) && Size(d) > LIMIT
    ensures Run(d, false, keys) == d
    decreases |keys|
  {
    if keys != [] {
      Deaf(d, keys[..|keys| - 1]);
      Ignored(d, false, CTRL_D);
    }
  }

  /** The menu can be reached exactly if not too much has been written yet, or by an uploader: at any
      time before the limit, erasing the line and ending it does. */
  lemma MenuReachable(d: Doc, upload: bool)
    requires Fits(d)
    ensures (exists keys :: Reaches(d, upload, keys)) <==> Size(d) <= LIMIT || upload
  {
    RunNone(d, upload, [CTRL_D]);
    if upload {
      RunMore(d, upload, [CTRL_D], 0);
      assert [CTRL_D][..1] == [CTRL_D] && Reaches(d, upload, [CTRL_D]);
    } else if Size(d) <= LIMIT {
      var keys := [CTRL_X, LF];
      RunMore(d, upload, keys, 0);
      RunMore(d, upload, keys, 1);
      assert keys[..0] == [] && keys[..2] == keys && d.stored + Joined([]) == d.stored;
      assert Reaches(d, upload, keys);
    } else {
      forall keys ensures !Reaches(d, upload, keys) {
        if keys != [] {
          Deaf(d, keys[..|keys| - 1]);
        }
      }
    }
  }

  lemma {:induction false} RunJoins(d: Doc, upload: bool, a: string, b: string)
    requires Fits(d)
    ensures Run(d, upload, a + b) == Run(Run(d, upload, a), upload, b)
    ensures b != [] ==> Reaches(d, upload, a + b) == Reaches(Run(d, upload, a), upload, b)
    decreases |b|
  {
    if b == [] {
      assert a + b == a;
    } else {
      var n := |b| - 1;
      assert (a + b)[..|a + b| - 1] == a + b[..n];
      RunJoins(d, upload, a, b[..n]);
    }
  }

  /** None of the keys leads to the menu. */
  predicate Stays(d: Doc, upload: bool, keys: string)
    requires Fits(d)
  {
    forall n :: 0 < n <= |keys| ==> !Reaches(d, upload, keys[..n])
  }

  lemma StaysJoins(d: Doc, upload: bool, a: string, b: string)
    requires Fits(d) && Stays(d, upload, a) && Stays(Run(d, upload, a), upload, b)
    ensures Stays(d, upload, a + b)
  {
    hide Run, Reaches;
    forall n | 0 < n <= |a + b| ensures !Reaches(d, upload, (a + b)[..n]) {
      if n <= |a| {
        assert (a + b)[..n] == a[..n];
      } else {
        assert (a + b)[..n] == a + b[..n - |a|];
        RunJoins(d, upload, a, b[..n - |a|]);
      }
    }
  }

  lemma OneLetter(d: Doc)
    requires Fits(d) && d.line == [] && Size(d) <= LIMIT
    ensures Next(d, false, 'a').line == "a" && Next(d, false, 'a').stored == d.stored && !Ends(d, false, 'a')
  {
    assert d.stored + Joined([]) == d.stored;
  }

  lemma OneEnd(d: Doc)
    requires Fits(d) && d.line == "a" && Size(d) <= LIMIT
    ensures Next(d, false, LF).line == [] && |Next(d, false, LF).stored| == |d.stored| + 2 && !Ends(d, false, LF)
  {
    JoinedOne("a");
  }

  /** A line of one letter. */
  lemma OneLine(d: Doc)
    requires Fits(d) && d.line == [] && Size(d) <= LIMIT
    ensures var e := Run(d, false, ['a', LF]);
      e.line == [] && Size(e) == Size(d) + 2 && Stays(d, false, ['a', LF])
  {
    hide Next, Ends;
    var keys := ['a', LF];
    RunNone(d, false, keys);
    RunMore(d, false, keys, 0);
    RunMore(d, false, keys, 1);
    assert keys[..0] == [] && keys[..2] == keys;
    OneLetter(d);
    OneEnd(Next(d, false, 'a'));
  }

  lemma {:induction false} FillsUp(d: Doc) returns (keys: string)
    requires Fits(d) && d.line == []
    ensures Size(Run(d, false, keys)) > LIMIT && Stays(d, false, keys)
    decreases LIMIT + 1 - Size(d)
  {
    keys := [];
    if Size(d) <= LIMIT {
      OneLine(d);
      hide Run, Stays;
      var rest := FillsUp(Run(d, false, ['a', LF]));
      keys := ['a', LF] + rest;
      RunJoins(d, false, ['a', LF], rest);
      StaysJoins(d, false, ['a', LF], rest);
    } else {
      RunNone(d, false, keys);
    }
  }

  lemma Cleared(d: Doc)
    requires Fits(d) && Size(d) <= LIMIT
    ensures Run(d, false, [CTRL_X]).line == [] && Stays(d, false, [CTRL_X])
  {
    RunNone(d, false, [CTRL_X]);
    RunMore(d, false, [CTRL_X], 0);
    assert [CTRL_X][..1] == [CTRL_X];
  }

  /** From wherever one is, somebody who does not upload can type on until no key leads out any more. */
  lemma NoWayOut(d: Doc)
    requires Fits(d)
    ensures exists keys :: (
      && Stays(d, false, keys) && Size(Run(d, false, keys)) > LIMIT
      && forall more :: !Reaches(Run(d, false, keys), false, more))
  {
    hide Run, Reaches;
    var keys := [];
    RunNone(d, false, keys);
    if Size(d) <= LIMIT {
      hide Stays;
      Cleared(d);
      var rest := FillsUp(Run(d, false, [CTRL_X]));
      RunJoins(d, false, [CTRL_X], rest);
      StaysJoins(d, false, [CTRL_X], rest);
      keys := [CTRL_X] + rest;
    }
    MenuReachable(Run(d, false, keys), false);
    assert Stays(d, false, keys) && Size(Run(d, false, keys)) > LIMIT;
  }

  lemma NoInk()
    ensures Ink([]) == []
  {
  }

  lemma OneInk(c: char)
    ensures Ink([c]) == if c == SP || c == LF then [] else [c]
  {
  }

  lemma WrittenInk(l: string, c: char)
    requires c > SP
    ensures Ink(l + [c]) == Ink(l) + [c]
  {
  }

  lemma BlankAdded(l: string)
    ensures Ink(l + [SP]) == Ink(l)
  {
  }

  lemma TrimmedInk(s: string, l: string, n: nat)
    requires n <= |l| && l[..n] == NoTrailing(l)
    ensures Ink(s + l[..n] + [LF]) == Ink(s) + Ink(l)
  {
    BlankInk(l, n);
    OneInk(LF);
    InkJoins(s, l[..n]);
    InkJoins(s + l[..n], [LF]);
  }

  lemma WrappedInk(s: string, l: string, at: nat, c: char)
    requires 0 < at <= |l| && l[at - 1] == SP && c > SP
    ensures Ink(s + l[..at - 1] + [LF]) + Ink(l[at..] + [c]) == Ink(s) + Ink(l) + [c]
  {
    hide Ink;
    OneInk(LF);
    OneInk(SP);
    InkJoins(s, l[..at - 1]);
    InkJoins(s + l[..at - 1], [LF]);
    WrittenInk(l[at..], c);
    InkJoins(l[..at - 1], [SP]);
    InkJoins(l[..at - 1] + [SP], l[at..]);
    assert l == l[..at - 1] + [SP] + l[at..];
  }

  lemma BrokenInk(s: string, l: string, c: char)
    requires c > SP
    ensures Ink(s + l + [LF]) + Ink([c]) == Ink(s) + Ink(l) + [c]
  {
    OneInk(LF);
    OneInk(c);
    InkJoins(s, l);
    InkJoins(s + l, [LF]);
  }
}
