/** Where the line editor of doc_msgs.c breaks lines, and what it erases, told in words. */
module LineWords {
  import opened LineEditor

  predicate Gap(c: char) { c == SP || c == LF }

  /** The text ends in the middle of a word. */
  predicate Open(s: string)
  {
    s != [] && !Gap(s[|s| - 1])
  }

  /** A character more for the last word. */
  function Lengthened(ws: seq<string>, c: char): seq<string>
    requires ws != []
  {
    ws[..|ws| - 1] + [ws[|ws| - 1] + [c]]
  }

  /** A character less for the last word, which may end it. */
  function Shortened(ws: seq<string>): seq<string>
    requires ws != [] && ws[|ws| - 1] != []
  {
    var last := ws[|ws| - 1];
    if |last| == 1 then ws[..|ws| - 1] else ws[..|ws| - 1] + [last[..|last| - 1]]
  }

  /** The maximal runs without blanks and line ends. */
  function Words(s: string): (ws: seq<string>)
    ensures Open(s) ==> ws != []
    ensures forall i :: 0 <= i < |ws| ==> ws[i] != []
  {
    if s == [] then [] else
    var before, c := s[..|s| - 1], s[|s| - 1];
    if Gap(c) then Words(before) else if Open(before) then Lengthened(Words(before), c) else Words(before) + [[c]]
  }

  lemma WordsMore(s: string, c: char)
    ensures Words(s + [c]) ==
      if Gap(c) then Words(s) else if Open(s) then Lengthened(Words(s), c) else Words(s) + [[c]]
    ensures Open(s + [c]) == !Gap(c)
  {
    assert (s + [c])[..|s|] == s;
  }

  function Flat(ws: seq<string>): string
  {
    if ws == [] then [] else Flat(ws[..|ws| - 1]) + ws[|ws| - 1]
  }

  /** The words are the ink of the text, cut up. */
  lemma {:induction false} WordsInk(s: string)
    ensures Flat(Words(s)) == Ink(s)
  {
    if s != [] {
      var before, c := s[..|s| - 1], s[|s| - 1];
      WordsInk(before);
      var ws := Words(before);
      if !Gap(c) && Open(before) {
        assert Lengthened(ws, c)[..|ws| - 1] == ws[..|ws| - 1];
      } else if !Gap(c) {
        assert (ws + [[c]])[..|ws|] == ws;
      }
    }
  }

  lemma NoWords()
    ensures Words([]) == [] && Joined([]) == [] && !Open([])
  {
  }

  lemma LengthenedBehind(ws: seq<string>, vs: seq<string>, c: char)
    ensures vs != [] ==> Lengthened(ws + vs, c) == ws + Lengthened(vs, c)
    ensures ws + vs + [[c]] == ws + (vs + [[c]])
  {
  }

  lemma WordsJoinOne(a: string, before: string, c: char)
    requires Words(a + before) == Words(a) + Words(before)
    requires if before == [] then !Open(a) || Gap(c) else Open(a + before) == Open(before)
    ensures Words(a + before + [c]) == Words(a) + Words(before + [c])
    ensures Open(a + before + [c]) == Open(before + [c])
  {
    hide Words, Open, Lengthened;
    WordsMore(a + before, c);
    WordsMore(before, c);
    LengthenedBehind(Words(a), Words(before), c);
    NoWords();
    assert before == [] ==> a + before == a;
  }

  /** No word reaches across where either side has a gap. */
  lemma {:induction false} WordsJoin(a: string, b: string)
    requires Open(a) ==> b == [] || Gap(b[0])
    ensures Words(a + b) == Words(a) + Words(b)
    ensures b != [] ==> Open(a + b) == Open(b)
  {
    hide Words, Open;
    if b == [] {
      NoWords();
      assert a + b == a;
    } else {
      var before, c := b[..|b| - 1], b[|b| - 1];
      WordsJoin(a, before);
      WordsJoinOne(a, before, c);
      assert a + b == a + before + [c] && b == before + [c];
    }
  }

  lemma WordsSplit(a: string, b: string)
    ensures Words(a + [SP] + b) == Words(a) + Words(b)
  {
    WordsMore(a, SP);
    WordsJoin(a + [SP], b);
  }

  lemma {:induction false} BlankWords(s: string, n: nat)
    requires n <= |s| && forall i :: n <= i < |s| ==> s[i] == SP
    ensures Words(s) == Words(s[..n])
    decreases |s|
  {
    if n == |s| {
      assert s[..n] == s;
    } else {
      BlankWords(s[..|s| - 1], n);
      assert s[..|s| - 1][..n] == s[..n];
    }
  }

  lemma LineWordsOf(line: string)
    ensures Words(Joined([line])) == Words(line)
  {
    JoinedOne(line);
    WordsMore(line, LF);
  }

  // ---------------------------------------------------------------- one key

  /** A visible key breaks the line at the margin: it is full, and the blank noticed last is not in its
      right half, or there is none. */
  predicate Breaks(d: Doc)
  {
    |d.line| + 1 == MARGIN && d.lastspace <= MARGIN / 2
  }

  /** Only blanks that a tab stands for go unnoticed, and a blank is swallowed only behind blanks. */
  predicate Noticing(d: Doc)
  {
    && (forall i :: d.lastspace <= i < |d.line| && i >= MARGIN - 8 ==> d.line[i] != SP)
    && (d.cancelspace ==> forall i :: 0 <= i < |d.line| ==> d.line[i] == SP)
  }

  /** What is stored are whole lines. */
  predicate Sealed(d: Doc)
  {
    (d.stored != [] ==> d.stored[|d.stored| - 1] == LF) && LF !in d.line
  }

  /** Three things that hold between keys. */
  predicate Tidy(d: Doc)
  {
    Sane(d) && Noticing(d) && Sealed(d)
  }

  function AllWords(d: Doc): seq<string>
  {
    Words(d.stored) + Words(d.line)
  }

  /** What a key does to the words `ws` of the message: a visible one continues the word at the end of
      the line, unless the line is broken there, or begins one; a backspace takes the last character of a
      word; CTRL_W takes the last word of the line and CTRL_X all of them; no other key does anything. */
  function Respelled(ws: seq<string>, d: Doc, key: char): seq<string>
  {
    if Visible(key) then
      if Open(d.line) && !Breaks(d) && ws != [] then Lengthened(ws, key) else ws + [[key]]
    else if key == BS then
      if Open(d.line) && ws != [] && ws[|ws| - 1] != [] then Shortened(ws) else ws
    else if key == CTRL_W then
      if Words(d.line) != [] && ws != [] then ws[..|ws| - 1] else ws
    else if key == CTRL_X then
      if |Words(d.line)| <= |ws| then ws[..|ws| - |Words(d.line)|] else []
    else ws
  }

  lemma AfterTidy(d: Doc, upload: bool, key: char)
    requires Tidy(d)
    ensures Tidy(After(d, upload, key))
  {
    AfterSane(d, upload, key);
    AfterNoticing(d, upload, key);
    AfterSealed(d, upload, key);
  }

  lemma AfterNoticing(d: Doc, upload: bool, key: char)
    requires Sane(d) && Noticing(d)
    ensures Noticing(After(d, upload, key))
  {
    hide Joined;
    ErasedPrefix(d.line, key);
  }

  lemma AfterSealed(d: Doc, upload: bool, key: char)
    requires Sane(d) && Sealed(d)
    ensures Sealed(After(d, upload, key))
  {
    hide Joined, Struck;
    StruckLine(d, upload, key);
    var t := Struck(d.line, d.lastspace, d.cancelspace, upload, key);
    if t.done != [] {
      JoinedOne(t.done[0]);
      assert t.done == [t.done[0]];
    } else {
      NoWords();
      assert d.stored + [] == d.stored;
    }
  }

  lemma StruckLine(d: Doc, upload: bool, key: char)
    requires Sane(d) && LF !in d.line
    ensures LF !in Struck(d.line, d.lastspace, d.cancelspace, upload, key).line
  {
    hide Erased, NoTrailing;
    ErasedPrefix(d.line, key);
  }

  /** A full line whose noticed blank is in its right half is broken there, and no word is cut; any other
      full line is cut at the margin; a shorter line is not broken. */
  lemma LetteredWords(line: string, lastspace: nat, chr: char)
    requires lastspace <= |line| < MARGIN && (lastspace > 0 ==> line[lastspace - 1] == SP) && Visible(chr)
    ensures var t := Lettered(line, lastspace, chr);
      && (t.done == [] <==> |line| + 1 < MARGIN) && t.line != [] && t.line[|t.line| - 1] == chr
      && Words(Joined(t.done)) + Words(t.line) ==
         if |line| + 1 < MARGIN || lastspace > MARGIN / 2 then Words(line + [chr]) else Words(line) + [[chr]]
  {
    hide Words, Joined;
    NoWords();
    LineWordsOf(line);
    if |line| + 1 == MARGIN && lastspace > MARGIN / 2 {
      LineWordsOf(line[..lastspace - 1]);
      WordsSplit(line[..lastspace - 1], line[lastspace..] + [chr]);
      assert line + [chr] == line[..lastspace - 1] + [SP] + (line[lastspace..] + [chr]);
    } else {
      OneWord(chr);
      assert [] + Words(line + [chr]) == Words(line + [chr]);
    }
  }

  lemma OneWord(c: char)
    requires Visible(c)
    ensures Words([c]) == [[c]]
  {
    WordsMore([], c);
    assert [] + [c] == [c];
  }

  lemma ShortenedBack(ws: seq<string>, c: char)
    ensures Shortened(ws + [[c]]) == ws
    ensures ws != [] && ws[|ws| - 1] != [] ==> Shortened(Lengthened(ws, c)) == ws
  {
    if ws != [] && ws[|ws| - 1] != [] {
      var last := ws[|ws| - 1];
      assert (last + [c])[..|last|] == last && Lengthened(ws, c)[..|ws| - 1] == ws[..|ws| - 1];
      assert ws[..|ws| - 1] + [last] == ws;
    }
  }

  lemma ErasedBack(line: string)
    ensures line == [] ==> Erased(line, BS) == []
    ensures line != [] ==> Erased(line, BS) + [line[|line| - 1]] == line
  {
  }

  lemma BackedWords(line: string)
    ensures Words(Erased(line, BS)) == if Open(line) then Shortened(Words(line)) else Words(line)
  {
    hide Words, Shortened, Erased, Open, Joined;
    ErasedBack(line);
    if line == [] {
      NoWords();
    } else {
      BackedOne(Erased(line, BS), line[|line| - 1]);
    }
  }

  lemma BackedOne(line: string, c: char)
    ensures Words(line) == if Open(line + [c]) then Shortened(Words(line + [c])) else Words(line + [c])
  {
    hide Shortened, Lengthened;
    WordsMore(line, c);
    ShortenedBack(Words(line), c);
  }

  lemma {:induction false} Unbroken(w: string)
    requires w != [] && forall i :: 0 <= i < |w| ==> !Gap(w[i])
    ensures Words(w) == [w]
  {
    if |w| > 1 {
      Unbroken(w[..|w| - 1]);
      assert w[..|w| - 1] + [w[|w| - 1]] == w && [w[..|w| - 1]][..0] == [];
    } else {
      assert w[..0] == [] && w == [w[0]];
    }
  }

  lemma LastWord(r: string, w: string)
    requires !Open(r) && w != [] && forall i :: 0 <= i < |w| ==> !Gap(w[i])
    ensures Words(r + w) == Words(r) + [w] && (Words(r) + [w])[..|Words(r)|] == Words(r)
  {
    WordsJoin(r, w);
    Unbroken(w);
  }

  lemma WordErased(line: string)
    requires LF !in line
    ensures var r := Erased(line, CTRL_W);
      && r <= line && !Open(r)
      && Words(r) == (if Words(line) == [] then [] else Words(line)[..|Words(line)| - 1])
      && if Words(line) == [] then |r| == 0 else |r| < |line| && line[|r|] != SP
  {
    hide Words, NoTrailing, NoWord;
    var t := NoTrailing(line);
    var r := NoWord(t);
    NoWords();
    BlankWords(line, |t|);
    assert line[..|t|] == t;
    if t != [] {
      assert r != t && |r| < |t|;
      LastWord(r, t[|r|..]);
      assert r + t[|r|..] == t && t[|r|] == line[|r|];
    }
  }

  lemma NothingLeft(line: string)
    ensures Erased(line, CTRL_X) == []
  {
  }

  /** A backspace takes the last character, CTRL_X the line, and CTRL_W the last word of it, and the
      blanks behind that word but none of those before. */
  lemma ErasedWords(line: string)
    requires LF !in line
    ensures line != [] ==> Erased(line, BS) + [line[|line| - 1]] == line
    ensures Words(Erased(line, BS)) == if Open(line) then Shortened(Words(line)) else Words(line)
    ensures Erased(line, CTRL_X) == []
    ensures Words(Erased(line, CTRL_W)) == if Words(line) == [] then [] else Words(line)[..|Words(line)| - 1]
    ensures Erased(line, CTRL_W) <= line && !Open(Erased(line, CTRL_W))
    ensures var kept := |Erased(line, CTRL_W)|;
      if Words(line) == [] then kept == 0 else kept < |line| && line[kept] != SP
  {
    hide Words, Shortened;
    ErasedBack(line);
    BackedWords(line);
    WordErased(line);
    NothingLeft(line);
    hide Erased;
  }

  // ---------------------------------------------------------------- any number of keys

  lemma {:induction false} RunTidy(d: Doc, upload: bool, keys: string)
    requires Fits(d) && Tidy(d)
    ensures Tidy(Run(d, upload, keys))
    decreases |keys|
  {
    hide Tidy, After;
    if keys != [] {
      RunTidy(d, upload, keys[..|keys| - 1]);
      AfterTidy(Run(d, upload, keys[..|keys| - 1]), upload, keys[|keys| - 1]);
    }
  }

  /** Where a line breaks at the margin, it is in a word. */
  lemma BreaksWord(d: Doc)
    requires Tidy(d) && Breaks(d)
    ensures Open(d.line)
  {
  }

  /** The words that the lines completed and the line left hold. */
  function StruckWords(d: Doc, upload: bool, key: char): seq<string>
    requires Fits(d)
  {
    var t := Struck(d.line, d.lastspace, d.cancelspace, upload, key);
    Words(Joined(t.done)) + Words(t.line)
  }

  lemma VisibleWords(d: Doc, upload: bool, key: char)
    requires Tidy(d) && Visible(key)
    ensures StruckWords(d, upload, key) == if Breaks(d) then Words(d.line) + [[key]] else Words(d.line + [key])
  {
    hide Words, Joined;
    LetteredWords(d.line, d.lastspace, key);
    hide Lettered;
  }

  lemma OtherWords(d: Doc, upload: bool, key: char)
    requires Tidy(d) && !Visible(key)
    ensures StruckWords(d, upload, key) == Words(Erased(d.line, key))
  {
    hide Words, Joined, NoTrailing, Blanks;
    NoWords();
    WordsMore(d.line, SP);
    LineWordsOf(NoTrailing(d.line));
    TrimmedWords(d.line);
    BlanksWords(d.line, 8 - |d.line| % 8);
    ErasedPrefix(d.line, key);
    assert Words(NoTrailing(d.line)) + [] == Words(NoTrailing(d.line));
    hide Erased;
    var t := Struck(d.line, d.lastspace, d.cancelspace, upload, key);
    assert [] + Words(t.line) == Words(t.line);
  }

  lemma TrimmedWords(line: string)
    ensures Words(NoTrailing(line)) == Words(line)
  {
    BlankWords(line, |NoTrailing(line)|);
    assert line[..|NoTrailing(line)|] == NoTrailing(line);
  }

  lemma BlanksWords(line: string, n: nat)
    ensures Words(line + Blanks(n)) == Words(line)
  {
    BlankWords(line + Blanks(n), |line|);
    assert (line + Blanks(n))[..|line|] == line;
  }

  /** What a key the editor listens to does to the words of the message. */
  lemma AfterWords(d: Doc, upload: bool, key: char)
    requires Fits(d) && Tidy(d)
    ensures AllWords(After(d, upload, key)) == Respelled(AllWords(d), d, key)
  {
    hide Words, Joined, Struck, Erased, Tidy, Shortened, Lengthened;
    var t := Struck(d.line, d.lastspace, d.cancelspace, upload, key);
    StoredWords(d, t.done);
    var ws := Words(d.stored);
    assert ws + (Words(Joined(t.done)) + Words(t.line)) == ws + Words(Joined(t.done)) + Words(t.line);
    if Visible(key) {
      VisibleWords(d, upload, key);
      VisibleRespelled(ws, d, key);
    } else {
      OtherWords(d, upload, key);
      OtherRespelled(ws, d, key);
    }
  }

  lemma StoredWords(d: Doc, done: seq<string>)
    requires Tidy(d)
    ensures Words(d.stored + Joined(done)) == Words(d.stored) + Words(Joined(done))
  {
    WordsJoin(d.stored, Joined(done));
  }

  lemma VisibleRespelled(ws: seq<string>, d: Doc, key: char)
    requires Tidy(d) && Visible(key)
    ensures Respelled(ws + Words(d.line), d, key) ==
      ws + if Breaks(d) then Words(d.line) + [[key]] else Words(d.line + [key])
  {
    hide Words;
    WordsMore(d.line, key);
    var l := Words(d.line);
    assert ws + (l + [[key]]) == ws + l + [[key]];
    if l != [] {
      assert Lengthened(ws + l, key) == ws + Lengthened(l, key);
    }
  }

  /** In front of the words of the line those before it stay as they are. */
  lemma InFront(ws: seq<string>, l: seq<string>)
    ensures (ws + l)[..|ws + l| - |l|] == ws && ws + [] == ws
    ensures l != [] ==> (ws + l)[|ws + l| - 1] == l[|l| - 1] && (ws + l)[..|ws + l| - 1] == ws + l[..|l| - 1]
    ensures l != [] && l[|l| - 1] != [] ==> Shortened(ws + l) == ws + Shortened(l)
  {
  }

  lemma OtherRespelled(ws: seq<string>, d: Doc, key: char)
    requires Tidy(d) && !Visible(key)
    ensures Respelled(ws + Words(d.line), d, key) == ws + Words(Erased(d.line, key))
  {
    hide Words, Erased, Shortened, Open, Joined;
    ErasedWords(d.line);
    NoWords();
    ErasedPrefix(d.line, key);
    InFront(ws, Words(d.line));
  }

  /** The words there should be after some keys. */
  function Spelled(d: Doc, upload: bool, keys: string): seq<string>
    requires Fits(d)
    decreases |keys|
  {
    if keys == [] then AllWords(d) else
    var n := |keys| - 1;
    var ws, e := Spelled(d, upload, keys[..n]), Run(d, upload, keys[..n]);
    if Heard(e, keys[n]) then Respelled(ws, e, keys[n]) else ws
  }

  /** Over any keys whatever the words of the message are those the keys spell: only a visible key in a
      full line without a noticed blank in its right half begins a new word in the middle of one. */
  lemma {:induction false} RunWords(d: Doc, upload: bool, keys: string)
    requires Fits(d) && Tidy(d)
    ensures AllWords(Run(d, upload, keys)) == Spelled(d, upload, keys)
    decreases |keys|
  {
    hide Tidy, AllWords, After, Respelled, Heard;
    if keys != [] {
      var n := |keys| - 1;
      RunWords(d, upload, keys[..n]);
      RunTidy(d, upload, keys[..n]);
      AfterWords(Run(d, upload, keys[..n]), upload, keys[n]);
    }
  }

  /** Keys that part words. */
  predicate Parts(key: char, upload: bool)
  {
    key == SP || key == TAB || key == LF || (key == CTRL_D && upload)
  }

  /** Some keys as text. */
  function Meant(keys: string, upload: bool): string
  {
    if keys == [] then [] else
    var n := |keys| - 1;
    Meant(keys[..n], upload) + MeantOne(keys[n], upload)
  }

  function MeantOne(key: char, upload: bool): string
  {
    if Visible(key) then [key] else if Parts(key, upload) then [SP] else []
  }

  /** How many of the keys break a line at the margin. */
  function Cuts(d: Doc, upload: bool, keys: string): nat
    requires Fits(d)
    decreases |keys|
  {
    if keys == [] then 0 else
    var n := |keys| - 1;
    Cuts(d, upload, keys[..n]) + CutsOne(Run(d, upload, keys[..n]), keys[n])
  }

  function CutsOne(d: Doc, key: char): nat
  {
    if Heard(d, key) && Visible(key) && Breaks(d) then 1 else 0
  }

  /** The message says what was meant, but for so many words that are cut in two. */
  predicate Spells(d: Doc, text: string, cuts: nat)
  {
    && |AllWords(d)| == |Words(text)| + cuts && (cuts == 0 ==> AllWords(d) == Words(text))
    && Open(d.line) == Open(text)
  }

  lemma SpellsVisible(d: Doc, upload: bool, key: char, text: string, cuts: nat)
    requires Fits(d) && Tidy(d) && Spells(d, text, cuts) && Visible(key)
    ensures Spells(After(d, upload, key), text + [key], cuts + if Breaks(d) then 1 else 0)
  {
    hide AllWords, Words, Joined, Lettered, Lengthened, Tidy, SpaceAfter, CancelAfter;
    AfterWords(d, upload, key);
    VisibleOpen(d, upload, key);
    WordsMore(text, key);
    LengthenedCount(Words(text), AllWords(d), key);
  }

  lemma VisibleOpen(d: Doc, upload: bool, key: char)
    requires Fits(d) && Tidy(d) && Visible(key)
    ensures Open(After(d, upload, key).line) && (Breaks(d) ==> Open(d.line))
  {
    hide Words, Joined, Lettered;
    LetteredWords(d.line, d.lastspace, key);
  }

  lemma LengthenedCount(ws: seq<string>, vs: seq<string>, key: char)
    ensures ws != [] ==> |Lengthened(ws, key)| == |ws|
    ensures vs != [] ==> |Lengthened(vs, key)| == |vs|
  {
  }

  lemma SpellsParted(d: Doc, upload: bool, key: char, text: string, cuts: nat)
    requires Fits(d) && Tidy(d) && Spells(d, text, cuts) && Parts(key, upload)
    ensures Spells(After(d, upload, key), text + [SP], cuts)
  {
    hide AllWords, Words, Joined, NoTrailing;
    AfterWords(d, upload, key);
    WordsMore(text, SP);
    assert text != [] ==> d.line != [] || !Open(text);
  }

  lemma SpellsNext(d: Doc, upload: bool, key: char, text: string, cuts: nat)
    requires Fits(d) && Tidy(d) && Spells(d, text, cuts) && !Erasing(key)
    ensures Heard(d, key) ==> Spells(Next(d, upload, key), text + MeantOne(key, upload), cuts + CutsOne(d, key))
    ensures !Heard(d, key) ==> Spells(Next(d, upload, key), text, cuts + CutsOne(d, key))
  {
    hide Tidy, Spells, After, Heard;
    if Visible(key) {
      SpellsVisible(d, upload, key, text, cuts);
    } else if Parts(key, upload) {
      SpellsParted(d, upload, key, text, cuts);
    } else {
      Unheeded(d, upload, key);
      assert text + [] == text;
    }
  }

  lemma Unheeded(d: Doc, upload: bool, key: char)
    requires Fits(d) && !Visible(key) && !Parts(key, upload) && !Erasing(key)
    ensures After(d, upload, key) == d
  {
    assert d.stored + Joined([]) == d.stored;
  }

  /** As long as nothing is erased the message has the words that were meant and one more for each time a
      line breaks at the margin: they are the words meant exactly if no line does. */
  lemma {:induction false} MeantWords(d: Doc, upload: bool, keys: string)
    requires Fits(d) && Tidy(d) && forall i :: 0 <= i < |keys| ==> !Erasing(keys[i])
    ensures var e, text := Run(d, upload, keys), d.stored + d.line + Meant(Listened(d, upload, keys), upload);
      && Spells(e, text, Cuts(d, upload, keys))
      && (AllWords(e) == Words(text) <==> Cuts(d, upload, keys) == 0)
    decreases |keys|
  {
    hide Tidy, AllWords, Words, Next, CutsOne, Meant, Heard;
    if keys == [] {
      FirstWords(d);
      NothingMeant(d.stored + d.line, upload);
    } else {
      var n := |keys| - 1;
      MeantWords(d, upload, keys[..n]);
      RunTidy(d, upload, keys[..n]);
      var e, l := Run(d, upload, keys[..n]), Listened(d, upload, keys[..n]);
      var text := d.stored + d.line;
      SpellsNext(e, upload, keys[n], text + Meant(l, upload), Cuts(d, upload, keys[..n]));
      MeantMore(text, l, keys[n], upload);
    }
  }

  lemma NothingMeant(text: string, upload: bool)
    ensures text + Meant([], upload) == text
  {
  }

  lemma MeantMore(text: string, l: string, key: char, upload: bool)
    ensures text + Meant(l + [key], upload) == text + Meant(l, upload) + MeantOne(key, upload) && l + [] == l
  {
    assert (l + [key])[..|l|] == l;
    assert text + (Meant(l, upload) + MeantOne(key, upload)) == text + Meant(l, upload) + MeantOne(key, upload);
  }

  lemma FirstWords(d: Doc)
    requires Fits(d) && Tidy(d)
    ensures Spells(d, d.stored + d.line, 0)
  {
    hide Words;
    WordsJoin(d.stored, d.line);
    if d.line == [] {
      assert d.stored + d.line == d.stored;
    }
  }

  // ---------------------------------------------------------------- which blank is noticed

  /** Without tabs every blank is noticed: a full line breaks at the margin exactly if its last blank is
      not in its right half, or there is none. */
  lemma {:induction false} AllNoticed(d: Doc, upload: bool, keys: string)
    requires Fits(d) && d.lastspace == LastBlank(d.line) && TAB !in keys
    ensures Run(d, upload, keys).lastspace == LastBlank(Run(d, upload, keys).line)
    decreases |keys|
  {
    hide After, LastBlank;
    if keys != [] {
      var n := |keys| - 1;
      AllNoticed(d, upload, keys[..n]);
      NextNoticed(Run(d, upload, keys[..n]), upload, keys[n]);
    }
  }

  lemma LastIs(s: string, n: nat)
    requires n <= |s| && (n > 0 ==> s[n - 1] == SP) && forall i :: n <= i < |s| ==> s[i] != SP
    ensures LastBlank(s) == n
  {
  }

  lemma NextNoticed(d: Doc, upload: bool, key: char)
    requires Fits(d) && d.lastspace == LastBlank(d.line) && key != TAB
    ensures After(d, upload, key).lastspace == LastBlank(After(d, upload, key).line)
  {
    hide Joined, LastBlank, NoTrailing, NoWord, Lettered;
    var e := After(d, upload, key);
    if Visible(key) {
      LetteredNoticed(d.line, d.lastspace, key);
    } else {
      ErasedPrefix(d.line, key);
      LastIs(e.line, e.lastspace);
    }
  }

  /** Only the word being typed moves to the next line. */
  lemma LetteredNoticed(line: string, lastspace: nat, key: char)
    requires lastspace <= |line| < MARGIN && lastspace == LastBlank(line) && Visible(key)
    ensures LastBlank(Lettered(line, lastspace, key).line) == if |line| + 1 == MARGIN then 0 else lastspace
  {
    hide LastBlank;
    LastIs(Lettered(line, lastspace, key).line, if |line| + 1 == MARGIN then 0 else lastspace);
  }

  lemma TabStep(d: Doc, n: nat)
    requires Fits(d) && d.line == Blanks(8 * n) && d.lastspace == 0 && Size(d) <= LIMIT && n < 9
    ensures var e := Next(d, false, TAB);
      e.line == Blanks(8 * (n + 1)) && e.lastspace == 0 && e.stored == d.stored
  {
    assert Blanks(8 * n) + Blanks(8) == Blanks(8 * (n + 1)) && d.stored + Joined([]) == d.stored;
  }

  lemma {:induction false} TabsRun(d: Doc, n: nat)
    requires Fits(d) && d.line == [] && d.lastspace == 0 && Size(d) <= LIMIT && n <= 9
    ensures var e := Run(d, false, seq(n, _ => TAB));
      e.line == Blanks(8 * n) && e.lastspace == 0 && e.stored == d.stored
    decreases n
  {
    hide Next;
    if n > 0 {
      TabsRun(d, n - 1);
      assert seq(n, _ => TAB)[..n - 1] == seq(n - 1, _ => TAB);
      TabStep(Run(d, false, seq(n - 1, _ => TAB)), n - 1);
    }
  }

  lemma LetterStep(d: Doc)
    requires Fits(d) && |d.line| + 1 < MARGIN && Size(d) <= LIMIT
    ensures var e := Next(d, false, 'a');
      e.line == d.line + ['a'] && e.lastspace == d.lastspace && e.stored == d.stored
  {
    assert d.stored + Joined([]) == d.stored;
  }

  lemma {:induction false} LettersRun(d: Doc, n: nat)
    requires Fits(d) && d.line == Blanks(72) && d.lastspace == 0 && Size(d) <= LIMIT && n <= 7
    ensures var e := Run(d, false, seq(n, _ => 'a'));
      e.line == Blanks(72) + seq(n, _ => 'a') && e.lastspace == 0 && e.stored == d.stored
    decreases n
  {
    hide Next, Blanks;
    if n == 0 {
      assert Blanks(72) + [] == Blanks(72);
    } else {
      LettersRun(d, n - 1);
      assert seq(n, _ => 'a')[..n - 1] == seq(n - 1, _ => 'a');
      LetterStep(Run(d, false, seq(n - 1, _ => 'a')));
      assert (Blanks(72) + seq(n - 1, _ => 'a')) + ['a'] == Blanks(72) + seq(n, _ => 'a');
    }
  }

  /** The blanks a tab stands for are not noticed: from any empty line one can type nine tabs and seven
      letters, and the line breaks at the margin although its last blank is in column 72. */
  lemma TabUnnoticed(d: Doc)
    requires Fits(d) && d.line == [] && d.lastspace == 0 && Size(d) <= LIMIT
    ensures exists keys :: Breaks(Run(d, false, keys)) && LastBlank(Run(d, false, keys).line) == 72
  {
    hide Run, LastBlank;
    var tabs, letters := seq(9, _ => TAB), seq(7, _ => 'a');
    TabsRun(d, 9);
    LettersRun(Run(d, false, tabs), 7);
    RunJoins(d, false, tabs, letters);
    LastIs(Run(d, false, tabs + letters).line, 72);
    assert Breaks(Run(d, false, tabs + letters));
  }

  /** Of the blanks behind a full line the first ends it, the second is swallowed, and the third begins the
      next one; behind a shorter line each blank is written. */
  lemma BlanksAtMargin(d: Doc, upload: bool)
    requires Fits(d) && !d.cancelspace
    ensures var e := After(d, upload, SP); var f := After(e, upload, SP); var g := After(f, upload, SP);
      if |d.line| + 1 < MARGIN then e.stored == d.stored && e.line == d.line + [SP] && !e.cancelspace
      else
        && e.stored == d.stored + NoTrailing(d.line) + [LF] && e.line == [] && f.stored == e.stored && f.line == []
        && g.stored == f.stored && g.line == [SP]
  {
    hide Joined, NoTrailing;
    NoWords();
    JoinedOne(NoTrailing(d.line));
    var e := After(d, upload, SP);
    assert d.stored + [] == d.stored && e.stored + [] == e.stored;
    assert d.stored + (NoTrailing(d.line) + [LF]) == d.stored + NoTrailing(d.line) + [LF];
  }
}
