/** telrcv() of state.c: the telnet decoder of a session that is not the BBS client's. */
module SessionDecoder {
  import T = TelnetLine

  const IAC: int := 255
  const SE: int := 240
  const SB: int := 250
  const START3: int := 0xaf
  const POST_K: int := 0xb1

  const SUBBUFFER: nat := 8
  const NAWS: int := 31

  /** SB_ACCUM() */
  function Accum(sub: seq<int>, c: int): seq<int>
  {
    if |sub| < SUBBUFFER then sub + [c] else sub
  }

  datatype State = Data | Iac | Cr | Sub | SubIac | Void | Kill

  datatype Line = Line(state: State, sub: seq<int>, client: bool)

  datatype Option = Nothing | Byte(c: int)

  /** What one byte leaves, and the byte returned, if any. */
  datatype Outcome = Outcome(line: Line, out: Option)

  function AfterIac(l: Line, c: int): Outcome
  {
    if c == IAC then Outcome(l.(state := Iac), Byte(127))
    else if c == SB then Outcome(l.(state := Sub, sub := []), Nothing)
    else if 251 <= c <= 254 then Outcome(l.(state := Void), Nothing)
    else if c == POST_K then Outcome(l.(state := Kill), Nothing)
    else if c == START3 then Outcome(l.(state := Data, client := true), Nothing)
    else Outcome(l.(state := Data), Nothing)
  }

  function AtData(l: Line, c: int): Outcome
  {
    if c == IAC then Outcome(l.(state := Iac), Nothing)
    else Outcome(l.(state := if c == 13 && !l.client then Cr else Data), Byte(c % 128))
  }

  function Step(l: Line, c: int): Outcome
  {
    match l.state
    case Data => AtData(l, c)
    case Cr => if c == 0 || c == 10 then Outcome(l.(state := Data), Nothing) else AtData(l, c)
    case Iac => AfterIac(l, c)
    case Sub => Outcome(if c == IAC then l.(state := SubIac) else l.(sub := Accum(l.sub, c)), Nothing)
    case SubIac =>
      if c == SE then Outcome(l.(state := Data, sub := []), Nothing)
      else if c == IAC then Outcome(l.(state := Sub, sub := Accum(l.sub, IAC)), Nothing)
      else AfterIac(l.(sub := []), c)
    case Void => Outcome(l.(state := Data), Nothing)
    case Kill => Outcome(l.(state := Data), Nothing)
  }

  /** Everything that repeated calls return for some input. */
  datatype Decoded = Decoded(line: Line, out: seq<int>)

  function Feed(l: Line, input: seq<int>): Decoded
    decreases |input|
  {
    if input == [] then Decoded(l, []) else
    var o := Step(l, input[0]);
    var r := Feed(o.line, input[1..]);
    Decoded(r.line, (if o.out.Byte? then [o.out.c] else []) + r.out)
  }

  // ---------------------------------------------------------------- what a telnet client sends

  /** Characters and line ends, which the session is to see, and commands, which it is not. */
  datatype Unit =
    | Char(c: int)
    | Return(lf: bool)
    | Command(c: int)
    | Negotiation(verb: int, option: int)
    | KillPost(n: int)
    | Option(payload: seq<int>)

  predicate Complete(u: Unit)
  {
    match u
    case Char(c) => 0 <= c < 128 && c != 13
    case Command(c) => 128 <= c < 251 && c != SB && c != POST_K && c != START3
    case Negotiation(v, o) => 251 <= v <= 254
    case _ => true
  }

  function Encoded(u: Unit): seq<int>
  {
    match u
    case Char(c) => [c]
    case Return(lf) => [13, if lf then 10 else 0]
    case Command(c) => [IAC, c]
    case Negotiation(v, o) => [IAC, v, o]
    case KillPost(n) => [IAC, POST_K, n]
    case Option(p) => [IAC, SB] + T.Doubled(p) + [IAC, SE]
  }

  function Meant(u: Unit): seq<int>
  {
    match u
    case Char(c) => [c]
    case Return(_) => [13]
    case _ => []
  }

  function EncodedAll(us: seq<Unit>): seq<int>
  {
    if us == [] then [] else Encoded(us[0]) + EncodedAll(us[1..])
  }

  function MeantAll(us: seq<Unit>): seq<int>
  {
    if us == [] then [] else Meant(us[0]) + MeantAll(us[1..])
  }

  // ---------------------------------------------------------------- decoding returns what was meant

  lemma One(l: Line, a: int, rest: seq<int>)
    ensures var o := Step(l, a);
      Feed(l, [a] + rest)
        == Decoded(Feed(o.line, rest).line, (if o.out.Byte? then [o.out.c] else []) + Feed(o.line, rest).out)
  {
  }

  /** A byte that returns nothing. */
  lemma Silent(l: Line, a: int, rest: seq<int>)
    requires Step(l, a).out.Nothing?
    ensures Feed(l, [a] + rest) == Feed(Step(l, a).line, rest)
  {
  }

  lemma {:induction false} SkipsPayload(l: Line, p: seq<int>, rest: seq<int>) returns (m: Line)
    requires l.state == Sub
    ensures m.state == Sub && m.client == l.client && Feed(l, T.Doubled(p) + rest) == Feed(m, rest)
    decreases |p|
  {
    if p == [] {
      assert T.Doubled(p) + rest == rest;
      m := l;
    } else {
      var tail := T.Doubled(p[1..]) + rest;
      var n := l.(sub := Accum(l.sub, p[0]));
      if p[0] == IAC {
        assert T.Doubled(p) + rest == [IAC] + ([IAC] + tail);
        Silent(l, IAC, [IAC] + tail);
        Silent(l.(state := SubIac), IAC, tail);
      } else {
        assert T.Doubled(p) + rest == [p[0]] + tail;
        Silent(l, p[0], tail);
      }
      m := SkipsPayload(n, p[1..], rest);
    }
  }

  /** One unit, from the base state, is decoded to what it means. */
  lemma DecodesUnit(l: Line, u: Unit, rest: seq<int>) returns (m: Line)
    requires l.state == Data && !l.client && Complete(u)
    ensures m.state == Data && !m.client
    ensures Feed(l, Encoded(u) + rest) == Decoded(Feed(m, rest).line, Meant(u) + Feed(m, rest).out)
  {
    hide Feed, T.Doubled;
    m := l;
    match u
    case Char(c) =>
      One(l, c, rest);
    case Return(lf) =>
      var b := if lf then 10 else 0;
      assert Encoded(u) + rest == [13] + ([b] + rest);
      One(l, 13, [b] + rest);
      Silent(l.(state := Cr), b, rest);
    case Command(c) =>
      assert Encoded(u) + rest == [IAC] + ([c] + rest);
      Silent(l, IAC, [c] + rest);
      Silent(l.(state := Iac), c, rest);
    case Negotiation(v, o) =>
      assert Encoded(u) + rest == [IAC] + ([v] + ([o] + rest));
      Silent(l, IAC, [v] + ([o] + rest));
      Silent(l.(state := Iac), v, [o] + rest);
      Silent(l.(state := Void), o, rest);
    case KillPost(n) =>
      assert Encoded(u) + rest == [IAC] + ([POST_K] + ([n] + rest));
      Silent(l, IAC, [POST_K] + ([n] + rest));
      Silent(l.(state := Iac), POST_K, [n] + rest);
      Silent(l.(state := Kill), n, rest);
    case Option(p) =>
      m := DecodesOption(l, p, rest);
  }

  lemma DecodesOption(l: Line, p: seq<int>, rest: seq<int>) returns (m: Line)
    requires l.state == Data && !l.client
    ensures m.state == Data && !m.client && Feed(l, Encoded(Option(p)) + rest) == Feed(m, rest)
  {
    var tail := [IAC] + ([SE] + rest);
    assert Encoded(Option(p)) + rest == [IAC] + ([SB] + (T.Doubled(p) + tail));
    hide Feed;
    Silent(l, IAC, [SB] + (T.Doubled(p) + tail));
    Silent(l.(state := Iac), SB, T.Doubled(p) + tail);
    var n := SkipsPayload(l.(state := Sub, sub := []), p, tail);
    Silent(n, IAC, [SE] + rest);
    m := n.(state := Data, sub := []);
    Silent(n.(state := SubIac), SE, rest);
  }

  lemma {:induction false} DecodesThen(l: Line, us: seq<Unit>, rest: seq<int>) returns (m: Line)
    requires l.state == Data && !l.client && forall i :: 0 <= i < |us| ==> Complete(us[i])
    ensures m.state == Data && !m.client
    ensures Feed(l, EncodedAll(us) + rest) == Decoded(Feed(m, rest).line, MeantAll(us) + Feed(m, rest).out)
    decreases |us|
  {
    hide Feed;
    if us == [] {
      m := l;
      assert EncodedAll(us) + rest == rest && MeantAll(us) + Feed(m, rest).out == Feed(m, rest).out;
    } else {
      var n := DecodesUnit(l, us[0], EncodedAll(us[1..]) + rest);
      m := DecodesThen(n, us[1..], rest);
      assert EncodedAll(us) + rest == Encoded(us[0]) + (EncodedAll(us[1..]) + rest);
      assert Meant(us[0]) + (MeantAll(us[1..]) + Feed(m, rest).out) == MeantAll(us) + Feed(m, rest).out;
    }
  }

  /** Repeated calls return exactly the characters and line ends a client meant, whatever commands
      come between them. */
  lemma DecodesAll(l: Line, us: seq<Unit>)
    requires l.state == Data && !l.client && forall i :: 0 <= i < |us| ==> Complete(us[i])
    ensures Feed(l, EncodedAll(us)).out == MeantAll(us) && Feed(l, EncodedAll(us)).line.state == Data
  {
    var m := DecodesThen(l, us, []);
    assert EncodedAll(us) + [] == EncodedAll(us);
  }

  // ---------------------------------------------------------------- a doubled IAC

  /** What becomes of a unit that follows a doubled IAC, after which the decoder expects a command: a
      character is lost, a line end is replaced by its second byte, and anything else begins with an
      IAC that is returned. */
  function Garbled(u: Unit): seq<int>
  {
    match u
    case Char(_) => []
    case Return(lf) => [if lf then 10 else 0]
    case _ => [127]
  }

  lemma GarblesUnit(l: Line, u: Unit, rest: seq<int>) returns (m: Line)
    requires l.state == Iac && !l.client && Complete(u)
    ensures m.state == Data && !m.client
    ensures Feed(l, Encoded(u) + rest) == Decoded(Feed(m, rest).line, Garbled(u) + Feed(m, rest).out)
  {
    hide Feed, T.Doubled;
    m := l.(state := Data);
    match u
    case Char(c) =>
      Silent(l, c, rest);
    case Return(lf) =>
      var b := if lf then 10 else 0;
      assert Encoded(u) + rest == [13] + ([b] + rest);
      Silent(l, 13, [b] + rest);
      One(m, b, rest);
    case _ =>
      var tail := Encoded(u)[1..] + rest;
      assert Encoded(u) + rest == [IAC] + tail;
      One(l, IAC, tail);
      Silent(m, IAC, tail);
      m := DecodesUnit(l.(state := Data), u, rest);
  }

  /** What follows a doubled IAC: one unit is garbled, and what comes after it is right again. */
  function AfterDoubled(after: seq<Unit>): seq<int>
  {
    if after == [] then [] else Garbled(after[0]) + MeantAll(after[1..])
  }

  lemma DecodesTail(l: Line, after: seq<Unit>)
    requires l.state == Iac && !l.client && forall i :: 0 <= i < |after| ==> Complete(after[i])
    ensures Feed(l, EncodedAll(after)).out == AfterDoubled(after)
  {
    hide Feed, Garbled, Encoded, Meant;
    NoInput(l);
    if after != [] {
      var k := GarblesUnit(l, after[0], EncodedAll(after[1..]));
      DecodesAll(k, after[1..]);
    }
  }

  lemma Differs(before: seq<int>, after: seq<Unit>)
    ensures before + ([127] + AfterDoubled(after)) == before + ([127] + MeantAll(after)) <==> after == []
  {
    SameEnd(before, [127] + AfterDoubled(after), [127] + MeantAll(after));
    SameEnd([127], AfterDoubled(after), MeantAll(after));
    if after != [] {
      if |Garbled(after[0])| == |Meant(after[0])| {
        assert AfterDoubled(after)[0] == Garbled(after[0])[0] != Meant(after[0])[0] == MeantAll(after)[0];
      } else {
        assert |AfterDoubled(after)| != |MeantAll(after)|;
      }
    }
  }

  /** Among complete units one doubled IAC, which means the byte it doubles, is decoded to what was meant
      exactly when nothing follows it. */
  lemma DoubledIac(l: Line, before: seq<Unit>, after: seq<Unit>)
    requires l.state == Data && !l.client
    requires forall i :: 0 <= i < |before| ==> Complete(before[i])
    requires forall i :: 0 <= i < |after| ==> Complete(after[i])
    ensures var out := Feed(l, EncodedAll(before) + ([IAC, IAC] + EncodedAll(after))).out;
      && out == MeantAll(before) + ([127] + AfterDoubled(after))
      && (out == MeantAll(before) + ([127] + MeantAll(after)) <==> after == [])
  {
    hide Feed, AfterDoubled, MeantAll, EncodedAll;
    var rest := EncodedAll(after);
    var m := DecodesThen(l, before, [IAC, IAC] + rest);
    assert [IAC, IAC] + rest == [IAC] + ([IAC] + rest);
    Silent(m, IAC, [IAC] + rest);
    One(m.(state := Iac), IAC, rest);
    DecodesTail(m.(state := Iac), after);
    Differs(MeantAll(before), after);
  }

  lemma NoInput(l: Line)
    ensures Feed(l, []).out == []
  {
  }

  lemma SameEnd(a: seq<int>, b: seq<int>, c: seq<int>)
    ensures a + b == a + c <==> b == c
  {
    if a + b == a + c {
      assert (a + b)[|a|..] == b && (a + c)[|a|..] == c;
    }
  }

  // ---------------------------------------------------------------- the decoder itself

  function Sensible(rows: int): int
  {
    if rows < 5 || rows > 100 then 24 else rows
  }

  /** The sub-option buffer and its pointer. */
  datatype Buffer = Buffer(bytes: seq<int>, pointer: nat)

  function Marked(b: Buffer, c: int): (r: Buffer)
    ensures |r.bytes| == |b.bytes|
  {
    if b.pointer < |b.bytes| then Buffer(b.bytes[b.pointer := c], b.pointer + 1) else b
  }

  class Session {
    const input: seq<int>
    var pos: nat
    var state: State
    var client: bool
    var rows: int
    const subbuffer: array<int>
    var subpointer: nat

    ghost predicate Valid()
      reads this
    {
      pos <= |input| && subbuffer.Length == SUBBUFFER && subpointer <= SUBBUFFER
    }

    ghost function LineNow(): Line
      requires Valid()
      reads this, subbuffer
    {
      Line(state, if state == Sub || state == SubIac then subbuffer[..subpointer] else [], client)
    }

    constructor (bytes: seq<int>)
      ensures Valid() && fresh(subbuffer) && LineNow() == Line(Data, [], false) && input[pos..] == bytes
    {
      input, pos, state, client, rows := bytes, 0, Data, false, 24;
      subbuffer := new int[SUBBUFFER](_ => 0);
      subpointer := 0;
    }

    method SbAccum(c: int)
      requires Valid()
      modifies this`subpointer, subbuffer
      ensures Valid() && subpointer == (if old(subpointer) < SUBBUFFER then old(subpointer) + 1 else SUBBUFFER)
      ensures subbuffer[..subpointer] == Accum(old(subbuffer[..subpointer]), c)
      ensures Buffer(subbuffer[..], subpointer) == Marked(Buffer(old(subbuffer[..]), old(subpointer)), c)
    {
      if subpointer < SUBBUFFER {
        subbuffer[subpointer] := c;
        subpointer := subpointer + 1;
        assert subbuffer[..subpointer] == Accum(old(subbuffer[..subpointer]), c);
        assert subbuffer[..] == old(subbuffer[..])[old(subpointer) := c];
      }
    }

    /** A sub-option is over: a window size sets the number of rows, within reason.  One that was cut short
        is completed by its end mark and by what an earlier sub-option has left in the buffer. */
    method EndOption(c: int)
      requires Valid() && state == SubIac
      modifies this`subpointer, this`rows, subbuffer
      ensures Valid() && 5 <= rows <= 100
      ensures var b := Marked(Marked(Buffer(old(subbuffer[..]), old(subpointer)), IAC), c).bytes;
        subbuffer[..] == b && |b| == SUBBUFFER && rows == Sensible(if b[0] == NAWS then b[4] else old(rows))
      ensures old(subpointer) >= 5 && old(subbuffer[0]) == NAWS ==>
        var height := old(subbuffer[4]); rows == if 5 <= height <= 100 then height else 24
    {
      SbAccum(IAC);
      SbAccum(c);
      subpointer := 0;
      if subbuffer[0] == NAWS {
        rows := subbuffer[4];
      }
      rows := Sensible(rows);
    }

    /** A byte after IAC; a doubled one is returned. */
    method Interpret(c: int) returns (out: Option)
      requires Valid() && state == Iac
      modifies this`state, this`client, this`subpointer
      ensures Valid() && AfterIac(old(LineNow()), c) == Outcome(LineNow(), out)
    {
      out := Nothing;
      if c == IAC {
        return Byte(127);
      }
      state := Data;
      if c == START3 {
        client := true;
      } else if c == POST_K {
        state := Kill;
      } else if c == SB {
        state := Sub;
        subpointer := 0;
      } else if 251 <= c <= 254 {
        state := Void;
      }
    }

    /** One byte. */
    method Take(c: int) returns (out: Option)
      requires Valid()
      modifies this`state, this`client, this`subpointer, this`rows, subbuffer
      ensures Valid() && Step(old(LineNow()), c) == Outcome(LineNow(), out)
    {
      out := Nothing;
      if state == Cr && (c == 0 || c == 10) {
        state := Data;
      } else if state == Data || state == Cr {
        if c == IAC {
          state := Iac;
        } else {
          state := if c == 13 && !client then Cr else Data;
          out := Byte(c % 128);
        }
      } else if state == Iac {
        out := Interpret(c);
      } else if state == Sub && c == IAC {
        state := SubIac;
      } else if state == Sub || (state == SubIac && c == IAC) {
        SbAccum(c);
        state := Sub;
      } else if state == SubIac {
        EndOption(c);
        if c == SE {
          state := Data;
        } else {
          state := Iac;
          out := Interpret(c);
        }
      } else {
        state := Data;
      }
    }

    /** telrcv(): the next byte of data, -1 when the input is used up. */
    method Telrcv() returns (c: int)
      requires Valid() && forall i :: 0 <= i < |input| ==> 0 <= input[i] < 256
      modifies this`pos, this`state, this`client, this`subpointer, this`rows, subbuffer
      ensures Valid() && pos >= old(pos) && (c >= 0 ==> pos > old(pos))
      ensures var before, after := Feed(old(LineNow()), input[old(pos)..]), Feed(LineNow(), input[pos..]);
        && before.line == after.line && before.out == (if c >= 0 then [c] else []) + after.out
        && (c < 0 ==> after.out == [])
    {
      ghost var line, start := LineNow(), pos;
      while pos < |input|
        invariant Valid() && pos >= start && Feed(line, input[start..]) == Feed(LineNow(), input[pos..])
        decreases |input| - pos
      {
        ghost var l := LineNow();
        assert input[pos..] == [input[pos]] + input[pos + 1..];
        One(l, input[pos], input[pos + 1..]);
        hide Step, Feed;
        var out := Take(input[pos]);
        BytesOnly(l, input[pos]);
        pos := pos + 1;
        if out.Byte? {
          return out.c;
        }
        assert [] + Feed(LineNow(), input[pos..]).out == Feed(LineNow(), input[pos..]).out;
      }
      return -1;
    }

    /** Call after call. */
    method ReadAll() returns (out: seq<int>)
      requires Valid() && forall i :: 0 <= i < |input| ==> 0 <= input[i] < 256
      modifies this`pos, this`state, this`client, this`subpointer, this`rows, subbuffer
      ensures Valid() && out == Feed(old(LineNow()), input[old(pos)..]).out
    {
      hide Feed;
      out := [];
      ghost var all := Feed(LineNow(), input[pos..]);
      var c := Telrcv();
      while c >= 0
        invariant Valid() && pos <= |input|
        invariant all.out == out + (if c >= 0 then [c] else []) + Feed(LineNow(), input[pos..]).out
        invariant c < 0 ==> Feed(LineNow(), input[pos..]).out == []
        decreases |input| - pos, c >= 0
      {
        out := out + [c];
        ghost var rest := Feed(LineNow(), input[pos..]).out;
        c := Telrcv();
        assert out + rest == out + (if c >= 0 then [c] else []) + Feed(LineNow(), input[pos..]).out;
      }
    }
  }

  lemma BytesOnly(l: Line, c: int)
    ensures Step(l, c).out.Byte? ==> 0 <= Step(l, c).out.c < 128
  {
  }
}
