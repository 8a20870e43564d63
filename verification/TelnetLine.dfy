/** The byte decoder of qtelrcv(): which bytes are data, which belong to commands, and which reach
    suboption(); and what suboption() makes of them. */
module TelnetLine {

  const IAC: int := 255
  const SE: int := 240
  const SB: int := 250
  const CLIENT2: int := 0xb0
  const SUBBUFFER: nat := 64
  const PAYLOAD: nat := 62

  const NAWS: int := 31
  const ENVIRON: int := 36
  const IS: int := 0
  const INFO: int := 2
  const ENV_VALUE: int := 0
  const ENV_VAR: int := 1
  const ENV_ESC: int := 2
  const USER_LENGTH: nat := 15

  datatype State = Data | Iac | Cr | Sub | SubIac | Will | Wont | Do | Dont

  /** `sub` is what lies in the sub-option buffer below its pointer. */
  datatype Line = Line(state: State, sub: seq<int>, client: bool)

  /** What one byte leaves, and the payload handed to suboption(), if any. */
  datatype Outcome = Outcome(line: Line, payloads: seq<seq<int>>)

  /** SB_ACCUM() */
  function Accum(sub: seq<int>, c: int): seq<int>
  {
    if |sub| < SUBBUFFER then sub + [c] else sub
  }

  /** The two bytes of the end mark are accumulated and taken back again. */
  function Cut(sub: seq<int>): seq<int>
  {
    if |sub| <= PAYLOAD then sub else sub[..PAYLOAD]
  }

  /** A byte that follows IAC. */
  function AfterIac(l: Line, c: int): Line
  {
    if c == SB then l.(state := Sub, sub := [])
    else if c == 251 then l.(state := Will)
    else if c == 252 then l.(state := Wont)
    else if c == 253 then l.(state := Do)
    else if c == 254 then l.(state := Dont)
    else if c == CLIENT2 then l.(state := Data, client := true)
    else l.(state := Data)
  }

  function AtData(l: Line, c: int): Line
  {
    if c == IAC then l.(state := Iac)
    else if c % 128 == 13 && !l.client then l.(state := Cr)
    else l.(state := Data)
  }

  function Step(l: Line, c: int): Outcome
  {
    match l.state
    case Data => Outcome(AtData(l, c), [])
    case Cr =>
      Outcome(if c != IAC && (c % 128 == 0 || c % 128 == 10) then l.(state := Data)
              else AtData(l, if c == IAC then c else c % 128), [])
    case Iac => Outcome(AfterIac(l, c), [])
    case Sub => Outcome(if c == IAC then l.(state := SubIac) else l.(sub := Accum(l.sub, c)), [])
    case SubIac =>
      if c == SE then Outcome(l.(state := Data, sub := []), [Cut(l.sub)])
      else if c == IAC then Outcome(l.(state := Sub, sub := Accum(l.sub, IAC)), [])
      else Outcome(AfterIac(l.(sub := []), c), [Cut(l.sub)])
    case _ => Outcome(l.(state := Data), [])
  }

  /** Any number of bytes. */
  function Feed(l: Line, input: seq<int>): Outcome
    decreases |input|
  {
    if input == [] then Outcome(l, []) else
    var o := Step(l, input[0]);
    var r := Feed(o.line, input[1..]);
    Outcome(r.line, o.payloads + r.payloads)
  }

  /** It does not matter how the input is split across reads. */
  lemma {:induction false} Split(l: Line, a: seq<int>, b: seq<int>)
    ensures var f, g := Feed(l, a), Feed(Feed(l, a).line, b);
      Feed(l, a + b) == Outcome(g.line, f.payloads + g.payloads)
    decreases |a|
  {
    if a == [] {
      assert a + b == b;
    } else {
      var o := Step(l, a[0]);
      Split(o.line, a[1..], b);
      assert (a + b)[1..] == a[1..] + b;
      hide Step;
      var f, g := Feed(o.line, a[1..]), Feed(Feed(o.line, a[1..]).line, b);
      assert o.payloads + (f.payloads + g.payloads) == (o.payloads + f.payloads) + g.payloads;
    }
  }

  /** A payload as it is sent: IAC is doubled. */
  function Doubled(p: seq<int>): seq<int>
  {
    if p == [] then [] else (if p[0] == IAC then [IAC, IAC] else [p[0]]) + Doubled(p[1..])
  }

  function Limited(p: seq<int>, n: nat): seq<int>
  {
    if |p| <= n then p else p[..n]
  }

  lemma One(l: Line, a: int, rest: seq<int>)
    ensures Feed(l, [a] + rest)
      == Outcome(Feed(Step(l, a).line, rest).line, Step(l, a).payloads + Feed(Step(l, a).line, rest).payloads)
  {
  }

  /** One byte of a payload, doubled if need be. */
  lemma AccumulatesOne(l: Line, c: int, tail: seq<int>)
    requires l.state == Sub
    ensures Feed(l, (if c == IAC then [IAC, IAC] else [c]) + tail) == Feed(l.(sub := Accum(l.sub, c)), tail)
  {
  }

  lemma {:induction false} Accumulates(l: Line, p: seq<int>, rest: seq<int>)
    requires l.state == Sub && |l.sub| <= SUBBUFFER
    ensures Feed(l, Doubled(p) + rest) == Feed(l.(sub := Limited(l.sub + p, SUBBUFFER)), rest)
    decreases |p|
  {
    hide Feed;
    if p == [] {
      assert Doubled(p) + rest == rest && l.sub + p == l.sub;
    } else {
      var first, tail := if p[0] == IAC then [IAC, IAC] else [p[0]], Doubled(p[1..]) + rest;
      assert Doubled(p) == first + Doubled(p[1..]);
      Joins(first, Doubled(p[1..]), rest);
      LimitedOnce(l.sub, p);
      hide Doubled, Limited, Accum;
      AccumulatesOne(l, p[0], tail);
      Accumulates(l.(sub := Accum(l.sub, p[0])), p[1..], rest);
    }
  }

  lemma LimitedOnce(sub: seq<int>, p: seq<int>)
    requires |sub| <= SUBBUFFER && p != []
    ensures |Accum(sub, p[0])| <= SUBBUFFER
    ensures Limited(Accum(sub, p[0]) + p[1..], SUBBUFFER) == Limited(sub + p, SUBBUFFER)
  {
  }

  lemma Joins(a: seq<int>, b: seq<int>, c: seq<int>)
    ensures (a + b) + c == a + (b + c)
  {
  }

  /** The mark at the end of a payload. */
  lemma Ends(l: Line)
    requires l.state == Sub
    ensures Feed(l, [IAC, SE]) == Outcome(l.(state := Data, sub := []), [Cut(l.sub)])
  {
    var m := l.(state := SubIac);
    assert [IAC, SE] == [IAC] + [SE] && [SE] == [SE] + [];
    One(l, IAC, [SE]);
    One(m, SE, []);
    assert Step(m, SE).payloads + [] == Step(m, SE).payloads;
  }

  /** Any payload, its IACs doubled, reaches suboption() as its first 62 bytes. */
  lemma PayloadArrives(l: Line, p: seq<int>)
    requires l.state == Data
    ensures Feed(l, [IAC, SB] + Doubled(p) + [IAC, SE]) == Outcome(l.(sub := []), [Limited(p, PAYLOAD)])
  {
    var rest := Doubled(p) + [IAC, SE];
    assert [IAC, SB] + Doubled(p) + [IAC, SE] == [IAC] + ([SB] + rest);
    One(l, IAC, [SB] + rest);
    One(l.(state := Iac), SB, rest);
    hide Feed, Doubled;
    var m := l.(state := Sub, sub := []);
    Accumulates(m, p, [IAC, SE]);
    assert [] + p == p;
    Ends(m.(sub := Limited(p, SUBBUFFER)));
    assert Cut(Limited(p, SUBBUFFER)) == Limited(p, PAYLOAD);
  }

  // ---------------------------------------------------------------- the environment

  /** A string up to its first NUL. */
  function CString(s: seq<int>): seq<int>
  {
    if s == [] || s[0] == 0 then [] else [s[0]] + CString(s[1..])
  }

  const USER := [85, 83, 69, 82]

  datatype Value = Missing | Given(text: seq<int>)

  /** A variable is over: if it is USER and has a value, that is the name kept. */
  function Finished(name: seq<int>, value: Value, user: seq<int>): seq<int>
  {
    if value.Given? && CString(name) == USER then Limited(CString(value.text), USER_LENGTH) else user
  }

  function Pushed(name: seq<int>, value: Value, c: int): (seq<int>, Value)
  {
    if value.Given? then (name, Given(value.text + [c])) else (name + [c], value)
  }

  /** The name to keep, decoded from left to right into strings of its own. */
  function Decoded(rest: seq<int>, name: seq<int>, value: Value, user: seq<int>): seq<int>
    decreases |rest|
  {
    if rest == [] then Finished(name, value, user)
    else if rest[0] == ENV_VALUE then Decoded(rest[1..], name, Given([]), user)
    else if rest[0] == ENV_VAR then Decoded(rest[1..], [], Missing, Finished(name, value, user))
    else if rest[0] == ENV_ESC && |rest| == 1 then Finished(name, value, user)
    else
      var n := if rest[0] == ENV_ESC then 2 else 1;
      var p := Pushed(name, value, rest[n - 1]);
      Decoded(rest[n..], p.0, p.1, user)
  }

  /** The text after the first ENV_VAR. */
  function AfterVar(s: seq<int>): seq<int>
  {
    if s == [] then [] else if s[0] == ENV_VAR then s[1..] else AfterVar(s[1..])
  }

  /** What suboption() does to the name it keeps. */
  function UserAfter(payload: seq<int>, user: seq<int>): seq<int>
  {
    if |payload| < 2 || payload[0] != ENVIRON || (payload[1] != IS && payload[1] != INFO) then user
    else if AfterVar(payload[2..]) == [] then user
    else Decoded(AfterVar(payload[2..]), [], Missing, user)
  }

  function Signed8(n: int): int
  {
    if n % 256 >= 128 then n % 256 - 256 else n % 256
  }

  /** And to the height of the window. */
  function RowsAfter(payload: seq<int>, rows: int): int
  {
    if |payload| >= 5 && payload[0] == NAWS then Signed8(payload[4]) else rows
  }

  // ---------------------------------------------------------------- what a client says is what is kept

  datatype Variable = Variable(name: seq<int>, value: seq<int>)

  function Escaped(s: seq<int>): seq<int>
  {
    if s == [] then [] else (if 0 <= s[0] <= 2 then [ENV_ESC, s[0]] else [s[0]]) + Escaped(s[1..])
  }

  /** Variables as RFC 1408 writes them. */
  function Encoded(vars: seq<Variable>): seq<int>
  {
    if vars == [] then []
    else [ENV_VAR] + Escaped(vars[0].name) + [ENV_VALUE] + Escaped(vars[0].value) + Encoded(vars[1..])
  }

  /** The value of the last variable called USER. */
  function LastUser(vars: seq<Variable>, user: seq<int>): seq<int>
  {
    if vars == [] then user else LastUser(vars[1..], Finished(vars[0].name, Given(vars[0].value), user))
  }

  lemma DecodesOne(c: int, tail: seq<int>, name: seq<int>, value: Value, user: seq<int>)
    ensures var p := Pushed(name, value, c);
      Decoded((if 0 <= c <= 2 then [ENV_ESC, c] else [c]) + tail, name, value, user) == Decoded(tail, p.0, p.1, user)
  {
    var first := if 0 <= c <= 2 then [ENV_ESC, c] else [c];
    var all := first + tail;
    assert all[|first|..] == tail && all[|first| - 1] == c;
    hide Pushed;
  }

  /** A string is added to the value, or to the name if there is no value yet. */
  lemma {:induction false} DecodesText(s: seq<int>, rest: seq<int>, name: seq<int>, value: Value, user: seq<int>)
    ensures Decoded(Escaped(s) + rest, name, value, user)
       == if value.Given? then Decoded(rest, name, Given(value.text + s), user)
          else Decoded(rest, name + s, Missing, user)
    decreases |s|
  {
    hide Decoded;
    if s == [] {
      assert Escaped(s) + rest == rest && name + s == name && (value.Given? ==> value.text + s == value.text);
    } else {
      var first, tail := if 0 <= s[0] <= 2 then [ENV_ESC, s[0]] else [s[0]], Escaped(s[1..]) + rest;
      assert Escaped(s) == first + Escaped(s[1..]) && s == [s[0]] + s[1..];
      Joins(first, Escaped(s[1..]), rest);
      Joins(name, [s[0]], s[1..]);
      Joins(if value.Given? then value.text else [], [s[0]], s[1..]);
      hide Escaped;
      DecodesOne(s[0], tail, name, value, user);
      var p := Pushed(name, value, s[0]);
      DecodesText(s[1..], rest, p.0, p.1, user);
    }
  }

  /** Decoding undoes the encoding of section 2 of RFC 1408. */
  lemma {:induction false} DecodesVariables(vars: seq<Variable>, name: seq<int>, value: Value, user: seq<int>)
    ensures Decoded(Encoded(vars), name, value, user) == LastUser(vars, Finished(name, value, user))
    decreases |vars|
  {
    if vars != [] {
      var v, more := vars[0], Encoded(vars[1..]);
      var valued := Escaped(v.value) + more;
      var named := Escaped(v.name) + ([ENV_VALUE] + valued);
      assert Encoded(vars) == [ENV_VAR] + named;
      var kept := Finished(name, value, user);
      assert ([ENV_VAR] + named)[1..] == named;
      assert Decoded(Encoded(vars), name, value, user) == Decoded(named, [], Missing, kept);
      DecodesText(v.name, [ENV_VALUE] + valued, [], Missing, kept);
      assert [] + v.name == v.name && [] + v.value == v.value && ([ENV_VALUE] + valued)[1..] == valued;
      assert Decoded([ENV_VALUE] + valued, v.name, Missing, kept) == Decoded(valued, v.name, Given([]), kept);
      DecodesText(v.value, more, v.name, Given([]), kept);
      DecodesVariables(vars[1..], v.name, Given(v.value), kept);
    }
  }

  /** A client's variables, if they fit the buffer, leave the value of the last USER, cut to 15. */
  lemma VariablesArrive(l: Line, vars: seq<Variable>, user: seq<int>)
    requires l.state == Data && vars != [] && 2 + |Encoded(vars)| <= PAYLOAD
    ensures var o := Feed(l, [IAC, SB] + Doubled([ENVIRON, IS] + Encoded(vars)) + [IAC, SE]);
      o.line == l.(sub := []) && |o.payloads| == 1 && UserAfter(o.payloads[0], user) == LastUser(vars, user)
  {
    var p := [ENVIRON, IS] + Encoded(vars);
    PayloadArrives(l, p);
    assert p[2..] == Encoded(vars) && Encoded(vars)[0] == ENV_VAR;
    var named := Encoded(vars)[1..];
    assert Decoded(Encoded(vars), [], Missing, user) == Decoded(named, [], Missing, user);
    DecodesVariables(vars, [], Missing, user);
  }

  /** A window size as RFC 1073 writes it. */
  function WindowSize(width: int, height: int): seq<int>
  {
    [NAWS, width / 256, width % 256, height / 256, height % 256]
  }

  /** A client's window height is kept, whatever the width, exactly if it is less than 128. */
  lemma WindowArrives(l: Line, width: int, height: int, rows: int)
    requires l.state == Data && 0 <= width < 0x1_0000 && 0 <= height < 0x1_0000
    ensures var o := Feed(l, [IAC, SB] + Doubled(WindowSize(width, height)) + [IAC, SE]);
      o.line == l.(sub := []) && |o.payloads| == 1 && (RowsAfter(o.payloads[0], rows) == height <==> height < 128)
  {
    PayloadArrives(l, WindowSize(width, height));
    hide Feed;
  }
}
