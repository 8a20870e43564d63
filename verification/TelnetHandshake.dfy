/** The opening negotiation of qstate.c together with a peer at the other end of two first-in-first-out
    streams.  The peer answers every DO once with WILL or WONT, DONT with WONT, WILL and WONT with DO, DONT
    or not at all, and never speaks first. */
module TelnetHandshake {
  import opened TelnetOptions

  /** The stages of qinit(); 0 when the connection has gone on to the login queue. */
  const T_DONE: int := 0
  const T_INIT1: int := 1
  const T_INIT2: int := 2
  const T_INIT3: int := 3
  const T_INIT4: int := 4

  /** `down` holds what the server has sent and the peer has not read, `up` the peer's answers; `echo` is
      whether the peer echoes for itself. */
  datatype System = System(t: Table, stage: int, down: seq<Command>, up: seq<Command>, echo: bool)

  // ---------------------------------------------------------------- qinit()

  function OfferSga(t: Table): (r: Reply)
    requires Sized(t)
    ensures Sized(r.t)
  {
    if t.mine[SGA].on then Reply(t, []) else SendWill(t, SGA)
  }

  /** If the peer echoes for itself it is told not to, and a fence follows. */
  function RefuseEcho(t: Table): (r: Reply)
    requires Sized(t)
    ensures Sized(r.t)
  {
    if !t.his[ECHO].wanted then Reply(t, []) else
    var r1 := WillOption(t, ECHO);
    var r2 := SendDo(r1.t, NULL2);
    Reply(r2.t, r1.out + r2.out)
  }

  /** What the server does once NULL1 has been answered. */
  function Init2(t: Table): (r: Reply)
    requires Sized(t)
    ensures Sized(r.t)
  {
    var r1 := OfferSga(t);
    var r2 := RefuseEcho(r1.t);
    Reply(r2.t, r1.out + r2.out)
  }

  /** What it does once NULL2 has been answered, or was not needed. */
  function Init3(t: Table): (r: Reply)
    requires Sized(t)
    ensures Sized(r.t)
  {
    if t.mine[ECHO].on then Reply(t, []) else
    var r1 := SendWill(t, ECHO);
    var r2 := SendDo(r1.t, NULL3);
    Reply(r2.t, r1.out + r2.out)
  }

  /** Silence about one of the server's own options is taken for consent. */
  function Consent(t: Table, o: int): (r: Reply)
    requires Sized(t) && 0 <= o < OPTIONS
    ensures Sized(r.t)
  {
    if Changing(t.mine[o]) then DoOption(t, o) else Reply(t, [])
  }

  /** What it does once NULL3 has been answered: silence counts as consent. */
  function Init4(t: Table): (r: Reply)
    requires Sized(t)
    ensures Sized(r.t)
  {
    var r1 := Consent(t, SGA);
    var r2 := Consent(r1.t, ECHO);
    Reply(r2.t, r1.out + r2.out)
  }

  datatype Stage = Stage(stage: int, r: Reply)

  function FromInit4(t: Table): Stage
    requires Sized(t)
  {
    if Changing(t.his[NULL3]) then Stage(T_INIT4, Reply(t, [])) else Stage(T_DONE, Init4(t))
  }

  function FromInit3(t: Table): Stage
    requires Sized(t)
  {
    if Changing(t.his[NULL2]) then Stage(T_INIT3, Reply(t, [])) else
    var r := Init3(t);
    var s := FromInit4(r.t);
    Stage(s.stage, Reply(s.r.t, r.out + s.r.out))
  }

  function FromInit2(t: Table): Stage
    requires Sized(t)
  {
    if Changing(t.his[NULL1]) then Stage(T_INIT2, Reply(t, [])) else
    var r := Init2(t);
    var s := FromInit3(r.t);
    Stage(s.stage, Reply(s.r.t, r.out + s.r.out))
  }

  /** The first requests of a new connection. */
  function Init1(t: Table): (r: Reply)
    requires Sized(t)
    ensures Sized(r.t)
  {
    var r1 := SendDo(t, ENVIRON);
    var r2 := SendDo(r1.t, ECHO);
    var r3 := SendDo(r2.t, NAWS);
    var r4 := SendDo(r3.t, NULL1);
    Reply(r4.t, r1.out + r2.out + r3.out + r4.out)
  }

  /** qinit() from any of its stages; each falls through to the next. */
  function Qinit(t: Table, stage: int): Stage
    requires Sized(t)
  {
    if stage == T_INIT1 then
      var r := Init1(t);
      var s := FromInit2(r.t);
      Stage(s.stage, Reply(s.r.t, r.out + s.r.out))
    else if stage == T_INIT2 then FromInit2(t)
    else if stage == T_INIT3 then FromInit3(t)
    else if stage == T_INIT4 then FromInit4(t)
    else Stage(stage, Reply(t, []))
  }

  lemma Init1Settles(t: Table)
    requires Steady(t)
    ensures Steady(Init1(t).t)
  {
    hide Settling, SendDo, SendWill;
    RequestSettles(t, ENVIRON);
    RequestSettles(SendDo(t, ENVIRON).t, ECHO);
    RequestSettles(SendDo(SendDo(t, ENVIRON).t, ECHO).t, NAWS);
    RequestSettles(SendDo(SendDo(SendDo(t, ENVIRON).t, ECHO).t, NAWS).t, NULL1);
  }

  lemma Init2Settles(t: Table)
    requires Steady(t)
    ensures Steady(Init2(t).t)
  {
    hide Settling, SendDo, SendWill, WillOption;
    RequestSettles(t, SGA);
    var r1 := OfferSga(t);
    HeardSettles(r1.t, Command(Will, ECHO));
    RequestSettles(WillOption(r1.t, ECHO).t, NULL2);
  }

  lemma Init3Settles(t: Table)
    requires Steady(t)
    ensures Steady(Init3(t).t)
  {
    hide Settling, SendDo, SendWill;
    RequestSettles(t, ECHO);
    RequestSettles(SendWill(t, ECHO).t, NULL3);
  }

  lemma Init4Settles(t: Table)
    requires Steady(t)
    ensures Steady(Init4(t).t)
  {
    hide Settling, DoOption;
    HeardSettles(t, Command(Do, SGA));
    var r1 := if Changing(t.mine[SGA]) then DoOption(t, SGA) else Reply(t, []);
    HeardSettles(r1.t, Command(Do, ECHO));
  }

  /** Nor does qinit(), in whatever stage and whatever the peer has said before: counters stay in 0..2,
      and one that is zero means that the side is what it is wanted to be. */
  lemma QinitSettles(t: Table, stage: int)
    requires Steady(t)
    ensures Steady(Qinit(t, stage).r.t)
  {
    hide Settling, Init1, FromInit2, FromInit3, FromInit4;
    Init1Settles(t);
    From2Settles(t);
    From2Settles(Init1(t).t);
    From3Settles(t);
    From4Settles(t);
  }

  lemma From4Settles(t: Table)
    requires Steady(t)
    ensures Steady(FromInit4(t).r.t)
  {
    hide Settling, Init4;
    Init4Settles(t);
  }

  lemma From3Settles(t: Table)
    requires Steady(t)
    ensures Steady(FromInit3(t).r.t)
  {
    hide Settling, Init3, FromInit4;
    Init3Settles(t);
    From4Settles(t);
    From4Settles(Init3(t).t);
  }

  lemma From2Settles(t: Table)
    requires Steady(t)
    ensures Steady(FromInit2(t).r.t)
  {
    hide Settling, Init2, FromInit3;
    Init2Settles(t);
    From3Settles(Init2(t).t);
  }

  /** A new connection whose first requests have been sent. */
  function Opening(): System
  {
    var r := Init1(Table(seq(OPTIONS, _ => OFF), seq(OPTIONS, _ => OFF), 0, 0));
    System(r.t, T_INIT2, r.out, [], false)
  }

  // ---------------------------------------------------------------- steps

  datatype Move = Answer(reply: seq<Command>) | Receive | Initiate

  /** What the peer may say to a command of the server. */
  predicate Fair(c: Command, reply: seq<Command>)
  {
    match c.verb
    case Do => reply == [Command(Will, c.option)] || reply == [Command(Wont, c.option)]
    case Dont => reply == [Command(Wont, c.option)]
    case _ => reply == [] || reply == [Command(Do, c.option)] || reply == [Command(Dont, c.option)]
  }

  predicate Enabled(s: System, m: Move)
  {
    match m
    case Answer(reply) => s.down != [] && Fair(s.down[0], reply)
    case Receive => s.up != [] && 0 <= s.up[0].option
    case Initiate => true
  }

  function Next(s: System, m: Move): System
    requires Sized(s.t) && Enabled(s, m)
  {
    match m
    case Answer(reply) =>
      var c := s.down[0];
      s.(down := s.down[1..], up := s.up + reply,
         echo := if c.option == ECHO && (c.verb == Do || c.verb == Dont) then reply[0].verb == Will else s.echo)
    case Receive =>
      var r := Heard(s.t, s.up[0]);
      s.(t := r.t, up := s.up[1..], down := s.down + r.out)
    case Initiate =>
      var n := Qinit(s.t, s.stage);
      s.(t := n.r.t, stage := n.stage, down := s.down + n.r.out)
  }

  /** The states the two can get to. */
  ghost predicate Run(trace: seq<System>)
  {
    && trace != [] && trace[0] == Opening()
    && forall i :: 0 <= i < |trace| - 1 ==>
      Sized(trace[i].t) && exists m :: Enabled(trace[i], m) && trace[i + 1] == Next(trace[i], m)
  }

  // ---------------------------------------------------------------- what is still on its way

  /** Commands about what the peer is to do. */
  predicate Asking(c: Command) { c.verb == Do || c.verb == Dont }

  predicate Answering(c: Command) { c.verb == Will || c.verb == Wont }

  function Requests(q: seq<Command>): seq<Command>
  {
    if q == [] then [] else (if Asking(q[0]) then [q[0]] else []) + Requests(q[1..])
  }

  function Answers(q: seq<Command>): seq<Command>
  {
    if q == [] then [] else (if Answering(q[0]) then [q[0]] else []) + Answers(q[1..])
  }

  lemma Head(q: seq<Command>)
    requires q != []
    ensures Requests(q) == if Asking(q[0]) then [q[0]] + Requests(q[1..]) else Requests(q[1..])
    ensures Answers(q) == if Answering(q[0]) then [q[0]] + Answers(q[1..]) else Answers(q[1..])
  {
  }

  lemma Associates(a: seq<Command>, b: seq<Command>, c: seq<Command>)
    ensures a + (b + c) == (a + b) + c
  {
  }

  lemma {:induction false} RequestsJoin(a: seq<Command>, b: seq<Command>)
    ensures Requests(a + b) == Requests(a) + Requests(b)
  {
    if a == [] {
      assert a + b == b;
    } else {
      RequestsJoin(a[1..], b);
      assert (a + b)[1..] == a[1..] + b && (a + b)[0] == a[0];
      Head(a);
      Head(a + b);
      hide Requests;
      Associates(if Asking(a[0]) then [a[0]] else [], Requests(a[1..]), Requests(b));
    }
  }

  lemma {:induction false} AnswersJoin(a: seq<Command>, b: seq<Command>)
    ensures Answers(a + b) == Answers(a) + Answers(b)
  {
    if a == [] {
      assert a + b == b;
    } else {
      AnswersJoin(a[1..], b);
      assert (a + b)[1..] == a[1..] + b && (a + b)[0] == a[0];
      Head(a);
      Head(a + b);
      hide Answers;
      Associates(if Answering(a[0]) then [a[0]] else [], Answers(a[1..]), Answers(b));
    }
  }

  /** The requests of a stage, oldest first. */
  function Asked2(): seq<Command> { [Command(Do, ENVIRON), Command(Do, ECHO), Command(Do, NAWS), Command(Do, NULL1)] }
  function Asked3(): seq<Command> { [Command(Dont, ECHO), Command(Do, NULL2)] }
  function Asked4(): seq<Command> { [Command(Do, NULL3)] }

  /** Of `list`, the peer has read the first j requests and the server the first k answers, in order. */
  ghost predicate Pipe(down: seq<Command>, up: seq<Command>, list: seq<Command>, k: nat, j: nat)
  {
    && k <= j <= |list| && Requests(down) == list[j..]
    && |Answers(up)| == j - k && AllFit(list, k, Answers(up))
  }

  /** The answers are answers to list[k], list[k + 1], … */
  ghost predicate AllFit(list: seq<Command>, k: nat, a: seq<Command>)
  {
    k + |a| <= |list| && forall i :: 0 <= i < |a| ==> Fits(list[k + i], a[i])
  }

  predicate Fits(request: Command, answer: Command)
  {
    answer.option == request.option && (request.verb == Dont ==> answer.verb == Wont)
  }

  /** The other commands are about the two options the server offers. */
  predicate Noise(s: System)
  {
    && (forall c :: c in s.down ==> 0 <= c.option && (Asking(c) || c.option == SGA || c.option == ECHO))
    && (forall c :: c in s.up ==> 0 <= c.option && (Answering(c) || c.option == SGA || c.option == ECHO))
  }

  /** Nothing has been said yet about the server's echoing. */
  predicate Quiet(s: System)
    requires Sized(s.t)
  {
    && s.t.mine[ECHO] == OFF
    && (forall c :: c in s.down && c.option == ECHO ==> Asking(c))
    && (forall c :: c in s.up && c.option == ECHO ==> Answering(c))
  }

  predicate Settled(s: Side) { s.resp == 0 && s.on == s.wanted }

  const WAITING := Side(false, true, 1)

  predicate Table2(t: Table, k: nat)
    requires Sized(t)
  {
    && (forall i :: 0 <= i < 4 ==>
          if i < k then Settled(t.his[Asked2()[i].option]) else t.his[Asked2()[i].option] == WAITING)
    && t.his[NULL2] == t.his[NULL3] == OFF
  }

  predicate Table3(t: Table, k: nat)
    requires Sized(t)
  {
    && Settled(t.his[ENVIRON]) && Settled(t.his[NAWS]) && Settled(t.his[NULL1]) && t.his[NULL3] == OFF
    && t.his[ECHO] == (if k == 0 then Side(true, false, 1) else OFF)
    && (if k < 2 then t.his[NULL2] == WAITING else Settled(t.his[NULL2]))
  }

  predicate Table4(t: Table, k: nat)
    requires Sized(t)
  {
    && Settled(t.his[ENVIRON]) && Settled(t.his[NAWS]) && Settled(t.his[NULL1]) && Settled(t.his[NULL2])
    && t.his[ECHO] == OFF
    && (if k < 1 then t.his[NULL3] == WAITING else Settled(t.his[NULL3]))
  }

  ghost predicate Known2(s: System, k: nat, j: nat)
    requires Sized(s.t) && Pipe(s.down, s.up, Asked2(), k, j)
  {
    s.echo == if j < 2 then false else if k < 2 then Answers(s.up)[1 - k].verb == Will else s.t.his[ECHO].on
  }

  ghost predicate Invariant(s: System, k: nat, j: nat)
  {
    && Sized(s.t) && Noise(s)
    && match s.stage
      case 2 => Pipe(s.down, s.up, Asked2(), k, j) && Table2(s.t, k) && Known2(s, k, j) && Quiet(s)
      case 3 => Pipe(s.down, s.up, Asked3(), k, j) && Table3(s.t, k) && (j >= 1 ==> !s.echo) && Quiet(s)
      case _ =>
        && (s.stage == T_INIT4 || s.stage == T_DONE)
        && Pipe(s.down, s.up, Asked4(), k, j) && Table4(s.t, k) && !s.echo
  }

  // ---------------------------------------------------------------- every step keeps the invariant

  lemma One(q: seq<Command>)
    requires |q| <= 1
    ensures Requests(q) == (if q != [] && Asking(q[0]) then q else [])
    ensures Answers(q) == (if q != [] && Answering(q[0]) then q else [])
  {
  }

  lemma RequestRead(down: seq<Command>, list: seq<Command>, j: nat)
    requires down != [] && j <= |list| && Requests(down) == list[j..]
    ensures Asking(down[0]) ==> j < |list| && down[0] == list[j]
    ensures var j' := if Asking(down[0]) then j + 1 else j; j' <= |list| && Requests(down[1..]) == list[j'..]
  {
    Head(down);
    hide Requests;
    if Asking(down[0]) {
      assert list[j..][0] == down[0] && list[j..][1..] == list[j + 1..];
    }
  }

  lemma ReplySaid(c: Command, up: seq<Command>, reply: seq<Command>)
    requires Fair(c, reply)
    ensures Answers(up + reply) == if Asking(c) then Answers(up) + reply else Answers(up)
  {
    hide Requests, Answers;
    One(reply);
    AnswersJoin(up, reply);
    assert Answers(up) + [] == Answers(up);
  }

  lemma OneMoreFits(list: seq<Command>, k: nat, a: seq<Command>, r: Command)
    requires AllFit(list, k, a) && k + |a| < |list| && Fits(list[k + |a|], r)
    ensures AllFit(list, k, a + [r])
  {
    hide Fits;
  }

  lemma RestFits(list: seq<Command>, k: nat, a: seq<Command>)
    requires AllFit(list, k, a) && a != []
    ensures Fits(list[k], a[0]) && AllFit(list, k + 1, a[1..])
  {
    hide Fits;
    assert Fits(list[k + 0], a[0]);
    forall i | 0 <= i < |a| - 1 ensures Fits(list[k + 1 + i], a[1..][i]) {
      assert Fits(list[k + (i + 1)], a[i + 1]);
    }
  }

  lemma PipeAnswer(down: seq<Command>, up: seq<Command>, reply: seq<Command>, list: seq<Command>, k: nat, j: nat)
    requires down != [] && Fair(down[0], reply) && Pipe(down, up, list, k, j)
    ensures Asking(down[0]) ==> j < |list| && down[0] == list[j]
    ensures Pipe(down[1..], up + reply, list, k, if Asking(down[0]) then j + 1 else j)
    ensures Answers(up + reply) == if Asking(down[0]) then Answers(up) + reply else Answers(up)
  {
    hide Requests, Answers, AllFit;
    RequestRead(down, list, j);
    ReplySaid(down[0], up, reply);
    if Asking(down[0]) {
      assert reply == [reply[0]];
      OneMoreFits(list, k, Answers(up), reply[0]);
    }
  }

  lemma PipeReceive(down: seq<Command>, up: seq<Command>, out: seq<Command>, list: seq<Command>, k: nat, j: nat)
    requires up != [] && Requests(out) == [] && Pipe(down, up, list, k, j)
    ensures Answering(up[0]) ==> k < j && Answers(up)[0] == up[0] && Fits(list[k], up[0])
    ensures Pipe(down + out, up[1..], list, if Answering(up[0]) then k + 1 else k, j)
    ensures Answers(up[1..]) == if Answering(up[0]) then Answers(up)[1..] else Answers(up)
  {
    hide Requests, Answers, Fits, AllFit;
    Head(up);
    RequestsJoin(down, out);
    assert Requests(down) + [] == Requests(down);
    if Answering(up[0]) {
      RestFits(list, k, Answers(up));
      assert Answers(up)[1..] == Answers(up[1..]);
    }
  }

  lemma HeardAnswer(t: Table, c: Command)
    requires Sized(t) && 0 <= c.option < OPTIONS && Answering(c)
    requires t.his[c.option] == WAITING || (t.his[c.option] == Side(true, false, 1) && c.verb == Wont)
    ensures Heard(t, c) == Reply(t.(his := t.his[c.option := Side(c.verb == Will, c.verb == Will, 0)]), [])
  {
  }

  lemma HeardNoise(t: Table, c: Command)
    requires Sized(t) && !Answering(c) && (c.option == SGA || c.option == ECHO)
    ensures var r := Heard(t, c);
      && r.t.his == t.his && Sized(r.t) && (c.option != ECHO ==> r.t.mine[ECHO] == t.mine[ECHO])
      && Requests(r.out) == [] && forall d :: d in r.out ==> d.option == c.option && !Asking(d)
  {
    Quietly(Heard(t, c).out);
  }

  lemma {:induction false} Quietly(q: seq<Command>)
    ensures (forall d :: d in q ==> !Asking(d)) ==> Requests(q) == []
  {
    if q != [] {
      Quietly(q[1..]);
      assert forall d :: d in q[1..] ==> d in q;
    }
  }

  lemma AnswerQuiet(s: System, reply: seq<Command>)
    requires Sized(s.t) && Noise(s) && Enabled(s, Answer(reply))
    ensures Noise(Next(s, Answer(reply))) && (Quiet(s) ==> Quiet(Next(s, Answer(reply))))
  {
    hide Sized;
    assert s.down[0] in s.down;
  }

  lemma AnswerKeeps(s: System, reply: seq<Command>, k: nat, j: nat)
    requires Invariant(s, k, j) && Enabled(s, Answer(reply))
    ensures Invariant(Next(s, Answer(reply)), k, if Asking(s.down[0]) then j + 1 else j)
  {
    hide Requests, Answers, AllFit, Noise, Quiet, Table2, Table3, Table4, Next;
    AnswerQuiet(s, reply);
    AnswerShape(s, reply);
    if s.stage == 2 {
      PipeAnswer(s.down, s.up, reply, Asked2(), k, j);
    } else if s.stage == 3 {
      PipeAnswer(s.down, s.up, reply, Asked3(), k, j);
    } else {
      PipeAnswer(s.down, s.up, reply, Asked4(), k, j);
    }
  }

  lemma AnswerShape(s: System, reply: seq<Command>)
    requires Sized(s.t) && Enabled(s, Answer(reply))
    ensures var u, c := Next(s, Answer(reply)), s.down[0];
      && u.t == s.t && u.stage == s.stage && u.down == s.down[1..] && u.up == s.up + reply
      && (Asking(c) ==> |reply| == 1 && (c.verb == Dont ==> reply[0].verb == Wont))
      && u.echo == if c.option == ECHO && Asking(c) then reply[0].verb == Will else s.echo
  {
  }

  /** An answer that is expected settles its option and causes nothing to be sent. */
  lemma AnswerRead(s: System)
    requires Sized(s.t) && Noise(s) && Enabled(s, Receive) && Answering(s.up[0]) && s.up[0].option < OPTIONS
    requires var w := s.t.his[s.up[0].option]; w == WAITING || (w == Side(true, false, 1) && s.up[0].verb == Wont)
    ensures var c, u := s.up[0], Next(s, Receive);
      && u == s.(t := Heeded(s.t, c), up := s.up[1..])
      && Noise(u) && (Quiet(s) ==> Quiet(u))
  {
    HeardAnswer(s.t, s.up[0]);
    assert s.down + [] == s.down;
    hide Heard;
  }

  /** The option an answer is about has settled. */
  function Heeded(t: Table, c: Command): Table
    requires Sized(t) && 0 <= c.option < OPTIONS
  {
    t.(his := t.his[c.option := Side(c.verb == Will, c.verb == Will, 0)])
  }

  lemma Table2Moves(t: Table, k: nat, c: Command)
    requires Sized(t) && k < 4 && Table2(t, k) && Fits(Asked2()[k], c)
    ensures Sized(Heeded(t, c)) && Table2(Heeded(t, c), k + 1) && t.his[c.option] == WAITING
    ensures Heeded(t, c).his[ECHO] == if k == 1 then Side(c.verb == Will, c.verb == Will, 0) else t.his[ECHO]
  {
  }

  lemma Table3Moves(t: Table, k: nat, c: Command)
    requires Sized(t) && k < 2 && Table3(t, k) && Fits(Asked3()[k], c)
    ensures Sized(Heeded(t, c)) && Table3(Heeded(t, c), k + 1)
    ensures t.his[c.option] == WAITING || (t.his[c.option] == Side(true, false, 1) && c.verb == Wont)
  {
  }

  lemma Table4Moves(t: Table, k: nat, c: Command)
    requires Sized(t) && k < 1 && Table4(t, k) && Fits(Asked4()[k], c)
    ensures Sized(Heeded(t, c)) && Table4(Heeded(t, c), k + 1) && t.his[c.option] == WAITING
  {
  }

  lemma ReceiveAnswer(s: System, k: nat, j: nat)
    requires Invariant(s, k, j) && Enabled(s, Receive) && Answering(s.up[0])
    ensures Invariant(Next(s, Receive), k + 1, j)
  {
    hide Requests, Answers, Heard, AllFit, Noise, Quiet, Table2, Table3, Table4, Heeded, Settled;
    One([]);
    assert s.down + [] == s.down;
    if s.stage == 2 {
      PipeReceive(s.down, s.up, [], Asked2(), k, j);
      Table2Moves(s.t, k, s.up[0]);
    } else if s.stage == 3 {
      PipeReceive(s.down, s.up, [], Asked3(), k, j);
      Table3Moves(s.t, k, s.up[0]);
    } else {
      PipeReceive(s.down, s.up, [], Asked4(), k, j);
      Table4Moves(s.t, k, s.up[0]);
    }
    AnswerRead(s);
  }

  lemma ReceiveNoise(s: System, k: nat, j: nat)
    requires Invariant(s, k, j) && Enabled(s, Receive) && !Answering(s.up[0])
    ensures Invariant(Next(s, Receive), k, j)
  {
    hide Requests, Answers, Heard, AllFit;
    var list := if s.stage == 2 then Asked2() else if s.stage == 3 then Asked3() else Asked4();
    HeardNoise(s.t, s.up[0]);
    PipeReceive(s.down, s.up, Heard(s.t, s.up[0]).out, list, k, j);
  }

  /** A stage is over: everything it asked has been answered and read. */
  lemma PipeOver(down: seq<Command>, up: seq<Command>, asked: seq<Command>, noise: seq<Command>, list: seq<Command>)
    requires Pipe(down, up, asked, |asked|, |asked|) && (forall c :: c in noise ==> !Asking(c))
    requires (forall c :: c in list ==> Asking(c))
    ensures Pipe(down + (noise + list), up, list, 0, 0)
  {
    RequestsJoin(down, noise + list);
    RequestsJoin(noise, list);
    Quietly(noise);
    AllRequests(list);
  }

  lemma {:induction false} AllRequests(q: seq<Command>)
    requires forall c :: c in q ==> Asking(c)
    ensures Requests(q) == q
  {
    if q != [] {
      AllRequests(q[1..]);
    }
  }

  lemma Init3Sends(t: Table)
    requires Sized(t) && t.mine[ECHO] == OFF && t.his[NULL3] == OFF && !Changing(t.his[NULL2])
    ensures FromInit3(t)
      == Stage(T_INIT4, Reply(t.(mine := t.mine[ECHO := Side(false, true, 1)], his := t.his[NULL3 := WAITING]),
                                                 [Command(Will, ECHO)] + Asked4()))
  {
  }

  lemma InitiateFrom3(s: System, k: nat, j: nat)
    requires Invariant(s, k, j) && s.stage == T_INIT3 && !Changing(s.t.his[NULL2])
    ensures Invariant(Next(s, Initiate), 0, 0)
  {
    hide FromInit3, Requests, Answers;
    Init3Sends(s.t);
    PipeOver(s.down, s.up, Asked3(), [Command(Will, ECHO)], Asked4());
  }

  lemma Init2Sends(t: Table)
    requires Sized(t) && Settled(t.his[ECHO]) && t.his[NULL2] == OFF && t.mine[ECHO] == OFF
    ensures var r := Init2(t); Sized(r.t) && r.t.mine[ECHO] == OFF
    ensures var r := Init2(t); if t.his[ECHO].on then
        && r.t.his == t.his[ECHO := Side(true, false, 1)][NULL2 := WAITING]
        && (r.out == [Command(Will, SGA)] + Asked3() || r.out == [] + Asked3())
      else r.t.his == t.his && (r.out == [Command(Will, SGA)] || r.out == [])
  {
  }

  /** NULL1 has been answered, so everything asked before it has been answered too. */
  lemma Stage2Over(s: System, k: nat, j: nat)
    requires Invariant(s, k, j) && s.stage == T_INIT2 && !Changing(s.t.his[NULL1])
    ensures k == j == 4 && Settled(s.t.his[ENVIRON]) && Settled(s.t.his[ECHO]) && Settled(s.t.his[NAWS])
    ensures Settled(s.t.his[NULL1])
    ensures s.echo == s.t.his[ECHO].on
  {
    hide Requests, Answers;
    assert Asked2()[0].option == ENVIRON && Asked2()[1].option == ECHO;
    assert Asked2()[2].option == NAWS && Asked2()[3].option == NULL1;
  }

  lemma InitiateEchoing(s: System, k: nat, j: nat)
    requires Invariant(s, k, j) && s.stage == T_INIT2 && !Changing(s.t.his[NULL1]) && s.t.his[ECHO].on
    ensures Invariant(Next(s, Initiate), 0, 0)
  {
    hide Requests, Answers, Init2, SendWill, SendDo, FromInit4, Init3;
    Stage2Over(s, k, j);
    Init2Sends(s.t);
    var r := Init2(s.t);
    var noise := r.out[..|r.out| - 2];
    assert r.out == noise + Asked3();
    PipeOver(s.down, s.up, Asked2(), noise, Asked3());
    assert r.out + [] == r.out;
  }

  lemma InitiateSilent(s: System, k: nat, j: nat)
    requires Invariant(s, k, j) && s.stage == T_INIT2 && !Changing(s.t.his[NULL1]) && !s.t.his[ECHO].on
    ensures Invariant(Next(s, Initiate), 0, 0)
  {
    hide Requests, Answers, Init2, SendWill, SendDo, FromInit3;
    Stage2Over(s, k, j);
    Init2Sends(s.t);
    var r := Init2(s.t);
    Init3Sends(r.t);
    var noise := r.out + [Command(Will, ECHO)];
    assert r.out + ([Command(Will, ECHO)] + Asked4()) == noise + Asked4();
    PipeOver(s.down, s.up, Asked2(), noise, Asked4());
  }

  lemma Init4Sends(t: Table)
    requires Sized(t)
    ensures var r := Init4(t);
      Sized(r.t) && r.t.his == t.his && forall c :: c in r.out ==> !Asking(c) && (c.option == SGA || c.option == ECHO)
  {
  }

  lemma InitiateFrom4(s: System, k: nat, j: nat)
    requires Invariant(s, k, j) && s.stage == T_INIT4 && !Changing(s.t.his[NULL3])
    ensures Invariant(Next(s, Initiate), k, j)
  {
    hide Requests, Answers, Init4;
    Init4Sends(s.t);
    var out := Init4(s.t).out;
    RequestsJoin(s.down, out);
    Quietly(out);
    assert Requests(s.down) + [] == Requests(s.down);
  }

  /** Every step of the two keeps the invariant. */
  lemma StepKeeps(s: System, m: Move, k: nat, j: nat) returns (k': nat, j': nat)
    requires Invariant(s, k, j) && Enabled(s, m)
    ensures Invariant(Next(s, m), k', j')
  {
    hide Pipe, Table2, Table3, Table4, Noise, Quiet, Known2, Heard;
    k', j' := k, j;
    match m
    case Answer(reply) =>
      AnswerKeeps(s, reply, k, j);
      j' := if Asking(s.down[0]) then j + 1 else j;
    case Receive =>
      if Answering(s.up[0]) {
        ReceiveAnswer(s, k, j);
        k' := k + 1;
      } else {
        ReceiveNoise(s, k, j);
      }
    case Initiate =>
      if s.stage == T_INIT2 && !Changing(s.t.his[NULL1]) {
        if s.t.his[ECHO].on {
          InitiateEchoing(s, k, j);
        } else {
          InitiateSilent(s, k, j);
        }
        k', j' := 0, 0;
      } else if s.stage == T_INIT3 && !Changing(s.t.his[NULL2]) {
        InitiateFrom3(s, k, j);
        k', j' := 0, 0;
      } else if s.stage == T_INIT4 && !Changing(s.t.his[NULL3]) {
        InitiateFrom4(s, k, j);
      } else {
        assert Next(s, m) == s;
      }
  }

  lemma OpeningAsks()
    ensures var s := Opening();
      && s.stage == T_INIT2 && s.down == Asked2() && s.up == [] && !s.echo
      && Sized(s.t) && Table2(s.t, 0) && s.t.mine[ECHO] == OFF
  {
  }

  lemma NothingSaid()
    ensures Answers([]) == []
  {
  }

  lemma OpeningInvariant()
    ensures Invariant(Opening(), 0, 0)
  {
    hide Opening, Table2, Requests, Answers, Answering;
    OpeningAsks();
    AllRequests(Asked2());
    NothingSaid();
    assert Asked2()[0..] == Asked2();
  }

  lemma RunStep(trace: seq<System>, i: nat) returns (m: Move)
    requires Run(trace) && i + 1 < |trace|
    ensures Sized(trace[i].t) && Enabled(trace[i], m) && trace[i + 1] == Next(trace[i], m)
  {
    hide Next, Opening;
    m :| Enabled(trace[i], m) && trace[i + 1] == Next(trace[i], m);
  }

  lemma {:induction false} RunInvariant(trace: seq<System>, i: nat) returns (k: nat, j: nat)
    requires Run(trace) && i < |trace|
    ensures Invariant(trace[i], k, j)
  {
    if i == 0 {
      OpeningInvariant();
      k, j := 0, 0;
    } else {
      k, j := RunInvariant(trace, i - 1);
      var m := RunStep(trace, i - 1);
      k, j := StepKeeps(trace[i - 1], m, k, j);
    }
  }

  // ---------------------------------------------------------------- what the fences are for

  /** Once NULL1 has been passed, all that was asked before it has settled; once NULL2 has been passed,
      the peer does not echo, and nothing that could change this is on its way. */
  lemma FencesSettle(trace: seq<System>, i: nat)
    requires Run(trace) && i < |trace|
    ensures var s := trace[i];
      && Sized(s.t)
      && (s.stage != T_INIT2 ==> Settled(s.t.his[ENVIRON]) && Settled(s.t.his[NAWS]) && Settled(s.t.his[NULL1]))
      && (s.stage == T_INIT4 || s.stage == T_DONE ==> s.t.his[ECHO] == OFF && !s.echo)
      && (s.stage == T_INIT4 || s.stage == T_DONE ==>
          && Command(Do, ECHO) !in s.down && Command(Dont, ECHO) !in s.down
          && Command(Will, ECHO) !in s.up && Command(Wont, ECHO) !in s.up)
  {
    var k, j := RunInvariant(trace, i);
    var s := trace[i];
    if s.stage == T_INIT4 || s.stage == T_DONE {
      RequestIn(s.down, Command(Do, ECHO));
      RequestIn(s.down, Command(Dont, ECHO));
      RequestIn(s.up, Command(Will, ECHO));
      RequestIn(s.up, Command(Wont, ECHO));
    }
  }

  lemma {:induction false} RequestIn(q: seq<Command>, c: Command)
    ensures c in q && Asking(c) ==> c in Requests(q)
    ensures c in q && Answering(c) ==> c in Answers(q)
  {
    if q != [] {
      RequestIn(q[1..], c);
    }
  }

  lemma StageStays(s: System, m: Move)
    requires Sized(s.t) && Enabled(s, m) && (s.stage == T_INIT4 || s.stage == T_DONE)
    ensures Next(s, m).stage == T_INIT4 || Next(s, m).stage == T_DONE
  {
    hide Heard, Init4;
  }

  lemma {:induction false} StageStaysOver(trace: seq<System>, i: nat, l: nat)
    requires Run(trace) && i <= l < |trace| && (trace[i].stage == T_INIT4 || trace[i].stage == T_DONE)
    ensures trace[l].stage == T_INIT4 || trace[l].stage == T_DONE
    decreases l
  {
    hide Next, Enabled, Run;
    if i < l {
      StageStaysOver(trace, i, l - 1);
      var m := RunStep(trace, l - 1);
      StageStays(trace[l - 1], m);
    }
  }

  /** WILL ECHO is said only when the peer's own echo is off, and from then on that echo stays off: the two
      never echo both. */
  lemma NeverBothEcho(trace: seq<System>, i: nat, l: nat)
    requires Run(trace) && i <= l < |trace| && Command(Will, ECHO) in trace[i].down
    ensures !trace[l].echo
  {
    var k, j := RunInvariant(trace, i);
    hide Requests, Answers, Table2, Table3, Table4;
    assert trace[i].stage == T_INIT4 || trace[i].stage == T_DONE;
    StageStaysOver(trace, i, l);
    FencesSettle(trace, l);
  }

  /** In every run the fences are raised before the peer agrees to them, which is what qinit() needs for
      what it sends to fit its buffer. */
  lemma FencesUnused(trace: seq<System>, i: nat)
    requires Run(trace) && i < |trace|
    ensures var s := trace[i];
      && Sized(s.t) && s.stage != T_INIT1 && (s.stage == T_INIT2 ==> s.t.his[NULL2] == OFF)
      && (s.stage == T_INIT2 || s.stage == T_INIT3 ==> s.t.his[NULL3] == OFF)
  {
    var k, j := RunInvariant(trace, i);
    hide Requests, Answers, AllFit;
  }
}
