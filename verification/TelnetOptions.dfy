/** The option table of qstate.c and inc/qtelnet.h: what each side of an option is, what it has been asked
    to be, and how many answers are outstanding. */
module TelnetOptions {

  const ECHO: int := 1
  const SGA: int := 3
  const NAWS: int := 31
  const ENVIRON: int := 36
  const NULL1: int := 44
  const NULL2: int := 45
  const NULL3: int := 46
  const OPTIONS: nat := 64

  // ---------------------------------------------------------------- the option byte

  const MY_STATE_WILL: bv8 := 0x01
  const MY_WANT_STATE_WILL: bv8 := 0x02
  const MY_STATE_DO: bv8 := 0x04
  const MY_WANT_STATE_DO: bv8 := 0x08

  function Is(b: bv8, bit: bv8): bool { b & bit != 0 }

  function Put(b: bv8, bit: bv8, on: bool): bv8
  {
    if on then b | bit else b & !bit
  }

  predicate OptionBit(bit: bv8)
  {
    bit == MY_STATE_WILL || bit == MY_WANT_STATE_WILL || bit == MY_STATE_DO || bit == MY_WANT_STATE_DO
  }

  /** Setting one of the four bits leaves the other three alone. */
  lemma PutIs(b: bv8, bit: bv8, on: bool, other: bv8)
    requires OptionBit(bit) && OptionBit(other)
    ensures Is(Put(b, bit, on), other) == if other == bit then on else Is(b, other)
  {
  }

  /** The two sums of the header tell whether a side is still changing. */
  lemma IsChanging(b: bv8)
    ensures (b + MY_STATE_WILL) & MY_WANT_STATE_WILL != 0 <==> Is(b, MY_STATE_WILL) != Is(b, MY_WANT_STATE_WILL)
    ensures (b + MY_STATE_DO) & MY_WANT_STATE_DO != 0 <==> Is(b, MY_STATE_DO) != Is(b, MY_WANT_STATE_DO)
  {
  }

  // ---------------------------------------------------------------- one side of one option

  /** What the side is, what it is to be, and the answers still to come. */
  datatype Side = Side(on: bool, wanted: bool, resp: int)

  const OFF := Side(false, false, 0)

  predicate Changing(s: Side) { s.on != s.wanted }

  /** At most two answers are outstanding; none means that nothing is changing. */
  predicate Settling(s: Side)
  {
    && 0 <= s.resp <= 2
    && (s.resp == 0 ==> s.on == s.wanted)
    && (s.resp == 2 ==> s.wanted)
  }

  /** The request of send_do() and send_will() with `init`: nothing is sent if it has been made already. */
  function Asked(s: Side): Side
  {
    if (s.resp == 0 && s.on) || s.wanted then s else Side(s.on, true, s.resp + 1)
  }

  /** send_dont() with `init` */
  function Refused(s: Side): Side
  {
    if (s.resp == 0 && !s.on) || !s.wanted then s else Side(s.on, false, s.resp + 1)
  }

  /** An answer counts for one request, and for the next one too if that asked for the state there is. */
  function Counted(s: Side, yes: bool): int
  {
    if s.resp == 0 then 0 else if s.resp - 1 != 0 && s.on == yes then s.resp - 2 else s.resp - 1
  }

  datatype Verb = Will | Wont | Do | Dont

  datatype Command = Command(verb: Verb, option: int)

  /** Whatever the peer sends, and whatever is asked of it, counters stay in 0..2, and one that is zero
      means that the side is what it is wanted to be. */
  lemma AskingSettles(s: Side)
    requires Settling(s)
    ensures Settling(Asked(s)) && (s.resp == 0 ==> Settling(Refused(s)))
    ensures Asked(s) != s <==> !s.wanted
  {
  }

  // ---------------------------------------------------------------- the handlers

  /** All sides of all options, and how often WILL was insisted on. */
  datatype Table = Table(his: seq<Side>, mine: seq<Side>, sgaloop: int, echoloop: int)

  predicate Sized(t: Table)
  {
    |t.his| == |t.mine| == OPTIONS
  }

  predicate Steady(t: Table)
  {
    && Sized(t) && (forall o :: 0 <= o < OPTIONS ==> Settling(t.his[o]))
    && (forall o :: 0 <= o < OPTIONS ==> Settling(t.mine[o]))
  }

  /** What a handler leaves and what it sends. */
  datatype Reply = Reply(t: Table, out: seq<Command>)

  function SendDo(t: Table, o: int): (r: Reply)
    requires Sized(t) && 0 <= o < OPTIONS
    ensures Sized(r.t)
  {
    var s := Asked(t.his[o]);
    Reply(t.(his := t.his[o := s]), if s == t.his[o] then [] else [Command(Do, o)])
  }

  function SendWill(t: Table, o: int): (r: Reply)
    requires Sized(t) && 0 <= o < OPTIONS
    ensures Sized(r.t)
  {
    var s := Asked(t.mine[o]);
    Reply(t.(mine := t.mine[o := s]), if s == t.mine[o] then [] else [Command(Will, o)])
  }

  function WillOption(t: Table, o: int): (r: Reply)
    requires Sized(t) && 0 <= o
    ensures Sized(r.t)
  {
    if o >= OPTIONS then Reply(t, [Command(Dont, o)]) else
    var s := t.his[o];
    var r := Counted(s, true);
    if r == 0 && !s.wanted then
      if o == NAWS || o == ENVIRON || o == SGA then
        Reply(t.(his := t.his[o := Side(true, true, 0)]), [Command(Do, o)])
      else
        Reply(t.(his := t.his[o := Side(true, false, 1)]), [Command(Dont, o)])
    else if r == 0 && o == ECHO then
      var d := Refused(s.(resp := 0));
      Reply(t.(his := t.his[o := d.(on := true)]), if d == s.(resp := 0) then [] else [Command(Dont, o)])
    else
      Reply(t.(his := t.his[o := Side(true, s.wanted, r)]), [])
  }

  function WontOption(t: Table, o: int): (r: Reply)
    requires Sized(t) && 0 <= o
    ensures Sized(r.t)
  {
    if o >= OPTIONS then Reply(t, []) else
    var s := t.his[o];
    var r := Counted(s, false);
    if r == 0 && s.wanted then
      Reply(t.(his := t.his[o := Side(false, false, 0)]), if s.on then [Command(Dont, o)] else [])
    else
      Reply(t.(his := t.his[o := Side(false, s.wanted, r)]), [])
  }

  function DoOption(t: Table, o: int): (r: Reply)
    requires Sized(t) && 0 <= o
    ensures Sized(r.t)
  {
    if o >= OPTIONS then Reply(t, [Command(Wont, o)]) else
    var s := t.mine[o];
    var r := Counted(s, true);
    if r == 0 && !s.wanted then
      if o == SGA || o == ECHO then
        Reply(t.(mine := t.mine[o := Side(true, true, 0)]), [Command(Will, o)])
      else
        Reply(t.(mine := t.mine[o := Side(true, false, 1)]), [Command(Wont, o)])
    else
      Reply(t.(mine := t.mine[o := Side(true, s.wanted, r)]), [])
  }

  /** The loop counters are eight bits wide. */
  function Bumped(n: int): int
  {
    if n == 127 then -128 else n + 1
  }

  function DontOption(t: Table, o: int): (r: Reply)
    requires Sized(t) && 0 <= o
    ensures Sized(r.t)
  {
    if o >= OPTIONS then Reply(t, []) else
    var s := t.mine[o];
    var r := Counted(s, false);
    if r == 0 && s.wanted then
      var out := if s.on then [Command(Wont, o)] else [];
      var again := (o == SGA && t.sgaloop < 5) || (o == ECHO && t.echoloop < 5);
      Reply(t.(mine := t.mine[o := Side(false, false, 0)],
               sgaloop := if o == SGA then Bumped(t.sgaloop) else t.sgaloop,
               echoloop := if o == ECHO then Bumped(t.echoloop) else t.echoloop),
            out + if again then [Command(Will, o)] else [])
    else
      Reply(t.(mine := t.mine[o := Side(false, s.wanted, r)]), [])
  }

  function Heard(t: Table, c: Command): (r: Reply)
    requires Sized(t) && 0 <= c.option
    ensures Sized(r.t)
  {
    match c.verb
    case Will => WillOption(t, c.option)
    case Wont => WontOption(t, c.option)
    case Do => DoOption(t, c.option)
    case Dont => DontOption(t, c.option)
  }

  lemma RequestSettles(t: Table, o: int)
    requires Steady(t) && 0 <= o < OPTIONS
    ensures Steady(SendDo(t, o).t) && Steady(SendWill(t, o).t) && |SendDo(t, o).out| <= 1 && |SendWill(t, o).out| <= 1
  {
  }

  /** No command from the peer, for any option, upsets the counters, and none is answered with more than
      two commands. */
  lemma HeardSettles(t: Table, c: Command)
    requires Steady(t) && 0 <= c.option
    ensures Steady(Heard(t, c).t) && |Heard(t, c).out| <= 2
  {
  }
}
