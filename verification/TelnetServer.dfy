/** The option handlers and qinit() of qstate.c on the fields of one connection. */
module TelnetServer {
  import opened TelnetOptions
  import H = TelnetHandshake

  const IAC: int := 255
  const BUFFER: nat := 16

  type byte = x: int | 0 <= x < 256

  function VerbCode(v: Verb): byte
  {
    match v
    case Will => 251
    case Wont => 252
    case Do => 253
    case Dont => 254
  }

  /** Commands as they go over the line. */
  function Wire(q: seq<Command>): (r: seq<int>)
    ensures |r| == 3 * |q|
  {
    if q == [] then [] else Wire(q[..|q| - 1]) + [IAC, VerbCode(q[|q| - 1].verb), q[|q| - 1].option]
  }

  lemma {:induction false} WireJoins(a: seq<Command>, b: seq<Command>)
    ensures Wire(a + b) == Wire(a) + Wire(b)
  {
    if b == [] {
      assert a + b == a;
    } else {
      var c := b[..|b| - 1];
      WireJoins(a, c);
      assert (a + b)[..|a + b| - 1] == a + c;
    }
  }

  function WithBit(t: Table, o: int, bit: bv8, on: bool): Table
    requires Sized(t) && 0 <= o < OPTIONS
  {
    if bit == MY_STATE_DO then t.(his := t.his[o := t.his[o].(on := on)])
    else if bit == MY_WANT_STATE_DO then t.(his := t.his[o := t.his[o].(wanted := on)])
    else if bit == MY_STATE_WILL then t.(mine := t.mine[o := t.mine[o].(on := on)])
    else t.(mine := t.mine[o := t.mine[o].(wanted := on)])
  }

  /** The fields of `struct qtmp` that negotiation uses. */
  class Options {
    const options: array<bv8>
    const doDontResp: array<int>
    const willWontResp: array<int>
    var sgaloop: int
    var echoloop: int
    const netobuf: array<int>
    var nfrontp: nat
    var nbackp: nat

    ghost predicate Shaped()
      reads this
    {
      && options.Length == doDontResp.Length == willWontResp.Length == OPTIONS && netobuf.Length == BUFFER
      && doDontResp != willWontResp && doDontResp != netobuf && willWontResp != netobuf
      && options as object !in {doDontResp as object, willWontResp as object, netobuf as object}
      && nbackp == 0 <= nfrontp <= BUFFER
    }

    function His(o: int): Side
      requires Shaped() && 0 <= o < OPTIONS
      reads this, options, doDontResp
    {
      Side(Is(options[o], MY_STATE_DO), Is(options[o], MY_WANT_STATE_DO), doDontResp[o])
    }

    function Mine(o: int): Side
      requires Shaped() && 0 <= o < OPTIONS
      reads this, options, willWontResp
    {
      Side(Is(options[o], MY_STATE_WILL), Is(options[o], MY_WANT_STATE_WILL), willWontResp[o])
    }

    ghost function Now(): (t: Table)
      requires Shaped()
      reads this, options, doDontResp, willWontResp
      ensures Sized(t) && t.sgaloop == sgaloop && t.echoloop == echoloop
      ensures forall o :: 0 <= o < OPTIONS ==> t.his[o] == His(o) && t.mine[o] == Mine(o)
    {
      Table(seq(OPTIONS, o requires 0 <= o < OPTIONS && Shaped() reads this, options, doDontResp => His(o)),
            seq(OPTIONS, o requires 0 <= o < OPTIONS && Shaped() reads this, options, willWontResp => Mine(o)),
            sgaloop, echoloop)
    }

    /** What has not been sent yet. */
    function Pending(): seq<int>
      requires Shaped()
      reads this, netobuf
    {
      netobuf[nbackp..nfrontp]
    }

    ghost predicate Valid()
      reads this, options, doDontResp, willWontResp
    {
      Shaped() && Steady(Now())
    }

    constructor ()
      ensures Valid() && nfrontp == 0 && Pending() == []
      ensures Now() == Table(seq(OPTIONS, _ => OFF), seq(OPTIONS, _ => OFF), 0, 0)
      ensures fresh(options) && fresh(doDontResp) && fresh(willWontResp) && fresh(netobuf)
    {
      options := new bv8[OPTIONS](_ => 0);
      doDontResp := new int[OPTIONS](_ => 0);
      willWontResp := new int[OPTIONS](_ => 0);
      netobuf := new int[BUFFER](_ => 0);
      sgaloop, echoloop, nfrontp, nbackp := 0, 0, 0, 0;
      new;
      assert forall o :: 0 <= o < OPTIONS ==> His(o) == OFF && Mine(o) == OFF;
      assert Now().his == seq(OPTIONS, _ => OFF) && Now().mine == seq(OPTIONS, _ => OFF);
    }

    /** set_his_state_will() and its kin: one bit of one option. */
    method Set(o: int, bit: bv8, on: bool)
      requires Shaped() && 0 <= o < OPTIONS && OptionBit(bit)
      modifies options
      ensures Now() == WithBit(old(Now()), o, bit, on)
    {
      PutIs(options[o], bit, on, MY_STATE_WILL);
      PutIs(options[o], bit, on, MY_WANT_STATE_WILL);
      PutIs(options[o], bit, on, MY_STATE_DO);
      PutIs(options[o], bit, on, MY_WANT_STATE_DO);
      options[o] := Put(options[o], bit, on);
      assert forall p :: 0 <= p < OPTIONS && p != o ==> His(p) == old(His(p)) && Mine(p) == old(Mine(p));
    }

    method CountHis(o: int, more: int)
      requires Shaped() && 0 <= o < OPTIONS
      modifies doDontResp
      ensures var t := old(Now()); Now() == t.(his := t.his[o := t.his[o].(resp := t.his[o].resp + more)])
    {
      doDontResp[o] := doDontResp[o] + more;
      assert forall p :: 0 <= p < OPTIONS && p != o ==> His(p) == old(His(p));
      assert forall p :: 0 <= p < OPTIONS ==> Mine(p) == old(Mine(p));
    }

    method CountMine(o: int, more: int)
      requires Shaped() && 0 <= o < OPTIONS
      modifies willWontResp
      ensures var t := old(Now()); Now() == t.(mine := t.mine[o := t.mine[o].(resp := t.mine[o].resp + more)])
    {
      willWontResp[o] := willWontResp[o] + more;
      assert forall p :: 0 <= p < OPTIONS ==> His(p) == old(His(p));
      assert forall p :: 0 <= p < OPTIONS && p != o ==> Mine(p) == old(Mine(p));
    }

    /** Three bytes go to the output buffer. */
    method Emit(v: Verb, o: int)
      requires Shaped() && nfrontp + 3 <= BUFFER
      modifies this`nfrontp, netobuf
      ensures Shaped() && Pending() == old(Pending()) + [IAC, VerbCode(v), o] && nfrontp == old(nfrontp) + 3
      ensures Now() == old(Now())
    {
      netobuf[nfrontp] := IAC;
      nfrontp := nfrontp + 1;
      netobuf[nfrontp] := VerbCode(v);
      nfrontp := nfrontp + 1;
      netobuf[nfrontp] := o;
      nfrontp := nfrontp + 1;
      assert forall p :: 0 <= p < OPTIONS ==> His(p) == old(His(p)) && Mine(p) == old(Mine(p));
    }

    /** Two bytes go to the output buffer: the answer to AO. */
    method EmitPair(a: int, b: int)
      requires Valid() && nfrontp + 2 <= BUFFER
      modifies this`nfrontp, netobuf
      ensures Valid() && Pending() == old(Pending()) + [a, b] && nfrontp == old(nfrontp) + 2 && Now() == old(Now())
    {
      netobuf[nfrontp] := a;
      nfrontp := nfrontp + 1;
      netobuf[nfrontp] := b;
      nfrontp := nfrontp + 1;
      assert forall p :: 0 <= p < OPTIONS ==> His(p) == old(His(p)) && Mine(p) == old(Mine(p));
    }

    /** FLUSH, when everything could be sent. */
    method Flushed() returns (out: seq<int>)
      requires Valid()
      modifies this`nfrontp, this`nbackp
      ensures Valid() && out == old(Pending()) && Pending() == [] && nfrontp == 0 && Now() == old(Now())
    {
      out := Pending();
      nbackp, nfrontp := 0, 0;
      assert forall p :: 0 <= p < OPTIONS ==> His(p) == old(His(p)) && Mine(p) == old(Mine(p));
    }

    /** A command goes out, unless it is a request that has been made already. */
    method SendDo(o: int, init: bool)
      requires Shaped() && 0 <= o && (init ==> o < OPTIONS)
      requires nfrontp + (if init then 3 * |TelnetOptions.SendDo(Now(), o).out| else 3) <= BUFFER
      modifies this`nfrontp, netobuf, options, doDontResp
      ensures Shaped()
      ensures var r := if init then TelnetOptions.SendDo(old(Now()), o) else Reply(old(Now()), [Command(Do, o)]);
        Now() == r.t && Pending() == old(Pending()) + Wire(r.out)
    {
      hide Wire, His, Mine, Now;
      WireFew(Do, o, o);
      if init {
        if (His(o).resp == 0 && His(o).on) || His(o).wanted {
          return;
        }
        Set(o, MY_WANT_STATE_DO, true);
        CountHis(o, 1);
      }
      Emit(Do, o);
    }

    method SendDont(o: int, init: bool)
      requires Shaped() && 0 <= o && (init ==> o < OPTIONS)
      requires nfrontp + (if init && Refused(Now().his[o]) == Now().his[o] then 0 else 3) <= BUFFER
      modifies this`nfrontp, netobuf, options, doDontResp
      ensures Shaped()
      ensures init ==> Now() == old(Now()).(his := old(Now()).his[o := Refused(old(Now()).his[o])])
      ensures !init ==> Now() == old(Now())
      ensures Pending() == old(Pending()) + Wire(if init && Now() == old(Now()) then [] else [Command(Dont, o)])
    {
      hide Wire, His, Mine, Now;
      WireFew(Dont, o, o);
      if init {
        if (His(o).resp == 0 && !His(o).on) || !His(o).wanted {
          assert Now().his[o := Refused(Now().his[o])] == Now().his;
          return;
        }
        Set(o, MY_WANT_STATE_DO, false);
        CountHis(o, 1);
        assert Now().his[o] != old(Now()).his[o];
      }
      Emit(Dont, o);
    }

    method SendWill(o: int, init: bool)
      requires Shaped() && 0 <= o && (init ==> o < OPTIONS)
      requires nfrontp + (if init then 3 * |TelnetOptions.SendWill(Now(), o).out| else 3) <= BUFFER
      modifies this`nfrontp, netobuf, options, willWontResp
      ensures Shaped()
      ensures var r := if init then TelnetOptions.SendWill(old(Now()), o) else Reply(old(Now()), [Command(Will, o)]);
        Now() == r.t && Pending() == old(Pending()) + Wire(r.out)
    {
      hide Wire, His, Mine, Now;
      WireFew(Will, o, o);
      if init {
        if (Mine(o).resp == 0 && Mine(o).on) || Mine(o).wanted {
          return;
        }
        Set(o, MY_WANT_STATE_WILL, true);
        CountMine(o, 1);
      }
      Emit(Will, o);
    }

    /** The answers that one from the peer accounts for. */
    method Discount(o: int, yes: bool)
      requires Shaped() && 0 <= o < OPTIONS && Now().his[o].resp >= 0
      modifies doDontResp
      ensures Shaped() && var t := old(Now()); Now() == t.(his := t.his[o := t.his[o].(resp := Counted(t.his[o], yes))])
    {
      hide His, Mine, Now;
      if His(o).resp != 0 {
        CountHis(o, -1);
        if His(o).resp != 0 && His(o).on == yes {
          CountHis(o, -1);
        }
      } else {
        assert Now().his[o := Now().his[o].(resp := 0)] == Now().his;
      }
    }

    /** What willoption() does once no answer is outstanding. */
    method ConsiderWill(option: int)
      requires Shaped() && 0 <= option < OPTIONS && Now().his[option].resp == 0
      requires nfrontp + 3 * |ConsideredWill(Now().his[option], option).1| <= BUFFER
      modifies this`nfrontp, netobuf, options, doDontResp
      ensures Shaped()
      ensures var r := ConsideredWill(old(Now()).his[option], option);
        Now() == HisAt(old(Now()), option, r.0) && Pending() == old(Pending()) + Wire(r.1)
    {
      hide Wire, His, Mine, Now;
      assert Now().his[option := Now().his[option]] == Now().his;
      WireFew(Do, option, option);
      if !His(option).wanted {
        if option == NAWS || option == ENVIRON || option == SGA {
          Set(option, MY_WANT_STATE_DO, true);
          SendDo(option, false);
        } else {
          CountHis(option, 1);
          SendDont(option, false);
        }
      } else if option == ECHO {
        SendDont(option, true);
      }
    }

    method WillOption(option: int)
      requires Valid() && 0 <= option && nfrontp + 3 * |TelnetOptions.WillOption(Now(), option).out| <= BUFFER
      modifies this`nfrontp, netobuf, options, doDontResp
      ensures Valid()
      ensures var r := TelnetOptions.WillOption(old(Now()), option);
        Now() == r.t && Pending() == old(Pending()) + Wire(r.out)
    {
      HeardSettles(Now(), Command(TelnetOptions.Will, option));
      hide Wire, His, Mine, Now, Steady;
      if option >= OPTIONS {
        SendDont(option, false);
        return;
      }
      assert Settling(Now().his[option]);
      Discount(option, true);
      ghost var t := Now();
      if His(option).resp == 0 {
        ConsiderWill(option);
      } else {
        WireFew(Do, option, option);
        assert Pending() == old(Pending()) + [];
      }
      Set(option, MY_STATE_DO, true);
      HisAtTwice(old(Now()), option, t.his[option],
                 if t.his[option].resp == 0 then ConsideredWill(t.his[option], option).0 else t.his[option]);
    }

    method WontOption(option: int)
      requires Valid() && 0 <= option && nfrontp + 3 * |TelnetOptions.WontOption(Now(), option).out| <= BUFFER
      modifies this`nfrontp, netobuf, options, doDontResp
      ensures Valid()
      ensures var r := TelnetOptions.WontOption(old(Now()), option);
        Now() == r.t && Pending() == old(Pending()) + Wire(r.out)
    {
      HeardSettles(Now(), Command(TelnetOptions.Wont, option));
      hide Wire, His, Mine, Now, Steady;
      WireFew(Dont, option, option);
      assert Pending() + [] == Pending();
      if option >= OPTIONS {
        return;
      }
      assert Settling(Now().his[option]);
      Discount(option, false);
      ghost var t := Now().his[option];
      if His(option).resp == 0 && His(option).wanted {
        Set(option, MY_WANT_STATE_DO, false);
        if His(option).on {
          SendDont(option, false);
        }
      }
      Set(option, MY_STATE_DO, false);
      HisAtTwice(old(Now()), option, t, t.(on := false));
      HisAtTwice(old(Now()), option, t, t.(wanted := false));
    }

    method DiscountMine(o: int, yes: bool)
      requires Shaped() && 0 <= o < OPTIONS && Now().mine[o].resp >= 0
      modifies willWontResp
      ensures Shaped()
      ensures var t := old(Now()); Now() == t.(mine := t.mine[o := t.mine[o].(resp := Counted(t.mine[o], yes))])
    {
      hide His, Mine, Now;
      if Mine(o).resp != 0 {
        CountMine(o, -1);
        if Mine(o).resp != 0 && Mine(o).on == yes {
          CountMine(o, -1);
        }
      } else {
        assert Now().mine[o := Now().mine[o].(resp := 0)] == Now().mine;
      }
    }

    method DoOption(option: int)
      requires Valid() && 0 <= option && nfrontp + 3 * |TelnetOptions.DoOption(Now(), option).out| <= BUFFER
      modifies this`nfrontp, netobuf, options, willWontResp
      ensures Valid()
      ensures var r := TelnetOptions.DoOption(old(Now()), option);
        Now() == r.t && Pending() == old(Pending()) + Wire(r.out)
    {
      HeardSettles(Now(), Command(Do, option));
      hide Wire, His, Mine, Now, Steady;
      WireFew(Wont, option, option);
      assert Pending() + [] == Pending();
      if option >= OPTIONS {
        SendWont(option);
        return;
      }
      assert Settling(Now().mine[option]);
      DiscountMine(option, true);
      ghost var t := Now().mine[option];
      if Mine(option).resp == 0 && !Mine(option).wanted {
        ConsiderDo(option);
      }
      Set(option, MY_STATE_WILL, true);
      MineAtTwice(old(Now()), option, t);
      MineAtTwice(old(Now()), option, t.(wanted := true));
      MineAtTwice(old(Now()), option, t.(resp := t.resp + 1));
    }

    /** What dooption() does about an option that is not wanted, once no answer is outstanding. */
    method ConsiderDo(option: int)
      requires Shaped() && 0 <= option < OPTIONS && nfrontp + 3 <= BUFFER
      modifies this`nfrontp, netobuf, options, willWontResp
      ensures Shaped() && nfrontp <= old(nfrontp) + 3
      ensures var t, yes := old(Now()), option == SGA || option == ECHO;
        && Now() == t.(mine := t.mine[option :=
             if yes then t.mine[option].(wanted := true) else t.mine[option].(resp := t.mine[option].resp + 1)])
        && Pending() == old(Pending()) + Wire([Command(if yes then TelnetOptions.Will else Wont, option)])
    {
      hide Wire, His, Mine, Now;
      if option == SGA || option == ECHO {
        Set(option, MY_WANT_STATE_WILL, true);
        SendWill(option, false);
      } else {
        CountMine(option, 1);
        SendWont(option);
      }
    }

    /** The two counters that keep DONT SGA and DONT ECHO from being contradicted for ever. */
    method Insist(option: int)
      requires Shaped() && 0 <= option && nfrontp + 3 <= BUFFER
      modifies this`nfrontp, this`sgaloop, this`echoloop, netobuf, options, willWontResp
      ensures Shaped() && nfrontp <= old(nfrontp) + 3
      ensures var t := old(Now()); Now() == t.(sgaloop := if option == SGA then Bumped(t.sgaloop) else t.sgaloop,
                                               echoloop := if option == ECHO then Bumped(t.echoloop) else t.echoloop)
      ensures var t, again := old(Now()), (option == SGA && old(sgaloop) < 5) || (option == ECHO && old(echoloop) < 5);
        Pending() == old(Pending()) + Wire(if again then [Command(TelnetOptions.Will, option)] else [])
    {
      hide Wire, His, Mine, Now;
      WireFew(Will, option, option);
      assert Pending() + [] == Pending();
      if option == SGA {
        var n := BumpSga();
        if n < 5 {
          SendWill(SGA, false);
        }
      }
      if option == ECHO {
        var n := BumpEcho();
        if n < 5 {
          SendWill(ECHO, false);
        }
      }
    }

    method BumpSga() returns (n: int)
      requires Shaped()
      modifies this`sgaloop
      ensures Shaped() && n == old(sgaloop) && Now() == old(Now()).(sgaloop := Bumped(n)) && Pending() == old(Pending())
    {
      n := sgaloop;
      sgaloop := Bumped(sgaloop);
      assert forall p :: 0 <= p < OPTIONS ==> His(p) == old(His(p)) && Mine(p) == old(Mine(p));
    }

    method BumpEcho() returns (n: int)
      requires Shaped()
      modifies this`echoloop
      ensures Shaped() && n == old(echoloop) && Now() == old(Now()).(echoloop := Bumped(n))
      ensures Pending() == old(Pending())
    {
      n := echoloop;
      echoloop := Bumped(echoloop);
      assert forall p :: 0 <= p < OPTIONS ==> His(p) == old(His(p)) && Mine(p) == old(Mine(p));
    }

    method DontOption(option: int)
      requires Valid() && 0 <= option && nfrontp + 6 <= BUFFER
      modifies this`nfrontp, this`sgaloop, this`echoloop, netobuf, options, willWontResp
      ensures Valid() && nfrontp <= old(nfrontp) + 6
      ensures var r := TelnetOptions.DontOption(old(Now()), option);
        Now() == r.t && Pending() == old(Pending()) + Wire(r.out)
    {
      HeardSettles(Now(), Command(Dont, option));
      hide Wire, His, Mine, Now, Steady;
      WireFew(Wont, option, option);
      assert Pending() + [] == Pending();
      if option >= OPTIONS {
        return;
      }
      assert Settling(Now().mine[option]);
      DiscountMine(option, false);
      ghost var t := Now().mine[option];
      if Mine(option).resp == 0 && Mine(option).wanted {
        ConsiderDont(option);
      }
      Set(option, MY_STATE_WILL, false);
      MineAtTwice(old(Now()), option, t);
      MineAtTwice(old(Now()), option, t.(wanted := false));
    }

    /** What dontoption() does about an option that was wanted, once no answer is outstanding. */
    method ConsiderDont(option: int)
      requires Shaped() && 0 <= option < OPTIONS && nfrontp + 6 <= BUFFER
      modifies this`nfrontp, this`sgaloop, this`echoloop, netobuf, options, willWontResp
      ensures Shaped() && nfrontp <= old(nfrontp) + 6
      ensures var t := old(Now()); Now() == Table(t.his, t.mine[option := t.mine[option].(wanted := false)],
                                                  if option == SGA then Bumped(t.sgaloop) else t.sgaloop,
                                                  if option == ECHO then Bumped(t.echoloop) else t.echoloop)
      ensures var t, again := old(Now()), (option == SGA && old(sgaloop) < 5) || (option == ECHO && old(echoloop) < 5);
        Pending() == old(Pending()) + Wire((if t.mine[option].on then [Command(Wont, option)] else [])
                                           + if again then [Command(TelnetOptions.Will, option)] else [])
    {
      hide Wire, His, Mine, Now;
      WireFew(Wont, option, option);
      assert Pending() + [] == Pending();
      Set(option, MY_WANT_STATE_WILL, false);
      if Mine(option).on {
        SendWont(option);
      }
      Insist(option);
      WireJoins(if old(Now()).mine[option].on then [Command(Wont, option)] else [],
                if (option == SGA && old(sgaloop) < 5) || (option == ECHO && old(echoloop) < 5)
                 then [Command(TelnetOptions.Will, option)] else []);
    }

    /** send_wont() without `init`, the only way it is called. */
    method SendWont(o: int)
      requires Shaped() && 0 <= o && nfrontp + 3 <= BUFFER
      modifies this`nfrontp, netobuf
      ensures Shaped() && nfrontp <= old(nfrontp) + 3 && Now() == old(Now())
      ensures Pending() == old(Pending()) + Wire([Command(Wont, o)])
    {
      hide Wire, His, Mine, Now;
      WireFew(Wont, o, o);
      Emit(Wont, o);
    }

    /** The requests of T_INIT1. */
    method Init1()
      requires Valid() && nfrontp + 3 * |H.Init1(Now()).out| <= BUFFER
      modifies this`nfrontp, netobuf, options, doDontResp
      ensures Valid()
      ensures var r := H.Init1(old(Now())); Now() == r.t && Pending() == old(Pending()) + Wire(r.out)
    {
      hide Wire, His, Mine, Steady;
      ghost var t, pending := Now(), Pending();
      H.Init1Settles(t);
      ghost var r1 := TelnetOptions.SendDo(t, ENVIRON);
      ghost var r2 := TelnetOptions.SendDo(r1.t, ECHO);
      ghost var r3 := TelnetOptions.SendDo(r2.t, NAWS);
      ghost var r4 := TelnetOptions.SendDo(r3.t, NULL1);
      hide Now, TelnetOptions.SendDo;
      SendDo(ENVIRON, true);
      SendDo(ECHO, true);
      SendDo(NAWS, true);
      SendDo(NULL1, true);
      WireJoins(r1.out, r2.out);
      WireJoins(r1.out + r2.out, r3.out);
      WireJoins(r1.out + r2.out + r3.out, r4.out);
      Associates(pending, Wire(r1.out), Wire(r2.out));
      Associates(pending, Wire(r1.out + r2.out), Wire(r3.out));
      Associates(pending, Wire(r1.out + r2.out + r3.out), Wire(r4.out));
    }

    /** The request for the environment, which is no option command. */
    method SendEnviron()
      requires Valid() && nfrontp + |EnvironRequest(Now())| <= BUFFER
      modifies this`nfrontp, netobuf
      ensures Valid() && Now() == old(Now()) && Pending() == old(Pending()) + EnvironRequest(Now())
    {
      if His(ENVIRON).on {
        netobuf[nfrontp], netobuf[nfrontp + 1], netobuf[nfrontp + 2] := IAC, 250, ENVIRON;
        netobuf[nfrontp + 3], netobuf[nfrontp + 4], netobuf[nfrontp + 5] := 1, IAC, 240;
        nfrontp := nfrontp + 6;
      }
      assert forall p :: 0 <= p < OPTIONS ==> His(p) == old(His(p)) && Mine(p) == old(Mine(p));
    }

    method RefuseEcho()
      requires Valid() && nfrontp + 3 * |H.RefuseEcho(Now()).out| <= BUFFER
      modifies this`nfrontp, netobuf, options, doDontResp
      ensures Valid()
      ensures var r := H.RefuseEcho(old(Now())); Now() == r.t && Pending() == old(Pending()) + Wire(r.out)
    {
      HeardSettles(Now(), Command(TelnetOptions.Will, ECHO));
      WireFew(Do, SGA, SGA);
      hide Wire, His, Mine, Now, Steady, TelnetOptions.WillOption, TelnetOptions.SendDo;
      assert Pending() + [] == Pending();
      if His(ECHO).wanted {
        ghost var r1 := TelnetOptions.WillOption(Now(), ECHO);
        WillOption(ECHO);
        RequestSettles(r1.t, NULL2);
        ghost var r2 := TelnetOptions.SendDo(r1.t, NULL2);
        SendDo(NULL2, true);
        WireJoins(r1.out, r2.out);
      }
    }

    method OfferSga()
      requires Valid() && nfrontp + 3 * |H.OfferSga(Now()).out| <= BUFFER
      modifies this`nfrontp, netobuf, options, willWontResp
      ensures Valid()
      ensures var r := H.OfferSga(old(Now())); Now() == r.t && Pending() == old(Pending()) + Wire(r.out)
    {
      RequestSettles(Now(), SGA);
      WireFew(Do, SGA, SGA);
      hide Wire, His, Mine, Now, Steady, TelnetOptions.SendWill;
      assert Pending() + [] == Pending();
      if !Mine(SGA).on {
        SendWill(SGA, true);
      }
    }

    method Init2()
      requires Valid() && nfrontp + 3 * |H.Init2(Now()).out| <= BUFFER
      modifies this`nfrontp, netobuf, options, doDontResp, willWontResp
      ensures Valid()
      ensures var r := H.Init2(old(Now())); Now() == r.t && Pending() == old(Pending()) + Wire(r.out)
    {
      hide Wire, His, Mine, Now, Steady, H.RefuseEcho, H.OfferSga;
      ghost var r1 := H.OfferSga(Now());
      ghost var r2 := H.RefuseEcho(r1.t);
      ghost var pending := Pending();
      OfferSga();
      RefuseEcho();
      WireJoins(r1.out, r2.out);
      Associates(pending, Wire(r1.out), Wire(r2.out));
    }

    method Init3()
      requires Valid() && nfrontp + 3 * |H.Init3(Now()).out| <= BUFFER
      modifies this`nfrontp, netobuf, options, doDontResp, willWontResp
      ensures Valid()
      ensures var r := H.Init3(old(Now())); Now() == r.t && Pending() == old(Pending()) + Wire(r.out)
    {
      hide Wire, His, Mine, Now, Steady, TelnetOptions.SendWill, TelnetOptions.SendDo;
      ghost var t := Now();
      RequestSettles(t, ECHO);
      WireFew(Do, SGA, SGA);
      assert Pending() + [] == Pending();
      if !Mine(ECHO).on {
        ghost var r1 := TelnetOptions.SendWill(t, ECHO);
        SendWill(ECHO, true);
        RequestSettles(r1.t, NULL3);
        ghost var r2 := TelnetOptions.SendDo(r1.t, NULL3);
        SendDo(NULL3, true);
        WireJoins(r1.out, r2.out);
      }
    }

    /** Silence about one of the server's own options is taken for consent. */
    method TakeConsent(o: int)
      requires Valid() && (o == SGA || o == ECHO) && nfrontp + 3 * |H.Consent(Now(), o).out| <= BUFFER
      modifies this`nfrontp, netobuf, options, willWontResp
      ensures Valid()
      ensures var r := H.Consent(old(Now()), o); Now() == r.t && Pending() == old(Pending()) + Wire(r.out)
    {
      WireFew(Do, SGA, SGA);
      IsChanging(options[o]);
      assert Mine(o) == Now().mine[o];
      hide Wire, Now, Steady, TelnetOptions.DoOption;
      assert Pending() + [] == Pending();
      if (options[o] + MY_STATE_WILL) & MY_WANT_STATE_WILL != 0 {
        DoOption(o);
      }
    }

    method Init4()
      requires Valid() && nfrontp + 3 * |H.Init4(Now()).out| <= BUFFER
      modifies this`nfrontp, netobuf, options, willWontResp
      ensures Valid()
      ensures var r := H.Init4(old(Now())); Now() == r.t && Pending() == old(Pending()) + Wire(r.out)
    {
      hide Wire, His, Mine, Now, Steady, H.Consent;
      ghost var r1 := H.Consent(Now(), SGA);
      ghost var r2 := H.Consent(r1.t, ECHO);
      ghost var pending := Pending();
      TakeConsent(SGA);
      TakeConsent(ECHO);
      WireJoins(r1.out, r2.out);
      Associates(pending, Wire(r1.out), Wire(r2.out));
    }

    /** his_will_wont_is_changing() */
    method IsMoving(o: int) returns (b: bool)
      requires Shaped() && 0 <= o < OPTIONS
      ensures b == Changing(Now().his[o])
    {
      IsChanging(options[o]);
      b := (options[o] + MY_STATE_DO) & MY_WANT_STATE_DO != 0;
      assert Now().his[o] == His(o);
    }

    method FromInit4() returns (stage: int)
      requires Valid() && nfrontp + 3 * |H.FromInit4(Now()).r.out| <= BUFFER
      modifies this`nfrontp, netobuf, options, willWontResp
      ensures Valid()
      ensures var r := H.FromInit4(old(Now()));
        stage == r.stage && Now() == r.r.t && Pending() == old(Pending()) + Wire(r.r.out)
    {
      hide Wire, Steady, H.Init4;
      WireFew(Do, SGA, SGA);
      assert Pending() + [] == Pending();
      var changing := IsMoving(NULL3);
      if changing {
        return H.T_INIT4;
      }
      Init4();
      return H.T_DONE;
    }

    method FromInit3() returns (stage: int)
      requires Valid() && nfrontp + 3 * |H.FromInit3(Now()).r.out| <= BUFFER
      modifies this`nfrontp, netobuf, options, doDontResp, willWontResp
      ensures Valid()
      ensures var r := H.FromInit3(old(Now()));
        stage == r.stage && Now() == r.r.t && Pending() == old(Pending()) + Wire(r.r.out)
    {
      hide Wire, Steady, H.FromInit4, H.Init3, H.Init4, His, Mine, Now;
      WireFew(Do, SGA, SGA);
      var changing := IsMoving(NULL2);
      ghost var t, pending := Now(), Pending();
      assert Pending() + [] == Pending();
      if changing {
        return H.T_INIT3;
      }
      Init3();
      stage := FromInit4();
      ghost var r := H.Init3(t);
      WireJoins(r.out, H.FromInit4(r.t).r.out);
      Associates(pending, Wire(r.out), Wire(H.FromInit4(r.t).r.out));
    }

    /** Everything from NULL1's answer on. */
    method PassNull1() returns (stage: int)
      requires Valid() && !Changing(Now().his[NULL1]) && nfrontp + |From2(Now())| <= BUFFER
      modifies this`nfrontp, netobuf, options, doDontResp, willWontResp
      ensures Valid()
      ensures var t := old(Now()); var r := H.FromInit2(t);
        stage == r.stage && Now() == r.r.t && Pending() == old(Pending()) + From2(t)
    {
      hide Wire, Steady, H.Init2, H.FromInit3, His, Mine, Now, EnvironRequest;
      ghost var t, pending := Now(), Pending();
      ghost var r := H.Init2(t);
      ghost var f := H.FromInit3(r.t).r.out;
      SendEnviron();
      Init2();
      stage := FromInit3();
      WireJoins(r.out, f);
      Associates(EnvironRequest(t), Wire(r.out), Wire(f));
      Associates(pending, EnvironRequest(t), Wire(r.out));
      Associates(pending, EnvironRequest(t) + Wire(r.out), Wire(f));
    }

    method FromInit2() returns (stage: int)
      requires Valid() && nfrontp + |From2(Now())| <= BUFFER
      modifies this`nfrontp, netobuf, options, doDontResp, willWontResp
      ensures Valid()
      ensures var t := old(Now()); var r := H.FromInit2(t);
        stage == r.stage && Now() == r.r.t && Pending() == old(Pending()) + From2(t)
    {
      hide Wire, Steady, H.Init2, H.FromInit3, His, Mine, Now, EnvironRequest;
      var changing := IsMoving(NULL1);
      if changing {
        assert Pending() + [] == Pending();
        return H.T_INIT2;
      }
      stage := PassNull1();
    }

    /** qinit(), which continues in the next stage wherever its fence has been answered. */
    method Qinit(stage: int) returns (next: int)
      requires Valid() && nfrontp == 0 && 0 <= stage <= H.T_INIT4 && Roomy(Now(), stage)
      modifies this`nfrontp, netobuf, options, doDontResp, willWontResp
      ensures Valid()
      ensures var t := old(Now()); var r := H.Qinit(t, stage);
        next == r.stage && Now() == r.r.t && Pending() == Said(t, stage)
    {
      QinitFits(Now(), stage);
      hide Wire, Steady, His, Mine, Now, EnvironRequest, H.FromInit2, H.FromInit3, H.FromInit4, H.Init1, From2, Roomy;
      WireFew(Do, SGA, SGA);
      assert Pending() == [] && forall q: seq<int> :: [] + q == q;
      next := stage;
      if stage == H.T_INIT1 {
        Init1();
        next := FromInit2();
      } else if stage == H.T_INIT2 {
        next := FromInit2();
      } else if stage == H.T_INIT3 {
        next := FromInit3();
      } else if stage == H.T_INIT4 {
        next := FromInit4();
      }
    }
  }

  // ---------------------------------------------------------------- when the buffer is large enough

  /** What is sent from T_INIT2 on: nothing until NULL1 has been answered. */
  function From2(t: Table): seq<int>
    requires Sized(t)
  {
    if Changing(t.his[NULL1]) then [] else EnvironRequest(t) + Wire(H.FromInit2(t).r.out)
  }

  /** All that a call of qinit() puts into the buffer. */
  function Said(t: Table, stage: int): seq<int>
    requires Sized(t)
  {
    if stage == H.T_INIT1 then Wire(H.Init1(t).out) + From2(H.Init1(t).t)
    else if stage == H.T_INIT2 then From2(t)
    else Wire(H.Qinit(t, stage).r.out)
  }

  function One(b: bool): nat { if b then 1 else 0 }

  /** Whether qinit() gets past NULL2 in the same call, and past NULL3. */
  predicate Past2(t: Table)
    requires Sized(t)
  {
    if t.his[ECHO].wanted then t.his[NULL2].on else !Changing(t.his[NULL2])
  }

  predicate Past3(t: Table)
    requires Sized(t)
  {
    Past2(t) && if t.mine[ECHO].on then !Changing(t.his[NULL3]) else t.his[NULL3].on
  }

  /** The five commands a call may send once NULL1 has been answered: about the server's SGA, the peer's
      echo, NULL2, the server's echo and NULL3. */
  function Commands(t: Table): nat
    requires Sized(t)
  {
    One(!t.mine[SGA].wanted && (!t.mine[SGA].on || Past3(t)))
    + One(t.his[ECHO].wanted && t.his[ECHO].on)
    + One(t.his[ECHO].wanted && !t.his[NULL2].wanted)
    + One(Past2(t) && !t.mine[ECHO].wanted && (!t.mine[ECHO].on || Past3(t)))
    + One(Past2(t) && !t.mine[ECHO].on && !t.his[NULL3].wanted)
  }

  /** The four requests of T_INIT1 that have not been made yet. */
  function Unasked(t: Table): nat
    requires Sized(t)
  {
    One(!t.his[ENVIRON].wanted) + One(!t.his[ECHO].wanted) + One(!t.his[NAWS].wanted) + One(!t.his[NULL1].wanted)
  }

  /** The request for the environment takes the room of two commands, and there is room for five. */
  predicate Roomy(t: Table, stage: int)
    requires Sized(t)
  {
    var env := 2 * One(t.his[ENVIRON].on);
    if stage == H.T_INIT1 then
      var u := t.(his := t.his[ECHO := t.his[ECHO].(wanted := true)]);
      !t.his[NULL1].on || Unasked(t) + env + Commands(u) <= 5
    else if stage == H.T_INIT2 then
      Changing(t.his[NULL1]) || env + Commands(t) <= 5
    else true
  }

  lemma MineAtTwice(t: Table, o: int, a: Side)
    requires Sized(t) && 0 <= o < OPTIONS
    ensures t.mine[o := a][o := a.(on := true)] == t.mine[o := a.(on := true)]
    ensures t.mine[o := a][o := a.(on := false)] == t.mine[o := a.(on := false)]
    ensures t.mine[o := a][o := a.(wanted := false)] == t.mine[o := a.(wanted := false)]
    ensures t.mine[o := a][o := a.(wanted := true)] == t.mine[o := a.(wanted := true)]
    ensures t.mine[o := a][o := a.(resp := a.resp + 1)] == t.mine[o := a.(resp := a.resp + 1)]
  {
  }

  function HisAt(t: Table, o: int, s: Side): Table
    requires Sized(t) && 0 <= o < OPTIONS
  {
    t.(his := t.his[o := s])
  }

  lemma HisAtTwice(t: Table, o: int, a: Side, b: Side)
    requires Sized(t) && 0 <= o < OPTIONS
    ensures HisAt(HisAt(t, o, a), o, b) == HisAt(t, o, b)
    ensures HisAt(HisAt(t, o, a), o, a.(on := true)) == HisAt(t, o, a.(on := true))
    ensures HisAt(HisAt(t, o, b), o, b.(on := true)) == HisAt(t, o, b.(on := true))
    ensures HisAt(HisAt(t, o, b), o, b.(on := false)) == HisAt(t, o, b.(on := false))
  {
  }

  /** What becomes of the side, its new state aside, and what is sent. */
  function ConsideredWill(s: Side, o: int): (Side, seq<Command>)
  {
    if !s.wanted then
      if o == NAWS || o == ENVIRON || o == SGA then (s.(wanted := true), [Command(Do, o)])
      else (s.(resp := s.resp + 1), [Command(Dont, o)])
    else if o == ECHO then (Refused(s), if Refused(s) == s then [] else [Command(Dont, o)])
    else (s, [])
  }

  lemma WireFew(v: Verb, o: int, p: int)
    ensures Wire([]) == [] && Wire([Command(v, o)]) == [IAC, VerbCode(v), o]
  {
  }

  /** What asks the peer for its variables, if it has agreed to send them. */
  function EnvironRequest(t: Table): (r: seq<int>)
    requires Sized(t)
    ensures |r| <= 6
  {
    if t.his[ENVIRON].on then [IAC, 250, ENVIRON, 1, IAC, 240] else []
  }

  lemma Associates(a: seq<int>, b: seq<int>, c: seq<int>)
    ensures a + (b + c) == a + b + c
  {
  }

  lemma Init1Counts(t: Table)
    requires Steady(t)
    ensures var r := H.Init1(t); Steady(r.t) && |r.out| == Unasked(t) && Changing(r.t.his[NULL1]) == !t.his[NULL1].on
    ensures var u := H.Init1(t).t;
      && u.his[ENVIRON].on == t.his[ENVIRON].on && u.his[ECHO].wanted && u.his[ECHO].on == t.his[ECHO].on
      && u.his[NULL2] == t.his[NULL2] && u.his[NULL3] == t.his[NULL3] && u.mine == t.mine
  {
    H.Init1Settles(t);
  }

  lemma Init2Counts(t: Table)
    requires Steady(t)
    ensures var r := H.Init2(t);
      && Steady(r.t)
      && |r.out| == One(!t.mine[SGA].wanted && !t.mine[SGA].on) + One(t.his[ECHO].wanted && t.his[ECHO].on)
                    + One(t.his[ECHO].wanted && !t.his[NULL2].wanted)
      && !Changing(r.t.his[NULL2]) == Past2(t) && r.t.his[NULL3] == t.his[NULL3] && r.t.mine[ECHO] == t.mine[ECHO]
      && (r.t.mine[SGA].on && !r.t.mine[SGA].wanted <==> t.mine[SGA].on && !t.mine[SGA].wanted)
  {
    H.Init2Settles(t);
    assert Settling(t.his[ECHO]) && Settling(t.mine[SGA]) && Settling(t.his[NULL2]);
  }

  lemma Init3Counts(t: Table)
    requires Steady(t)
    ensures var r := H.Init3(t);
      && Steady(r.t)
      && |r.out| == One(!t.mine[ECHO].wanted && !t.mine[ECHO].on) + One(!t.mine[ECHO].on && !t.his[NULL3].wanted)
      && !Changing(r.t.his[NULL3]) == (if t.mine[ECHO].on then !Changing(t.his[NULL3]) else t.his[NULL3].on)
      && (r.t.mine[ECHO].on && !r.t.mine[ECHO].wanted <==> t.mine[ECHO].on && !t.mine[ECHO].wanted)
      && r.t.mine[SGA] == t.mine[SGA]
  {
    H.Init3Settles(t);
    assert Settling(t.mine[ECHO]) && Settling(t.his[NULL3]);
  }

  lemma Init4Counts(t: Table)
    requires Steady(t)
    ensures |H.Init4(t).out|
      == One(t.mine[SGA].on && !t.mine[SGA].wanted) + One(t.mine[ECHO].on && !t.mine[ECHO].wanted)
  {
    H.Init4Settles(t);
    assert Settling(t.mine[ECHO]) && Settling(t.mine[SGA]);
  }

  lemma From3Counts(t: Table)
    requires Steady(t)
    ensures var past := if t.mine[ECHO].on then !Changing(t.his[NULL3]) else t.his[NULL3].on;
      |H.FromInit3(t).r.out| == if Changing(t.his[NULL2]) then 0 else
        One(!t.mine[ECHO].wanted && (!t.mine[ECHO].on || past)) + One(!t.mine[ECHO].on && !t.his[NULL3].wanted)
        + One(t.mine[SGA].on && !t.mine[SGA].wanted && past)
  {
    hide H.Init3, H.Init4, Settling;
    Init3Counts(t);
    Init4Counts(H.Init3(t).t);
  }

  lemma From2Counts(t: Table)
    requires Steady(t)
    ensures |From2(t)| == if Changing(t.his[NULL1]) then 0 else 6 * One(t.his[ENVIRON].on) + 3 * Commands(t)
  {
    hide H.Init2, H.FromInit3, Settling, Wire;
    Init2Counts(t);
    From3Counts(H.Init2(t).t);
  }

  /** Whatever has been negotiated, all that qinit() sends fits the buffer exactly when the table leaves
      room for it. */
  lemma QinitFits(t: Table, stage: int)
    requires Steady(t) && 0 <= stage <= H.T_INIT4
    ensures |Said(t, stage)| <= BUFFER <==> Roomy(t, stage)
  {
    hide H.Init1, H.FromInit2, H.FromInit3, H.FromInit4, From2, Wire, Settling, Commands, Unasked;
    if stage == H.T_INIT1 {
      Init1Counts(t);
      From2Counts(H.Init1(t).t);
      Init1Commands(t);
    } else if stage == H.T_INIT2 {
      From2Counts(t);
    } else if stage == H.T_INIT3 {
      From3Counts(t);
    } else {
      From4Counts(t);
    }
    FewCommands(t);
  }

  lemma From4Counts(t: Table)
    requires Steady(t)
    ensures |H.FromInit4(t).r.out| <= 2
  {
    hide H.Init4, Settling;
    Init4Counts(t);
  }

  /** After the opening requests, what is still to be said depends on what was there before them. */
  lemma Init1Commands(t: Table)
    requires Steady(t)
    ensures Sized(H.Init1(t).t)
    ensures Commands(H.Init1(t).t) == Commands(t.(his := t.his[ECHO := t.his[ECHO].(wanted := true)]))
  {
    hide H.Init1;
    Init1Counts(t);
  }

  lemma FewCommands(t: Table)
    requires Sized(t)
    ensures Commands(t) <= 5 && Unasked(t) <= 4
  {
  }

  /** With a peer that agrees to no fence before it was raised there is always room. */
  lemma FencesMakeRoom(t: Table, stage: int)
    requires Sized(t) && (t.his[NULL1].on ==> stage != H.T_INIT1) && (t.his[NULL2].on ==> stage != H.T_INIT2)
    ensures Roomy(t, stage)
  {
  }

  /** So there is in every run with a fair peer. */
  lemma FairPeerLeavesRoom(trace: seq<H.System>, i: nat)
    requires H.Run(trace) && i < |trace|
    ensures Sized(trace[i].t) && Roomy(trace[i].t, trace[i].stage)
  {
    hide H.Run, Roomy;
    H.FencesUnused(trace, i);
    FencesMakeRoom(trace[i].t, trace[i].stage);
  }

  /** The table once these commands have come from the peer. */
  function Hearing(t: Table, q: seq<Command>): (u: Table)
    requires Sized(t) && forall c :: c in q ==> 0 <= c.option
    ensures Sized(u)
    decreases |q|
  {
    if q == [] then t else Hearing(Heard(t, q[0]).t, q[1..])
  }

  /** A peer that will send its variables and echoes for itself, and agrees to NULL2 before that is raised:
      21 bytes are due at once when it answers NULL1. */
  lemma EarlyFenceCrowds()
    ensures var t := Hearing(H.Opening().t, Early());
      Steady(t) && t.his[NULL2].on && !Roomy(t, H.T_INIT2) && |Said(t, H.T_INIT2)| == 21
  {
    hide H.Opening, Heard, H.FromInit2, Wire, From2, HisAt, Said, Roomy;
    OpeningTable();
    EarlyTable(H.Opening().t);
    EarlyCrowds(Hearing(H.Opening().t, Early()));
  }

  lemma EarlyCrowds(t: Table)
    requires Steady(t) && t.mine[SGA] == t.mine[ECHO] == t.his[NULL3] == OFF && t.his[NULL2] == Side(true, false, 1)
    requires t.his[ENVIRON] == t.his[ECHO] == t.his[NULL1] == Side(true, true, 0)
    ensures !Roomy(t, H.T_INIT2) && |Said(t, H.T_INIT2)| == 21
  {
    hide From2, Wire, H.FromInit2, Settling;
    From2Counts(t);
  }

  lemma EarlyTable(t: Table)
    requires Steady(t) && t.mine[SGA] == t.mine[ECHO] == OFF && t.his[NULL2] == t.his[NULL3] == OFF
    requires t.his[ENVIRON] == t.his[ECHO] == t.his[NAWS] == t.his[NULL1] == H.WAITING
    ensures var u := Hearing(t, Early());
      && Steady(u) && u.mine == t.mine && u.his[NULL3] == OFF && u.his[NULL2] == Side(true, false, 1)
      && u.his[ENVIRON] == u.his[ECHO] == u.his[NULL1] == Side(true, true, 0)
  {
    hide Heard, Settling, Wire;
    var q := Early();
    var t1 := Hears(t, q[0]);
    var t2 := Hears(t1, q[1]);
    var t3 := Hears(t2, q[2]);
    var t4 := Hears(t3, q[3]);
    var t5 := Hears(t4, q[4]);
    HearingOne(t, q);
    HearingOne(t1, q[1..]);
    HearingOne(t2, q[2..]);
    HearingOne(t3, q[3..]);
    HearingOne(t4, q[4..]);
    HearingNone(t5);
    assert q[1..][1..] == q[2..] && q[2..][1..] == q[3..] && q[3..][1..] == q[4..] && q[4..][1..] == [];
  }

  lemma HearingNone(t: Table)
    requires Sized(t)
    ensures Hearing(t, []) == t
  {
  }

  lemma HearingOne(t: Table, q: seq<Command>)
    requires Sized(t) && q != [] && forall c :: c in q ==> 0 <= c.option
    ensures q[0].option >= 0 && (forall c :: c in q[1..] ==> 0 <= c.option)
    ensures Hearing(t, q) == Hearing(Heard(t, q[0]).t, q[1..])
  {
    assert q[0] in q;
  }

  /** An answer that was asked for settles its option, and NULL2 that was not asked for is refused. */
  lemma Hears(t: Table, c: Command) returns (u: Table)
    requires Steady(t) && 0 <= c.option < OPTIONS && (c.verb == TelnetOptions.Will || c.verb == Wont)
    requires t.his[c.option] == H.WAITING || (c == Command(TelnetOptions.Will, NULL2) && t.his[NULL2] == OFF)
    ensures u == Heard(t, c).t && Steady(u)
    ensures u == HisAt(t, c.option, if t.his[c.option] == OFF then Side(true, false, 1)
                                    else Side(c.verb == TelnetOptions.Will, c.verb == TelnetOptions.Will, 0))
  {
    u := Heard(t, c).t;
    HeardSettles(t, c);
    hide Settling;
  }

  /** What that peer says. */
  function Early(): (q: seq<Command>)
    ensures |q| == 5 && forall c :: c in q ==> 0 <= c.option
  {
    [Command(TelnetOptions.Will, ENVIRON), Command(TelnetOptions.Will, ECHO), Command(Wont, NAWS),
     Command(TelnetOptions.Will, NULL2), Command(TelnetOptions.Will, NULL1)]
  }

  lemma OpeningTable()
    ensures var t := H.Opening().t;
      && Steady(t) && t.mine[SGA] == t.mine[ECHO] == OFF && t.his[NULL2] == t.his[NULL3] == OFF
      && t.his[ENVIRON] == t.his[ECHO] == t.his[NAWS] == t.his[NULL1] == H.WAITING
  {
  }
}
