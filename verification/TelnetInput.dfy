/** qtelrcv() and suboption() of qstate.c on the buffers of one connection. */
module TelnetInput {
  import opened TelnetLine
  import O = TelnetOptions
  import opened TelnetServer

  lemma {:induction false} CStringEnds(a: seq<int>, b: seq<int>)
    ensures CString(a + [0] + b) == CString(a)
  {
    if a == [] {
      assert (a + [0] + b)[0] == 0;
    } else {
      CStringEnds(a[1..], b);
      assert (a + [0] + b)[1..] == a[1..] + [0] + b && (a + [0] + b)[0] == a[0];
    }
  }

  /** The string that starts at p of a buffer, known to be s followed by a NUL. */
  lemma StringAt(m: seq<int>, p: nat, s: seq<int>)
    requires p + |s| < |m| && m[p..p + |s|] == s && m[p + |s|] == 0
    ensures CString(m[p..]) == CString(s)
  {
    hide CString;
    assert m[p..] == s + [0] + m[p + |s| + 1..];
    CStringEnds(s, m[p + |s| + 1..]);
  }

  /** The strings under construction: the name from varp on and, once there is one, the value from valp
      on, which ends at cp. */
  ghost predicate Holds(m: seq<int>, varp: int, valp: int, cp: int, name: seq<int>, value: Value)
  {
    && 0 <= varp <= cp <= |m|
    && match value
       case Missing => valp == -1 && m[varp..cp] == name
       case Given(t) =>
         && varp + |name| < valp <= cp
         && m[varp..varp + |name|] == name && m[varp + |name|] == 0 && m[valp..cp] == t
  }

  /** A NUL at cp ends the string under construction. */
  lemma Terminated(m: seq<int>, varp: int, valp: int, cp: int, name: seq<int>, value: Value, user: seq<int>)
    requires Holds(m, varp, valp, cp, name, value) && cp < |m|
    ensures var z := m[cp := 0];
      && Holds(z, varp, valp, cp, name, value)
      && (if valp != -1 && CString(z[varp..]) == USER then Limited(CString(z[valp..]), USER_LENGTH) else user)
         == Finished(name, value, user)
  {
    var z := m[cp := 0];
    match value
    case Missing =>
      assert z[varp..varp + |name|] == m[varp..cp];
    case Given(t) =>
      assert z[varp..varp + |name|] == m[varp..varp + |name|];
      assert z[valp..cp] == m[valp..cp];
      StringAt(z, varp, name);
      StringAt(z, valp, t);
  }

  /** What follows is a value of the same name. */
  lemma Continued(m: seq<int>, varp: int, valp: int, cp: int, name: seq<int>, value: Value, r: int)
    requires Holds(m, varp, valp, cp, name, value) && cp < r <= |m|
    ensures Holds(m[cp := 0], varp, r, r, name, Given([]))
  {
  }

  lemma Extended(m: seq<int>, varp: int, valp: int, cp: int, name: seq<int>, value: Value, c: int)
    requires Holds(m, varp, valp, cp, name, value) && cp < |m|
    ensures var p := Pushed(name, value, c); Holds(m[cp := c], varp, valp, cp + 1, p.0, p.1)
  {
  }

  const CLIENT: int := 0xa0
  const AYT: int := 246
  const AO: int := 245
  const DM: int := 242

  predicate Verbal(s: State) { s == Will || s == Wont || s == Do || s == Dont }

  function VerbOf(s: State): O.Verb
  {
    match s
    case Will => O.Will
    case Wont => O.Wont
    case Do => O.Do
    case _ => O.Dont
  }

  /** The options after some input, and the bytes said about it. */
  datatype Talk = Talk(t: O.Table, said: seq<int>)

  /** Where a byte stands for a command. */
  predicate Commanding(l: Line, c: int)
  {
    l.state == Iac || (l.state == SubIac && c != TelnetLine.IAC && c != SE)
  }

  /** The answer to one byte: option commands are negotiated, and AO is answered with a data mark. */
  function Reply(l: Line, t: O.Table, c: int): (r: Talk)
    requires O.Sized(t) && 0 <= c
    ensures O.Sized(r.t)
  {
    if Verbal(l.state) then
      var h := O.Heard(t, O.Command(VerbOf(l.state), c));
      Talk(h.t, Wire(h.out))
    else
      Talk(t, if Commanding(l, c) && c == AO then [TelnetLine.IAC, DM] else [])
  }

  /** The answers to any number of bytes. */
  function Replies(l: Line, t: O.Table, input: seq<int>): (r: Talk)
    requires O.Sized(t) && forall i :: 0 <= i < |input| ==> 0 <= input[i] < 256
    ensures O.Sized(r.t)
  {
    if input == [] then Talk(t, []) else
    var n := |input| - 1;
    var before := Replies(l, t, input[..n]);
    var last := Reply(Feed(l, input[..n]).line, before.t, input[n]);
    Talk(last.t, before.said + last.said)
  }

  /** A byte that ends the connection: an interrupt or an end of file typed as data, an old client, or
      one for which something got `lost`. */
  predicate Hangs(l: Line, c: int, lost: bool)
  {
    if l.state == Data then c != TelnetLine.IAC && (c % 128 == 3 || c % 128 == 4 || c % 128 == 26 || lost)
    else if l.state == Cr then
      c != TelnetLine.IAC && c % 128 != 0 && c % 128 != 10 && (c % 128 == 3 || c % 128 == 4 || c % 128 == 26 || lost)
    else Commanding(l, c) && (c == CLIENT || (c == AYT && lost))
  }

  class Connection {
    const opts: Options
    const subbuffer: array<int>
    var subpointer: nat
    var subend: nat
    var state: State
    var client: bool
    var rows: int
    var remoteusername: seq<int>

    ghost predicate Shaped()
      reads this
    {
      subbuffer.Length == SUBBUFFER && subpointer <= SUBBUFFER && subend <= SUBBUFFER
    }

    ghost function Repr(): set<object>
      reads this
    {
      {this, subbuffer, opts, opts.options, opts.doDontResp, opts.willWontResp, opts.netobuf}
    }

    ghost predicate Valid()
      reads this, opts, opts.options, opts.doDontResp, opts.willWontResp
    {
      && Shaped() && opts.Valid()
      && subbuffer != opts.doDontResp && subbuffer != opts.willWontResp && subbuffer != opts.netobuf
      && subbuffer as object != opts.options
    }

    constructor ()
      ensures Valid() && fresh(Repr()) && LineNow() == Line(Data, [], false) && opts.nfrontp == 0
    {
      opts := new Options();
      subbuffer := new int[SUBBUFFER](_ => 0);
      subpointer, subend, state, client, rows, remoteusername := 0, 0, Data, false, 24, [];
    }

    /** Where the decoder stands. */
    ghost function LineNow(): Line
      requires Shaped()
      reads this, subbuffer
    {
      Line(state, if state == Sub || state == SubIac then subbuffer[..subpointer] else [], client)
    }

    /** A variable is over. */
    method Finish(cp: nat, varp: nat, valp: int, ghost name: seq<int>, ghost value: Value)
      requires Shaped() && cp < SUBBUFFER && Holds(subbuffer[..], varp, valp, cp, name, value)
      modifies this`remoteusername, subbuffer
      ensures subbuffer[..] == old(subbuffer[..])[cp := 0]
      ensures remoteusername == Finished(name, value, old(remoteusername))
    {
      hide CString;
      Terminated(subbuffer[..], varp, valp, cp, name, value, remoteusername);
      subbuffer[cp] := 0;
      assert subbuffer[..] == old(subbuffer[..])[cp := 0];
      if valp != -1 && CString(subbuffer[varp..]) == USER {
        remoteusername := Limited(CString(subbuffer[valp..]), USER_LENGTH);
      }
    }

    /** One pass of the last loop of suboption(). */
    method DecodeOne(cp: nat, varp: nat, valp: int, ghost name: seq<int>, ghost value: Value)
      returns (cp': nat, varp': nat, valp': int, ghost name': seq<int>, ghost value': Value)
      requires Shaped() && cp <= subpointer < subend < SUBBUFFER && Holds(subbuffer[..], varp, valp, cp, name, value)
      modifies this`subpointer, this`remoteusername, subbuffer
      ensures Shaped() && old(subpointer) < subpointer <= subend && cp' <= subpointer
      ensures subbuffer[subpointer..subend] == old(subbuffer[..])[subpointer..subend]
      ensures Holds(subbuffer[..], varp', valp', cp', name', value')
      ensures Decoded(old(subbuffer[subpointer..subend]), name, value, old(remoteusername))
           == Decoded(subbuffer[subpointer..subend], name', value', remoteusername)
    {
      ghost var m, rest := subbuffer[..], subbuffer[subpointer..subend];
      cp', varp', valp', name', value' := cp, varp, valp, name, value;
      var c := subbuffer[subpointer];
      subpointer := subpointer + 1;
      assert rest[0] == c && rest[1..] == m[subpointer..subend];
      if c == ENV_VALUE {
        Continued(m, varp, valp, cp, name, value, subpointer);
        subbuffer[cp] := 0;
        assert subbuffer[..] == m[cp := 0];
        cp', valp', value' := subpointer, subpointer, Given([]);
      } else if c == ENV_VAR {
        Finish(cp, varp, valp, name, value);
        cp', varp', valp', name', value' := subpointer, subpointer, -1, [], Missing;
      } else if c != ENV_ESC || subpointer < subend {
        if c == ENV_ESC {
          c := subbuffer[subpointer];
          subpointer := subpointer + 1;
          assert rest[1..][0] == c && rest[1..][1..] == m[subpointer..subend] && rest[1..][1..] == rest[2..];
        }
        Extended(m, varp, valp, cp, name, value, c);
        subbuffer[cp] := c;
        assert subbuffer[..] == m[cp := c];
        cp' := cp + 1;
        name', value' := Pushed(name, value, c).0, Pushed(name, value, c).1;
      }
      hide Holds, Finished;
    }

    /** The last loop of suboption().  What it writes stays behind what it has read, so that the strings
        it builds in place are those of a decoder with memory of its own. */
    method DecodeVariables()
      requires Shaped() && subpointer <= subend < SUBBUFFER
      modifies this`subpointer, this`remoteusername, subbuffer
      ensures Shaped()
      ensures remoteusername == Decoded(old(subbuffer[subpointer..subend]), [], Missing, old(remoteusername))
    {
      hide Decoded, Finished;
      var cp, varp, valp := subpointer, subpointer, -1;
      ghost var name: seq<int>, value := [], Missing;
      while subpointer < subend
        invariant Shaped() && cp <= subpointer <= subend < SUBBUFFER
        invariant Holds(subbuffer[..], varp, valp, cp, name, value)
        invariant Decoded(subbuffer[subpointer..subend], name, value, remoteusername)
               == Decoded(old(subbuffer[subpointer..subend]), [], Missing, old(remoteusername))
        decreases subend - subpointer
      {
        cp, varp, valp, name, value := DecodeOne(cp, varp, valp, name, value);
      }
      DecodedNothing(name, value, remoteusername);
      assert subbuffer[subpointer..subend] == [];
      Finish(cp, varp, valp, name, value);
    }

    /** Skips what comes before the first variable; says whether there is one with something behind it. */
    method SkipToVar() returns (found: bool)
      requires Shaped() && subpointer <= subend < SUBBUFFER
      modifies this`subpointer
      ensures Shaped() && old(subpointer) <= subpointer <= subend
      ensures var rest := AfterVar(subbuffer[old(subpointer)..subend]);
        found == (rest != []) && (found ==> subbuffer[subpointer..subend] == rest)
    {
      var seen := false;
      while !seen && subpointer < subend
        invariant Shaped() && old(subpointer) <= subpointer <= subend < SUBBUFFER
        invariant AfterVar(subbuffer[old(subpointer)..subend])
               == if seen then subbuffer[subpointer..subend] else AfterVar(subbuffer[subpointer..subend])
        decreases subend - subpointer, !seen
      {
        ghost var rest := subbuffer[subpointer..subend];
        assert rest[0] == subbuffer[subpointer] && rest[1..] == subbuffer[subpointer + 1..subend];
        seen := subbuffer[subpointer] == ENV_VAR;
        subpointer := subpointer + 1;
      }
      return subpointer < subend;
    }

    /** suboption(): an empty payload leaves the end mark where the option is looked for. */
    method SubOption()
      requires Shaped() && subpointer == 0 && subend <= PAYLOAD && (subend == 0 ==> subbuffer[0] == TelnetLine.IAC)
      modifies this`subpointer, this`remoteusername, this`rows, subbuffer
      ensures Shaped()
      ensures remoteusername == UserAfter(old(subbuffer[..subend]), old(remoteusername))
      ensures rows == RowsAfter(old(subbuffer[..subend]), old(rows))
    {
      hide Decoded;
      ghost var payload := subbuffer[..subend];
      var option := subbuffer[subpointer];
      assert subend > 0 ==> option == payload[0];
      subpointer := subpointer + 1;
      if option == TelnetLine.NAWS {
        if subend - subpointer >= 4 {
          rows := Signed8(subbuffer[subpointer + 3]);
        }
      } else if option == TelnetLine.ENVIRON {
        if subpointer >= subend {
          return;
        }
        var c := subbuffer[subpointer];
        subpointer := subpointer + 1;
        if c != IS && c != INFO {
          return;
        }
        assert subbuffer[subpointer..subend] == payload[2..];
        var found := SkipToVar();
        if found {
          DecodeVariables();
        }
      }
    }

    /** The end mark of a payload, which is taken back again before the payload is read. */
    method EndPayload(c: int)
      requires Shaped() && state == SubIac
      modifies this`subpointer, this`subend, this`remoteusername, this`rows, subbuffer
      ensures Shaped()
      ensures var p := Cut(old(LineNow()).sub);
        remoteusername == UserAfter(p, old(remoteusername)) && rows == RowsAfter(p, old(rows))
    {
      ghost var sub := subbuffer[..subpointer];
      SbAccum(TelnetLine.IAC);
      SbAccum(c);
      subpointer := subpointer - 2;
      subend := subpointer;
      assert subbuffer[..subend] == Cut(sub);
      subpointer := 0;
      SubOption();
    }

    method SbAccum(c: int)
      requires Shaped()
      modifies this`subpointer, subbuffer
      ensures Shaped() && subpointer == (if old(subpointer) < SUBBUFFER then old(subpointer) + 1 else SUBBUFFER)
      ensures subbuffer[..subpointer] == Accum(old(subbuffer[..subpointer]), c)
    {
      if subpointer < SUBBUFFER {
        subbuffer[subpointer] := c;
        subpointer := subpointer + 1;
        assert subbuffer[..subpointer] == Accum(old(subbuffer[..subpointer]), c);
      }
    }

    /** An option command is complete. */
    method Negotiate(option: int)
      requires Valid() && 0 <= option && opts.nfrontp <= 9 && Verbal(state)
      modifies this`state, opts`nfrontp, opts`sgaloop, opts`echoloop
      modifies opts.netobuf, opts.options, opts.doDontResp, opts.willWontResp
      ensures Valid() && opts.nfrontp <= 15 && state == Data
      ensures var r := O.Heard(old(opts.Now()), O.Command(VerbOf(old(state)), option));
        opts.Now() == r.t && opts.Pending() == old(opts.Pending()) + Wire(r.out)
      ensures unchanged(subbuffer)
    {
      hide Wire, O.Steady, O.WillOption, O.WontOption, O.DoOption, O.DontOption;
      O.HeardSettles(opts.Now(), O.Command(VerbOf(state), option));
      if state == Will {
        opts.WillOption(option);
      } else if state == Wont {
        opts.WontOption(option);
      } else if state == Do {
        opts.DoOption(option);
      } else {
        opts.DontOption(option);
      }
      state := Data;
    }

    /** A byte after IAC.  `lost` stands for a failing reply and for commands that end the connection. */
    method Interpret(c: int, lost: bool) returns (gone: bool)
      requires Valid() && opts.nfrontp <= 9
      modifies this`state, this`subpointer, this`client, opts`nfrontp, opts.netobuf
      ensures Valid() && opts.nfrontp <= 15 && opts.Now() == old(opts.Now())
      ensures gone == (c == CLIENT || (c == AYT && lost))
      ensures !gone ==> state == AfterIac(old(LineNow()), c).state && client == AfterIac(old(LineNow()), c).client
      ensures !gone && state == Sub ==> subpointer == 0
      ensures opts.Pending() == old(opts.Pending()) + if c == AO && !gone then [TelnetLine.IAC, DM] else []
      ensures unchanged(subbuffer)
    {
      gone := (c == CLIENT) || (c == AYT && lost);
      assert opts.Pending() + [] == opts.Pending();
      if gone {
        return;
      }
      if c == AO {
        opts.EmitPair(TelnetLine.IAC, DM);
      }
      state := Data;
      if c == SB {
        state := Sub;
        subpointer := 0;
      } else if c == 251 {
        state := Will;
      } else if c == 252 {
        state := Wont;
      } else if c == 253 {
        state := Do;
      } else if c == 254 {
        state := Dont;
      } else if c == CLIENT2 {
        client := true;
      }
    }

    /** A byte of data, or the second half of a line end. */
    method TakeData(c: int, lost: bool) returns (gone: bool)
      requires Shaped() && (state == Data || state == Cr)
      modifies this`state
      ensures Shaped() && !Verbal(state) && gone == Hangs(old(LineNow()), c, lost)
      ensures !gone ==> Step(old(LineNow()), c) == Outcome(LineNow(), [])
    {
      gone := false;
      if state == Cr && c != TelnetLine.IAC && (c % 128 == 0 || c % 128 == 10) {
        state := Data;
      } else if c == TelnetLine.IAC {
        state := Iac;
      } else {
        state := if c % 128 == 13 && !client then Cr else Data;
        gone := c % 128 == 3 || c % 128 == 4 || c % 128 == 26 || lost;
      }
    }

    /** A byte of a sub-option. */
    method TakeSub(c: int)
      requires Shaped() && (state == Sub || (state == SubIac && c == TelnetLine.IAC))
      modifies this`state, this`subpointer, subbuffer
      ensures Shaped() && !Verbal(state)
      ensures Step(old(LineNow()), c) == Outcome(LineNow(), [])
    {
      if state == Sub && c == TelnetLine.IAC {
        state := SubIac;
      } else {
        SbAccum(c);
        state := Sub;
      }
    }

    /** A sub-option ends, with its mark or with any other command. */
    method TakeEnd(c: int, lost: bool) returns (gone: bool)
      requires Valid() && opts.nfrontp <= 9 && state == SubIac && c != TelnetLine.IAC
      modifies this`state, this`subpointer, this`subend, this`client, this`rows, this`remoteusername, subbuffer
      modifies opts`nfrontp, opts.netobuf
      ensures Valid() && opts.nfrontp <= 15 && opts.Now() == old(opts.Now())
      ensures gone == Hangs(old(LineNow()), c, lost)
      ensures opts.Pending() == old(opts.Pending()) + if c == AO then [TelnetLine.IAC, DM] else []
      ensures !gone ==> LineNow() == Step(old(LineNow()), c).line
      ensures !gone ==> var p := Step(old(LineNow()), c).payloads;
        |p| == 1 && remoteusername == UserAfter(p[0], old(remoteusername)) && rows == RowsAfter(p[0], old(rows))
    {
      hide UserAfter, RowsAfter;
      gone := false;
      EndPayload(c);
      if c == SE {
        state := Data;
      } else {
        state := Iac;
        gone := Interpret(c, lost);
      }
    }

    /** One byte of input.  `lost` is whether whoever gets the byte, or the reply to it, ends the connection. */
    method TelByte(c: int, lost: bool) returns (gone: bool)
      requires Valid() && 0 <= c < 256 && opts.nfrontp <= 9
      modifies this`state, this`subpointer, this`subend, this`client, this`rows, this`remoteusername, subbuffer
      modifies opts`nfrontp, opts`sgaloop, opts`echoloop
      modifies opts.netobuf, opts.options, opts.doDontResp, opts.willWontResp
      ensures Valid() && opts.nfrontp <= 15
      ensures !gone ==> LineNow() == Step(old(LineNow()), c).line
      ensures !gone ==> var p := Step(old(LineNow()), c).payloads;
        remoteusername == UsersAfter(p, old(remoteusername)) && rows == AllRowsAfter(p, old(rows))
      ensures gone == Hangs(old(LineNow()), c, lost)
      ensures var r := Reply(old(LineNow()), old(opts.Now()), c);
        opts.Now() == r.t && opts.Pending() == old(opts.Pending()) + r.said
    {
      hide UserAfter, RowsAfter, O.Heard, Wire;
      OnePayload(Step(LineNow(), c).payloads, remoteusername, rows);
      gone := false;
      if state == Data || state == Cr {
        gone := TakeData(c, lost);
      } else if state == Iac {
        gone := Interpret(c, lost);
      } else if state == Sub || (state == SubIac && c == TelnetLine.IAC) {
        TakeSub(c);
      } else if state == SubIac {
        gone := TakeEnd(c, lost);
      } else {
        Negotiate(c);
      }
    }

    /** qtelrcv(): pending output never passes 15 of the 16 bytes, and what was sent meanwhile and what
        is pending are the answers to the input, one after the other. */
    method QTelrcv(input: seq<int>) returns (gone: bool, out: seq<int>)
      requires Valid() && opts.nfrontp <= 15 && forall i :: 0 <= i < |input| ==> 0 <= input[i] < 256
      modifies this`state, this`subpointer, this`subend, this`client, this`rows, this`remoteusername, subbuffer
      modifies opts`nfrontp, opts`nbackp, opts`sgaloop, opts`echoloop
      modifies opts.netobuf, opts.options, opts.doDontResp, opts.willWontResp
      ensures Valid() && opts.nfrontp <= 15
      ensures !gone ==> var o := Feed(old(LineNow()), input);
        && LineNow() == o.line && remoteusername == UsersAfter(o.payloads, old(remoteusername))
        && rows == AllRowsAfter(o.payloads, old(rows))
      ensures !gone ==> var r := Replies(old(LineNow()), old(opts.Now()), input);
        opts.Now() == r.t && out + opts.Pending() == old(opts.Pending()) + r.said
      ensures !gone ==> NoneHangs(old(LineNow()), input)
    {
      hide Step, Feed, UsersAfter, AllRowsAfter, Reply, Replies, Hangs;
      out := [];
      ghost var line := LineNow();
      ghost var t, pending := opts.Now(), opts.Pending();
      FedNothing(line, remoteusername, rows);
      RepliesNothing(line, t);
      assert out + opts.Pending() == pending + [];
      for i := 0 to |input|
        invariant Valid() && opts.nfrontp <= 15
        invariant LineNow() == Feed(line, input[..i]).line
        invariant remoteusername == UsersAfter(Feed(line, input[..i]).payloads, old(remoteusername))
        invariant rows == AllRowsAfter(Feed(line, input[..i]).payloads, old(rows))
        invariant opts.Now() == Replies(line, t, input[..i]).t && NoneHangs(line, input[..i])
        invariant out + opts.Pending() == pending + Replies(line, t, input[..i]).said
      {
        if opts.nfrontp - opts.nbackp > 9 {
          var failed: bool := *;
          if failed {
            return true, out;
          }
          var sent := opts.Flushed();
          out := out + sent;
        }
        ghost var waiting, l := opts.Pending(), LineNow();
        var lost: bool := *;
        var g := TelByte(input[i], lost);
        if g {
          return true, out;
        }
        FedOne(line, input, i, old(remoteusername), old(rows));
        RepliesOne(line, t, input, i);
        NoneHangsOne(line, input, i, lost);
        Strung(out, waiting, Reply(l, Replies(line, t, input[..i]).t, input[i]).said, pending,
               Replies(line, t, input[..i]).said);
      }
      assert input[..|input|] == input;
      gone := false;
    }
  }

  lemma DecodedNothing(name: seq<int>, value: Value, user: seq<int>)
    ensures Decoded([], name, value, user) == Finished(name, value, user)
  {
  }

  function UsersAfter(payloads: seq<seq<int>>, user: seq<int>): seq<int>
  {
    if payloads == [] then user else UserAfter(payloads[|payloads| - 1], UsersAfter(payloads[..|payloads| - 1], user))
  }

  function AllRowsAfter(payloads: seq<seq<int>>, rows: int): int
  {
    if payloads == [] then rows else RowsAfter(payloads[|payloads| - 1], AllRowsAfter(payloads[..|payloads| - 1], rows))
  }

  lemma OnePayload(payloads: seq<seq<int>>, user: seq<int>, rows: int)
    requires |payloads| <= 1
    ensures UsersAfter(payloads, user) == if payloads == [] then user else UserAfter(payloads[0], user)
    ensures AllRowsAfter(payloads, rows) == if payloads == [] then rows else RowsAfter(payloads[0], rows)
  {
    hide UserAfter, RowsAfter;
    assert payloads != [] ==> payloads[..0] == [];
  }

  predicate HangsAt(l: Line, input: seq<int>, i: nat, lost: bool)
    requires i < |input|
  {
    Hangs(Feed(l, input[..i]).line, input[i], lost)
  }

  /** None of the bytes ends the connection by itself. */
  predicate NoneHangs(l: Line, input: seq<int>)
  {
    forall i :: 0 <= i < |input| ==> !HangsAt(l, input, i, false)
  }

  lemma NoneHangsOne(l: Line, input: seq<int>, i: nat, lost: bool)
    requires i < |input| && NoneHangs(l, input[..i]) && !HangsAt(l, input, i, lost)
    ensures NoneHangs(l, input[..i + 1])
  {
    var before, after := input[..i], input[..i + 1];
    forall k | 0 <= k < i + 1 ensures !HangsAt(l, after, k, false) {
      assert after[..k] == input[..k];
      if k < i {
        assert !HangsAt(l, before, k, false);
        assert before[..k] == input[..k];
      }
    }
  }

  lemma Strung(out: seq<int>, waiting: seq<int>, last: seq<int>, pending: seq<int>, before: seq<int>)
    requires out + waiting == pending + before
    ensures out + (waiting + last) == pending + (before + last)
  {
    assert out + (waiting + last) == (out + waiting) + last;
    assert pending + (before + last) == (pending + before) + last;
  }

  lemma RepliesNothing(l: Line, t: O.Table)
    requires O.Sized(t)
    ensures Replies(l, t, []) == Talk(t, [])
  {
  }

  lemma RepliesOne(l: Line, t: O.Table, input: seq<int>, i: nat)
    requires O.Sized(t) && (forall k :: 0 <= k < |input| ==> 0 <= input[k] < 256) && i < |input|
    ensures var before := Replies(l, t, input[..i]);
      var last := Reply(Feed(l, input[..i]).line, before.t, input[i]);
      Replies(l, t, input[..i + 1]) == Talk(last.t, before.said + last.said)
  {
    assert input[..i + 1][..i] == input[..i];
  }

  lemma FedNothing(l: Line, user: seq<int>, rows: int)
    ensures Feed(l, []) == Outcome(l, []) && UsersAfter([], user) == user && AllRowsAfter([], rows) == rows
  {
  }

  lemma FedOne(l: Line, input: seq<int>, i: nat, user: seq<int>, rows: int)
    requires i < |input|
    ensures var f, g := Feed(l, input[..i]), Feed(l, input[..i + 1]);
      var o := Step(f.line, input[i]);
      && g.line == o.line
      && UsersAfter(g.payloads, user) == UsersAfter(o.payloads, UsersAfter(f.payloads, user))
      && AllRowsAfter(g.payloads, rows) == AllRowsAfter(o.payloads, AllRowsAfter(f.payloads, rows))
  {
    var f := Feed(l, input[..i]);
    var o := Step(f.line, input[i]);
    assert input[..i + 1] == input[..i] + [input[i]];
    Split(l, input[..i], [input[i]]);
    assert Feed(f.line, [input[i]]) == Outcome(o.line, o.payloads) by {
      assert o.payloads + [] == o.payloads;
    }
    hide UserAfter, RowsAfter;
    if o.payloads == [] {
      assert f.payloads + [] == f.payloads;
    } else {
      var p := o.payloads[0];
      assert o.payloads == [p] && (f.payloads + [p])[..|f.payloads|] == f.payloads && [p][..0] == [];
    }
  }
}
