/** The eXpress messages of xmsg.c: a byte log written in a circle, in which every message is a node of
    two users' doubly linked lists at once. */
module XMessages {
  import L = CircularLog

  const RESERVE: int := 512
  const FIRST: int := 4
  const HEADER: int := 40

  datatype Kind = Normal | Question | Broadcast

  /** What the sender put into a message. */
  datatype Message = Message(snum: int, rnum: int, kind: Kind, time: int, text: seq<string>)

  /** `struct xheader` and the text that follows it. */
  datatype XHeader = XHeader(m: Message, sprev: int, snext: int, rprev: int, rnext: int)

  /** A user's first, last and first unseen message. */
  datatype Places = Places(xminpos: int, xmaxpos: int, xseenpos: int)

  /** A message and where it went. */
  datatype Sent = Sent(pos: int, m: Message)

  function TextBytes(text: seq<string>): (n: int)
    ensures n >= 0
  {
    if text == [] then 0 else TextBytes(text[..|text| - 1]) + |text[|text| - 1]| + 1
  }

  /** The bytes of a message: header, lines with their terminators, and one terminator more. */
  function Extent(m: Message): (n: int)
    ensures n > HEADER
  {
    HEADER + TextBytes(m.text) + 1
  }

  function Stop(s: Sent): int { s.pos + Extent(s.m) }

  predicate Involves(m: Message, u: int)
  {
    !m.kind.Broadcast? && (m.snum == u || m.rnum == u)
  }

  /** displayx() and xyell() follow the sender's links unless the reader is the receiver alone. */
  function Next(h: XHeader, u: int): int
  {
    if h.m.snum == u then h.snext else h.rnext
  }

  function Prev(h: XHeader, u: int): int
  {
    if h.m.snum == u then h.sprev else h.rprev
  }

  // ---------------------------------------------------------------- a user's messages, in the order sent

  ghost predicate Within(c: seq<nat>, sent: seq<Sent>)
  {
    forall i :: 0 <= i < |c| ==> c[i] < |sent|
  }

  /** The messages to or from u since number `since`, in the order they were sent. */
  ghost function Mine(sent: seq<Sent>, since: nat, u: int): (c: seq<nat>)
    ensures forall i :: 0 <= i < |c| ==> since <= c[i] < |sent| && Involves(sent[c[i]].m, u)
    ensures forall i, j :: 0 <= i < j < |c| ==> c[i] < c[j]
    ensures forall k :: since <= k < |sent| && Involves(sent[k].m, u) ==> k in c
  {
    if |sent| <= since then [] else
    var n := |sent| - 1;
    var c := Mine(sent[..n], since, u);
    if Involves(sent[n].m, u) then c + [n] else c
  }

  lemma MineGrows(sent: seq<Sent>, s: Sent, since: nat, u: int)
    requires since <= |sent|
    ensures Mine(sent + [s], since, u) == Mine(sent, since, u) + (if Involves(s.m, u) then [|sent|] else [])
  {
  }

  /** The place of the i-th of them, 0 beyond either end. */
  ghost function At(sent: seq<Sent>, c: seq<nat>, i: int): int
    requires Within(c, sent)
  {
    if 0 <= i < |c| then sent[c[i]].pos else 0
  }

  /** Those of them that were sent to u. */
  ghost function Received(sent: seq<Sent>, c: seq<nat>, u: int): (r: seq<nat>)
    requires Within(c, sent)
    ensures Within(r, sent)
  {
    if c == [] then [] else
    var l := c[|c| - 1];
    Received(sent, c[..|c| - 1], u) + (if sent[l].m.rnum == u then [l] else [])
  }

  // ---------------------------------------------------------------- the log

  function Spans(sent: seq<Sent>): (q: seq<L.Span>)
    ensures |q| == |sent| && forall k :: 0 <= k < |sent| ==> q[k] == L.Span(sent[k].pos, Stop(sent[k]))
  {
    seq(|sent|, k requires 0 <= k < |sent| => L.Span(sent[k].pos, Stop(sent[k])))
  }

  lemma SpansGrow(sent: seq<Sent>, s: Sent)
    ensures Spans(sent + [s]) == Spans(sent) + [L.Span(s.pos, Stop(s))]
  {
  }

  /** The log, in which messages from number `base` on have not been overwritten. */
  ghost predicate Laid(sent: seq<Sent>, base: nat, lap: nat, cur: int)
  {
    L.Laid(Spans(sent), base, lap, FIRST, cur)
  }

  lemma Apart(sent: seq<Sent>, base: nat, lap: nat, cur: int, j: nat, k: nat)
    requires Laid(sent, base, lap, cur) && base <= j < |sent| && base <= k < |sent| && j != k
    ensures Stop(sent[j]) <= sent[k].pos || Stop(sent[k]) <= sent[j].pos
  {
  }

  /** A message appended at the cursor. */
  lemma LaidAppend(sent: seq<Sent>, base: nat, lap: nat, cur: int, s: Sent)
    requires Laid(sent, base, lap, cur) && s.pos == cur >= FIRST
    ensures base <= lap <= |sent| && base <= NewBase(sent, base, lap, s) <= lap
    ensures Laid(sent + [s], NewBase(sent, base, lap, s), lap, L.Aligned(Stop(s)))
  {
    SpansGrow(sent, s);
    L.Appended(Spans(sent), base, lap, FIRST, cur, L.Span(s.pos, Stop(s)));
  }

  /** The first message that the new one leaves alone. */
  ghost function NewBase(sent: seq<Sent>, base: nat, lap: nat, s: Sent): nat
    requires base <= lap <= |sent|
  {
    L.Spared(Spans(sent), base, lap, Stop(s))
  }

  /** The headers a write leaves alone. */
  function Survivors(x: map<int, XHeader>, start: int, stop: int): map<int, XHeader>
  {
    map p | p in x && (p + Extent(x[p].m) <= start || stop <= p) :: x[p]
  }

  /** Every message still in the log can be read at its place. */
  ghost predicate Stored(x: map<int, XHeader>, sent: seq<Sent>, base: nat)
  {
    forall k :: base <= k < |sent| ==> sent[k].pos in x && x[sent[k].pos].m == sent[k].m
  }

  // ---------------------------------------------------------------- a user's two-way list

  ghost predicate LinkedAt(x: map<int, XHeader>, sent: seq<Sent>, c: seq<nat>, i: int, u: int)
    requires Within(c, sent) && 0 <= i < |c| && sent[c[i]].pos in x
  {
    var h := x[sent[c[i]].pos];
    Prev(h, u) == At(sent, c, i - 1) && Next(h, u) == At(sent, c, i + 1)
  }

  /** Every message of u still in the log links to its neighbours among u's messages, even to one that
      is no longer there. */
  ghost predicate Linked(x: map<int, XHeader>, sent: seq<Sent>, base: nat, c: seq<nat>, u: int)
    requires Stored(x, sent, base) && Within(c, sent)
  {
    forall i :: 0 <= i < |c| && base <= c[i] ==> LinkedAt(x, sent, c, i, u)
  }

  /** What was shown to u: `since` says where u's list starts, of which the messages from the `from`-th
      up to the `mark`-th have been passed. */
  datatype Reading = Reading(since: nat, from: nat, mark: nat, shown: seq<nat>)

  ghost predicate PlacesFit(sent: seq<Sent>, c: seq<nat>, p: Places, mark: nat)
    requires Within(c, sent)
  {
    p.xminpos == At(sent, c, 0) && p.xmaxpos == At(sent, c, |c| - 1) && p.xseenpos == At(sent, c, mark)
  }

  ghost predicate SeenFits(sent: seq<Sent>, c: seq<nat>, u: int, g: Reading)
    requires Within(c, sent)
  {
    g.from <= g.mark <= |c| && g.shown == Received(sent, c[g.from..g.mark], u)
  }

  ghost predicate UserFits(x: map<int, XHeader>, sent: seq<Sent>, base: nat, u: int, p: Places, g: Reading)
    requires Stored(x, sent, base)
  {
    var c := Mine(sent, g.since, u);
    g.since <= |sent| && PlacesFit(sent, c, p, g.mark) && SeenFits(sent, c, u, g) && Linked(x, sent, base, c, u)
  }

  /** The newest message of u, if any, is still in the log. */
  ghost predicate NewestKept(sent: seq<Sent>, base: nat, u: int, g: Reading)
  {
    var c := Mine(sent, g.since, u);
    c != [] ==> base <= c[|c| - 1]
  }

  // ---------------------------------------------------------------- one message more

  /** sendx() sets the next link of what was the user's newest message. */
  function Relink(x: map<int, XHeader>, at: int, u: int, cur: int): map<int, XHeader>
    requires at == 0 || at in x
  {
    if at == 0 then x else
    var h := x[at];
    x[at := h.(snext := if h.m.snum == u then cur else h.snext, rnext := if h.m.rnum == u then cur else h.rnext)]
  }

  /** For v, message l links forward to cur now, and nothing else has changed. */
  ghost predicate Rewired(x: map<int, XHeader>, y: map<int, XHeader>, sent: seq<Sent>, base: nat, v: int, l: int,
                          cur: int)
    requires Stored(x, sent, base) && Stored(y, sent, base)
  {
    forall k :: base <= k < |sent| && Involves(sent[k].m, v) ==>
      RewiredAt(x[sent[k].pos], y[sent[k].pos], v, k == l, cur)
  }

  ghost predicate RewiredAt(a: XHeader, b: XHeader, v: int, newest: bool, cur: int)
  {
    Prev(b, v) == Prev(a, v) && Next(b, v) == if newest then cur else Next(a, v)
  }

  lemma StoredAppend(x: map<int, XHeader>, sent: seq<Sent>, base: nat, lap: nat, cur: int, s: Sent, h: XHeader)
    requires Laid(sent, base, lap, cur) && s.pos == cur >= FIRST && Stored(x, sent, base) && h.m == s.m
    ensures var y := Survivors(x, cur, Stop(s))[cur := h];
      var b := NewBase(sent, base, lap, s);
      && Stored(y, sent + [s], b)
      && forall k :: b <= k < |sent| ==> sent[k].pos in x && sent[k].pos in y && y[sent[k].pos] == x[sent[k].pos]
  {
    LaidAppend(sent, base, lap, cur, s);
    var b := NewBase(sent, base, lap, s);
    var g := sent + [s];
    forall k | b <= k < |sent| ensures sent[k].pos in Survivors(x, cur, Stop(s)) && sent[k].pos != cur {
      Apart(g, b, lap, L.Aligned(Stop(s)), k, |sent|);
      assert g[k] == sent[k] && g[|sent|] == s;
    }
  }

  lemma RelinkRewires(x: map<int, XHeader>, sent: seq<Sent>, base: nat, lap: nat, end: int, l: int, u: int, cur: int)
    requires Laid(sent, base, lap, end) && Stored(x, sent, base) && (l == -1 || base <= l < |sent|)
    requires l >= 0 ==> Involves(sent[l].m, u)
    ensures var at := if l == -1 then 0 else sent[l].pos;
      && (at == 0 || at in x) && Stored(Relink(x, at, u, cur), sent, base)
      && Rewired(x, Relink(x, at, u, cur), sent, base, u, l, cur)
      && forall v :: v != u ==> Rewired(x, Relink(x, at, u, cur), sent, base, v, -1, cur)
  {
  }

  /** The number of u's newest message, -1 if there is none. */
  ghost function Newest(sent: seq<Sent>, since: nat, u: int): (l: int)
    ensures l == -1 || (since <= l < |sent| && Involves(sent[l].m, u))
  {
    var c := Mine(sent, since, u);
    if c == [] then -1 else c[|c| - 1]
  }

  /** What sendx() leaves of a user's places. */
  function PlacesAfter(p: Places, u: int, s: Sent): Places
  {
    if !Involves(s.m, u) then p else
    Places(if p.xminpos == 0 then s.pos else p.xminpos, s.pos,
           if s.m.rnum == u && p.xseenpos == 0 then s.pos else p.xseenpos)
  }

  /** A message of one's own needs no showing once everything before it has been seen. */
  function ReadingAfter(p: Places, g: Reading, u: int, s: Sent): Reading
  {
    if Involves(s.m, u) && s.m.rnum != u && p.xseenpos == 0 then g.(mark := g.mark + 1) else g
  }

  lemma ReceivedGrows(sent: seq<Sent>, s: Sent, c: seq<nat>, u: int)
    requires Within(c, sent)
    ensures Received(sent + [s], c, u) == Received(sent, c, u)
  {
  }

  lemma ReceivedOne(sent: seq<Sent>, c: seq<nat>, k: nat, u: int)
    requires Within(c, sent) && k < |sent|
    ensures Received(sent, c + [k], u) == Received(sent, c, u) + (if sent[k].m.rnum == u then [k] else [])
  {
  }

  lemma AtGrows(sent: seq<Sent>, s: Sent, c: seq<nat>, i: int)
    requires Within(c, sent)
    ensures Within(c, sent + [s]) && Within(c + [|sent|], sent + [s])
    ensures At(sent + [s], c, i) == At(sent, c, i)
    ensures At(sent + [s], c + [|sent|], i) == if i == |c| then s.pos else At(sent, c, i)
  {
  }

  lemma LinkedBystander(x: map<int, XHeader>, y: map<int, XHeader>, sent: seq<Sent>, s: Sent, base: nat, b: nat,
                        u: int, c: seq<nat>)
    requires Stored(x, sent, base) && base <= b && Stored(y, sent + [s], b) && Stored(y, sent, b) && Stored(x, sent, b)
    requires Within(c, sent) && forall i :: 0 <= i < |c| ==> Involves(sent[c[i]].m, u)
    requires Linked(x, sent, base, c, u) && Rewired(x, y, sent, b, u, -1, s.pos)
    ensures Within(c, sent + [s]) && Linked(y, sent + [s], b, c, u)
  {
    hide At, Prev, Next;
    forall i | 0 <= i < |c| && b <= c[i] ensures LinkedAt(y, sent + [s], c, i, u) {
      assert LinkedAt(x, sent, c, i, u);
      AtGrows(sent, s, c, i - 1);
      AtGrows(sent, s, c, i + 1);
    }
  }

  lemma SeenBystander(sent: seq<Sent>, s: Sent, c: seq<nat>, u: int, p: Places, g: Reading)
    requires Within(c, sent) && PlacesFit(sent, c, p, g.mark) && SeenFits(sent, c, u, g)
    ensures Within(c, sent + [s]) && PlacesFit(sent + [s], c, p, g.mark) && SeenFits(sent + [s], c, u, g)
  {
    ReceivedGrows(sent, s, c[g.from..g.mark], u);
    AtGrows(sent, s, c, 0);
    AtGrows(sent, s, c, |c| - 1);
    AtGrows(sent, s, c, g.mark);
  }

  /** The lists of a user who has no part in the new message. */
  lemma FitsBystander(x: map<int, XHeader>, y: map<int, XHeader>, sent: seq<Sent>, s: Sent, base: nat, b: nat,
                      u: int, p: Places, g: Reading)
    requires Stored(x, sent, base) && UserFits(x, sent, base, u, p, g) && base <= b && Stored(y, sent + [s], b)
    requires !Involves(s.m, u) && Stored(y, sent, b) && Stored(x, sent, b) && Rewired(x, y, sent, b, u, -1, s.pos)
    ensures UserFits(y, sent + [s], b, u, p, g)
  {
    var c := Mine(sent, g.since, u);
    MineGrows(sent, s, g.since, u);
    LinkedBystander(x, y, sent, s, base, b, u, c);
    SeenBystander(sent, s, c, u, p, g);
    hide Linked, Rewired, Prev, Next, SeenFits, PlacesFit, Stored;
  }

  lemma LinkedPartyAt(x: map<int, XHeader>, y: map<int, XHeader>, sent: seq<Sent>, s: Sent, base: nat, b: nat,
                      u: int, c: seq<nat>, since: nat, i: nat)
    requires Stored(x, sent, base) && Stored(x, sent, b) && Stored(y, sent, b) && base <= b <= |sent|
    requires c == Mine(sent, since, u) && Linked(x, sent, base, c, u) && i < |c| && b <= c[i]
    requires Rewired(x, y, sent, b, u, Newest(sent, since, u), s.pos)
    ensures Prev(y[sent[c[i]].pos], u) == At(sent, c, i - 1)
    ensures Next(y[sent[c[i]].pos], u) == if i == |c| - 1 then s.pos else At(sent, c, i + 1)
  {
    hide Mine, Prev, Next, At;
    assert LinkedAt(x, sent, c, i, u);
    assert i < |c| - 1 ==> c[i] < c[|c| - 1];
    assert RewiredAt(x[sent[c[i]].pos], y[sent[c[i]].pos], u, c[i] == c[|c| - 1], s.pos);
  }

  /** The lists of its sender and of its receiver. */
  lemma LinkedParty(x: map<int, XHeader>, y: map<int, XHeader>, sent: seq<Sent>, s: Sent, base: nat, b: nat,
                    u: int, c: seq<nat>, since: nat)
    requires Stored(x, sent, base) && Stored(x, sent, b) && Stored(y, sent, b) && base <= b <= |sent|
    requires Stored(y, sent + [s], b) && s.pos in y
    requires c == Mine(sent, since, u) && Linked(x, sent, base, c, u)
    requires Rewired(x, y, sent, b, u, Newest(sent, since, u), s.pos)
    requires Prev(y[s.pos], u) == At(sent, c, |c| - 1) && Next(y[s.pos], u) == 0
    ensures Within(c + [|sent|], sent + [s]) && Linked(y, sent + [s], b, c + [|sent|], u)
  {
    var sent', c' := sent + [s], c + [|sent|];
    hide Mine, Prev, Next, Rewired, Newest, LinkedAt, At;
    assert Within(c', sent') && Within(c, sent);
    forall i | 0 <= i < |c'| && b <= c'[i] ensures LinkedAt(y, sent', c', i, u) {
      if i < |c| {
        LinkedPartyAt(x, y, sent, s, base, b, u, c, since, i);
      }
      StillLinked(y, sent, s, c, i, u);
    }
  }

  lemma StillLinked(y: map<int, XHeader>, sent: seq<Sent>, s: Sent, c: seq<nat>, i: nat, u: int)
    requires Within(c, sent) && i <= |c| && s.pos in y && (i < |c| ==> sent[c[i]].pos in y)
    requires var h := y[if i < |c| then sent[c[i]].pos else s.pos];
      && Prev(h, u) == At(sent, c, i - 1)
      && Next(h, u) == if i == |c| - 1 then s.pos else if i < |c| then At(sent, c, i + 1) else 0
    ensures Within(c + [|sent|], sent + [s]) && (sent + [s])[(c + [|sent|])[i]].pos in y
    ensures LinkedAt(y, sent + [s], c + [|sent|], i, u)
  {
    hide Prev, Next;
    AtGrows(sent, s, c, i - 1);
    AtGrows(sent, s, c, i + 1);
  }

  lemma PlacesParty(sent: seq<Sent>, s: Sent, u: int, c: seq<nat>, p: Places, g: Reading)
    requires Within(c, sent) && Involves(s.m, u) && s.pos >= FIRST && g.mark <= |c| && PlacesFit(sent, c, p, g.mark)
    requires forall k :: 0 <= k < |sent| ==> sent[k].pos >= FIRST
    ensures Within(c + [|sent|], sent + [s])
    ensures PlacesFit(sent + [s], c + [|sent|], PlacesAfter(p, u, s), ReadingAfter(p, g, u, s).mark)
  {
  }

  lemma SeenParty(sent: seq<Sent>, s: Sent, u: int, c: seq<nat>, p: Places, g: Reading)
    requires Within(c, sent) && Involves(s.m, u) && PlacesFit(sent, c, p, g.mark) && SeenFits(sent, c, u, g)
    requires forall k :: 0 <= k < |sent| ==> sent[k].pos >= FIRST
    ensures Within(c + [|sent|], sent + [s]) && SeenFits(sent + [s], c + [|sent|], u, ReadingAfter(p, g, u, s))
  {
    var sent', c', g' := sent + [s], c + [|sent|], ReadingAfter(p, g, u, s);
    ReceivedGrows(sent, s, c[g.from..g.mark], u);
    if g' != g {
      assert c'[g.from..g'.mark] == c[g.from..g.mark] + [|sent|];
      ReceivedOne(sent', c[g.from..g.mark], |sent|, u);
    } else {
      assert c'[g.from..g.mark] == c[g.from..g.mark];
    }
  }

  lemma FitsParty(x: map<int, XHeader>, y: map<int, XHeader>, sent: seq<Sent>, s: Sent, base: nat, b: nat,
                  u: int, p: Places, g: Reading)
    requires Stored(x, sent, base) && UserFits(x, sent, base, u, p, g) && base <= b <= |sent|
    requires Stored(y, sent + [s], b)
    requires Involves(s.m, u) && Stored(y, sent, b) && Stored(x, sent, b) && s.pos >= FIRST && s.pos in y
    requires forall k :: 0 <= k < |sent| ==> sent[k].pos >= FIRST
    requires Rewired(x, y, sent, b, u, Newest(sent, g.since, u), s.pos)
    requires Prev(y[s.pos], u) == p.xmaxpos && Next(y[s.pos], u) == 0
    ensures UserFits(y, sent + [s], b, u, PlacesAfter(p, u, s), ReadingAfter(p, g, u, s))
  {
    var c := Mine(sent, g.since, u);
    MineGrows(sent, s, g.since, u);
    LinkedParty(x, y, sent, s, base, b, u, c, g.since);
    SeenParty(sent, s, u, c, p, g);
    PlacesParty(sent, s, u, c, p, g);
    hide Linked, Rewired, Prev, Next, SeenFits, PlacesFit, Stored, Newest;
  }

  /** Writing the message and setting the two links, as sendx() does between locks() and unlocks(). */
  function Delivered(x: map<int, XHeader>, s: Sent, omax: int, rmax: int): map<int, XHeader>
    requires omax == 0 || omax in Survivors(x, s.pos, Stop(s)) || omax == s.pos
    requires rmax == 0 || rmax in Survivors(x, s.pos, Stop(s)) || rmax == s.pos
  {
    var y := Survivors(x, s.pos, Stop(s))[s.pos := XHeader(s.m, omax, 0, rmax, 0)];
    Relink(Relink(y, omax, s.m.snum, s.pos), rmax, s.m.rnum, s.pos)
  }

  /** Whatever the two relinkings do together, each user sees one new link at most. */
  lemma DeliveryRewires(x: map<int, XHeader>, y: map<int, XHeader>, z: map<int, XHeader>, sent: seq<Sent>, base: nat,
                        v: int, k: int, l: int, cur: int)
    requires Stored(x, sent, base) && Stored(y, sent, base) && Stored(z, sent, base)
    requires Rewired(x, y, sent, base, v, k, cur) && Rewired(y, z, sent, base, v, l, cur)
    requires k == -1 || l == -1 || k == l
    ensures Rewired(x, z, sent, base, v, if k == -1 then l else k, cur)
  {
  }

  ghost function PosOf(sent: seq<Sent>, l: int): int
    requires -1 <= l < |sent|
  {
    if l == -1 then 0 else sent[l].pos
  }

  ghost predicate NewestOf(sent: seq<Sent>, b: nat, u: int, l: int)
  {
    l == -1 || (b <= l < |sent| && Involves(sent[l].m, u))
  }

  lemma TwoRelinks(y: map<int, XHeader>, g: seq<Sent>, b: nat, lap: nat, end: int, o: int, lo: int, r: int, lr: int,
                   v: int, cur: int)
    requires Laid(g, b, lap, end) && Stored(y, g, b) && NewestOf(g, b, o, lo) && NewestOf(g, b, r, lr)
    requires (o == r ==> lo == lr)
    ensures (PosOf(g, lo) == 0 || PosOf(g, lo) in y) && (PosOf(g, lr) == 0 || PosOf(g, lr) in y)
    ensures var z := Relink(Relink(y, PosOf(g, lo), o, cur), PosOf(g, lr), r, cur);
      && Stored(z, g, b) && Rewired(y, z, g, b, v, if v == o then lo else if v == r then lr else -1, cur)
  {
    RelinkRewires(y, g, b, lap, end, lo, o, cur);
    var y1 := Relink(y, PosOf(g, lo), o, cur);
    RelinkRewires(y1, g, b, lap, end, lr, r, cur);
    var z := Relink(y1, PosOf(g, lr), r, cur);
    hide Rewired, Stored, Laid;
    DeliveryRewires(y, y1, z, g, b, v, if v == o then lo else -1, if v == r then lr else -1, cur);
  }

  /** What the two relinkings leave the other messages as, and what the new one links to. */
  lemma LinksOf(x: map<int, XHeader>, y: map<int, XHeader>, z: map<int, XHeader>, sent: seq<Sent>, s: Sent, b: nat,
                v: int, l: int)
    requires b <= |sent| && Stored(y, sent + [s], b) && Stored(z, sent + [s], b) && l < |sent|
    requires forall k :: b <= k < |sent| ==> sent[k].pos in x && sent[k].pos in y && y[sent[k].pos] == x[sent[k].pos]
    requires Rewired(y, z, sent + [s], b, v, l, s.pos)
    ensures s.pos in y && s.pos in z && Stored(x, sent, b) && Stored(z, sent, b) && Rewired(x, z, sent, b, v, l, s.pos)
    ensures Involves(s.m, v) ==> RewiredAt(y[s.pos], z[s.pos], v, false, s.pos)
  {
    var g := sent + [s];
    assert g[|sent|] == s;
    assert forall k :: b <= k < |sent| ==> g[k] == sent[k];
    forall i | b <= i < |sent| && Involves(sent[i].m, v)
      ensures RewiredAt(x[sent[i].pos], z[sent[i].pos], v, i == l, s.pos)
    {
      assert RewiredAt(y[g[i].pos], z[g[i].pos], v, i == l, s.pos);
    }
  }

  lemma DeliveryLinks(x: map<int, XHeader>, sent: seq<Sent>, base: nat, lap: nat, s: Sent, lo: int, lr: int, v: int)
    requires Laid(sent, base, lap, s.pos) && s.pos >= FIRST && Stored(x, sent, base) && !s.m.kind.Broadcast?
    requires var b := NewBase(sent, base, lap, s);
      NewestOf(sent, b, s.m.snum, lo) && NewestOf(sent, b, s.m.rnum, lr) && (s.m.snum == s.m.rnum ==> lo == lr)
    ensures var b, omax, rmax := NewBase(sent, base, lap, s), PosOf(sent, lo), PosOf(sent, lr);
      && (omax == 0 || omax in Survivors(x, s.pos, Stop(s))) && (rmax == 0 || rmax in Survivors(x, s.pos, Stop(s)))
      && var z := Delivered(x, s, omax, rmax);
      && Stored(z, sent + [s], b) && Stored(z, sent, b) && Stored(x, sent, b) && s.pos in z
      && Rewired(x, z, sent, b, v, if v == s.m.snum then lo else if v == s.m.rnum then lr else -1, s.pos)
      && (Involves(s.m, v) ==> Prev(z[s.pos], v) == (if v == s.m.snum then omax else rmax) && Next(z[s.pos], v) == 0)
  {
    var b, omax, rmax := NewBase(sent, base, lap, s), PosOf(sent, lo), PosOf(sent, lr);
    var h := XHeader(s.m, omax, 0, rmax, 0);
    var g := sent + [s];
    var y := Survivors(x, s.pos, Stop(s))[s.pos := h];
    StoredAppend(x, sent, base, lap, s.pos, s, h);
    LaidAppend(sent, base, lap, s.pos, s);
    NotAtCursor(sent, s, b, lap, lo);
    NotAtCursor(sent, s, b, lap, lr);
    TwoRelinks(y, g, b, lap, L.Aligned(Stop(s)), s.m.snum, lo, s.m.rnum, lr, v, s.pos);
    LinksOf(x, y, Delivered(x, s, omax, rmax), sent, s, b, v,
            if v == s.m.snum then lo else if v == s.m.rnum then lr else -1);
    hide Relink, Survivors, Laid, NewBase, Rewired, Stored;
  }

  lemma NotAtCursor(sent: seq<Sent>, s: Sent, b: nat, lap: nat, l: int)
    requires Laid(sent + [s], b, lap, L.Aligned(Stop(s))) && -1 <= l < |sent| && (l >= 0 ==> b <= l) && s.pos >= FIRST
    ensures PosOf(sent, l) != s.pos && PosOf(sent, l) == PosOf(sent + [s], l)
  {
    var g := sent + [s];
    if l >= 0 {
      Apart(g, b, lap, L.Aligned(Stop(s)), l, |sent|);
      assert g[l] == sent[l] && g[|sent|] == s;
    }
  }

  /** One message is delivered: the lists of its sender and its receiver each get it as their newest,
      nobody else's list changes, and what each has seen is as before. */
  lemma DeliveryFits(x: map<int, XHeader>, sent: seq<Sent>, base: nat, lap: nat, s: Sent,
                     po: Places, go: Reading, pr: Places, gr: Reading, v: int, p: Places, g: Reading)
    requires Laid(sent, base, lap, s.pos) && s.pos >= FIRST && Stored(x, sent, base) && !s.m.kind.Broadcast?
    requires UserFits(x, sent, base, s.m.snum, po, go) && NewestKept(sent, NewBase(sent, base, lap, s), s.m.snum, go)
    requires UserFits(x, sent, base, s.m.rnum, pr, gr) && NewestKept(sent, NewBase(sent, base, lap, s), s.m.rnum, gr)
    requires UserFits(x, sent, base, v, p, g)
    requires s.m.snum == s.m.rnum ==> po == pr && go == gr
    requires v == s.m.snum ==> p == po && g == go
    requires v == s.m.rnum ==> p == pr && g == gr
    ensures po.xmaxpos == 0 || po.xmaxpos in Survivors(x, s.pos, Stop(s))
    ensures pr.xmaxpos == 0 || pr.xmaxpos in Survivors(x, s.pos, Stop(s))
    ensures var y, b := Delivered(x, s, po.xmaxpos, pr.xmaxpos), NewBase(sent, base, lap, s);
      Stored(y, sent + [s], b) && UserFits(y, sent + [s], b, v, PlacesAfter(p, v, s), ReadingAfter(p, g, v, s))
  {
    hide Mine, UserFits, Laid, Stored, NewestKept, Newest, NewestOf, Rewired, Prev, Next, Survivors, Delivered;
    LaidPlaces(sent, base, lap, s.pos);
    var b, lo, lr := NewBase(sent, base, lap, s), Newest(sent, go.since, s.m.snum), Newest(sent, gr.since, s.m.rnum);
    NewestPlace(x, sent, base, b, s.m.snum, po, go);
    NewestPlace(x, sent, base, b, s.m.rnum, pr, gr);
    DeliveryLinks(x, sent, base, lap, s, lo, lr, v);
    var y := Delivered(x, s, po.xmaxpos, pr.xmaxpos);
    if Involves(s.m, v) {
      FitsParty(x, y, sent, s, base, b, v, p, g);
    } else {
      FitsBystander(x, y, sent, s, base, b, v, p, g);
    }
  }

  lemma LaidPlaces(sent: seq<Sent>, base: nat, lap: nat, cur: int)
    requires Laid(sent, base, lap, cur)
    ensures base <= lap <= |sent| && forall k :: 0 <= k < |sent| ==> sent[k].pos >= FIRST
  {
  }

  lemma NewestPlace(x: map<int, XHeader>, sent: seq<Sent>, base: nat, b: nat, u: int, p: Places, g: Reading)
    requires Stored(x, sent, base) && UserFits(x, sent, base, u, p, g) && NewestKept(sent, b, u, g)
    ensures NewestOf(sent, b, u, Newest(sent, g.since, u)) && -1 <= Newest(sent, g.since, u) < |sent|
    ensures p.xmaxpos == PosOf(sent, Newest(sent, g.since, u))
  {
  }
}
