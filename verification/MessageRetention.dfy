/** How long a message stays in the file of doc_msgs.c: until newer ones fill it. */
module MessageRetention {
  import opened MessageLog
  import L = CircularLog
  import R = XRecords

  /** What is done to the file: a message is entered, or its header is marked. */
  datatype Deed = Enter(b: seq<R.byte>) | Mark(k: nat, header: seq<R.byte>)

  predicate Proper(d: Deed, size: nat)
  {
    d.Enter? ==> |d.b| % 4 == 0 && 0 < |d.b| < size
  }

  ghost function Done(l: Log, d: Deed, size: nat): Log
  {
    match d
    case Enter(b) => Appended(l, b, size)
    case Mark(k, b) => if k < |l.q| && |b| == |l.q[k].bytes| then l.(q := l.q[k := Entry(l.q[k].pos, b)]) else l
  }

  /** The log after some deeds, from an empty one. */
  ghost function Run(deeds: seq<Deed>, size: nat): Log
  {
    if deeds == [] then Log([], 0, 0, 0) else Done(Run(deeds[..|deeds| - 1], size), deeds[|deeds| - 1], size)
  }

  /** The bytes of the messages from number k on. */
  function BytesFrom(q: seq<Entry>, k: nat): nat
    requires k <= |q|
    decreases |q| - k
  {
    if k == |q| then 0 else |q[k].bytes| + BytesFrom(q, k + 1)
  }

  function Stop(e: Entry): nat { e.pos + |e.bytes| }

  /** Messages number a to b lie one behind the other from the start of the file. */
  ghost predicate Chained(q: seq<Entry>, a: nat, b: nat)
    requires b <= |q|
  {
    forall j :: a <= j < b ==> ChainedAt(q, a, j)
  }

  predicate ChainedAt(q: seq<Entry>, a: nat, j: nat)
    requires a <= j < |q|
  {
    |q[j].bytes| > 0 && q[j].pos == if j == a then 0 else Stop(q[j - 1])
  }

  /** The round from number `lap` on, and the one before, from number `first` on, which ended where the next
      message did not fit. */
  ghost predicate Packed(l: Log, first: nat, size: nat)
  {
    && first <= l.base <= l.lap <= |l.q| && (l.lap < |l.q| || l.q == [])
    && Chained(l.q, first, l.lap) && Chained(l.q, l.lap, |l.q|)
    && l.cur == (if l.q == [] then 0 else Stop(l.q[|l.q| - 1]))
    && (l.lap > 0 ==> first < l.lap && Stop(l.q[l.lap - 1]) + |l.q[l.lap].bytes| >= size)
    && forall j :: first <= j < l.base ==> l.q[j].pos < l.cur
  }

  /** The same places and lengths. */
  ghost predicate SameSpans(q: seq<Entry>, p: seq<Entry>, n: nat)
  {
    && n <= |q| && n <= |p|
    && forall j :: 0 <= j < n ==> q[j].pos == p[j].pos && |q[j].bytes| == |p[j].bytes| && Stop(q[j]) == Stop(p[j])
  }

  lemma ChainedSame(q: seq<Entry>, p: seq<Entry>, a: nat, b: nat)
    requires b <= |q| && SameSpans(q, p, b) && Chained(q, a, b)
    ensures Chained(p, a, b)
  {
    forall j | a <= j < b ensures ChainedAt(p, a, j) {
      assert ChainedAt(q, a, j) && q[j].pos == p[j].pos;
      assert j > 0 ==> Stop(q[j - 1]) == Stop(p[j - 1]);
    }
  }

  lemma ChainedMore(q: seq<Entry>, e: Entry, a: nat)
    requires a <= |q| && Chained(q, a, |q|) && |e.bytes| > 0 && e.pos == if a == |q| then 0 else Stop(q[|q| - 1])
    ensures Chained(q + [e], a, |q| + 1)
  {
    ChainedSame(q, q + [e], a, |q|);
  }

  /** A message that fits where the cursor is. */
  lemma PackedBehind(l: Log, first: nat, b: seq<R.byte>, size: nat)
    requires Packed(l, first, size) && 0 < |b| && l.cur + |b| < size
    ensures Packed(Appended(l, b, size), first, size)
  {
    hide Chained;
    var e := Entry(l.cur, b);
    assert SameSpans(l.q, l.q + [e], |l.q|);
    ChainedSame(l.q, l.q + [e], first, l.lap);
    ChainedMore(l.q, e, l.lap);
    assert forall j :: first <= j < l.base ==> (l.q + [e])[j] == l.q[j];
  }

  /** A message that does not. */
  lemma PackedAround(l: Log, first: nat, b: seq<R.byte>, size: nat)
    requires Packed(l, first, size) && 0 < |b| < size && l.cur + |b| >= size
    ensures Packed(Appended(l, b, size), l.lap, size)
  {
    hide Chained;
    var e := Entry(0, b);
    assert SameSpans(l.q, l.q + [e], |l.q|);
    ChainedSame(l.q, l.q + [e], l.lap, |l.q|);
    ChainedNone(l.q);
    ChainedMore(l.q, e, |l.q|);
  }

  lemma ChainedNone(q: seq<Entry>)
    ensures Chained(q, |q|, |q|)
  {
  }

  lemma PackedAppended(l: Log, first: nat, b: seq<R.byte>, size: nat) returns (now: nat)
    requires Packed(l, first, size) && 0 < |b| < size
    ensures Packed(Appended(l, b, size), now, size)
  {
    hide Packed, Appended;
    if l.cur + |b| >= size {
      now := l.lap;
      PackedAround(l, first, b, size);
    } else {
      now := first;
      PackedBehind(l, first, b, size);
    }
  }

  lemma PackedMarked(l: Log, first: nat, k: nat, b: seq<R.byte>, size: nat)
    requires Packed(l, first, size) && k < |l.q| && |b| == |l.q[k].bytes|
    ensures Packed(l.(q := l.q[k := Entry(l.q[k].pos, b)]), first, size)
  {
    hide Chained;
    var p := l.q[k := Entry(l.q[k].pos, b)];
    assert SameSpans(l.q, p, |p|);
    ChainedSame(l.q, p, first, l.lap);
    ChainedSame(l.q, p, l.lap, |p|);
  }

  lemma {:induction false} RunPacked(deeds: seq<Deed>, size: nat) returns (first: nat)
    requires forall i :: 0 <= i < |deeds| ==> Proper(deeds[i], size)
    ensures Packed(Run(deeds, size), first, size)
  {
    first := 0;
    if deeds != [] {
      var n := |deeds| - 1;
      var l := Run(deeds[..n], size);
      first := RunPacked(deeds[..n], size);
      hide Packed, Appended;
      match deeds[n]
      case Enter(b) => first := PackedAppended(l, first, b, size);
      case Mark(k, b) => if k < |l.q| && |b| == |l.q[k].bytes| { PackedMarked(l, first, k, b, size); }
    }
  }

  lemma {:induction false} ChainedBytes(q: seq<Entry>, a: nat, b: nat, k: nat)
    requires a <= k < b <= |q| && Chained(q, a, b)
    ensures BytesFrom(q, k) == Stop(q[b - 1]) - q[k].pos + BytesFrom(q, b)
    decreases b - k
  {
    if k < b - 1 {
      ChainedBytes(q, a, b, k + 1);
      assert ChainedAt(q, a, k + 1);
    }
  }

  lemma {:induction false} MoreBytes(q: seq<Entry>, j: nat, k: nat)
    requires j <= k <= |q|
    ensures BytesFrom(q, j) >= BytesFrom(q, k)
    decreases k - j
  {
    if j < k {
      MoreBytes(q, j + 1, k);
    }
  }

  /** If a message and all newer ones leave room for the longest of those, it has not come to its turn. */
  lemma NotYet(l: Log, first: nat, size: nat, k: nat, longest: nat)
    requires Packed(l, first, size) && k < |l.q| && BytesFrom(l.q, k) + longest <= size
    requires forall j :: k < j < |l.q| ==> |l.q[j].bytes| <= longest
    requires |l.q[k].bytes| > 0
    ensures l.base <= k
  {
    hide Chained;
    var q, lap := l.q, l.lap;
    if first <= k < lap {
      ChainedBytes(q, lap, |q|, lap);
      ChainedBytes(q, first, lap, k);
      FirstPlace(q, lap, |q|);
    } else if k < lap {
      RoundBytes(l, first, size, k + 1);
    }
  }

  /** The round before and the message that did not fit there fill the file. */
  lemma RoundBytes(l: Log, first: nat, size: nat, k: nat)
    requires Packed(l, first, size) && k <= first && l.lap > 0
    ensures BytesFrom(l.q, k) >= size
  {
    hide Chained;
    MoreBytes(l.q, k, first);
    ChainedBytes(l.q, first, l.lap, first);
    FirstPlace(l.q, first, l.lap);
  }

  lemma FirstPlace(q: seq<Entry>, a: nat, b: nat)
    requires a < b <= |q| && Chained(q, a, b)
    ensures q[a].pos == 0
  {
    assert ChainedAt(q, a, a);
  }

  ghost predicate LaidOut(l: Log)
  {
    L.Laid(Spans(l.q), l.base, l.lap, 0, l.cur) && forall k :: 0 <= k < |l.q| ==> |l.q[k].bytes| > 0
  }

  lemma LaidEntered(l: Log, b: seq<R.byte>, size: nat)
    requires LaidOut(l) && |b| % 4 == 0 && |b| > 0
    ensures LaidOut(Appended(l, b, size))
  {
    hide L.Laid, L.Spared, Spans;
    AroundLaid(l, |b|, size);
    var a := Around(l, |b|, size);
    Lays(l.q, a.base, a.lap, a.cur, Entry(a.cur, b));
  }

  lemma {:induction false} RunLaid(deeds: seq<Deed>, size: nat)
    requires forall i :: 0 <= i < |deeds| ==> Proper(deeds[i], size)
    ensures LaidOut(Run(deeds, size))
  {
    hide L.Laid, Appended;
    if deeds == [] {
      NothingLaid();
    } else {
      var n := |deeds| - 1;
      var l := Run(deeds[..n], size);
      RunLaid(deeds[..n], size);
      match deeds[n]
      case Enter(b) => LaidEntered(l, b, size);
      case Mark(k, b) => if k < |l.q| && |b| == |l.q[k].bytes| { SpansMarked(l.q, k, b); }
    }
  }

  lemma NothingLaid()
    ensures LaidOut(Log([], 0, 0, 0))
  {
  }

  lemma SpansMarked(q: seq<Entry>, k: nat, b: seq<R.byte>)
    requires k < |q| && |b| == |q[k].bytes|
    ensures Spans(q[k := Entry(q[k].pos, b)]) == Spans(q)
  {
  }

  /** Whatever has been entered and marked: a message is whole as long as it and all newer ones together
      leave room in the file for the longest of the newer ones. */
  lemma StaysUntilFull(deeds: seq<Deed>, size: nat, k: nat, longest: nat)
    requires forall i :: 0 <= i < |deeds| ==> Proper(deeds[i], size)
    requires k < |Run(deeds, size).q| && BytesFrom(Run(deeds, size).q, k) + longest <= size
    requires forall j :: k < j < |Run(deeds, size).q| ==> |Run(deeds, size).q[j].bytes| <= longest
    ensures Whole(Run(deeds, size).q, k)
  {
    hide Run, L.Laid, Packed;
    var l := Run(deeds, size);
    RunLaid(deeds, size);
    var first := RunPacked(deeds, size);
    NotYet(l, first, size, k, longest);
    forall j | k < j < |l.q| ensures Clear(l.q[j], l.q[k]) {
      L.Apart(Spans(l.q), l.base, l.lap, 0, l.cur, j, k);
    }
  }
}
