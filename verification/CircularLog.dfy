/** A log that is written in a circle: records of whole words, from a cursor that now and then returns to
    the start. */
module CircularLog {

  /** The bytes of a record. */
  datatype Span = Span(pos: int, stop: int)

  /** Records from number `lap` on were written since the cursor last returned to `first`; those from
      `base` up to `lap` are what the round before has left beyond the cursor. */
  ghost predicate Laid(q: seq<Span>, base: nat, lap: nat, first: int, cur: int)
  {
    && base <= lap <= |q| && 0 <= cur && cur % 4 == 0
    && (forall k :: 0 <= k < |q| ==> q[k].pos % 4 == 0 && first <= q[k].pos <= q[k].stop)
    && (forall k :: base <= k < lap ==> cur <= q[k].pos)
    && (forall k :: lap <= k < |q| ==> q[k].stop <= cur)
    && (forall j, k :: base <= j < k < |q| && (k < lap || lap <= j) ==> q[j].stop <= q[k].pos)
  }

  /** No two of them share a byte. */
  lemma Apart(q: seq<Span>, base: nat, lap: nat, first: int, cur: int, j: nat, k: nat)
    requires Laid(q, base, lap, first, cur) && base <= j < |q| && base <= k < |q| && j != k
    ensures q[j].stop <= q[k].pos || q[k].stop <= q[j].pos
  {
  }

  /** The first record from b on that a write ending at `stop` leaves alone. */
  ghost function Spared(q: seq<Span>, b: nat, lap: nat, stop: int): (r: nat)
    requires b <= lap <= |q|
    ensures b <= r <= lap
    ensures r < lap ==> stop <= q[r].pos
    ensures forall k :: b <= k < r ==> q[k].pos < stop
    decreases lap - b
  {
    if b < lap && q[b].pos < stop then Spared(q, b + 1, lap, stop) else b
  }

  function Aligned(p: int): (r: int)
    ensures p <= r < p + 4 && r % 4 == 0
  {
    p + 3 - (p + 3) % 4
  }

  /** A record appended at the cursor. */
  lemma Appended(q: seq<Span>, base: nat, lap: nat, first: int, cur: int, s: Span)
    requires Laid(q, base, lap, first, cur) && s.pos == cur >= first && s.pos <= s.stop
    ensures Laid(q + [s], Spared(q, base, lap, s.stop), lap, first, Aligned(s.stop))
  {
    var b, end, g := Spared(q, base, lap, s.stop), Aligned(s.stop), q + [s];
    hide Spared, Aligned;
    assert g[|q|] == s && forall k :: 0 <= k < |q| ==> g[k] == q[k];
    forall k | b <= k < lap ensures end <= g[k].pos {
      assert b < k ==> q[b].stop <= q[k].pos;
    }
    forall j, k | b <= j < k < |g| && (k < lap || lap <= j) ensures g[j].stop <= g[k].pos {
      assert k < |q| ==> q[j].stop <= q[k].pos;
    }
  }

  /** The cursor returns to the start. */
  lemma Returned(q: seq<Span>, base: nat, lap: nat, first: int, cur: int)
    requires Laid(q, base, lap, first, cur) && first >= 0 && first % 4 == 0
    ensures base <= lap <= |q| && Laid(q, lap, |q|, first, first)
  {
  }
}
