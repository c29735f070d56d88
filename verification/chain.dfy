/** Nesting middleware around a handler: the first one listed is the outermost. */
module Chain {

  /** The handler with the first middleware outermost and the last one innermost. */
  function Nested<H>(h: H, mws: seq<H -> H>): H {
    if mws == [] then h else mws[0](Nested(h, mws[1..]))
  }

  /** Wraps from the last middleware to the first. */
  method Compose<H>(h: H, mws: seq<H -> H>) returns (r: H)
    ensures r == Nested(h, mws)
  {
    r := h;
    var i := |mws|;
    while i > 0
      invariant 0 <= i <= |mws| && r == Nested(h, mws[i..])
    {
      i := i - 1;
      assert mws[i..][1..] == mws[i + 1..];
      r := mws[i](r);
    }
    assert mws[0..] == mws;
  }

  /** A list can be nested in two stages, the inner part first. */
  lemma {:induction false} NestedJoins<H>(h: H, outer: seq<H -> H>, inner: seq<H -> H>)
    ensures Nested(h, outer + inner) == Nested(Nested(h, inner), outer)
  {
    if outer == [] {
      assert outer + inner == inner;
    } else {
      assert (outer + inner)[1..] == outer[1..] + inner;
      NestedJoins(h, outer[1..], inner);
    }
  }

  /**
    A middleware that answers by itself, as authentication does when it rejects, decides
    what everything outside it wraps; nothing inside it matters.
  */
  lemma RejectionReachesTheOutside<H>(h: H, outer: seq<H -> H>, answer: H, inner: seq<H -> H>)
    ensures Nested(h, outer + [(_: H) => answer] + inner) == Nested(answer, outer)
  {
    var stop := [(_: H) => answer];
    assert outer + stop + inner == outer + (stop + inner);
    NestedJoins(h, outer, stop + inner);
    NestedJoins(h, stop, inner);
  }

  // The order in which a request passes through.

  datatype Event = Enter(i: nat) | Serve | Leave(i: nat)

  type Trace = seq<Event>

  /** Each middleware marks when a request enters and leaves it. */
  ghost predicate Tracing(mws: seq<Trace -> Trace>, lo: nat) {
    forall i, t: Trace | 0 <= i < |mws| :: mws[i](t) == [Enter(lo + i)] + t + [Leave(lo + i)]
  }

  /** The request enters the middleware in the order listed, and leaves in the opposite order. */
  lemma {:induction false} FirstListedRunsFirst(mws: seq<Trace -> Trace>, lo: nat)
    requires Tracing(mws, lo)
    ensures Nested([Serve], mws)
         == seq(|mws|, i requires 0 <= i => Enter(lo + i)) + [Serve]
            + seq(|mws|, i requires 0 <= i < |mws| => Leave(lo + |mws| - 1 - i))
  {
    if mws != [] {
      var rest := mws[1..];
      FirstListedRunsFirst(rest, lo + 1);
      var enters := seq(|rest|, i requires 0 <= i => Enter(lo + 1 + i));
      var leaves := seq(|rest|, i requires 0 <= i < |rest| => Leave(lo + |rest| - i));
      assert Nested([Serve], rest) == enters + [Serve] + leaves;
      assert mws[0](Nested([Serve], rest)) == [Enter(lo)] + (enters + [Serve] + leaves) + [Leave(lo)];
      assert seq(|mws|, i requires 0 <= i => Enter(lo + i)) == [Enter(lo)] + enters;
      assert seq(|mws|, i requires 0 <= i < |mws| => Leave(lo + |mws| - 1 - i)) == leaves + [Leave(lo)];
    }
  }
}
