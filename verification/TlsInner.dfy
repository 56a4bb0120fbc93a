/** The protocol inside a TLS connection (tls/engine.go): the adapter hands it the plaintext of
    each readable event, and does not keep what it does not consume. */
module TlsInner {
  import opened Bytes
  import opened Framing
  import opened Http2Frame
  import opened Http2Wire

  ghost function Handed<P(!new), I(!new), E(!new), H>(
      cut: (P, seq<byte>) -> Cut<P, I, E>, fn: (H, I) -> (H, Option<E>), p: P, h: H, batches: seq<seq<byte>>)
    : Fed<P, H, E>
    requires Lawful(cut)
    decreases |batches|
  {
    if batches == [] then Fed(p, h, [], None)
    else
      var r := Run(cut, fn, p, h, batches[0]);
      if r.error.Some? then Fed(r.p, r.h, [], r.error) else Handed(cut, fn, r.p, r.h, batches[1..])
  }

  // ---- where a batch may end -----------------------------------------------------------------

  /** The bytes end where an item ends, or the cutter refuses them before. */
  ghost predicate Boundary<P(!new), I(!new), E(!new)>(cut: (P, seq<byte>) -> Cut<P, I, E>, p: P, a: seq<byte>)
    requires Lawful(cut)
    decreases |a|
  {
    Decided(cut, p, a, []);
    match cut(p, a)
    case More => a == []
    case Fail(_) => true
    case Item(_, n, p') => Boundary(cut, p', a[n..])
  }

  /** The parser state behind the whole items of some bytes. */
  ghost function Behind<P(!new), I(!new), E(!new)>(cut: (P, seq<byte>) -> Cut<P, I, E>, p: P, a: seq<byte>): P
    requires Lawful(cut)
    decreases |a|
  {
    Decided(cut, p, a, []);
    match cut(p, a)
    case More => p
    case Fail(_) => p
    case Item(_, n, p') => Behind(cut, p', a[n..])
  }

  lemma {:induction false} BoundaryMeans<P(!new), I(!new), E(!new), H>(
      cut: (P, seq<byte>) -> Cut<P, I, E>, fn: (H, I) -> (H, Option<E>), p: P, h: H, a: seq<byte>)
    requires Lawful(cut)
    ensures var r := Run(cut, fn, p, h, a);
            r.error.None? ==> r.p == Behind(cut, p, a) && (Boundary(cut, p, a) <==> r.consumed == |a|)
    decreases |a|
  {
    Decided(cut, p, a, []);
    Decided(cut, p, [], []);
    hide Lawful;
    var c := cut(p, a);
    if c.Item? {
      var (h', e) := fn(h, c.item);
      if e.None? { BoundaryMeans(cut, fn, c.next, h', a[c.size..]); }
    }
  }

  ghost predicate Boundaries<P(!new), I(!new), E(!new)>(
      cut: (P, seq<byte>) -> Cut<P, I, E>, p: P, batches: seq<seq<byte>>)
    requires Lawful(cut)
    decreases |batches|
  {
    batches == [] || (Boundary(cut, p, batches[0]) && Boundaries(cut, Behind(cut, p, batches[0]), batches[1..]))
  }

  /** When every batch ends where an item ends, whatever the protocol does with its items, it
      does what it does with all the plaintext at once, first error included. */
  lemma {:induction false} HandedWhole<P(!new), I(!new), E(!new), H>(
      cut: (P, seq<byte>) -> Cut<P, I, E>, fn: (H, I) -> (H, Option<E>), p: P, h: H, batches: seq<seq<byte>>)
    requires Lawful(cut) && Boundaries(cut, p, batches)
    ensures var r, f := Run(cut, fn, p, h, Concat(batches)), Handed(cut, fn, p, h, batches);
            (f.p, f.h, f.error) == (r.p, r.h, r.error)
    decreases |batches|
  {
    Decided(cut, p, [], []);
    hide Lawful, Boundary, Behind;
    if batches != [] {
      var b, later := batches[0], Concat(batches[1..]);
      var r := Run(cut, fn, p, h, b);
      Resume(cut, fn, p, h, b, later);
      BoundaryMeans(cut, fn, p, h, b);
      if r.error.None? {
        assert b[r.consumed..] + later == later by { assert b[|b|..] == [] && [] + later == later; }
        HandedWhole(cut, fn, r.p, r.h, batches[1..]);
      }
    }
  }

  // ---- and where it may not ----------------------------------------------------------------------

  /** A callback that only keeps a record of the items. */
  function Recording<I, E>(): (seq<I>, I) -> (seq<I>, Option<E>) {
    (h: seq<I>, i: I) => (h + [i], None)
  }

  /** An item is cut off as soon as its own bytes are there, and tells how many they are. */
  ghost predicate Measured<P(!new), I(!new), E(!new)>(cut: (P, seq<byte>) -> Cut<P, I, E>, size: I -> nat) {
    forall p: P, x: seq<byte> :: cut(p, x).Item? ==>
      cut(p, x).size == size(cut(p, x).item) && cut(p, x).size <= |x| && cut(p, x[..cut(p, x).size]) == cut(p, x)
  }

  lemma {:induction false} RecordGrows<P(!new), I(!new), E(!new)>(
      cut: (P, seq<byte>) -> Cut<P, I, E>, p: P, h: seq<I>, b: seq<byte>)
    requires Lawful(cut)
    ensures h <= Run(cut, Recording<I, E>(), p, h, b).h
    decreases |b|
  {
    Decided(cut, p, b, []);
    hide Lawful;
    var c := cut(p, b);
    if c.Item? { RecordGrows(cut, c.next, h + [c.item], b[c.size..]); }
  }

  /** The first item of some bytes comes first on the record. */
  lemma FirstOnRecord<P(!new), I(!new), E(!new)>(cut: (P, seq<byte>) -> Cut<P, I, E>, p: P, h: seq<I>, b: seq<byte>)
    requires Lawful(cut)
    ensures var r := Run(cut, Recording<I, E>(), p, h, b);
            if cut(p, b).Item? then h + [cut(p, b).item] <= r.h else r.h == h
  {
    Decided(cut, p, b, []);
    hide Lawful;
    var c := cut(p, b);
    if c.Item? { RecordGrows(cut, c.next, h + [c.item], b[c.size..]); }
  }

  /** An item that begins with the bytes of no whole item is longer than they are, and it is all
      there when its own bytes are. */
  lemma LongerThanStart<P(!new), I(!new), E(!new)>(
      cut: (P, seq<byte>) -> Cut<P, I, E>, size: I -> nat, p: P, lost: seq<byte>, z: seq<byte>)
    requires Lawful(cut) && Measured(cut, size) && cut(p, lost).More? && cut(p, lost + z).Item?
    ensures var x, n := lost + z, cut(p, lost + z).size;
            |lost| < n <= |x| && cut(p, x[..n]) == cut(p, x) && x[..n] == lost + x[|lost|..n]
                && size(cut(p, x).item) == n
  {
    var x, n := lost + z, cut(p, lost + z).size;
    var k := if n <= |lost| then n else |lost|;
    assert lost == x[..k] + lost[k..];
    Decided(cut, p, x[..k], lost[k..]);
  }

  /** Two records differ when their next items do, or only one has a next item. */
  lemma RecordsDiffer<P(!new), I(!new), E(!new)>(
      cut: (P, seq<byte>) -> Cut<P, I, E>, p: P, h: seq<I>, b: seq<byte>, b': seq<byte>)
    requires Lawful(cut) && (cut(p, b).Item? || cut(p, b').Item?)
    requires cut(p, b).Item? && cut(p, b').Item? ==> cut(p, b).item != cut(p, b').item
    ensures Run(cut, Recording<I, E>(), p, h, b).h != Run(cut, Recording<I, E>(), p, h, b').h
  {
    FirstOnRecord(cut, p, h, b);
    FirstOnRecord(cut, p, h, b');
    hide Lawful, Run;
    var r, r' := Run(cut, Recording<I, E>(), p, h, b).h, Run(cut, Recording<I, E>(), p, h, b').h;
    assert cut(p, b).Item? ==> (h + [cut(p, b).item])[|h|] == cut(p, b).item;
    assert cut(p, b').Item? ==> (h + [cut(p, b').item])[|h|] == cut(p, b').item;
    assert cut(p, b).Item? ==> r[|h|] == cut(p, b).item;
    assert cut(p, b').Item? ==> r'[|h|] == cut(p, b').item;
  }

  /** Behind bytes that are no whole item, some continuation is recorded differently with them
      and without them. */
  lemma SomeDifference<P(!new), I(!new), E(!new)>(
      cut: (P, seq<byte>) -> Cut<P, I, E>, size: I -> nat, p: P, h: seq<I>, lost: seq<byte>, y: seq<byte>)
      returns (b: seq<byte>)
    requires Lawful(cut) && Measured(cut, size) && lost != [] && cut(p, lost).More? && cut(p, y).Item?
    ensures Run(cut, Recording<I, E>(), p, h, lost + b).h != Run(cut, Recording<I, E>(), p, h, b).h
  {
    if z: seq<byte> :| cut(p, lost + z).Item? {
      LongerThanStart(cut, size, p, lost, z);
      var x, n := lost + z, cut(p, lost + z).size;
      b := x[|lost|..n];
      assert cut(p, lost + b) == cut(p, x);
      assert cut(p, b).Item? ==> size(cut(p, b).item) <= |b| < n;
    } else {
      b := y;
    }
    hide Lawful, Measured, Run;
    RecordsDiffer(cut, p, h, lost + b, b);
  }

  /** One batch and one that follows it are handled like one, whatever follows, exactly when the
      first ends where an item ends: otherwise what is dropped of it is missed. `y` is any item
      that may come behind it. */
  lemma HandedExactly<P(!new), I(!new), E(!new)>(
      cut: (P, seq<byte>) -> Cut<P, I, E>, size: I -> nat, p: P, a: seq<byte>, y: seq<byte>)
    requires Lawful(cut) && Measured(cut, size) && cut(Behind(cut, p, a), y).Item?
    ensures (forall b: seq<byte>
              :: Handed(cut, Recording<I, E>(), p, [], [a, b]).h == Run(cut, Recording<I, E>(), p, [], a + b).h)
            <==> Boundary(cut, p, a)
  {
    var fn := Recording<I, E>();
    var r := Run(cut, fn, p, [], a);
    BoundaryMeans(cut, fn, p, [], a);
    forall b: seq<byte>
      ensures r.error.Some? ==> Handed(cut, fn, p, [], [a, b]).h == Run(cut, fn, p, [], a + b).h
      ensures r.error.None? ==> Handed(cut, fn, p, [], [a, b]).h == Run(cut, fn, r.p, r.h, b).h
      ensures r.error.None? ==> Run(cut, fn, p, [], a + b).h == Run(cut, fn, r.p, r.h, a[r.consumed..] + b).h
    {
      HandedTwo(cut, fn, p, [], a, b);
    }
    if r.error.Some? {
      RefusedIsBoundary(cut, p, [], a);
    } else {
      var lost := a[r.consumed..];
      if lost == [] {
        forall b: seq<byte> ensures Handed(cut, fn, p, [], [a, b]).h == Run(cut, fn, p, [], a + b).h {
          assert lost + b == b;
        }
      } else {
        Settled(cut, fn, p, [], a);
        var b := SomeDifference(cut, size, r.p, r.h, lost, y);
        assert Handed(cut, fn, p, [], [a, b]).h != Run(cut, fn, p, [], a + b).h;
      }
    }
  }

  lemma HandedTwo<P(!new), I(!new), E(!new), H>(
      cut: (P, seq<byte>) -> Cut<P, I, E>, fn: (H, I) -> (H, Option<E>), p: P, h: H, a: seq<byte>, b: seq<byte>)
    requires Lawful(cut)
    ensures var r := Run(cut, fn, p, h, a);
            var one, two := Run(cut, fn, p, h, a + b), Handed(cut, fn, p, h, [a, b]);
            if r.error.Some? then two.h == one.h == r.h
            else two.h == Run(cut, fn, r.p, r.h, b).h && one.h == Run(cut, fn, r.p, r.h, a[r.consumed..] + b).h
  {
    Resume(cut, fn, p, h, a, b);
    hide Lawful, Run;
    var r := Run(cut, fn, p, h, a);
    assert [a, b][1..] == [b] && [b][1..] == [];
    if r.error.None? {
      var r' := Run(cut, fn, r.p, r.h, b);
      assert Handed(cut, fn, r'.p, r'.h, []).h == r'.h;
      assert Handed(cut, fn, r.p, r.h, [b]).h == r'.h;
    }
  }

  /** A recording callback has no errors, so an error is the cutter's. */
  lemma {:induction false} RefusedIsBoundary<P(!new), I(!new), E(!new)>(
      cut: (P, seq<byte>) -> Cut<P, I, E>, p: P, h: seq<I>, a: seq<byte>)
    requires Lawful(cut) && Run(cut, Recording<I, E>(), p, h, a).error.Some?
    ensures Boundary(cut, p, a)
    decreases |a|
  {
    Decided(cut, p, a, []);
    hide Lawful;
    var c := cut(p, a);
    if c.Item? { RefusedIsBoundary(cut, c.next, h + [c.item], a[c.size..]); }
  }

  // ---- HTTP/2 inside -------------------------------------------------------------------------------

  function FrameSize(f: Frame): nat { FRAME_HEADER_LEN + |f.payload| }

  lemma FramesMeasured()
    ensures Measured(CutFrame, FrameSize)
  {
    hide CheckContinuation, GoodShape, FromBE;
    forall p: Parser, x: seq<byte> | CutFrame(p, x).Item?
      ensures CutFrame(p, x).size == FrameSize(CutFrame(p, x).item) && CutFrame(p, x).size <= |x|
      ensures CutFrame(p, x[..CutFrame(p, x).size]) == CutFrame(p, x)
    {
      var y := x[..CutFrame(p, x).size];
      assert y[..3] == x[..3] && y[5..9] == x[5..9] && y[9..9 + FromBE(x[..3])] == x[9..9 + FromBE(x[..3])];
    }
  }

  /** A parser as it is behind any frames: it waits only for a stream that frames may name. */
  predicate Usual(p: Parser) {
    p.awaiting ==> 0 < p.lastId < 0x8000_0000
  }

  lemma {:induction false} StaysUsual(p: Parser, a: seq<byte>)
    requires Lawful(CutFrame) && Usual(p)
    ensures Usual(Behind(CutFrame, p, a))
    decreases |a|
  {
    Decided(CutFrame, p, a, []);
    UsualNext(p, a);
    hide Lawful, CutFrame, Usual;
    var c := CutFrame(p, a);
    if c.Item? { StaysUsual(c.next, a[c.size..]); }
  }

  lemma UsualNext(p: Parser, a: seq<byte>)
    ensures CutFrame(p, a).Item? ==> Usual(CutFrame(p, a).next)
  {
    hide CheckContinuation, FromBE;
  }

  /** Some frame may come next. */
  lemma SomeFrame(p: Parser) returns (y: seq<byte>)
    requires Usual(p)
    ensures CutFrame(p, y).Item?
  {
    var f := if p.awaiting then Frame(CONTINUATION, 4, p.lastId, []) else Frame(WINDOW_UPDATE, 0, 0, [0, 0, 0, 1]);
    y := FrameBytes(f) + [];
    if |f.payload| <= p.max {
      CutUndoesFrame();
      assert FrameOk(p, f);
      hide CutFrame, FrameOk, FrameBytes, After;
    } else {
      f := Frame(0xff, 0, 1, []);
      y := FrameBytes(f) + [];
      CutUndoesFrame();
      assert FrameOk(p, f);
      hide CutFrame, FrameOk, FrameBytes, After;
    }
  }

  lemma {:induction false} WholeIsBoundary(p: Parser, a: seq<byte>)
    requires Lawful(CutFrame)
    ensures Whole(a) ==> Boundary(CutFrame, p, a)
    ensures Boundary(CutFrame, p, a) ==> Whole(a) || Refuses(p, a)
    ensures Refuses(p, a) ==> Boundary(CutFrame, p, a)
    decreases |a|
  {
    Decided(CutFrame, p, a, []);
    CutByLength(p, a);
    hide Lawful, CutFrame;
    var c := CutFrame(p, a);
    if c.Item? { WholeIsBoundary(c.next, a[c.size..]); }
  }

  /** The parser refuses one of the frames. */
  ghost predicate Refuses(p: Parser, a: seq<byte>)
    requires Lawful(CutFrame)
    decreases |a|
  {
    Decided(CutFrame, p, a, []);
    match CutFrame(p, a)
    case More => false
    case Fail(_) => true
    case Item(_, n, p') => Refuses(p', a[n..])
  }

  /** HTTP/2 inside TLS gets the frames it is sent, whatever follows, exactly when the plaintext
      of an event is whole frames, by their length fields, or holds one that is refused. */
  lemma FramesHandedExactly(p: Parser, a: seq<byte>)
    requires Usual(p)
    ensures Lawful(CutFrame)
    ensures (forall b: seq<byte> ::
               Handed(CutFrame, Recording<Frame, Error>(), p, [], [a, b]).h ==
               Run(CutFrame, Recording<Frame, Error>(), p, [], a + b).h)
            <==> (Whole(a) || Refuses(p, a))
  {
    CutFrameLawful();
    FramesMeasured();
    StaysUsual(p, a);
    var y := SomeFrame(Behind(CutFrame, p, a));
    WholeIsBoundary(p, a);
    hide Lawful, CutFrame, Measured, Boundary, Whole, Refuses, Behind, Handed, Run;
    HandedExactly(CutFrame, FrameSize, p, a, y);
  }

  /** The input that shows it: a PING whose header and payload come in two events never arrives. */
  lemma FrameOverTwoEventsIsLost()
    ensures Lawful(CutFrame)
    ensures var f := Frame(PING, 0, 0, [1, 2, 3, 4, 5, 6, 7, 8]);
            var b := FrameBytes(f);
            && |b| == 17
            && Handed(CutFrame, Recording<Frame, Error>(), NewParser, [], [b[..9], b[9..]]).h == []
            && Run(CutFrame, Recording<Frame, Error>(), NewParser, [], b[..9] + b[9..]).h == [f]
  {
    var f := Frame(PING, 0, 0, [1, 2, 3, 4, 5, 6, 7, 8]);
    var b := FrameBytes(f);
    var fn := Recording<Frame, Error>();
    CutFrameLawful();
    assert FrameOk(NewParser, f);
    CutUndoesFrame();
    FrameRead(f, []);
    assert b + [] == b && b[..9] + b[9..] == b;
    assert b[..9][..3] == b[..3];
    assert CutFrame(NewParser, b[..9]).More? && CutFrame(NewParser, b[9..]).More?;
    hide CutFrame, Lawful, FrameBytes, FrameOk, After;
    HandedTwo(CutFrame, fn, NewParser, [], b[..9], b[9..]);
    var p := After(NewParser, f);
    Decided(CutFrame, p, [], []);
    assert b[17..] == [] && [] + [f] == [f];
  }
}
