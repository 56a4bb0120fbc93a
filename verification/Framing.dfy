/** What the self-delimiting parsers of the repository have in common.

    Each of them (http2/frame.go, http3/frame.go, grpc/message.go and the two of
    tls/record.go) repeatedly cuts one item off the front of the bytes it has,
    hands it to a callback, and stops at the first error or when the rest is not
    a whole item. A cutter is the pure function that decides one cut; `p` is the
    parser state that the decision depends on. */
module Framing {
  import opened Bytes


  datatype Cut<P, I, E> =
    | More                              // not a whole item yet
    | Fail(error: E)
    | Item(item: I, size: nat, next: P)

  /** What a parse of some bytes leaves: parser state, callback state, bytes consumed, first error. */
  datatype Outcome<P, H, E> = Outcome(p: P, h: H, consumed: nat, error: Option<E>)

  /** A cutter makes progress, and once it has decided, more bytes do not change its mind. */
  ghost predicate Lawful<P(!new), I(!new), E(!new)>(cut: (P, seq<byte>) -> Cut<P, I, E>) {
    && (forall p: P :: cut(p, []).More?)
    && (forall p: P, b: seq<byte> :: cut(p, b).Item? ==> 0 < cut(p, b).size <= |b|)
    && (forall p: P, a: seq<byte>, b: seq<byte> {:trigger cut(p, a + b)} :: !cut(p, a).More? ==>
         cut(p, a + b) == cut(p, a))
  }

  lemma Decided<P(!new), I(!new), E(!new)>(cut: (P, seq<byte>) -> Cut<P, I, E>, p: P, a: seq<byte>, b: seq<byte>)
    requires Lawful(cut)
    ensures cut(p, []).More?
    ensures cut(p, a).Item? ==> 0 < cut(p, a).size <= |a|
    ensures !cut(p, a).More? ==> cut(p, a + b) == cut(p, a)
  {
  }

  /** The parse loop: cut, call back, go on behind the item. */
  ghost function Run<P(!new), I(!new), E(!new), H>(
      cut: (P, seq<byte>) -> Cut<P, I, E>, fn: (H, I) -> (H, Option<E>), p: P, h: H, buf: seq<byte>)
    : (r: Outcome<P, H, E>)
    requires Lawful(cut)
    ensures r.consumed <= |buf|
    decreases |buf|
  {
    match cut(p, buf)
    case More => Outcome(p, h, 0, None)
    case Fail(e) => Outcome(p, h, 0, Some(e))
    case Item(i, n, p') =>
      var (h', e) := fn(h, i);
      if e.Some? then Outcome(p, h', 0, e)
      else
        var r := Run(cut, fn, p', h', buf[n..]);
        r.(consumed := n + r.consumed)
  }

  /** One turn of a parse loop that has consumed `consumed` bytes of `work`. */
  lemma Turn<P(!new), I(!new), E(!new), H>(
      cut: (P, seq<byte>) -> Cut<P, I, E>, fn: (H, I) -> (H, Option<E>), p: P, h: H, work: seq<byte>, consumed: nat)
    requires Lawful(cut) && consumed <= |work|
    ensures var rest := work[consumed..];
            var c, r := cut(p, rest), Run(cut, fn, p, h, rest);
            match c
            case More => r == Outcome(p, h, 0, None)
            case Fail(e) => r == Outcome(p, h, 0, Some(e))
            case Item(i, n, p') =>
              var (h', e) := fn(h, i);
              && 0 < n <= |rest|
              && if e.Some? then r == Outcome(p, h', 0, e)
                 else var r' := Run(cut, fn, p', h', work[consumed + n..]); r == r'.(consumed := n + r'.consumed)
  {
    var rest := work[consumed..];
    if cut(p, rest).Item? {
      assert work[consumed + cut(p, rest).size..] == rest[cut(p, rest).size..];
    }
  }

  function Concat(chunks: seq<seq<byte>>): seq<byte> {
    if chunks == [] then [] else chunks[0] + Concat(chunks[1..])
  }

  /** The state of a connection that is fed piecewise: what is left over is kept for
      the next feed, and nothing is fed after an error. */
  datatype Fed<P, H, E> = Fed(p: P, h: H, rest: seq<byte>, error: Option<E>)

  ghost function Feed<P(!new), I(!new), E(!new), H>(
      cut: (P, seq<byte>) -> Cut<P, I, E>, fn: (H, I) -> (H, Option<E>), p: P, h: H,
      rest: seq<byte>, chunks: seq<seq<byte>>)
    : Fed<P, H, E>
    requires Lawful(cut)
    decreases |chunks|
  {
    if chunks == [] then Fed(p, h, rest, None)
    else
      var buf := rest + chunks[0];
      var r := Run(cut, fn, p, h, buf);
      if r.error.Some? then Fed(r.p, r.h, buf[r.consumed..] + Concat(chunks[1..]), r.error)
      else Feed(cut, fn, r.p, r.h, buf[r.consumed..], chunks[1..])
  }

  /** Parsing `a + b` is parsing `a`, then parsing its leftover followed by `b`. */
  lemma {:induction false} Resume<P(!new), I(!new), E(!new), H>(
      cut: (P, seq<byte>) -> Cut<P, I, E>, fn: (H, I) -> (H, Option<E>), p: P, h: H, a: seq<byte>, b: seq<byte>)
    requires Lawful(cut)
    ensures var r := Run(cut, fn, p, h, a);
            Run(cut, fn, p, h, a + b) ==
              if r.error.Some? then r
              else
                var r' := Run(cut, fn, r.p, r.h, a[r.consumed..] + b);
                r'.(consumed := r.consumed + r'.consumed)
    decreases |a|
  {
    Decided(cut, p, a, b);
    hide Lawful;
    match cut(p, a)
    case More =>
      assert a[0..] == a;
    case Fail(e) =>
    case Item(i, n, p') =>
      assert (a + b)[n..] == a[n..] + b;
      var (h', e) := fn(h, i);
      if e.None? {
        Resume(cut, fn, p', h', a[n..], b);
        var r := Run(cut, fn, p', h', a[n..]);
        assert a[n + r.consumed..] == a[n..][r.consumed..];
      }
  }

  /** A parse that stopped for want of bytes stops there again. */
  lemma {:induction false} Settled<P(!new), I(!new), E(!new), H>(
      cut: (P, seq<byte>) -> Cut<P, I, E>, fn: (H, I) -> (H, Option<E>), p: P, h: H, buf: seq<byte>)
    requires Lawful(cut) && Run(cut, fn, p, h, buf).error.None?
    ensures var r := Run(cut, fn, p, h, buf); cut(r.p, buf[r.consumed..]).More?
    decreases |buf|
  {
    Decided(cut, p, buf, []);
    hide Lawful;
    if cut(p, buf).Item? {
      var n := cut(p, buf).size;
      var h' := fn(h, cut(p, buf).item).0;
      Settled(cut, fn, cut(p, buf).next, h', buf[n..]);
      var r := Run(cut, fn, cut(p, buf).next, h', buf[n..]);
      assert buf[n + r.consumed..] == buf[n..][r.consumed..];
    } else {
      assert buf[0..] == buf;
    }
  }

  lemma DropTwice(a: seq<byte>, b: seq<byte>, i: nat, j: nat)
    requires i <= |a| && i + j <= |a + b|
    ensures (a + b)[i + j..] == (a[i..] + b)[j..] && (a[i..] + b)[0..] == a[i..] + b
  {
  }

  /** Chunking does not matter: however the bytes are split into reads, the same items
      are delivered, the same first error is met and the same bytes are left over. */
  lemma {:induction false} ChunkingDoesNotMatter<P(!new), I(!new), E(!new), H>(
      cut: (P, seq<byte>) -> Cut<P, I, E>, fn: (H, I) -> (H, Option<E>), p: P, h: H,
      rest: seq<byte>, chunks: seq<seq<byte>>)
    requires Lawful(cut) && cut(p, rest).More?
    ensures var r := Run(cut, fn, p, h, rest + Concat(chunks));
            Feed(cut, fn, p, h, rest, chunks) == Fed(r.p, r.h, (rest + Concat(chunks))[r.consumed..], r.error)
    decreases |chunks|
  {
    hide Lawful;
    if chunks == [] {
      assert rest + [] == rest && rest[0..] == rest;
    } else {
      var buf, later := rest + chunks[0], Concat(chunks[1..]);
      assert rest + Concat(chunks) == buf + later;
      Resume(cut, fn, p, h, buf, later);
      var r := Run(cut, fn, p, h, buf);
      var left := buf[r.consumed..] + later;
      if r.error.Some? {
        DropTwice(buf, later, r.consumed, 0);
      } else {
        Settled(cut, fn, p, h, buf);
        ChunkingDoesNotMatter(cut, fn, r.p, r.h, buf[r.consumed..], chunks[1..]);
        DropTwice(buf, later, r.consumed, Run(cut, fn, r.p, r.h, left).consumed);
      }
    }
  }

  // ---- printers -------------------------------------------------------------

  /** The callback applied to a list of items, stopping at its first error. */
  function Fold<I, E, H>(fn: (H, I) -> (H, Option<E>), h: H, items: seq<I>): (H, Option<E>) {
    if items == [] then (h, None)
    else
      var (h', e) := fn(h, items[0]);
      if e.Some? then (h', e) else Fold(fn, h', items[1..])
  }

  lemma FoldConcat<I, E, H>(fn: (H, I) -> (H, Option<E>), h: H, a: seq<I>, b: seq<I>)
    ensures var (h', e) := Fold(fn, h, a);
            Fold(fn, h, a + b) == if e.Some? then (h', e) else Fold(fn, h', b)
    decreases |a|
  {
    if a == [] {
      assert a + b == b;
    } else {
      assert (a + b)[0] == a[0] && (a + b)[1..] == a[1..] + b;
      FoldConcat(fn, fn(h, a[0]).0, a[1..], b);
    }
  }

  lemma FoldFirst<I, E, H>(fn: (H, I) -> (H, Option<E>), h: H, i: I, more: seq<I>)
    ensures var (h', e) := fn(h, i); Fold(fn, h, [i] + more) == if e.Some? then (h', e) else Fold(fn, h', more)
  {
    assert ([i] + more)[1..] == more;
  }

  function PrintAll<I>(show: I -> seq<byte>, items: seq<I>): seq<byte> {
    if items == [] then [] else show(items[0]) + PrintAll(show, items[1..])
  }

  lemma {:induction false} PrintConcat<I>(show: I -> seq<byte>, a: seq<I>, b: seq<I>)
    ensures PrintAll(show, a + b) == PrintAll(show, a) + PrintAll(show, b)
  {
    if a == [] {
      assert a + b == b;
    } else {
      PrintConcat(show, a[1..], b);
      assert (a + b)[0] == a[0] && (a + b)[1..] == a[1..] + b;
      Assoc(show(a[0]), PrintAll(show, a[1..]), PrintAll(show, b));
    }
  }

  lemma PrintOne<I>(show: I -> seq<byte>, i: I, rest: seq<I>)
    ensures PrintAll(show, [i] + rest) == show(i) + PrintAll(show, rest)
  {
    assert ([i] + rest)[1..] == rest;
  }

  /** `next` is how a good item moves the parser state; `ok` says which items are good where. */
  ghost predicate Undoes<P(!new), I(!new), E(!new)>(
      cut: (P, seq<byte>) -> Cut<P, I, E>, show: I -> seq<byte>, ok: (P, I) -> bool, next: (P, I) -> P)
  {
    forall p: P, i: I, tail: seq<byte> {:trigger cut(p, show(i) + tail)} ::
      ok(p, i) ==> cut(p, show(i) + tail) == Item(i, |show(i)|, next(p, i))
  }

  predicate AllOk<P, I>(ok: (P, I) -> bool, next: (P, I) -> P, p: P, items: seq<I>)
    decreases |items|
  {
    items == [] || (ok(p, items[0]) && AllOk(ok, next, next(p, items[0]), items[1..]))
  }

  function NextAll<P, I>(next: (P, I) -> P, p: P, items: seq<I>): P {
    if items == [] then p else NextAll(next, next(p, items[0]), items[1..])
  }

  /** A parser that undoes its printer on one item undoes it on any list of items: the
      callback sees the items in order, up to its first error. */
  lemma {:induction false} ParserUndoesPrinter<P(!new), I(!new), E(!new), H>(
      cut: (P, seq<byte>) -> Cut<P, I, E>, fn: (H, I) -> (H, Option<E>),
      show: I -> seq<byte>, ok: (P, I) -> bool, next: (P, I) -> P,
      p: P, h: H, items: seq<I>)
    requires Lawful(cut) && Undoes(cut, show, ok, next) && AllOk(ok, next, p, items)
    ensures var r, all := Run(cut, fn, p, h, PrintAll(show, items)), Fold(fn, h, items);
            && r.h == all.0 && r.error == all.1
            && (r.error.None? ==> r.p == NextAll(next, p, items) && r.consumed == |PrintAll(show, items)|)
    decreases |items|
  {
    Decided(cut, p, [], []);
    hide Lawful;
    if items != [] {
      var one, later := show(items[0]), PrintAll(show, items[1..]);
      assert cut(p, one + later) == Item(items[0], |one|, next(p, items[0]));
      assert (one + later)[|one|..] == later;
      if fn(h, items[0]).1.None? {
        ParserUndoesPrinter(cut, fn, show, ok, next, next(p, items[0]), fn(h, items[0]).0, items[1..]);
      }
    }
  }
}
