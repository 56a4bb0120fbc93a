/** Application data over two TLS machines (tls/state.go, tls/aead.go), and what the adapter
    to the protocol inside does with it (tls/engine.go). */
module TlsTransport {
  import opened Bytes
  import opened Framing
  import opened TlsRecord
  import opened TlsCrypto
  import opened TlsMachine
  import opened TlsHandshake

  // ---- one direction -----------------------------------------------------------------------

  /** What `w` seals with is what `r` opens with, number and all. */
  ghost predicate Linked(w: Machine, r: Machine) {
    && w.write.Some? && w.write.value < |w.objs| && r.read.Some? && r.read.value < |r.objs|
    && w.objs[w.write.value] == r.objs[r.read.value] && |w.objs[w.write.value].iv| >= 8
  }

  /** After a handshake both directions are linked. */
  lemma CrossedIsLinked(s: Machine, c: Machine)
    requires Crossed(s, c)
    ensures Linked(s, c) && Linked(c, s)
  {
  }

  function Number(m: Machine, ref: Option<nat>): nat {
    if ref.Some? && ref.value < |m.objs| then m.objs[ref.value].count else 0
  }

  /** One protected record of application data, sealed and opened. */
  lemma RecordCrosses(we: Env, re: Env, w: Machine, r: Machine, data: seq<byte>)
    requires Sound(we.c) && we.c == re.c && Linked(w, r) && Number(w, w.write) < SEQ_LIMIT
               && |data| <= MAX_RECORD_PAYLOAD
    ensures var s := Sealing(we, w, w.write, APPLICATION_DATA, data);
            && s.Some? && RecordOk((), s.value.1)
            && var w' := s.value.0;
               && w' == w.(objs := w'.objs, used := w'.used) && |w'.objs| == |w.objs|
                    && Number(w', w'.write) == Number(w, w.write) + 1
               && var (r', e) := OnRecord(re, r, s.value.1);
                  && e.None? && Linked(w', r') && r'.plaintext == r.plaintext + data && r'.read == r.read
                       && |r'.objs| == |r.objs|
                  && r' == r.(objs := r'.objs, plaintext := r'.plaintext)
                  && Number(r', r'.read) == Number(r, r.read) + 1
  {
    var p := w.objs[w.write.value];
    OpenUndoesSeal(we.c, p, APPLICATION_DATA, data);
    hide Seal, Open, Sound, OnHandshakeBytes, OnAlert;
  }

  /** Everything that is written comes out, unchanged and in order, whatever its size. */
  lemma {:induction false} WriteCrosses(we: Env, re: Env, w: Machine, r: Machine, plain: seq<byte>)
    requires Sound(we.c) && we.c == re.c && Linked(w, r) && Number(w, w.write) + |plain| < SEQ_LIMIT
    ensures var (w', rs, ok) := WriteApp(we, w, plain);
            && ok && (forall k :: 0 <= k < |rs| ==> RecordOk((), rs[k])) && |rs| <= |plain|
            && w' == w.(objs := w'.objs, used := w'.used) && Number(w', w'.write) == Number(w, w.write) + |rs|
            && var (r', e) := Fold(Records(re), r, rs);
               && e.None? && Linked(w', r') && r'.plaintext == r.plaintext + plain
               && r' == r.(objs := r'.objs, plaintext := r'.plaintext)
    decreases |plain|
  {
    hide OnRecord, Sound, Sealing, RecordOk, Linked, Number;
    if plain == [] {
      assert r.plaintext + [] == r.plaintext;
    } else {
      var n := if |plain| > MAX_RECORD_PAYLOAD then MAX_RECORD_PAYLOAD else |plain|;
      RecordCrosses(we, re, w, r, plain[..n]);
      var s := Sealing(we, w, w.write, APPLICATION_DATA, plain[..n]).value;
      var r1 := OnRecord(re, r, s.1).0;
      WriteCrosses(we, re, s.0, r1, plain[n..]);
      var more := WriteApp(we, s.0, plain[n..]).1;
      FoldFirst(Records(re), r, s.1, more);
      assert r.plaintext + plain[..n] + plain[n..] == r.plaintext + plain by {
        assert plain == plain[..n] + plain[n..];
        Assoc(r.plaintext, plain[..n], plain[n..]);
      }
    }
  }

  // ---- many writes -------------------------------------------------------------------------

  function WriteAll(env: Env, m: Machine, plains: seq<seq<byte>>): (Machine, seq<Record>)
    decreases |plains|
  {
    if plains == [] then (m, [])
    else
      var (m1, rs, _) := WriteApp(env, m, plains[0]);
      var (m2, more) := WriteAll(env, m1, plains[1..]);
      (m2, rs + more)
  }

  lemma {:induction false} WritesCross(we: Env, re: Env, w: Machine, r: Machine, plains: seq<seq<byte>>)
    requires Sound(we.c) && we.c == re.c && Linked(w, r) && Number(w, w.write) + |Concat(plains)| < SEQ_LIMIT
    ensures var (w', rs) := WriteAll(we, w, plains);
            && (forall k :: 0 <= k < |rs| ==> RecordOk((), rs[k])) && Number(w', w'.write) == Number(w, w.write) + |rs|
            && |rs| <= |Concat(plains)|
            && var (r', e) := Fold(Records(re), r, rs);
               e.None? && Linked(w', r') && r'.plaintext == r.plaintext + Concat(plains)
               && r' == r.(objs := r'.objs, plaintext := r'.plaintext)
    decreases |plains|
  {
    hide OnRecord, Sound, WriteApp, RecordOk, Linked, Number;
    if plains == [] {
      assert r.plaintext + [] == r.plaintext;
    } else {
      WriteCrosses(we, re, w, r, plains[0]);
      var (w1, rs, ok) := WriteApp(we, w, plains[0]);
      var r1 := Fold(Records(re), r, rs).0;
      WritesCross(we, re, w1, r1, plains[1..]);
      var more := WriteAll(we, w1, plains[1..]).1;
      FoldConcat(Records(re), r, rs, more);
      Assoc(r.plaintext, plains[0], Concat(plains[1..]));
    }
  }

  /** Bytes passed to Write on one side come out of the other side, unchanged and in order, for
      any number of writes of any sizes and however the network cuts the records. */
  lemma DataCrosses(we: Env, re: Env, w: Machine, r: Machine, plains: seq<seq<byte>>, chunks: seq<seq<byte>>)
    requires Sound(we.c) && we.c == re.c && Linked(w, r) && Number(w, w.write) + |Concat(plains)| < SEQ_LIMIT
    requires Concat(chunks) == Wire(WriteAll(we, w, plains).1)
    ensures Lawful(CutRecord)
    ensures var f := Feed(CutRecord, Records(re), (), r, [], chunks);
            f.error.None? && f.rest == [] && f.h.plaintext == r.plaintext + Concat(plains)
                && Linked(WriteAll(we, w, plains).0, f.h)
  {
    hide *;
    WritesCross(we, re, w, r, plains);
    Delivered(re, r, WriteAll(we, w, plains).1, chunks);
  }

  lemma {:induction false} SomeOfOneWrite(we: Env, re: Env, w: Machine, r: Machine, plain: seq<byte>, k: nat)
    requires Sound(we.c) && we.c == re.c && Linked(w, r) && Number(w, w.write) + |plain| < SEQ_LIMIT
    requires k <= |WriteApp(we, w, plain).1|
    ensures var r' := Fold(Records(re), r, WriteApp(we, w, plain).1[..k]).0;
            Number(r', r'.read) == Number(r, r.read) + k
    decreases |plain|
  {
    hide OnRecord, Sound, Sealing, RecordOk, Linked, Number;
    var rs := WriteApp(we, w, plain).1;
    if k == 0 {
      assert rs[..0] == [];
    } else {
      var n := if |plain| > MAX_RECORD_PAYLOAD then MAX_RECORD_PAYLOAD else |plain|;
      RecordCrosses(we, re, w, r, plain[..n]);
      var s := Sealing(we, w, w.write, APPLICATION_DATA, plain[..n]).value;
      var more := WriteApp(we, s.0, plain[n..]).1;
      SomeOfOneWrite(we, re, s.0, OnRecord(re, r, s.1).0, plain[n..], k - 1);
      assert rs[..k] == [s.1] + more[..k - 1];
      FoldFirst(Records(re), r, s.1, more[..k - 1]);
    }
  }

  lemma {:induction false} SomeOfManyWrites(we: Env, re: Env, w: Machine, r: Machine, plains: seq<seq<byte>>, k: nat)
    requires Sound(we.c) && we.c == re.c && Linked(w, r) && Number(w, w.write) + |Concat(plains)| < SEQ_LIMIT
    requires k <= |WriteAll(we, w, plains).1|
    ensures var r' := Fold(Records(re), r, WriteAll(we, w, plains).1[..k]).0;
            Number(r', r'.read) == Number(r, r.read) + k
    decreases |plains|
  {
    hide OnRecord, Sound, WriteApp, RecordOk, Linked, Number;
    if plains == [] {
      NewFold(re, r);
    } else {
      var (w1, rs, ok) := WriteApp(we, w, plains[0]);
      var more := WriteAll(we, w1, plains[1..]).1;
      var all := WriteAll(we, w, plains).1;
      assert all == rs + more;
      if k <= |rs| {
        SomeOfOneWrite(we, re, w, r, plains[0], k);
        assert all[..k] == rs[..k];
      } else {
        WriteCrosses(we, re, w, r, plains[0]);
        SomeOfOneWrite(we, re, w, r, plains[0], |rs|);
        assert rs[..|rs|] == rs;
        var r1 := Fold(Records(re), r, rs).0;
        SomeOfManyWrites(we, re, w1, r1, plains[1..], k - |rs|);
        assert all[..k] == rs + more[..k - |rs|];
        FoldConcat(Records(re), r, rs, more[..k - |rs|]);
      }
    }
  }

  /** While records are under way, the two numbers differ by exactly how many they are. */
  lemma InFlight(we: Env, re: Env, w: Machine, r: Machine, plains: seq<seq<byte>>, arrived: nat)
    requires Sound(we.c) && we.c == re.c && Linked(w, r) && Number(w, w.write) + |Concat(plains)| < SEQ_LIMIT
    requires arrived <= |WriteAll(we, w, plains).1|
    ensures var (w', rs) := WriteAll(we, w, plains);
            var r' := Fold(Records(re), r, rs[..arrived]).0;
            Number(w', w'.write) - Number(r', r'.read) == |rs| - arrived
  {
    hide OnRecord, Sound, RecordOk, WriteAll;
    WritesCross(we, re, w, r, plains);
    SomeOfManyWrites(we, re, w, r, plains, arrived);
  }
}
