/** QUIC variable-length integers, HTTP/3 frames and SETTINGS
    (http3/varint.go, http3/frame.go). */
module Http3 {
  import opened ByteBuffer
  import opened Bytes
  import opened Framing

  // ---- variable-length integers (section 16 of RFC 9000) ---------------------

  const MAX_VARINT := 0x4000_0000_0000_0000   // 2^62

  datatype VarintResult = TooShort | Got(v: nat, n: nat)

  function VarintLen(v: nat): (n: nat) {
    if v < 0x40 then 1 else if v < 0x4000 then 2 else if v < 0x4000_0000 then 4 else if v < MAX_VARINT then 8 else 0
  }

  /** The bytes that AppendVarint adds; none for a value that does not fit. The class
      bits are or-ed into a first byte whose two top bits are clear. */
  function VarintBytes(v: nat): (s: seq<byte>)
    ensures |s| == VarintLen(v)
  {
    if v < 0x40 then [v]
    else if v < 0x4000 then WithClass(ToBE(v, 2), 1, v)
    else if v < 0x4000_0000 then WithClass(ToBE(v, 4), 2, v)
    else if v < MAX_VARINT then WithClass(ToBE(v, 8), 3, v)
    else []
  }

  /** `s` is the big-endian form of a `v` that leaves the two top bits free. */
  function WithClass(s: seq<byte>, class_: nat, v: nat): (r: seq<byte>)
    requires class_ < 4 && |s| >= 1 && s == ToBE(v, |s|) && 4 * v < Pow256(|s|)
    ensures |r| == |s| && r[0] == s[0] + 0x40 * class_ && s[0] < 0x40 && r[1..] == s[1..]
  {
    TopByteSmall(v, |s|);
    [s[0] + 0x40 * class_] + s[1..]
  }

  lemma {:induction false} TopByteSmall(v: nat, n: nat)
    requires n >= 1 && 4 * v < Pow256(n)
    ensures ToBE(v, n)[0] < 0x40
  {
    if n > 1 {
      TopByteSmall(v / 256, n - 1);
    } else {
      assert Pow256(1) == 256 && ToBE(v, 1) == [v % 256];
    }
  }

  lemma Sizes()
    ensures Pow256(2) == 0x1_0000 && Pow256(4) == 0x1_0000_0000 && Pow256(8) == 4 * MAX_VARINT
  {
    Powers();
  }

  function AppendVarint(dst: seq<byte>, v: nat): seq<byte> {
    dst + VarintBytes(v)
  }

  function ClassSize(b: byte): (n: nat) {
    if b < 0x40 then 1 else if b < 0x80 then 2 else if b < 0xc0 then 4 else 8
  }

  /** What ReadVarint returns. */
  function Varint(b: seq<byte>): VarintResult {
    if b == [] then TooShort
    else
      var size := ClassSize(b[0]);
      if |b| < size then TooShort else Got(FromBE([b[0] % 0x40] + b[1..size]), size)
  }

  method ReadVarint(b: seq<byte>) returns (r: VarintResult)
    ensures r == Varint(b)
  {
    if |b| == 0 {
      return TooShort;
    }
    var size := ClassSize(b[0]);
    if |b| < size {
      return TooShort;
    }
    var v: nat := b[0] % 0x40;
    var i := 1;
    ghost var s := [b[0] % 0x40] + b[1..size];
    ReadBigEndian(b[0] % 0x40, 0, 0, 0);
    assert s[..1] == [b[0] % 0x40];
    while i < size
      invariant 1 <= i <= size && v == FromBE(s[..i])
    {
      assert s[..i + 1][..i] == s[..i] && s[..i + 1][i] == b[i];
      v := v * 256 + b[i];
      i := i + 1;
    }
    assert s[..size] == s;
    return Got(v, size);
  }

  /** ReadVarint undoes AppendVarint whatever bytes follow, and the length is VarintLen. */
  lemma VarintRoundTrip(v: nat, tail: seq<byte>)
    requires v < MAX_VARINT
    ensures Varint(VarintBytes(v) + tail) == Got(v, VarintLen(v))
  {
    Sizes();
    var s := VarintBytes(v);
    var n := VarintLen(v);
    FromTo(v, n) by { Powers(); }
    if n == 1 {
      assert ToBE(v, 1) == [v] by { assert ToBE(v, 1) == ToBE(v / 256, 0) + [v % 256]; }
    }
    var p := ToBE(v, n);
    assert p == [p[0]] + p[1..];
    assert (s + tail)[1..n] == s[1..n] == p[1..];
  }

  /** Every proper prefix is reported as too short. */
  lemma VarintPrefixTooShort(v: nat, k: nat)
    requires v < MAX_VARINT && k < VarintLen(v)
    ensures Varint(VarintBytes(v)[..k]) == TooShort
  {
    Sizes();
  }

  /** No encoding of the same value that ReadVarint accepts is shorter. */
  lemma VarintIsShortest(b: seq<byte>)
    requires Varint(b).Got?
    ensures Varint(b).v < MAX_VARINT && VarintLen(Varint(b).v) <= Varint(b).n
  {
    Powers();
    var n := ClassSize(b[0]);
    var s := [b[0] % 0x40] + b[1..n];
    LeadBound(s);
    if n == 1 { assert Pow256(0) == 1; }
  }

  lemma {:induction false} LeadBound(s: seq<byte>)
    requires |s| >= 1
    ensures FromBE(s) < (s[0] + 1) * Pow256(|s| - 1)
  {
    if |s| > 1 {
      LeadBound(s[..|s| - 1]);
      var p, x := Pow256(|s| - 2), (s[0] as int) + 1;
      assert FromBE(s[..|s| - 1]) + 1 <= x * p;
      assert 256 * (x * p) == x * (256 * p);
    } else {
      assert s[..0] == [];
    }
  }

  /** Once enough bytes for a decision are there, more do not change it. */
  lemma VarintStable(a: seq<byte>, b: seq<byte>)
    requires Varint(a).Got?
    ensures Varint(a + b) == Varint(a) && 1 <= Varint(a).n <= |a|
  {
    var n := ClassSize(a[0]);
    assert (a + b)[1..n] == a[1..n];
  }

  // ---- length-prefixed content -----------------------------------------------

  datatype ContentResult = ContentTooShort | Content(content: seq<byte>, n: nat)

  function AppendVarintLen(dst: seq<byte>, content: seq<byte>): seq<byte> {
    AppendVarint(dst, |content|) + content
  }

  function ReadVarintLen(b: seq<byte>): ContentResult {
    match Varint(b)
    case TooShort => ContentTooShort
    case Got(l, m) => if m > |b| || |b| - m < l then ContentTooShort else Content(b[m..m + l], m + l)
  }

  lemma VarintLenRoundTrip(content: seq<byte>, tail: seq<byte>)
    requires |content| < MAX_VARINT
    ensures ReadVarintLen(AppendVarintLen([], content) + tail) == Content(content, VarintLen(|content|) + |content|)
  {
    var head := VarintBytes(|content|);
    assert AppendVarintLen([], content) + tail == head + (content + tail);
    VarintRoundTrip(|content|, content + tail);
    assert (head + (content + tail))[|head|..|head| + |content|] == content;
  }

  // ---- frames ------------------------------------------------------------------

  datatype Frame = Frame(ftype: nat, payload: seq<byte>)

  datatype Error = FrameTooLong(length: nat) | Callback(code: int)

  const MAX_FRAME_PAYLOAD := 16 * 1024 * 1024

  /** One cut of FrameParser.Parse: type, length, payload. */
  function CutFrame(p: (), b: seq<byte>): Cut<(), Frame, Error> {
    match Varint(b)
    case TooShort => More
    case Got(ftype, n) =>
      if n > |b| then More
      else
        match Varint(b[n..])
        case TooShort => More
        case Got(length, m) =>
          if length > MAX_FRAME_PAYLOAD then Fail(FrameTooLong(length))
          else if |b| < n + m + length then More
          else Item(Frame(ftype, b[n + m..n + m + length]), n + m + length, ())
  }

  lemma CutFrameStable(a: seq<byte>, b: seq<byte>)
    requires !CutFrame((), a).More?
    ensures CutFrame((), a + b) == CutFrame((), a)
  {
    VarintStable(a, b);
    var n := Varint(a).n;
    assert (a + b)[n..] == a[n..] + b;
    VarintStable(a[n..], b);
    var m, length := Varint(a[n..]).n, Varint(a[n..]).v;
    if n + m + length <= |a| {
      assert (a + b)[n + m..n + m + length] == a[n + m..n + m + length];
    }
  }

  lemma CutFrameLawful()
    ensures Lawful(CutFrame) && CutFrame((), []).More?
  {
    forall p: (), a: seq<byte>, b: seq<byte> {:trigger CutFrame(p, a + b)} | !CutFrame(p, a).More?
      ensures CutFrame(p, a + b) == CutFrame(p, a)
    {
      CutFrameStable(a, b);
    }
  }

  function AppendFrame(dst: seq<byte>, ftype: nat, payload: seq<byte>): seq<byte> {
    AppendVarint(AppendVarint(dst, ftype), |payload|) + payload
  }

  function FrameBytes(f: Frame): seq<byte> {
    AppendFrame([], f.ftype, f.payload)
  }

  predicate FrameOk(p: (), f: Frame) {
    f.ftype < MAX_VARINT && |f.payload| <= MAX_FRAME_PAYLOAD
  }

  function Same(p: (), f: Frame): () { () }

  lemma CutUndoesFrame()
    ensures Undoes(CutFrame, FrameBytes, FrameOk, Same)
  {
    forall p: (), f: Frame, tail: seq<byte> {:trigger CutFrame(p, FrameBytes(f) + tail)} | FrameOk(p, f)
      ensures CutFrame(p, FrameBytes(f) + tail) == Item(f, |FrameBytes(f)|, Same(p, f))
    {
      var t, l := VarintBytes(f.ftype), VarintBytes(|f.payload|);
      var b := FrameBytes(f) + tail;
      assert b == t + (l + f.payload + tail);
      VarintRoundTrip(f.ftype, l + f.payload + tail);
      assert b[|t|..] == l + (f.payload + tail);
      VarintRoundTrip(|f.payload|, f.payload + tail);
      assert b[|t| + |l|..|t| + |l| + |f.payload|] == f.payload;
    }
  }

  /** The parser of one stream, with the bytes that do not make a frame yet. */
  class FrameParser {
    const buf: Buffer

    constructor ()
      ensures buf.Valid() && buf.Contents() == [] && fresh(buf) && fresh(buf.room)
    {
      buf := new Buffer();
    }

    /** The loop over the bytes at hand. */
    static method ParseWork<H>(work: seq<byte>, fn: (H, Frame) -> (H, Option<Error>), h0: H)
        returns (consumed: nat, h: H, err: Option<Error>)
      ensures Lawful(CutFrame)
      ensures var r := Run(CutFrame, fn, (), h0, work); h == r.h && err == r.error && consumed == r.consumed <= |work|
    {
      CutFrameLawful();
      hide *;
      h, err, consumed := h0, None, 0;
      var p := ();
      assert work[0..] == work;
      while true
        invariant consumed <= |work| && err.None?
        invariant var r := Run(CutFrame, fn, p, h, work[consumed..]);
                  Run(CutFrame, fn, (), h0, work) == r.(consumed := consumed + r.consumed)
        decreases |work| - consumed
      {
        Turn(CutFrame, fn, p, h, work, consumed);
        match CutFrame(p, work[consumed..])
        case More => break;
        case Fail(e) =>
          err := Some(e);
          break;
        case Item(i, size, p') =>
          var (h', e) := fn(h, i);
          h := h';
          if e.Some? {
            err := e;
            break;
          }
          consumed, p := consumed + size, p';
      }
    }

    /** Everything handed in counts as consumed: what is not a frame yet is kept, and moved in
        place to the front of the buffer. */
    method Parse<H>(data: seq<byte>, fn: (H, Frame) -> (H, Option<Error>), h0: H)
        returns (n: nat, h: H, err: Option<Error>)
      requires buf.Valid()
      modifies buf, buf.room
      ensures buf.Valid() && (buf.room == old(buf.room) || fresh(buf.room))
      ensures Lawful(CutFrame) && n == |data|
      ensures var r := Run(CutFrame, fn, (), h0, old(buf.Contents()) + data);
              h == r.h && err == r.error && buf.Contents() == (old(buf.Contents()) + data)[r.consumed..]
    {
      hide Lawful, CutFrame, Run;
      var work := buf.Take(data);
      var consumed;
      consumed, h, err := ParseWork(work, fn, h0);
      buf.Leave(work, consumed);
      n := |data|;
    }
  }

  /** However a stream's bytes arrive, the callback sees the same frames, the same first
      error is met and the same bytes are left over. */
  lemma FrameChunking<H>(fn: (H, Frame) -> (H, Option<Error>), h: H, chunks: seq<seq<byte>>)
    ensures Lawful(CutFrame)
    ensures var r := Run(CutFrame, fn, (), h, Concat(chunks));
            Feed(CutFrame, fn, (), h, [], chunks) == Fed(r.p, r.h, Concat(chunks)[r.consumed..], r.error)
  {
    CutFrameLawful();
    hide Lawful, CutFrame;
    ChunkingDoesNotMatter(CutFrame, fn, (), h, [], chunks);
    assert [] + Concat(chunks) == Concat(chunks);
  }

  /** Parsing what AppendFrame wrote gives back the frames, whatever the list. */
  lemma FramesRoundTrip<H>(fn: (H, Frame) -> (H, Option<Error>), h: H, frames: seq<Frame>)
    requires (forall f :: f in frames ==> FrameOk((), f)) && Fold(fn, h, frames).1.None?
    ensures Lawful(CutFrame)
    ensures var r := Run(CutFrame, fn, (), h, PrintAll(FrameBytes, frames));
            r.h == Fold(fn, h, frames).0 && r.consumed == |PrintAll(FrameBytes, frames)| && r.error.None?
  {
    CutFrameLawful();
    CutUndoesFrame();
    AllFramesOk(frames);
    hide Lawful, Undoes, CutFrame, FrameBytes;
    ParserUndoesPrinter(CutFrame, fn, FrameBytes, FrameOk, Same, (), h, frames);
  }

  lemma AllFramesOk(frames: seq<Frame>)
    requires forall f :: f in frames ==> FrameOk((), f)
    ensures AllOk(FrameOk, Same, (), frames)
  {
    if frames != [] { AllFramesOk(frames[1..]); }
  }

  // ---- SETTINGS -------------------------------------------------------------

  datatype Setting = Setting(id: nat, value: nat)

  datatype SettingsResult = BadFrame | Settings(list: seq<Setting>)

  function SettingsPayload(ss: seq<Setting>): seq<byte> {
    if ss == [] then []
    else SettingsPayload(ss[..|ss| - 1]) + VarintBytes(ss[|ss| - 1].id) + VarintBytes(ss[|ss| - 1].value)
  }

  const FRAME_SETTINGS := 0x4

  method AppendSettings(dst: seq<byte>, ss: seq<Setting>) returns (r: seq<byte>)
    ensures r == AppendFrame(dst, 4, SettingsPayload(ss))
  {
    var payload := [];
    for i := 0 to |ss|
      invariant payload == SettingsPayload(ss[..i])
    {
      assert ss[..i + 1][..i] == ss[..i];
      payload := AppendVarint(payload, ss[i].id);
      payload := AppendVarint(payload, ss[i].value);
    }
    assert ss[..|ss|] == ss;
    r := AppendFrame(dst, FRAME_SETTINGS, payload);
  }

  /** One setting at the front of `b` and its length in bytes. */
  function OneSetting(b: seq<byte>): (r: Option<(Setting, nat)>)
    ensures r.Some? ==> 0 < r.value.1 <= |b|
  {
    var id := Varint(b);
    if id.TooShort? || id.n > |b| then None
    else
      var val := Varint(b[id.n..]);
      if val.TooShort? || id.n + val.n > |b| then None else Some((Setting(id.v, val.v), id.n + val.n))
  }

  /** What ParseSettings returns. */
  function ParsedSettings(b: seq<byte>): SettingsResult
    decreases |b|
  {
    if b == [] then Settings([])
    else
      match OneSetting(b)
      case None => BadFrame
      case Some(one) =>
        var rest := ParsedSettings(b[one.1..]);
        if rest.BadFrame? then BadFrame else Settings([one.0] + rest.list)
  }

  lemma VarintWithin(b: seq<byte>)
    ensures Varint(b).Got? ==> 0 < Varint(b).n <= |b|
  {
  }

  method ParseSettings(payload: seq<byte>) returns (r: SettingsResult)
    ensures r == ParsedSettings(payload)
  {
    hide Varint;
    var out: seq<Setting> := [];
    var i := 0;
    assert payload[0..] == payload;
    while i < |payload|
      invariant i <= |payload|
      invariant var rest := ParsedSettings(payload[i..]);
                ParsedSettings(payload) == if rest.BadFrame? then BadFrame else Settings(out + rest.list)
    {
      VarintWithin(payload[i..]);
      var id := ReadVarint(payload[i..]);
      if id.TooShort? { return BadFrame; }
      assert payload[i..][id.n..] == payload[i + id.n..];
      VarintWithin(payload[i + id.n..]);
      var val := ReadVarint(payload[i + id.n..]);
      if val.TooShort? { return BadFrame; }
      assert payload[i..][id.n + val.n..] == payload[i + id.n + val.n..];
      var rest := ParsedSettings(payload[i + id.n + val.n..]);
      if rest.Settings? { assert out + ([Setting(id.v, val.v)] + rest.list)
          == out + [Setting(id.v, val.v)] + rest.list; }
      out := out + [Setting(id.v, val.v)];
      i := i + id.n + val.n;
    }
    assert payload[i..] == [];
    return Settings(out);
  }

  /** ParseSettings undoes AppendSettings on lists of any length. */
  lemma {:induction false} SettingsRoundTrip(ss: seq<Setting>, tail: seq<byte>)
    requires forall s :: s in ss ==> s.id < MAX_VARINT && s.value < MAX_VARINT
    ensures ParsedSettings(SettingsPayload(ss) + tail) ==
              var rest := ParsedSettings(tail); if rest.BadFrame? then BadFrame else Settings(ss + rest.list)
    decreases |ss|
  {
    hide OneSetting, VarintBytes;
    if ss == [] {
      assert SettingsPayload(ss) + tail == tail;
      var rest := ParsedSettings(tail);
      if rest.Settings? { assert [] + rest.list == rest.list; }
    } else {
      var init, s := ss[..|ss| - 1], ss[|ss| - 1];
      var a, b := VarintBytes(s.id), VarintBytes(s.value);
      assert SettingsPayload(ss) + tail == SettingsPayload(init) + (a + b + tail);
      SettingsRoundTrip(init, a + b + tail);
      SettingRoundTrip(s, tail);
      var rest := ParsedSettings(tail);
      if rest.Settings? { assert init + ([s] + rest.list) == ss + rest.list; }
    }
  }

  lemma SettingRoundTrip(s: Setting, tail: seq<byte>)
    requires s.id < MAX_VARINT && s.value < MAX_VARINT
    ensures var b := VarintBytes(s.id) + VarintBytes(s.value);
            OneSetting(b + tail) == Some((s, |b|)) && (b + tail)[|b|..] == tail && b + tail != []
  {
    hide Varint, VarintBytes;
    var a, b := VarintBytes(s.id), VarintBytes(s.value);
    var all := a + b + tail;
    assert all == a + (b + tail);
    VarintRoundTrip(s.id, b + tail);
    assert all[|a|..] == b + tail;
    VarintRoundTrip(s.value, tail);
    Classes(s.id);
  }

  lemma Classes(v: nat)
    requires v < MAX_VARINT
    ensures |VarintBytes(v)| > 0
  {
  }

  /** A payload that ends inside a setting is refused, wherever it is cut. */
  lemma SettingsCutShort(ss: seq<Setting>, x: Setting, k: nat)
    requires forall s :: s in ss ==> s.id < MAX_VARINT && s.value < MAX_VARINT
    requires x.id < MAX_VARINT && x.value < MAX_VARINT && 0 < k < |VarintBytes(x.id) + VarintBytes(x.value)|
    ensures ParsedSettings(SettingsPayload(ss) + (VarintBytes(x.id) + VarintBytes(x.value))[..k]) == BadFrame
  {
    var tail := (VarintBytes(x.id) + VarintBytes(x.value))[..k];
    SettingsRoundTrip(ss, tail);
    SettingCutShort(x, k);
    hide VarintBytes, SettingsPayload, OneSetting;
  }

  lemma SettingCutShort(x: Setting, k: nat)
    requires x.id < MAX_VARINT && x.value < MAX_VARINT && 0 < k < |VarintBytes(x.id) + VarintBytes(x.value)|
    ensures OneSetting((VarintBytes(x.id) + VarintBytes(x.value))[..k]).None?
  {
    var a, b := VarintBytes(x.id), VarintBytes(x.value);
    var tail := (a + b)[..k];
    if k < |a| {
      VarintPrefixTooShort(x.id, k);
      assert tail == a[..k];
    } else {
      assert tail == a + b[..k - |a|];
      VarintRoundTrip(x.id, b[..k - |a|]);
      VarintPrefixTooShort(x.value, k - |a|);
      assert tail[|a|..] == b[..k - |a|];
    }
    hide Varint, VarintBytes;
  }

  // ---- in numbers --------------------------------------------------------------------

  /** The two top bits of the first byte say how many bytes there are, of any value: 1, 2, 4 or
      8; the other bits are the number, most significant byte first. */
  lemma VarintMeans(a: byte, more: seq<byte>)
    ensures Varint([]) == TooShort
    ensures a < 64 ==> Varint([a] + more) == Got(a, 1)
    ensures 64 <= a < 128 ==>
              Varint([a] + more) == if |more| < 1 then TooShort else Got(FromBE([a - 64, more[0]]), 2)
    ensures 128 <= a < 192 ==>
              Varint([a] + more) ==
                if |more| < 3 then TooShort else Got(FromBE([a - 128, more[0], more[1], more[2]]), 4)
    ensures 192 <= a ==>
              Varint([a] + more) ==
                if |more| < 7 then TooShort
                else
                  Got(0x1_0000_0000 * FromBE([a - 192, more[0], more[1], more[2]])
                      + FromBE([more[3], more[4], more[5], more[6]]), 8)
  {
    var b := [a] + more;
    ReadBigEndian(a % 64, 0, 0, 0);
    hide FromBE;
    if a < 64 {
      assert [a % 64] + b[1..1] == [a];
    } else if a < 128 {
      if |more| >= 1 { assert [a % 64] + b[1..2] == [a - 64, more[0]]; }
    } else if a < 192 {
      if |more| >= 3 { assert [a % 64] + b[1..4] == [a - 128, more[0], more[1], more[2]]; }
    } else if |more| >= 7 {
      var h, l := [a - 192, more[0], more[1], more[2]], [more[3], more[4], more[5], more[6]];
      assert [a % 64] + b[1..8] == h + l;
      ReadHalves(h, l);
    }
  }

  /** The bytes of a number: the fewest that hold it. */
  lemma VarintOnTheWire(v: nat)
    ensures v < 0x40 ==> VarintBytes(v) == [v]
    ensures 0x40 <= v < 0x4000 ==> VarintBytes(v) == [0x40 + v / 0x100, v % 0x100]
    ensures 0x4000 <= v < 0x4000_0000 ==>
              VarintBytes(v) == [0x80 + v / 0x100_0000, v / 0x1_0000 % 256, v / 0x100 % 256, v % 256]
    ensures v >= 0x4000_0000_0000_0000 ==> VarintBytes(v) == []
  {
    BigEndian(v);
    hide ToBE;
  }

  /** And those of a large one. */
  lemma LongVarint(v: nat, h: nat)
    requires 0x4000_0000 <= v < 0x4000_0000_0000_0000 && h == v / 0x1_0000_0000
    ensures VarintBytes(v) == [0xc0 + h / 0x100_0000, h / 0x1_0000 % 256, h / 0x100 % 256, h % 256] + ToBE(v, 4)
  {
    BigEndian8(v);
    LongTop(h);
    hide ToBE;
  }

  lemma LongTop(h: nat)
    requires h < 0x4000_0000
    ensures ToBE(h, 4) == [h / 0x100_0000, h / 0x1_0000 % 256, h / 0x100 % 256, h % 256]
  {
    BigEndian(h);
    hide ToBE;
  }

  /** A frame: a number for its type, one for its length, and the payload; more than 2^24 bytes
      are refused as soon as both numbers are there. */
  lemma FrameMeans(ftype: nat, length: nat, t: seq<byte>, l: seq<byte>, rest: seq<byte>)
    requires Varint(t) == Got(ftype, |t|) && Varint(l) == Got(length, |l|)
    ensures CutFrame((), t + l + rest) ==
              if length > 16777216 then Fail(FrameTooLong(length))
              else if |rest| < length then More
              else Item(Frame(ftype, rest[..length]), |t| + |l| + length, ())
  {
    var b := t + l + rest;
    Assoc(t, l, rest);
    VarintStable(t, l + rest);
    VarintStable(l, rest);
    hide Varint;
    assert b[|t|..] == l + rest;
    if |rest| >= length { assert b[|t| + |l|..|t| + |l| + length] == rest[..length]; }
  }

  /** Where one of the two numbers is not there, nothing is decided. */
  lemma FrameIncomplete(ftype: nat, t: seq<byte>, b: seq<byte>)
    requires Varint(b) == TooShort
    ensures CutFrame((), b) == More
    ensures Varint(t) == Got(ftype, |t|) ==> CutFrame((), t + b) == More
  {
    if Varint(t) == Got(ftype, |t|) {
      VarintStable(t, b);
      assert (t + b)[|t|..] == b;
    }
    hide Varint;
  }
}
