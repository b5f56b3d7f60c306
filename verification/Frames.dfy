/** The wire format of `NoiseFramed`: a 16-bit big-endian length, then that many
    bytes. This module is the pure reference parser that the resumable reader refines. */
module Frames {
  import opened Bytes

  const MAX_NOISE_MSG_LEN: nat := 65535
  const EXTRA_ENCRYPT_SPACE: nat := 1024
  const MAX_FRAME_LEN: nat := MAX_NOISE_MSG_LEN - EXTRA_ENCRYPT_SPACE

  /** A message together with its length prefix. */
  function Frame(c: bytes): (w: bytes)
    ensures |w| == 2 + |c|
  {
    ToBeBytes(|c|) + c
  }

  ghost predicate Fits(c: bytes) {
    |c| <= MAX_NOISE_MSG_LEN
  }

  ghost predicate AllFit(cs: seq<bytes>) {
    forall i | 0 <= i < |cs| :: Fits(cs[i])
  }

  ghost predicate NoneEmpty(cs: seq<bytes>) {
    forall i | 0 <= i < |cs| :: cs[i] != []
  }

  ghost predicate AllEmpty(cs: seq<bytes>) {
    forall i | 0 <= i < |cs| :: cs[i] == []
  }

  /** The bytes that a sequence of messages occupies on the wire. */
  function Wire(cs: seq<bytes>): bytes {
    if cs == [] then [] else Frame(cs[0]) + Wire(cs[1..])
  }

  /** The messages that carry data: zero-length frames are skipped by the reader. */
  function Payloads(cs: seq<bytes>): (ps: seq<bytes>)
    ensures NoneEmpty(ps)
  {
    if cs == [] then []
    else if cs[0] == [] then Payloads(cs[1..])
    else [cs[0]] + Payloads(cs[1..])
  }

  datatype Parsed = Parsed(frames: seq<bytes>, rest: bytes)

  /** All complete non-empty frames of `w`, and the incomplete bytes behind them. */
  function Parse(w: bytes): Parsed
    decreases |w|
  {
    if |w| < 2 then Parsed([], w)
    else
      var n := FromBeBytes(w[..2]);
      if |w| < 2 + n then Parsed([], w)
      else
        var tail := Parse(w[2 + n..]);
        if n == 0 then tail else Parsed([w[2..2 + n]] + tail.frames, tail.rest)
  }

  /** `w` holds no complete frame. */
  ghost predicate Incomplete(w: bytes) {
    |w| < 2 || |w| < 2 + FromBeBytes(w[..2])
  }

  lemma FrameHeader(c: bytes, w: bytes)
    requires Fits(c)
    ensures (Frame(c) + w)[..2] == ToBeBytes(|c|)
    ensures FromBeBytes((Frame(c) + w)[..2]) == |c|
    ensures (Frame(c) + w)[2..2 + |c|] == c
    ensures (Frame(c) + w)[2 + |c|..] == w
  {
    BeBytesRoundTrip(|c|);
    var v := Frame(c) + w;
    assert v[..2] == ToBeBytes(|c|);
    assert v[2..2 + |c|] == c;
    assert v[2 + |c|..] == w;
  }

  lemma ParseFrame(c: bytes, w: bytes)
    requires Fits(c)
    ensures Parse(Frame(c) + w)
         == if c == [] then Parse(w) else Parsed([c] + Parse(w).frames, Parse(w).rest)
  {
    FrameHeader(c, w);
  }

  lemma ParseIncomplete(w: bytes)
    requires Incomplete(w)
    ensures Parse(w) == Parsed([], w)
  {
  }

  /** Bytes that hold a complete frame start with that frame. */
  lemma FirstFrame(w: bytes) returns (c: bytes, v: bytes)
    requires !Incomplete(w)
    ensures Fits(c) && w == Frame(c) + v
    ensures Parse(w) == if c == [] then Parse(v) else Parsed([c] + Parse(v).frames, Parse(v).rest)
  {
    var n := FromBeBytes(w[..2]);
    c, v := w[2..2 + n], w[2 + n..];
    BeBytesInjective(w[..2]);
    assert w == w[..2] + c + v;
  }

  lemma {:induction false} WireAppend(a: seq<bytes>, b: seq<bytes>)
    ensures Wire(a + b) == Wire(a) + Wire(b)
  {
    if a == [] {
      assert a + b == b;
    } else {
      assert (a + b)[0] == a[0] && (a + b)[1..] == a[1..] + b;
      WireAppend(a[1..], b);
      assert Frame(a[0]) + (Wire(a[1..]) + Wire(b)) == (Frame(a[0]) + Wire(a[1..])) + Wire(b);
    }
  }

  lemma WireSingle(c: bytes)
    ensures Wire([c]) == Frame(c)
  {
    assert Wire([c]) == Frame(c) + Wire([]);
  }

  lemma {:induction false} PayloadsAppend(a: seq<bytes>, b: seq<bytes>)
    ensures Payloads(a + b) == Payloads(a) + Payloads(b)
  {
    if a == [] {
      assert a + b == b;
    } else {
      assert (a + b)[0] == a[0] && (a + b)[1..] == a[1..] + b;
      PayloadsAppend(a[1..], b);
    }
  }

  lemma {:induction false} PayloadsOfEmpty(cs: seq<bytes>)
    requires AllEmpty(cs)
    ensures Payloads(cs) == []
  {
    if cs != [] {
      PayloadsOfEmpty(cs[1..]);
    }
  }

  lemma {:induction false} PayloadsOfNonEmpty(cs: seq<bytes>)
    requires NoneEmpty(cs)
    ensures Payloads(cs) == cs
  {
    if cs != [] {
      PayloadsOfNonEmpty(cs[1..]);
    }
  }

  /** Round trip: parsing what was framed recovers every non-empty message, in order,
      and whatever follows is parsed as if it stood alone. */
  lemma {:induction false} ParseWire(cs: seq<bytes>, w: bytes)
    requires AllFit(cs)
    ensures Parse(Wire(cs) + w) == Parsed(Payloads(cs) + Parse(w).frames, Parse(w).rest)
  {
    hide Parse;
    var tail := Parse(w);
    if cs == [] {
      assert Wire(cs) + w == w;
      assert Payloads(cs) + tail.frames == tail.frames;
    } else {
      var c, v := cs[0], Wire(cs[1..]) + w;
      assert Wire(cs) + w == Frame(c) + v;
      ParseWire(cs[1..], w);
      ParseFrame(c, v);
      var ps := Payloads(cs[1..]);
      assert c != [] ==> [c] + (ps + tail.frames) == ([c] + ps) + tail.frames;
    }
  }

  /** The reference parser can be suspended anywhere: parsing `a`, keeping the incomplete
      rest, and resuming when `b` arrives gives the same frames as parsing all at once. */
  lemma {:induction false} ParseResumes(a: bytes, b: bytes)
    ensures Parse(a + b).frames == Parse(a).frames + Parse(Parse(a).rest + b).frames
    ensures Parse(a + b).rest == Parse(Parse(a).rest + b).rest
    decreases |a|
  {
    hide Parse;
    if Incomplete(a) {
      ParseIncomplete(a);
    } else {
      var c, v := FirstFrame(a);
      assert Frame(c) + (v + b) == a + b;
      ParseFrame(c, v + b);
      ParseResumes(v, b);
      var fs, gs := Parse(v).frames, Parse(Parse(v).rest + b).frames;
      assert [c] + (fs + gs) == ([c] + fs) + gs;
    }
  }

  lemma {:induction false} ParseRestIncomplete(w: bytes)
    ensures Incomplete(Parse(w).rest)
    decreases |w|
  {
    if !Incomplete(w) {
      ParseRestIncomplete(w[2 + FromBeBytes(w[..2])..]);
    }
  }

  /** Frames are uniquely decodable: if the same bytes are read as frames `fs` with `w`
      left over, and were written as non-empty frames `cs`, then `fs` is a prefix of `cs`
      and `w` is exactly the rest. */
  lemma {:induction false} UniquePrefix(fs: seq<bytes>, w: bytes, cs: seq<bytes>)
    requires AllFit(fs) && AllFit(cs) && NoneEmpty(cs)
    requires Wire(fs) + w == Wire(cs)
    ensures |fs| <= |cs| && fs == cs[..|fs|] && w == Wire(cs[|fs|..])
  {
    if fs == [] {
      assert Wire(fs) + w == w;
      assert cs[|fs|..] == cs;
    } else {
      var v := Wire(fs[1..]) + w;
      assert Wire(fs) + w == Frame(fs[0]) + v;
      FrameHeader(fs[0], v);
      if cs == [] {
        assert false;
      } else {
        FrameHeader(cs[0], Wire(cs[1..]));
        assert fs[0] == cs[0] && v == Wire(cs[1..]);
        UniquePrefix(fs[1..], w, cs[1..]);
        assert cs[|fs|..] == cs[1..][|fs[1..]|..];
        assert fs == [fs[0]] + fs[1..];
        assert cs[..|fs|] == [cs[0]] + cs[1..][..|fs[1..]|];
      }
    }
  }
}
