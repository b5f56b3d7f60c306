/** `NoiseFramed`: a stream and sink of length-delimited Noise messages that can be
    suspended at any byte of a read or a write. */
module NoiseFraming {
  import opened Wrappers
  import opened Bytes
  import opened Frames
  import opened Session
  import opened Transport

  datatype ReadState =
    | ReadReady
    | ReadLen(buf: bytes, off: nat)
    | ReadData(len: nat, off: nat)
    | ReadEof(unexpected: bool)
    | DecErr
  {
    predicate Terminal() {
      ReadEof? || DecErr?
    }
  }

  datatype WriteState =
    | WriteReady
    | WriteLen(len: nat, buf: bytes, off: nat)
    | WriteData(len: nat, off: nat)
    | WriteEof
    | EncErr
  {
    predicate Terminal() {
      WriteEof? || EncErr?
    }
  }

  type NextResult = Poll<Option<IoResult<bytes>>>

  ghost predicate ReadValid(state: ReadState, buffer: bytes) {
    match state
    case ReadLen(buf, off) => |buf| == 2 && off < 2
    case ReadData(len, off) => |buffer| == len && off < len <= MAX_NOISE_MSG_LEN
    case _ => true
  }

  ghost predicate WriteValid(state: WriteState, buffer: bytes) {
    match state
    case WriteLen(len, buf, off) => buf == ToBeBytes(len) && off < 2 && 1 <= len <= MAX_NOISE_MSG_LEN && |buffer| == len
    case WriteData(len, off) => off < len <= MAX_NOISE_MSG_LEN && |buffer| == len
    case _ => true
  }

  /** The bytes of the current frame that the reader has already taken off the transport. */
  ghost function Consumed(state: ReadState, buffer: bytes): bytes
    requires ReadValid(state, buffer)
  {
    match state
    case ReadLen(buf, off) => buf[..off]
    case ReadData(len, off) => ToBeBytes(len) + buffer[..off]
    case _ => []
  }

  /** The bytes of the current frame that the writer still has to hand to the transport. */
  ghost function Unsent(state: WriteState, buffer: bytes): bytes
    requires WriteValid(state, buffer)
  {
    match state
    case WriteLen(len, buf, off) => buf[off..] + buffer
    case WriteData(len, off) => buffer[off..]
    case _ => []
  }

  /** What a reader has ahead of it: `ahead` starts at the first byte of the current frame,
      whether that byte is still in the transport or already in the reader's buffers. */
  datatype ReaderView = ReaderView(state: ReadState, session: Session, ahead: bytes)

  function TerminalResult(state: ReadState): NextResult
    requires state.Terminal()
  {
    match state
    case ReadEof(false) => Ready(None)
    case ReadEof(true) => Ready(Some(Err(UnexpectedEof)))
    case DecErr => Ready(Some(Err(InvalidData)))
  }

  /** The specification of one `poll_next`. Byte for byte, what was ahead is: some empty
      frames that were skipped, then `used`, then what is ahead now. `used` is a whole frame
      exactly when a message or a decryption error is reported; otherwise it is the part of
      a frame that the call gave up on, which is empty for Pending. */
  ghost predicate NextStep(a: ReaderView, r: NextResult, skipped: seq<bytes>, used: bytes, b: ReaderView) {
    && AllEmpty(skipped)
    && a.ahead == Wire(skipped) + used + b.ahead
    && if a.state.Terminal() then b == a && r == TerminalResult(a.state)
       else match r
         case Pending =>
           && (b.state.ReadLen? || b.state.ReadData?) && b.session == a.session && used == []
         case Ready(None) =>
           && b.state == ReadEof(false) && b.session == a.session && |used| < 2
         case Ready(Some(Ok(plain))) =>
           && b.state == ReadReady
           && IsFrame(used)
           && a.session.incoming.open(a.session.received, used[2..]) == Some(plain)
           && b.session == a.session.(received := a.session.received + 1)
         case Ready(Some(Err(InvalidData))) =>
           && b.state == DecErr && b.session == a.session
           && IsFrame(used)
           && a.session.incoming.open(a.session.received, used[2..]) == None
         case Ready(Some(Err(UnexpectedEof))) =>
           && b.state == ReadEof(true) && b.session == a.session
           && |used| >= 2 && Incomplete(used)
         case Ready(Some(Err(TransportError))) =>
           && !b.state.Terminal() && b.session == a.session
           && |used| <= 1 && (used != [] ==> b.state.ReadLen? && b.state.off == 0)
         case Ready(Some(Err(WriteZero))) => false
  }

  /** Why a `poll_next` that started in a live state ended the way it did. */
  ghost predicate NextCause(r: NextResult, answer: Answer) {
    match r
    case Pending => answer == Waited
    case Ready(None) => answer == Moved(0)
    case Ready(Some(Err(UnexpectedEof))) => answer == Moved(0)
    case Ready(Some(Err(TransportError))) => answer == Failure
    case _ => answer.Moved? && answer.n > 0
  }

  /** One arm of the loop: either it ends the call, or the loop goes on from `b`. */
  ghost predicate Arm(a: ReaderView, r: Option<NextResult>, skipped: seq<bytes>, used: bytes, b: ReaderView) {
    match r
    case Some(result) => NextStep(a, result, skipped, used, b)
    case None => Onward(a, skipped, b)
  }

  ghost predicate Onward(a: ReaderView, skipped: seq<bytes>, b: ReaderView) {
    && AllEmpty(skipped)
    && a.ahead == Wire(skipped) + b.ahead
    && b.session == a.session
    && !a.state.Terminal() && !b.state.Terminal()
  }

  lemma OnwardThenStep(a: ReaderView, s: seq<bytes>, m: ReaderView,
                       r: NextResult, t: seq<bytes>, used: bytes, b: ReaderView)
    requires Onward(a, s, m)
    requires NextStep(m, r, t, used, b)
    ensures NextStep(a, r, s + t, used, b)
  {
    WireAppend(s, t);
    assert Wire(s) + (Wire(t) + used + b.ahead) == (Wire(s) + Wire(t)) + used + b.ahead;
  }

  lemma OnwardTwice(a: ReaderView, s: seq<bytes>, m: ReaderView, t: seq<bytes>, b: ReaderView)
    requires Onward(a, s, m)
    requires Onward(m, t, b)
    ensures Onward(a, s + t, b)
  {
    WireAppend(s, t);
    assert Wire(s) + (Wire(t) + b.ahead) == (Wire(s) + Wire(t)) + b.ahead;
  }

  /** The transport suspended the read of a length. */
  lemma SuspendedLen(a: ReaderView, buf: bytes, off: nat, rest: bytes)
    requires !a.state.Terminal() && |buf| == 2 && off < 2
    requires a.ahead == buf[..off] + rest
    ensures NextStep(a, Pending, [], [], ReaderView(ReadLen(buf, off), a.session, a.ahead))
  {
  }

  /** The transport failed during the read of a length: the state is not updated, so a
      byte that was read in this call is gone. */
  lemma FailedLen(a: ReaderView, buf: bytes, off: nat, rest: bytes)
    requires a.state.ReadLen? && |a.state.buf| == |buf| == 2 && a.state.off <= off < 2
    requires a.ahead == buf[..off] + rest
    requires a.state.off <= |a.ahead| && a.ahead[..a.state.off] == a.state.buf[..a.state.off]
    ensures NextStep(a, Ready(Some(Err(TransportError))), [], buf[a.state.off..off],
                     ReaderView(a.state, a.session, a.state.buf[..a.state.off] + rest))
  {
    if a.state.off == 1 {
      assert buf[..1] == a.ahead[..1];
    }
  }

  /** The transport ended between frames, or inside a length. */
  lemma EndInLen(a: ReaderView, header: bytes, rest: bytes)
    requires !a.state.Terminal() && |header| < 2
    requires a.ahead == header + rest
    ensures NextStep(a, Ready(None), [], header, ReaderView(ReadEof(false), a.session, rest))
  {
  }

  ghost function Behind(buf: bytes, n: nat, rest: bytes): bytes {
    if n == 0 then rest else ToBeBytes(n) + rest
  }

  /** A whole length has been read: an empty frame is skipped, any other is entered. */
  lemma CompletedLen(a: ReaderView, buf: bytes, n: nat, rest: bytes)
    requires !a.state.Terminal() && |buf| == 2 && n == FromBeBytes(buf)
    requires a.ahead == buf + rest
    ensures n == 0 ==> Onward(a, [[]], ReaderView(ReadReady, a.session, Behind(buf, n, rest)))
    ensures n > 0 ==> Onward(a, [], ReaderView(ReadData(n, 0), a.session, Behind(buf, n, rest)))
  {
    BeBytesInjective(buf);
    WireSingle([]);
  }

  /** The transport ended inside a frame body. */
  lemma TruncatedBody(a: ReaderView, len: nat, part: bytes, rest: bytes)
    requires !a.state.Terminal()
    requires |part| < len <= MAX_NOISE_MSG_LEN
    requires a.ahead == ToBeBytes(len) + part + rest
    ensures NextStep(a, Ready(Some(Err(UnexpectedEof))), [], ToBeBytes(len) + part,
                     ReaderView(ReadEof(true), a.session, rest))
  {
    BeBytesRoundTrip(len);
    assert (ToBeBytes(len) + part)[..2] == ToBeBytes(len);
    assert Wire([]) + (ToBeBytes(len) + part) + rest == a.ahead;
  }

  /** A frame body was completed by `data`. */
  lemma CompletedBody(len: nat, part: bytes, data: bytes, body: bytes, rest: bytes)
    requires |body| == len && body == part + data
    ensures ToBeBytes(len) + part + (data + rest) == Frame(body) + rest
  {
  }

  /** One non-empty frame, header included. */
  ghost predicate IsFrame(w: bytes) {
    |w| > 2 && w[..2] == ToBeBytes(|w| - 2) && Fits(w[2..])
  }

  /** What a writer still has to hand over to the transport. */
  datatype WriterView = WriterView(state: WriteState, unsent: bytes)

  /** The specification of one `poll_ready`: `moved` are the bytes the transport accepted
      during the call. They are a prefix of what was unsent, and everything behind them
      stays unsent, except when the transport fails after accepting the first length byte:
      the advanced offset is lost, so that byte will be sent again. */
  ghost predicate ReadyStep(a: WriterView, r: Poll<IoResult<()>>, moved: bytes, b: WriterView) {
    if a.state.Terminal() then
      b == a && moved == [] && r == Ready(Err(if a.state.WriteEof? then WriteZero else InvalidData))
    else
      match r
      case Pending => a.unsent == moved + b.unsent && (b.state.WriteLen? || b.state.WriteData?)
      case Ready(Ok(_)) => a.unsent == moved && b == WriterView(WriteReady, [])
      case Ready(Err(WriteZero)) => moved < a.unsent && b == WriterView(WriteEof, [])
      case Ready(Err(TransportError)) =>
        && (b.state.WriteLen? || b.state.WriteData?)
        && (a.unsent == moved + b.unsent || ResendsLengthByte(a, moved, b))
      case Ready(Err(_)) => false
  }

  /** Why a `poll_ready` or `poll_flush` that started in a live state ended the way it did. */
  ghost predicate ReadyCause(r: Poll<IoResult<()>>, answer: Answer) {
    match r
    case Pending => answer == Waited
    case Ready(Err(WriteZero)) => answer == Moved(0)
    case Ready(Err(_)) => answer == Failure
    case Ready(Ok(_)) => true
  }

  ghost predicate ResendsLengthByte(a: WriterView, moved: bytes, b: WriterView) {
    && b == a
    && a.state.WriteLen? && a.state.off == 0
    && |moved| == 1 && moved < a.unsent
  }

  /** One arm of the loop in `poll_ready`: it ends the call, or has moved at least one byte. */
  ghost predicate ReadyArm(a: WriterView, q: Option<Poll<IoResult<()>>>, moved: bytes, b: WriterView) {
    match q
    case Some(r) => ReadyStep(a, r, moved, b)
    case None => moved != [] && ReadyOnward(a, moved, b)
  }

  /** The call is under way: `moved` has gone out, and `b` remains. */
  ghost predicate ReadyOnward(a: WriterView, moved: bytes, b: WriterView) {
    && !a.state.Terminal() && !b.state.Terminal()
    && a.unsent == moved + b.unsent
    && (b.state.WriteLen? ==> moved == [] && b == a)
    && (b.state.WriteReady? ==> b.unsent == [])
  }

  /** What sending the length up to `off'` leaves: the outcome of the arm for each answer. */
  lemma SentLen(len: nat, buf: bytes, off: nat, off': nat, buffer: bytes)
    requires |buf| == 2 && off < 2 && off <= off' <= 2 && buffer != []
    ensures var a, moved := WriterView(WriteLen(len, buf, off), buf[off..] + buffer), buf[off..off'];
      && (off' < 2 ==>
            && ReadyArm(a, Some(Pending), moved, WriterView(WriteLen(len, buf, off'), buf[off'..] + buffer))
            && ReadyArm(a, Some(Ready(Err(TransportError))), moved, a)
            && ReadyArm(a, Some(Ready(Err(WriteZero))), moved, WriterView(WriteEof, [])))
      && (off' == 2 ==> ReadyArm(a, None, moved, WriterView(WriteData(len, 0), buffer[0..])))
  {
    assert buf[off..] == buf[off..off'] + buf[off'..];
    assert buffer[0..] == buffer;
    assert buf[off..] + buffer == buf[off..off'] + (buf[off'..] + buffer);
    if off == off' {
      assert buf[off..off'] == [];
      assert [] + (buf[off..] + buffer) == buf[off..] + buffer;
    }
  }

  lemma NothingUnsent(state: WriteState, buffer: bytes)
    requires WriteValid(state, buffer)
    ensures !state.WriteLen? && !state.WriteData? <==> Unsent(state, buffer) == []
  {
  }

  lemma ReadyStart(a: WriterView)
    requires a.state.WriteReady? ==> a.unsent == []
    ensures a.state.Terminal() ==>
              ReadyStep(a, Ready(Err(if a.state.WriteEof? then WriteZero else InvalidData)), [], a)
    ensures !a.state.Terminal() ==> ReadyOnward(a, [], a)
  {
  }

  lemma ReadyDone(a: WriterView, moved: bytes, b: WriterView)
    requires ReadyOnward(a, moved, b) && b.state.WriteReady?
    ensures ReadyStep(a, Ready(Ok(())), moved, b)
  {
  }

  lemma ReadyCompose(a: WriterView, moved: bytes, m: WriterView,
                     q: Option<Poll<IoResult<()>>>, t: bytes, b: WriterView)
    requires ReadyOnward(a, moved, m)
    requires ReadyArm(m, q, t, b)
    ensures q.Some? ==> ReadyStep(a, q.value, moved + t, b)
    ensures q.None? ==> ReadyOnward(a, moved + t, b) && |b.unsent| < |m.unsent|
  {
    assert m.unsent == t + b.unsent ==> a.unsent == (moved + t) + b.unsent;
    assert t < m.unsent ==> moved + t < a.unsent;
    assert m.state.WriteLen? ==> moved + t == t;
  }

  /** The specification of `poll_flush`: the frame goes out first, then the transport itself
      is flushed, which may suspend or fail without moving anything. */
  ghost predicate FlushStep(a: WriterView, r: Poll<IoResult<()>>, moved: bytes, b: WriterView) {
    || ReadyStep(a, r, moved, b)
    || (ReadyStep(a, Ready(Ok(())), moved, b) && (r.Pending? || r == Ready(Err(TransportError))))
  }

  /** The bytes on the wire and the bytes still unsent are exactly the frames of `plain`, in
      order and sealed under consecutive counters. */
  ghost predicate Faithful(onWire: bytes, unsent: bytes, session: Session, frames: seq<bytes>, plain: seq<bytes>) {
    Sealed(session.outgoing, session.sent, frames, plain) && onWire + unsent == Wire(frames)
  }

  /** `frames` are `plain` sealed under the first `sent` counters. */
  ghost predicate Sealed(cipher: Cipher, sent: nat, frames: seq<bytes>, plain: seq<bytes>) {
    && AllFit(frames) && NoneEmpty(frames)
    && sent == |plain|
    && Opens(cipher, 0, frames, plain)
  }

  lemma FaithfulMove(onWire: bytes, unsent: bytes, moved: bytes, rest: bytes,
                     session: Session, frames: seq<bytes>, plain: seq<bytes>)
    requires Faithful(onWire, unsent, session, frames, plain)
    ensures unsent == moved + rest <==> Faithful(onWire + moved, rest, session, frames, plain)
  {
    assert (onWire + moved) + rest == onWire + (moved + rest);
    assert (onWire + unsent)[|onWire|..] == unsent;
    assert (onWire + (moved + rest))[|onWire|..] == moved + rest;
  }

  lemma FaithfulSeal(onWire: bytes, session: Session, frames: seq<bytes>, plain: seq<bytes>, p: bytes)
    requires Sealed(session.outgoing, session.sent, frames, plain)
    requires session.outgoing.Sound() && |p| <= MAX_FRAME_LEN
    requires session.outgoing.seal(session.sent, p).Some?
    ensures var c := session.outgoing.seal(session.sent, p).value;
      && Sealed(session.outgoing, session.sent + 1, frames + [c], plain + [p])
      && (Faithful(onWire, [], session, frames, plain) ==>
            Faithful(onWire, Frame(c), session.(sent := session.sent + 1), frames + [c], plain + [p]))
  {
    var c := session.outgoing.seal(session.sent, p).value;
    OpensAppend(session.outgoing, 0, frames, plain, c, p);
    WireAppend(frames, [c]);
    WireSingle(c);
  }

  /** Parsing and opening the whole wire recovers every plaintext once nothing is unsent. */
  lemma FaithfulDecodes(onWire: bytes, session: Session, frames: seq<bytes>, plain: seq<bytes>)
    requires Faithful(onWire, [], session, frames, plain)
    ensures Parse(onWire) == Parsed(frames, [])
    ensures OpenAll(session.outgoing, 0, Parse(onWire).frames) == plain
  {
    ParseWire(frames, []);
    PayloadsOfNonEmpty(frames);
    assert onWire + [] == onWire && Wire(frames) + [] == Wire(frames);
    assert frames + [] == frames;
    OpenAllOpens(session.outgoing, 0, frames, plain);
  }

  /** `NoiseFramed<T, S>` over a duplex transport. */
  class NoiseFramed {
    const rx: Pipe
    const tx: Pipe
    var session: Session
    var readState: ReadState
    var writeState: WriteState
    var readBuffer: bytes
    var writeBuffer: bytes

    /** History: where on the wire this object started, and every frame it sealed since. */
    ghost const base: nat
    ghost var frames: seq<bytes>
    ghost var plain: seq<bytes>

    constructor (rx: Pipe, tx: Pipe, session: Session, readBuffer: bytes, writeBuffer: bytes)
      requires rx.Valid() && tx.Valid() && session.sent == 0
      ensures Valid()
      ensures this.rx == rx && this.tx == tx && this.session == session
      ensures readState == ReadReady && writeState == WriteReady
      ensures base == |tx.written| && plain == [] && Intact()
    {
      this.rx, this.tx, this.session := rx, tx, session;
      readState, writeState := ReadReady, WriteReady;
      this.readBuffer, this.writeBuffer := readBuffer, writeBuffer;
      base, frames, plain := |tx.written|, [], [];
    }

    /** Everything this object sealed is on the wire or about to be, byte for byte. */
    ghost predicate Intact()
      requires Valid()
      reads this, rx, tx
    {
      base <= |tx.written| && Faithful(tx.written[base..], Writer().unsent, session, frames, plain)
    }

    ghost predicate Valid()
      reads this, rx, tx
    {
      && rx.Valid() && tx.Valid()
      && ReadValid(readState, readBuffer)
      && WriteValid(writeState, writeBuffer)
      && Sealed(session.outgoing, session.sent, frames, plain)
    }

    ghost function Reader(): ReaderView
      requires Valid()
      reads this, rx, tx
    {
      ReaderView(readState, session, Consumed(readState, readBuffer) + rx.InFlight())
    }

    /** `read_frame_len`: on Pending the buffer and offset must be kept by the caller. */
    method ReadFrameLen(buf: bytes, off: nat)
      returns (r: Poll<IoResult<Option<nat>>>, buf': bytes, off': nat)
      requires rx.Valid()
      requires |buf| == 2 && off < 2
      modifies rx`taken, rx`lastRead
      ensures rx.Valid()
      ensures |buf'| == 2 && off <= off' <= 2
      ensures buf[..off] + old(rx.InFlight()) == buf'[..off'] + rx.InFlight()
      ensures off' == 2 <==> r.Ready? && r.value.Ok? && r.value.value.Some?
      ensures off' == 2 ==> r.value.value.value == FromBeBytes(buf')
      ensures r.Ready? && r.value.Err? ==> r.value.error == TransportError
      ensures rx.lastRead == match r
                             case Pending => Waited
                             case Ready(Err(_)) => Failure
                             case Ready(Ok(None)) => Moved(0)
                             case Ready(Ok(Some(_))) => rx.lastRead
    {
      buf', off' := buf, off;
      while true
        invariant rx.Valid()
        invariant |buf'| == 2 && off <= off' < 2
        invariant buf[..off] + old(rx.InFlight()) == buf'[..off'] + rx.InFlight()
        decreases 2 - off'
      {
        ghost var before := rx.InFlight();
        var p := rx.PollRead(2 - off');
        match p {
          case Pending => return Pending, buf', off';
          case Ready(Err(e)) => return Ready(Err(e)), buf', off';
          case Ready(Ok(data)) =>
            if data == [] {
              return Ready(Ok(None)), buf', off';
            }
            assert buf'[..off'] + before == buf'[..off'] + data + rx.InFlight();
            buf' := Splice(buf', off', data);
            off' := off' + |data|;
            if off' == 2 {
              return Ready(Ok(Some(FromBeBytes(buf')))), buf', off';
            }
        }
      }
    }

    /** The `ReadLen` arm of the loop in `poll_next`; `None` goes round the loop again. */
    method PollLen() returns (r: Option<NextResult>, ghost skipped: seq<bytes>, ghost used: bytes)
      requires Valid() && readState.ReadLen?
      modifies `readState, `readBuffer, rx`taken, rx`lastRead
      ensures Valid()
      ensures Arm(old(Reader()), r, skipped, used, Reader())
      ensures r.Some? ==> NextCause(r.value, rx.lastRead)
      ensures r.None? ==> |rx.InFlight()| < |old(rx.InFlight())|
    {
      hide NextStep;
      hide Onward;
      hide FromBeBytes;
      skipped, used := [], [];
      ghost var before := Reader();
      var buf, off := readState.buf, readState.off;
      var p, buf', off' := ReadFrameLen(buf, off);
      match p {
        case Pending =>
          SuspendedLen(before, buf', off', rx.InFlight());
          readState := ReadLen(buf', off');
          r := Some(Pending);
        case Ready(Err(e)) =>
          FailedLen(before, buf', off', rx.InFlight());
          used := buf'[off..off'];
          r := Some(Ready(Some(Err(e))));
        case Ready(Ok(None)) =>
          EndInLen(before, buf'[..off'], rx.InFlight());
          readState := ReadEof(false);
          assert Reader().ahead == rx.InFlight();
          used := buf'[..off'];
          r := Some(Ready(None));
        case Ready(Ok(Some(n))) =>
          assert buf'[..off'] == buf';
          CompletedLen(before, buf', n, rx.InFlight());
          if n == 0 {
            readState := ReadReady;
            skipped := [[]];
          } else {
            readBuffer := seq(n, _ => 0);
            readState := ReadData(n, 0);
          }
          assert Reader().ahead == Behind(buf', n, rx.InFlight());
          r := None;
      }
    }

    /** Decrypts the completed frame in the read buffer. */
    method OpenFrame(ghost before: ReaderView, ghost after: bytes) returns (r: NextResult)
      requires 1 <= |readBuffer| <= MAX_NOISE_MSG_LEN
      requires !before.state.Terminal() && before.session == session
      requires before.ahead == Frame(readBuffer) + after
      modifies `session, `readState
      ensures session == old(session).(received := session.received)
      ensures readState == ReadReady || readState == DecErr
      ensures NextStep(before, r, [], Frame(readBuffer), ReaderView(readState, session, after))
      ensures r == Ready(Some(Err(InvalidData))) || (r.Ready? && r.value.Some? && r.value.value.Ok?)
    {
      BeBytesRoundTrip(|readBuffer|);
      assert Frame(readBuffer)[2..] == readBuffer;
      match session.incoming.open(session.received, readBuffer) {
        case Some(plain) =>
          session := session.(received := session.received + 1);
          readState := ReadReady;
          return Ready(Some(Ok(plain)));
        case None =>
          readState := DecErr;
          return Ready(Some(Err(InvalidData)));
      }
    }

    /** Stores `data` as the next bytes of the frame body, and opens the frame once it is full. */
    method TakeBody(data: bytes, ghost before: ReaderView) returns (r: Option<NextResult>, ghost used: bytes)
      requires Valid() && readState.ReadData?
      requires 1 <= |data| <= readState.len - readState.off
      requires !before.state.Terminal() && before.session == session
      requires before.ahead == ToBeBytes(readState.len) + readBuffer[..readState.off] + (data + rx.InFlight())
      requires rx.lastRead == Moved(|data|)
      modifies `session, `readState, `readBuffer
      ensures Valid()
      ensures Arm(before, r, [], used, Reader())
      ensures r.Some? ==> NextCause(r.value, rx.lastRead)
    {
      used := [];
      var len, off := readState.len, readState.off;
      ghost var part := readBuffer[..off];
      readBuffer := Splice(readBuffer, off, data);
      if off + |data| < len {
        readState := ReadData(len, off + |data|);
        assert Reader().ahead == before.ahead;
        r := None;
      } else {
        CompletedBody(len, part, data, readBuffer, rx.InFlight());
        used := Frame(readBuffer);
        var result := OpenFrame(before, rx.InFlight());
        r := Some(result);
      }
    }

    /** The `ReadData` arm of the loop in `poll_next`. */
    method PollData() returns (r: Option<NextResult>, ghost used: bytes)
      requires Valid() && readState.ReadData?
      modifies `session, `readState, `readBuffer, rx`taken, rx`lastRead
      ensures Valid()
      ensures Arm(old(Reader()), r, [], used, Reader())
      ensures r.Some? ==> NextCause(r.value, rx.lastRead)
      ensures r.None? ==> |rx.InFlight()| < |old(rx.InFlight())|
    {
      used := [];
      var len, off := readState.len, readState.off;
      ghost var before, part := Reader(), readBuffer[..off];
      var p := rx.PollRead(len - off);
      match p {
        case Pending => return Some(Pending), used;
        case Ready(Err(e)) => return Some(Ready(Some(Err(e)))), used;
        case Ready(Ok(data)) =>
          if data == [] {
            TruncatedBody(before, len, part, rx.InFlight());
            readState := ReadEof(true);
            return Some(Ready(Some(Err(UnexpectedEof)))), ToBeBytes(len) + part;
          }
          r, used := TakeBody(data, before);
      }
    }

    /** `Stream::poll_next`. */
    method PollNext() returns (r: NextResult, ghost skipped: seq<bytes>, ghost used: bytes)
      requires Valid()
      modifies `session, `readState, `readBuffer, rx`taken, rx`lastRead
      ensures Valid()
      ensures NextStep(old(Reader()), r, skipped, used, Reader())
      ensures if old(readState).Terminal() then rx.taken == old(rx.taken) && rx.lastRead == old(rx.lastRead)
              else NextCause(r, rx.lastRead)
    {
      skipped, used := [], [];
      if readState.Terminal() {
        return TerminalResult(readState), skipped, used;
      }
      while true
        invariant Valid()
        invariant Onward(old(Reader()), skipped, Reader())
        decreases |rx.InFlight()|, readState.ReadReady?
      {
        ghost var m := Reader();
        if readState.ReadReady? {
          readState := ReadLen([0, 0], 0);
        } else {
          var q: Option<NextResult>;
          ghost var t: seq<bytes> := [];
          if readState.ReadLen? {
            q, t, used := PollLen();
          } else {
            q, used := PollData();
          }
          match q {
            case Some(result) =>
              OnwardThenStep(old(Reader()), skipped, m, result, t, used, Reader());
              return result, skipped + t, used;
            case None =>
              OnwardTwice(old(Reader()), skipped, m, t, Reader());
              skipped := skipped + t;
          }
        }
      }
    }

    ghost function Writer(): WriterView
      requires Valid()
      reads this, rx, tx
    {
      WriterView(writeState, Unsent(writeState, writeBuffer))
    }

    /** `write_frame_len`: on Pending the offset must be kept by the caller. */
    method WriteFrameLen(buf: bytes, off: nat) returns (r: Poll<IoResult<bool>>, off': nat)
      requires tx.Valid()
      requires |buf| == 2 && off < 2
      modifies tx`written, tx`lastWrite
      ensures tx.Valid()
      ensures off <= off' <= 2
      ensures tx.written == old(tx.written) + buf[off..off']
      ensures off' == 2 <==> r == Ready(Ok(true))
      ensures r.Ready? && r.value.Err? ==> r.value.error == TransportError
      ensures r.Pending? ==> tx.lastWrite == Waited
      ensures r.Ready? && r.value.Err? ==> tx.lastWrite == Failure
      ensures r.Ready? && r.value.Ok? && !r.value.value ==> tx.lastWrite == Moved(0)
    {
      off' := off;
      while true
        invariant tx.Valid()
        invariant off <= off' < 2
        invariant tx.written == old(tx.written) + buf[off..off']
        decreases 2 - off'
      {
        var p := tx.PollWrite(buf[off'..]);
        match p {
          case Pending => return Pending, off';
          case Ready(Err(e)) => return Ready(Err(e)), off';
          case Ready(Ok(n)) =>
            if n == 0 {
              return Ready(Ok(false)), off';
            }
            assert buf[off..off' + n] == buf[off..off'] + buf[off'..][..n];
            off' := off' + n;
            if off' == 2 {
              return Ready(Ok(true)), off';
            }
        }
      }
    }

    /** The `WriteLen` arm of the loop in `poll_ready`. */
    method ReadyLen() returns (r: Option<Poll<IoResult<()>>>, ghost moved: bytes)
      requires Valid() && writeState.WriteLen?
      modifies `writeState, tx`written, tx`lastWrite
      ensures Valid()
      ensures tx.written == old(tx.written) + moved
      ensures ReadyArm(old(Writer()), r, moved, Writer())
      ensures r.Some? ==> ReadyCause(r.value, tx.lastWrite)
    {
      hide ToBeBytes;
      hide ReadyArm;
      var len, buf, off := writeState.len, writeState.buf, writeState.off;
      var p, off' := WriteFrameLen(buf, off);
      moved := buf[off..off'];
      SentLen(len, buf, off, off', writeBuffer);
      match p {
        case Pending =>
          writeState := WriteLen(len, buf, off');
          r := Some(Pending);
        case Ready(Err(e)) =>
          r := Some(Ready(Err(e)));
        case Ready(Ok(sent)) =>
          if sent {
            writeState := WriteData(len, 0);
            r := None;
          } else {
            writeState := WriteEof;
            r := Some(Ready(Err(WriteZero)));
          }
      }
    }

    /** The `WriteData` arm of the loop in `poll_ready`. */
    method ReadyData() returns (r: Option<Poll<IoResult<()>>>, ghost moved: bytes)
      requires Valid() && writeState.WriteData?
      modifies `writeState, tx`written, tx`lastWrite
      ensures Valid()
      ensures tx.written == old(tx.written) + moved
      ensures ReadyArm(old(Writer()), r, moved, Writer())
      ensures r.Some? ==> ReadyCause(r.value, tx.lastWrite)
    {
      var len, off := writeState.len, writeState.off;
      hide ToBeBytes;
      moved := [];
      assert writeBuffer[off..len] == writeBuffer[off..];
      var p := tx.PollWrite(writeBuffer[off..len]);
      match p {
        case Pending => r := Some(Pending);
        case Ready(Err(e)) => r := Some(Ready(Err(e)));
        case Ready(Ok(n)) =>
          if n == 0 {
            writeState := WriteEof;
            r := Some(Ready(Err(WriteZero)));
          } else {
            moved := writeBuffer[off..][..n];
            assert writeBuffer[off..] == moved + writeBuffer[off + n..];
            writeState := if off + n == len then WriteReady else WriteData(len, off + n);
            r := None;
          }
      }
    }

    /** What went out is still exactly the sealed frames if and only if nothing was repeated. */
    twostate lemma StillIntact(moved: bytes)
      requires old(Valid()) && Valid()
      requires unchanged(`session) && unchanged(`frames) && unchanged(`plain)
      requires tx.written == old(tx.written) + moved
      ensures old(Intact()) ==> (Intact() <==> old(Writer()).unsent == moved + Writer().unsent)
    {
      hide Faithful;
      if old(Intact()) {
        assert tx.written[base..] == old(tx.written)[base..] + moved;
        FaithfulMove(old(tx.written)[base..], old(Writer()).unsent, moved, Writer().unsent, session, frames, plain);
      }
    }

    /** `Sink::poll_ready`. */
    method PollReady() returns (r: Poll<IoResult<()>>, ghost moved: bytes)
      requires Valid()
      modifies `writeState, tx`written, tx`lastWrite
      ensures Valid()
      ensures tx.written == old(tx.written) + moved
      ensures ReadyStep(old(Writer()), r, moved, Writer())
      ensures !old(writeState).Terminal() ==> ReadyCause(r, tx.lastWrite)
      ensures old(Intact()) ==> (Intact() <==> old(Writer()).unsent == moved + Writer().unsent)
    {
      hide Intact;
      hide Unsent;
      hide ReadyStep;
      moved := [];
      NothingUnsent(writeState, writeBuffer);
      ReadyStart(Writer());
      if writeState.Terminal() {
        return Ready(Err(if writeState.WriteEof? then WriteZero else InvalidData)), moved;
      }
      while !writeState.WriteReady?
        invariant Valid()
        invariant tx.written == old(tx.written) + moved
        invariant ReadyOnward(old(Writer()), moved, Writer())
        decreases |Writer().unsent|
      {
        ghost var m := Writer();
        var q: Option<Poll<IoResult<()>>>;
        ghost var t: bytes;
        if writeState.WriteLen? {
          q, t := ReadyLen();
        } else {
          q, t := ReadyData();
        }
        ReadyCompose(old(Writer()), moved, m, q, t, Writer());
        moved := moved + t;
        if q.Some? {
          StillIntact(moved);
          return q.value, moved;
        }
      }
      StillIntact(moved);
      ReadyDone(old(Writer()), moved, Writer());
      r := Ready(Ok(()));
    }

    /** `Sink::start_send`. Both preconditions on the frame and the state are assertions of
        the code, which panics when they fail. */
    method StartSend(frame: bytes) returns (r: IoResult<()>)
      requires Valid()
      requires |frame| <= MAX_FRAME_LEN && writeState.WriteReady?
      requires session.outgoing.Sound()
      modifies `session, `writeState, `writeBuffer, `frames, `plain
      ensures Valid()
      ensures match old(session).outgoing.seal(old(session).sent, frame)
              case Some(c) =>
                && r == Ok(())
                && session == old(session).(sent := old(session).sent + 1)
                && Writer() == WriterView(WriteLen(|c|, ToBeBytes(|c|), 0), Frame(c))
                && plain == old(plain) + [frame]
                && (old(Intact()) ==> Intact())
              case None =>
                && r == Err(InvalidData)
                && writeState == EncErr
                && session == old(session) && plain == old(plain)
    {
      match session.outgoing.seal(session.sent, frame) {
        case Some(c) =>
          BeBytesRoundTrip(|c|);
          FaithfulSeal(if base <= |tx.written| then tx.written[base..] else [], session, frames, plain, frame);
          writeBuffer := c;
          writeState := WriteLen(|c|, ToBeBytes(|c|), 0);
          session := session.(sent := session.sent + 1);
          frames, plain := frames + [c], plain + [frame];
          assert ToBeBytes(|c|)[0..] == ToBeBytes(|c|);
          r := Ok(());
        case None =>
          writeState := EncErr;
          r := Err(InvalidData);
      }
    }

    /** `Sink::poll_flush`. */
    method PollFlush() returns (r: Poll<IoResult<()>>, ghost moved: bytes)
      requires Valid()
      modifies `writeState, tx`written, tx`lastWrite, tx`flushed
      ensures Valid()
      ensures tx.written == old(tx.written) + moved
      ensures FlushStep(old(Writer()), r, moved, Writer())
      ensures !old(writeState).Terminal() ==> ReadyCause(r, tx.lastWrite)
      ensures if r.Ready? && r.value.Ok? then tx.lastWrite == Flushed && tx.flushed == |tx.written|
              else tx.flushed == old(tx.flushed)
      ensures old(Intact()) ==> (Intact() <==> old(Writer()).unsent == moved + Writer().unsent)
    {
      r, moved := PollReady();
      if r.Ready? && r.value.Ok? {
        r := tx.PollFlush();
      }
    }

    /** `Sink::poll_close`. */
    method PollClose() returns (r: Poll<IoResult<()>>, ghost moved: bytes)
      requires Valid()
      modifies `writeState, tx`written, tx`lastWrite, tx`flushed, tx`closed
      ensures Valid()
      ensures tx.written == old(tx.written) + moved
      ensures FlushStep(old(Writer()), r, moved, Writer())
      ensures !old(writeState).Terminal() ==> ReadyCause(r, tx.lastWrite)
      ensures if r.Ready? && r.value.Ok? then tx.lastWrite == Closed && tx.closed && tx.flushed == |tx.written|
              else tx.closed == old(tx.closed)
      ensures old(Intact()) ==> (Intact() <==> old(Writer()).unsent == moved + Writer().unsent)
    {
      r, moved := PollFlush();
      if r.Ready? && r.value.Ok? {
        r := tx.PollClose();
      }
    }

    /** `into_transport`: `transport` is what the handshake session turns into, or `None` while
        the handshake is incomplete. The read and write states are reset whatever they were:
        the bytes of a frame in progress survive exactly when there is none. */
    method IntoTransport(transport: Option<Session>) returns (r: Option<NoiseFramed>)
      requires Valid()
      requires transport.Some? ==> transport.value.sent == 0
      ensures r.Some? <==> transport.Some?
      ensures r.Some? ==>
        && fresh(r.value) && r.value.Valid() && r.value.Intact()
        && r.value.rx == rx && r.value.tx == tx && r.value.session == transport.value
        && r.value.plain == [] && r.value.base == |tx.written|
        && r.value.Reader() == ReaderView(ReadReady, transport.value, rx.InFlight())
        && r.value.Writer() == WriterView(WriteReady, [])
        && (r.value.Reader().ahead == Reader().ahead <==> Consumed(readState, readBuffer) == [])
    {
      match transport {
        case None => r := None;
        case Some(session) =>
          var io := new NoiseFramed(rx, tx, session, readBuffer, writeBuffer);
          assert io.Reader().ahead == rx.InFlight();
          r := Some(io);
      }
    }
  }
}
