/** `NoiseOutput`: a byte stream over `NoiseFramed`, with one send and one receive buffer. */
module NoiseStream {
  import opened Wrappers
  import opened Bytes
  import opened Frames
  import opened Session
  import opened Transport
  import opened NoiseFraming

  class NoiseOutput {
    const io: NoiseFramed
    var recvBuffer: bytes
    var recvOffset: nat
    var sendBuffer: bytes
    var sendOffset: nat

    /** History: the bytes taken from and handed to the caller, the frames read (empty ones
        included) since position `origin` of the wire, and the plaintexts they opened to. */
    ghost var accepted: bytes
    ghost var delivered: bytes
    ghost const origin: nat
    ghost var readFrames: seq<bytes>
    ghost var messages: seq<bytes>

    constructor (io: NoiseFramed)
      requires io.Valid() && io.plain == [] && io.session.received == 0
      requires io.readState == ReadReady
      ensures Valid() && this.io == io
      ensures accepted == [] && delivered == [] && InStep() && origin == io.rx.taken
    {
      this.io := io;
      recvBuffer, recvOffset, sendBuffer, sendOffset := [], 0, [], 0;
      accepted, delivered, origin, readFrames, messages := [], [], io.rx.taken, [], [];
    }

    ghost predicate SendValid()
      reads this, io
    {
      && (sendOffset == 0 || sendOffset == |sendBuffer|)
      && sendOffset <= MAX_FRAME_LEN
      && accepted == Concat(io.plain) + Buffered(sendBuffer, sendOffset)
    }

    /** The ciphertext of the send buffer as the next frame, if the cipher can seal it. */
    ghost function NextCipher(): Option<bytes>
      reads this, io
    {
      io.session.outgoing.seal(io.session.sent, sendBuffer)
    }

    ghost predicate RecvValid()
      reads this, io
    {
      && (recvBuffer == [] || recvOffset < |recvBuffer|)
      && io.session.received == |messages|
      && AllFit(readFrames)
      && Opens(io.session.incoming, 0, Payloads(readFrames), messages)
      && delivered + Unread(recvBuffer, recvOffset) == Concat(messages)
    }

    ghost predicate Valid()
      reads this, io, io.rx, io.tx
    {
      io.Valid() && SendValid() && RecvValid()
    }

    /** No byte of the incoming wire has been lost: it is the frames read so far, and what
        is still ahead of the reader. */
    ghost predicate InStep()
      requires io.Valid()
      reads this, io, io.rx, io.tx
    {
      && origin <= |io.rx.written|
      && io.rx.written[origin..] == Wire(readFrames) + io.Reader().ahead
    }

    /** The incoming wire is the frames read so far, the bytes just given up on, and what is
        still ahead of the reader. */
    ghost predicate Accounted(used: bytes)
      requires io.Valid()
      reads this, io, io.rx, io.tx
    {
      && origin <= |io.rx.written|
      && io.rx.written[origin..] == Wire(readFrames) + used + io.Reader().ahead
    }

    lemma NothingGivenUp()
      requires io.Valid()
      ensures InStep() ==> Accounted([])
    {
      hide Wire;
      hide NoiseFramed.Reader;
      assert Wire(readFrames) + [] == Wire(readFrames);
    }

    /** The branch of `poll_read` that serves the caller from the current frame. */
    method CopyOut(buf: array<byte>) returns (n: nat)
      requires Valid() && recvBuffer != []
      modifies `recvBuffer, `recvOffset, `delivered, buf
      ensures Valid()
      ensures n == Min(|old(recvBuffer)| - old(recvOffset), buf.Length)
      ensures delivered == old(delivered) + buf[..n]
      ensures buf[n..] == old(buf[n..])
      ensures InStep() == old(InStep())
    {
      hide Sealed;
      hide NoiseFramed.Valid;
      hide NoiseFramed.Reader;
      hide Wire;
      hide Payloads;
      hide Buffered;
      hide Unread;
      hide Opens;
      hide Concat;
      hide AllFit;
      n := Min(|recvBuffer| - recvOffset, buf.Length);
      forall i | 0 <= i < n {
        buf[i] := recvBuffer[recvOffset + i];
      }
      ghost var copied := buf[..n];
      assert copied == recvBuffer[recvOffset..recvOffset + n];
      UnreadSplit(delivered, recvBuffer, recvOffset, n);
      delivered := delivered + copied;
      recvOffset := recvOffset + n;
      if |recvBuffer| == recvOffset {
        recvBuffer := [];
      }
    }

    /** The branch of `poll_read` that fetches the next frame; `None` goes round the loop
        again. `used` are bytes of the wire that were given up on. */
    method Fetch() returns (r: Option<Poll<IoResult<nat>>>, ghost used: bytes)
      requires Valid() && recvBuffer == []
      modifies `recvBuffer, `recvOffset, `readFrames, `messages
      modifies io`session, io`readState, io`readBuffer, io.rx`taken, io.rx`lastRead
      ensures Valid()
      ensures io.session == old(io.session).(received := |messages|)
      ensures old(messages) <= messages && old(readFrames) <= readFrames
      ensures r.None? ==> used == [] && |io.Reader().ahead| < |old(io.Reader()).ahead| && !io.readState.Terminal()
      ensures r.Some? ==> recvBuffer == [] && FetchEnds(r.value, used, io.readState, io.session)
      ensures old(io.readState).Terminal() ==>
                r == Some(EndResult(old(io.readState))) && io.rx.taken == old(io.rx.taken)
      ensures !old(io.readState).Terminal() ==>
                if r.Some? then FetchCause(r.value, used, io.rx.lastRead)
                else io.rx.lastRead.Moved? && io.rx.lastRead.n > 0
      ensures old(InStep()) ==> Accounted(used) && (InStep() <==> used == [])
    {
      hide NextStep;
      hide Wire;
      hide Payloads;
      hide Opens;
      hide Concat;
      hide IsFrame;
      hide NoiseFramed.Valid;
      hide Buffered;
      hide FetchEnds;
      hide FetchCause;
      hide NextCause;
      hide Sealed;
      hide AllFit;
      ghost var a, frames := io.Reader(), readFrames;
      ghost var wire := if origin <= |io.rx.written| then io.rx.written[origin..] else [];
      ghost var skipped: seq<bytes>;
      var p;
      p, skipped, used := io.PollNext();
      FetchFacts(a, p, skipped, used, io.Reader());
      CauseFacts(a, p, skipped, used, io.Reader(), io.rx.lastRead);
      WireAfter(wire, frames, a, p, skipped, used, io.Reader());
      PayloadsAppend(frames, skipped);
      FitsAppend(frames, skipped, used);
      assert Payloads(frames) + [] == Payloads(frames);
      match p {
        case Pending => r := Some(Pending);
        case Ready(None) => r := Some(Ready(Ok(0)));
        case Ready(Some(Err(e))) => r := Some(Ready(Err(e)));
        case Ready(Some(Ok(frame))) =>
          skipped, used := skipped + [used[2..]], [];
          MessageAfter(io.session.incoming, frames, skipped, messages, frame, delivered);
          messages := messages + [frame];
          recvBuffer, recvOffset := frame, 0;
          r := None;
      }
      readFrames := readFrames + skipped;
    }

    /** `AsyncRead::poll_read`. */
    method PollRead(buf: array<byte>) returns (r: Poll<IoResult<nat>>, ghost used: bytes)
      requires Valid()
      modifies `recvBuffer, `recvOffset, `readFrames, `messages, `delivered, buf
      modifies io`session, io`readState, io`readBuffer, io.rx`taken, io.rx`lastRead
      ensures Valid()
      ensures io.session == old(io.session).(received := |messages|)
      ensures old(messages) <= messages && old(readFrames) <= readFrames
      ensures ReadOutcome(r, used, io.readState, io.session, old(delivered), delivered, old(buf[..]), buf[..])
      ensures old(recvBuffer) != [] ==>
                && r == Ready(Ok(Min(|old(recvBuffer)| - old(recvOffset), buf.Length)))
                && used == [] && messages == old(messages)
                && io.rx.taken == old(io.rx.taken) && io.readState == old(io.readState)
      ensures old(recvBuffer) == [] && old(io.readState).Terminal() ==>
                r == EndResult(old(io.readState)) && io.rx.taken == old(io.rx.taken)
      ensures old(recvBuffer) == [] && !old(io.readState).Terminal() ==>
                || (FetchCause(r, used, io.rx.lastRead) && delivered == old(delivered))
                || (Done(r) && io.rx.lastRead.Moved? && io.rx.lastRead.n > 0 && !io.readState.Terminal())
      ensures old(InStep()) ==> Accounted(used) && (InStep() <==> used == [])
    {
      hide NoiseFramed.Valid;
      hide SendValid;
      hide InStep;
      hide FetchEnds;
      hide FetchCause;
      hide Opens;
      hide Payloads;
      hide Concat;
      hide AllFit;
      used := [];
      while recvBuffer == []
        invariant Valid()
        invariant io.session == old(io.session).(received := |messages|)
        invariant old(messages) <= messages && old(readFrames) <= readFrames
        invariant used == [] && delivered == old(delivered) && buf[..] == old(buf[..])
        invariant old(InStep()) ==> InStep()
        invariant old(recvBuffer) != [] ==>
                    && recvBuffer == old(recvBuffer) && recvOffset == old(recvOffset)
                    && messages == old(messages)
                    && io.rx.taken == old(io.rx.taken) && io.readState == old(io.readState)
        invariant old(recvBuffer) == [] && !old(io.readState).Terminal() ==>
                    && !io.readState.Terminal()
                    && (recvBuffer != [] ==> io.rx.lastRead.Moved? && io.rx.lastRead.n > 0)
        invariant old(recvBuffer) == [] && old(io.readState).Terminal() ==>
                    recvBuffer == [] && io.readState == old(io.readState) && io.rx.taken == old(io.rx.taken)
        decreases |io.Reader().ahead|
      {
        var p;
        p, used := Fetch();
        if p.Some? {
          return p.value, used;
        }
      }
      var n := CopyOut(buf);
      NothingGivenUp();
      r := Ready(Ok(n));
    }

    /** The step that `poll_write` and `poll_flush` share: seal and start sending everything
        that is buffered, once the previous frame is out. */
    method SendBuffered() returns (r: Poll<IoResult<()>>)
      requires Valid() && sendOffset > 0
      requires io.session.outgoing.Sound()
      modifies `sendOffset
      modifies io`session, io`writeState, io`writeBuffer, io`frames, io`plain, io.tx`written, io.tx`lastWrite
      ensures Valid()
      ensures old(io.tx.written) <= io.tx.written
      ensures io.session == old(io.session).(sent := io.session.sent)
      ensures Done(r) ==>
                && sendOffset == 0 && io.plain == old(io.plain) + [sendBuffer]
                && io.session.sent == old(io.session.sent) + 1 && io.writeState.WriteLen?
      ensures !old(io.writeState).Terminal() ==> SendCause(r, io.tx.lastWrite, io.writeState, old(NextCipher()))
      ensures !Done(r) ==>
                && sendOffset == old(sendOffset) && io.plain == old(io.plain)
                && io.session.sent == old(io.session.sent)
      ensures !old(io.writeState).Terminal() && !Failed(r) ==> !io.writeState.Terminal()
      ensures old(io.Intact()) && !Failed(r) ==> io.Intact()
      ensures old(io.writeState).Terminal() ==> r == WriteEnd(old(io.writeState)) && io.tx.written == old(io.tx.written)
    {
      hide Sealed;
      hide Faithful;
      hide Opens;
      hide Payloads;
      hide AllFit;
      hide Concat;
      ghost var moved;
      r, moved := io.PollReady();
      if Done(r) {
        var started := io.StartSend(sendBuffer);
        if started.Ok? {
          SealedAll(old(io.plain), sendBuffer);
          sendOffset := 0;
        }
        r := Ready(started);
      }
    }

    /** The end of `poll_write`: as much of `buf` as fits goes into the send buffer. */
    method Buffer(buf: bytes) returns (n: nat)
      requires Valid() && sendOffset < MAX_FRAME_LEN
      modifies `sendBuffer, `sendOffset, `accepted
      ensures Valid()
      ensures n == Min(MAX_FRAME_LEN - old(sendOffset), |buf|)
      ensures accepted == old(accepted) + buf[..n]
    {
      hide Sealed;
      hide NoiseFramed.Valid;
      hide Opens;
      hide Payloads;
      hide AllFit;
      hide Concat;
      hide Buffered;
      hide Splice;
      hide Resize;
      var off := sendOffset;
      n := Min(MAX_FRAME_LEN - off, |buf|);
      BufferedGrows(sendBuffer, off, buf[..n]);
      sendBuffer := Resize(sendBuffer, Min(MAX_FRAME_LEN, off + |buf|));
      sendBuffer := Splice(sendBuffer, off, buf[..n]);
      sendOffset := sendOffset + n;
      accepted := accepted + buf[..n];
    }

    /** `AsyncWrite::poll_write`. */
    method PollWrite(buf: bytes) returns (r: Poll<IoResult<nat>>)
      requires Valid()
      requires io.session.outgoing.Sound()
      modifies `sendBuffer, `sendOffset, `accepted
      modifies io`session, io`writeState, io`writeBuffer, io`frames, io`plain, io.tx`written, io.tx`lastWrite
      ensures Valid()
      ensures old(io.tx.written) <= io.tx.written
      ensures io.session == old(io.session).(sent := io.session.sent)
      ensures match r
              case Ready(Ok(n)) => n <= |buf| && (n == 0 ==> buf == []) && accepted == old(accepted) + buf[..n]
              case _ => accepted == old(accepted)
      ensures if old(sendOffset) < MAX_FRAME_LEN then
                && r == Ready(Ok(Min(MAX_FRAME_LEN - old(sendOffset), |buf|)))
                && io.plain == old(io.plain) && io.tx.written == old(io.tx.written)
              else if Done(r) then
                r.value.value == Min(MAX_FRAME_LEN, |buf|) && io.plain == old(io.plain) + [old(sendBuffer)]
              else
                && io.plain == old(io.plain) && sendOffset == old(sendOffset)
                && (!old(io.writeState).Terminal() ==> SendCause(r, io.tx.lastWrite, io.writeState, old(NextCipher())))
      ensures !old(io.writeState).Terminal() && !Failed(r) ==> !io.writeState.Terminal()
      ensures old(io.Intact()) && !Failed(r) ==> io.Intact()
    {
      hide Sealed;
      hide Faithful;
      hide Opens;
      hide Payloads;
      hide AllFit;
      hide Concat;
      if sendOffset == MAX_FRAME_LEN {
        var sent := SendBuffered();
        if !Done(sent) {
          return if sent.Pending? then Pending else Ready(Err(sent.value.error));
        }
      }
      var n := Buffer(buf);
      r := Ready(Ok(n));
    }

    /** `AsyncWrite::poll_flush`. Once it succeeds, a peer that parses and opens the wire from
        its start recovers every byte that was ever accepted. */
    method PollFlush() returns (r: Poll<IoResult<()>>)
      requires Valid()
      requires io.session.outgoing.Sound()
      modifies `sendOffset
      modifies io`session, io`writeState, io`writeBuffer, io`frames, io`plain, io.tx`written, io.tx`lastWrite,
               io.tx`flushed
      ensures Valid()
      ensures old(io.tx.written) <= io.tx.written
      ensures io.session == old(io.session).(sent := io.session.sent)
      ensures Done(r) ==>
                && sendOffset == 0 && io.Writer() == WriterView(WriteReady, [])
                && io.plain == old(io.plain) + (if old(sendOffset) > 0 then [sendBuffer] else [])
                && io.tx.lastWrite == Flushed && io.tx.flushed == |io.tx.written|
      ensures !Done(r) ==> io.tx.flushed == old(io.tx.flushed)
      ensures !old(io.writeState).Terminal() ==> SendCause(r, io.tx.lastWrite, io.writeState, old(NextCipher()))
      ensures !old(io.writeState).Terminal() && !Failed(r) ==> !io.writeState.Terminal()
      ensures old(io.Intact()) && !Failed(r) ==> io.Intact()
      ensures old(io.Intact()) && Done(r) ==>
                var seen := Parse(io.tx.written[io.base..]);
                seen.rest == [] && Concat(OpenAll(io.session.outgoing, 0, seen.frames)) == accepted
    {
      hide Faithful;
      hide Sealed;
      hide Opens;
      hide Payloads;
      hide AllFit;
      hide Concat;
      hide Parse;
      hide OpenAll;
      if sendOffset > 0 {
        r := SendBuffered();
        if !Done(r) {
          return;
        }
      }
      ghost var moved;
      r, moved := io.PollFlush();
      if Done(r) && old(io.Intact()) {
        FaithfulDecodes(io.tx.written[io.base..], io.session, io.frames, io.plain);
        assert Concat(io.plain) + [] == Concat(io.plain);
      }
    }

    /** `AsyncWrite::poll_close`. */
    method PollClose() returns (r: Poll<IoResult<()>>)
      requires Valid()
      requires io.session.outgoing.Sound()
      modifies `sendOffset
      modifies io`session, io`writeState, io`writeBuffer, io`frames, io`plain, io.tx`written, io.tx`lastWrite
      modifies io.tx`flushed, io.tx`closed
      ensures Valid()
      ensures old(io.tx.written) <= io.tx.written
      ensures io.session == old(io.session).(sent := io.session.sent)
      ensures Done(r) ==>
                && sendOffset == 0 && io.Writer() == WriterView(WriteReady, [])
                && io.plain == old(io.plain) + (if old(sendOffset) > 0 then [sendBuffer] else [])
                && io.tx.lastWrite == Closed && io.tx.closed && io.tx.flushed == |io.tx.written|
      ensures !Done(r) ==> io.tx.closed == old(io.tx.closed)
      ensures !old(io.writeState).Terminal() ==> SendCause(r, io.tx.lastWrite, io.writeState, old(NextCipher()))
      ensures !old(io.writeState).Terminal() && !Failed(r) ==> !io.writeState.Terminal()
      ensures old(io.Intact()) && !Failed(r) ==> io.Intact()
    {
      hide Sealed;
      hide Opens;
      hide Payloads;
      hide AllFit;
      hide Concat;
      r := PollFlush();
      if Done(r) {
        ghost var moved;
        r, moved := io.PollClose();
      }
    }
  }

  lemma BufferedGrows(buffer: bytes, off: nat, data: bytes)
    requires off == 0 || off == |buffer|
    ensures Buffered(Splice(Resize(buffer, off + |data|), off, data), off + |data|)
         == Buffered(buffer, off) + data
  {
    assert Resize(buffer, off + |data|)[..off] == Buffered(buffer, off);
  }

  predicate Done<T>(r: Poll<IoResult<T>>) {
    r.Ready? && r.value.Ok?
  }

  predicate Failed<T>(r: Poll<IoResult<T>>) {
    r.Ready? && r.value.Err?
  }

  function WriteEnd(state: WriteState): Poll<IoResult<()>>
    requires state.Terminal()
  {
    Ready(Err(if state.WriteEof? then WriteZero else InvalidData))
  }

  /** `Vec::resize(n, 0)`. */
  function Resize(buffer: bytes, n: nat): (b: bytes)
    ensures |b| == n
    ensures b[..Min(n, |buffer|)] == buffer[..Min(n, |buffer|)]
  {
    if n <= |buffer| then buffer[..n] else buffer + seq(n - |buffer|, _ => 0)
  }

  lemma SealedAll(plain: seq<bytes>, buffer: bytes)
    ensures Concat(plain + [buffer]) == Concat(plain) + buffer
  {
    ConcatAppend(plain, [buffer]);
    assert Concat([buffer]) == buffer + Concat([]) == buffer;
  }

  function EndResult(state: ReadState): Poll<IoResult<nat>>
    requires state.Terminal()
  {
    match state
    case ReadEof(false) => Ready(Ok(0))
    case ReadEof(true) => Ready(Err(UnexpectedEof))
    case DecErr => Ready(Err(InvalidData))
  }

  /** How a `poll_read` that found no data ends, and what it gave up on. */
  ghost predicate FetchEnds(r: Poll<IoResult<nat>>, used: bytes, state: ReadState, session: Session) {
    match r
    case Pending => used == [] && !state.Terminal()
    case Ready(Ok(n)) => n == 0 && state == ReadEof(false) && |used| < 2
    case Ready(Err(UnexpectedEof)) => state == ReadEof(true)
    case Ready(Err(InvalidData)) =>
      state == DecErr && (used != [] ==> IsFrame(used) && session.incoming.open(session.received, used[2..]) == None)
    case Ready(Err(TransportError)) => |used| <= 1 && !state.Terminal()
    case Ready(Err(WriteZero)) => false
  }

  /** A `poll_read` either copies the next unread bytes to the front of the caller's buffer,
      at least one unless that buffer is empty, or ends without touching it. */
  ghost predicate ReadOutcome(r: Poll<IoResult<nat>>, used: bytes, state: ReadState, session: Session,
                              delivered: bytes, delivered': bytes, buf: bytes, buf': bytes) {
    if delivered' == delivered && buf' == buf && FetchEnds(r, used, state, session) then true
    else
      && used == [] && r.Ready? && r.value.Ok?
      && |buf| == |buf'|
      && var n := r.value.value;
         && n <= |buf| && (n == 0 ==> buf == [])
         && delivered' == delivered + buf'[..n] && buf'[n..] == buf[n..]
  }

  /** Why a `poll_read` that found no data ended the way it did. */
  ghost predicate FetchCause(r: Poll<IoResult<nat>>, used: bytes, answer: Answer) {
    match r
    case Pending => answer == Waited
    case Ready(Ok(_)) => answer == Moved(0)
    case Ready(Err(UnexpectedEof)) => answer == Moved(0)
    case Ready(Err(TransportError)) => answer == Failure
    case Ready(Err(_)) => answer.Moved? && answer.n > 0 && used != []
  }

  /** Why a call that had to send something did not succeed: the transport did not take the
      bytes, or the cipher refused to seal the buffer. */
  ghost predicate SendCause<T>(r: Poll<IoResult<T>>, answer: Answer, state: WriteState, ciphertext: Option<bytes>) {
    match r
    case Pending => answer == Waited
    case Ready(Ok(_)) => true
    case Ready(Err(WriteZero)) => answer == Moved(0)
    case Ready(Err(TransportError)) => answer == Failure
    case Ready(Err(InvalidData)) => state == EncErr && ciphertext == None
    case Ready(Err(UnexpectedEof)) => false
  }

  /** What one `poll_next` means for the byte stream above it. */
  lemma FetchFacts(a: ReaderView, p: NextResult, skipped: seq<bytes>, used: bytes, b: ReaderView)
    requires NextStep(a, p, skipped, used, b)
    ensures a.state.Terminal() ==> b == a && p == TerminalResult(a.state) && skipped == [] && used == []
    ensures Payloads(skipped) == [] && AllFit(skipped)
    ensures !a.state.Terminal() && p == Ready(Some(Err(InvalidData))) ==> used != []
    ensures match p
            case Ready(Some(Ok(plain))) =>
              && IsFrame(used) && |b.ahead| < |a.ahead|
              && a.session.incoming.open(a.session.received, used[2..]) == Some(plain)
              && b.session == a.session.(received := a.session.received + 1)
              && Payloads(skipped + [used[2..]]) == [used[2..]] && Fits(used[2..])
            case Ready(Some(Err(e))) => FetchEnds(Ready(Err(e)), used, b.state, b.session) && b.session == a.session
            case Ready(None) => FetchEnds(Ready(Ok(0)), used, b.state, b.session) && b.session == a.session
            case Pending => FetchEnds(Pending, used, b.state, b.session) && b.session == a.session
  {
    PayloadsOfEmpty(skipped);
    if a.state.Terminal() {
      assert |Wire(skipped)| + |used| + |b.ahead| == |a.ahead|;
      WireEmpty(skipped);
    }
    if IsFrame(used) {
      PayloadsAppend(skipped, [used[2..]]);
      assert Payloads([used[2..]]) == [used[2..]] + Payloads([]);
    }
  }

  lemma CauseFacts(a: ReaderView, p: NextResult, skipped: seq<bytes>, used: bytes, b: ReaderView, answer: Answer)
    requires NextStep(a, p, skipped, used, b)
    requires !a.state.Terminal() ==> NextCause(p, answer)
    ensures !a.state.Terminal() ==>
      match p
      case Pending => FetchCause(Pending, used, answer)
      case Ready(None) => FetchCause(Ready(Ok(0)), used, answer)
      case Ready(Some(Err(e))) => FetchCause(Ready(Err(e)), used, answer)
      case Ready(Some(Ok(_))) => answer.Moved? && answer.n > 0 && !b.state.Terminal()
    ensures a.state.Terminal() ==> TerminalResult(a.state) == p
  {
  }

  lemma FitsAppend(frames: seq<bytes>, skipped: seq<bytes>, used: bytes)
    requires AllFit(frames) && AllFit(skipped)
    ensures AllFit(frames + skipped)
    ensures IsFrame(used) ==> AllFit(frames + (skipped + [used[2..]]))
  {
  }

  lemma WireEmpty(cs: seq<bytes>)
    ensures Wire(cs) == [] <==> cs == []
  {
  }

  lemma UnreadSplit(delivered: bytes, buffer: bytes, off: nat, n: nat)
    requires off + n <= |buffer|
    ensures delivered + Unread(buffer, off)
         == (delivered + buffer[off..off + n]) + Unread(buffer, off + n)
    ensures off + n == |buffer| ==> Unread(buffer, off + n) == [] == Unread([], off + n)
  {
    assert buffer[off..] == buffer[off..off + n] + buffer[off + n..];
  }

  /** The bytes of the send buffer that the caller has handed over. */
  ghost function Buffered(buffer: bytes, off: nat): bytes {
    if off <= |buffer| then buffer[..off] else []
  }

  /** The bytes of the receive buffer that the caller has not seen yet. */
  ghost function Unread(buffer: bytes, off: nat): bytes {
    if off <= |buffer| then buffer[off..] else []
  }

  /** Frames read so far plus what is ahead still make up the wire, unless bytes were given up. */
  lemma WireAfter(wire: bytes, frames: seq<bytes>, a: ReaderView,
                  p: NextResult, skipped: seq<bytes>, used: bytes, b: ReaderView)
    requires NextStep(a, p, skipped, used, b)
    ensures wire == Wire(frames) + a.ahead ==>
              && wire == Wire(frames + skipped) + used + b.ahead
              && (wire == Wire(frames + skipped) + b.ahead <==> used == [])
              && (IsFrame(used) ==> wire == Wire(frames + (skipped + [used[2..]])) + [] + b.ahead
                                         == Wire(frames + (skipped + [used[2..]])) + b.ahead)
  {
    hide Wire;
    WireAppend(frames, skipped);
    if wire == Wire(frames) + a.ahead {
      assert wire == Wire(frames + skipped) + (used + b.ahead);
      assert |wire| == |Wire(frames + skipped)| + |used| + |b.ahead|;
      if IsFrame(used) {
        assert used == Frame(used[2..]);
        WireSingle(used[2..]);
        WireAppend(frames + skipped, [used[2..]]);
        assert (frames + skipped) + [used[2..]] == frames + (skipped + [used[2..]]);
        assert Wire(frames + skipped) + (used + b.ahead) == (Wire(frames + skipped) + used) + b.ahead;
      }
    }
  }

  /** A further frame was read and opened. */
  lemma MessageAfter(cipher: Cipher, frames: seq<bytes>, more: seq<bytes>,
                     messages: seq<bytes>, plain: bytes, delivered: bytes)
    requires Opens(cipher, 0, Payloads(frames), messages)
    requires |Payloads(more)| == 1 && cipher.open(|messages|, Payloads(more)[0]) == Some(plain)
    requires delivered == Concat(messages)
    ensures Opens(cipher, 0, Payloads(frames + more), messages + [plain])
    ensures delivered + plain == Concat(messages + [plain])
  {
    hide Payloads;
    PayloadsAppend(frames, more);
    OpensAppend(cipher, 0, Payloads(frames), messages, Payloads(more)[0], plain);
    ConcatAppend(messages, [plain]);
    assert Concat([plain]) == plain + Concat([]) == plain;
    assert Payloads(more) == [Payloads(more)[0]];
  }
}
