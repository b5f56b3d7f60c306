/** Two `NoiseOutput`s talking to each other: over every run the stack is a FIFO byte stream. */
module NoiseLink {
  import opened Wrappers
  import opened Bytes
  import opened Frames
  import opened Session
  import opened Transport
  import opened NoiseFraming
  import opened NoiseStream

  /** What `s` sends is what `r` reads: same pipe, same cipher, same starting point, and
      neither side has lost or repeated a byte. */
  ghost predicate Linked(s: NoiseOutput, r: NoiseOutput)
    requires s.Valid() && r.Valid()
    reads s, s.io, s.io.rx, s.io.tx, r, r.io, r.io.rx, r.io.tx
  {
    && s.io.tx == r.io.rx && r.origin == s.io.base
    && s.io.session.outgoing == r.io.session.incoming
    && s.io.Intact() && r.InStep()
  }

  /** Frames `fs` with messages `ms` have been read off a wire that faithfully carries
      `frames` with plaintexts `plain`: they are a prefix, and the rest is still to come. */
  lemma SplitFaithful(wire: bytes, unsent: bytes, session: Session, frames: seq<bytes>, plain: seq<bytes>,
                      fs: seq<bytes>, ahead: bytes, ms: seq<bytes>)
    requires Faithful(wire, unsent, session, frames, plain)
    requires wire == Wire(fs) + ahead && AllFit(fs)
    requires Opens(session.outgoing, 0, Payloads(fs), ms)
    ensures |ms| <= |frames| == |plain| && ms == plain[..|ms|]
    ensures ahead + unsent == Wire(frames[|ms|..])
    ensures Opens(session.outgoing, |ms|, frames[|ms|..], plain[|ms|..])
  {
    hide Wire;
    hide Payloads;
    assert (Wire(fs) + ahead) + unsent == Wire(fs) + (ahead + unsent);
    UniquePrefix(fs, ahead + unsent, frames);
    PayloadsOfNonEmpty(fs);
    SameMessages(session.outgoing, frames, plain, fs, ms);
    OpensSuffix(session.outgoing, 0, frames, plain, |fs|);
  }

  /** The sender's history split at the receiver's counter. Frames below it have been
      delivered or wait in the receive buffer; the others are in flight, partly in the
      receiver's buffers, partly in the transport and partly in the sender's buffers. */
  lemma InFlightFrames(s: NoiseOutput, r: NoiseOutput)
    requires s.Valid() && r.Valid() && Linked(s, r)
    ensures var k := r.io.session.received;
      && k <= |s.io.frames| == |s.io.plain| && s.io.session.sent == k + |s.io.frames[k..]|
      && r.messages == s.io.plain[..k]
      && r.io.Reader().ahead + s.io.Writer().unsent == Wire(s.io.frames[k..])
      && Opens(s.io.session.outgoing, k, s.io.frames[k..], s.io.plain[k..])
  {
    hide Wire;
    hide Payloads;
    hide AllFit;
    hide Opens;
    hide Concat;
    hide NoiseFramed.Reader;
    hide NoiseFramed.Writer;
    SplitFaithful(s.io.tx.written[s.io.base..], s.io.Writer().unsent, s.io.session, s.io.frames, s.io.plain,
                  r.readFrames, r.io.Reader().ahead, r.messages);
  }

  lemma SameMessages(cipher: Cipher, cs: seq<bytes>, ps: seq<bytes>, fs: seq<bytes>, ms: seq<bytes>)
    requires Opens(cipher, 0, cs, ps) && Opens(cipher, 0, fs, ms)
    requires fs <= cs
    ensures ms == ps[..|fs|]
  {
    forall i | 0 <= i < |ms| ensures ms[i] == ps[i] {
      assert cipher.open(0 + i, fs[i]) == Some(ms[i]);
      assert cipher.open(0 + i, cs[i]) == Some(ps[i]);
    }
  }

  /** Conservation: every accepted byte is delivered, or waits in the receive buffer, or is
      in a frame in flight, or waits in the send buffer, in this order. */
  lemma Conservation(s: NoiseOutput, r: NoiseOutput)
    requires s.Valid() && r.Valid() && Linked(s, r)
    ensures r.io.session.received <= |s.io.plain|
    ensures s.accepted == r.delivered
                        + Unread(r.recvBuffer, r.recvOffset)
                        + Concat(s.io.plain[r.io.session.received..])
                        + Buffered(s.sendBuffer, s.sendOffset)
  {
    hide *;
    InFlightFrames(s, r);
    var k := r.io.session.received;
    Histories(s, r);
    Accounting(s.io.plain, k, r.delivered, Unread(r.recvBuffer, r.recvOffset), Buffered(s.sendBuffer, s.sendOffset));
  }

  lemma Histories(s: NoiseOutput, r: NoiseOutput)
    requires s.Valid() && r.Valid()
    ensures s.accepted == Concat(s.io.plain) + Buffered(s.sendBuffer, s.sendOffset)
    ensures r.delivered + Unread(r.recvBuffer, r.recvOffset) == Concat(r.messages)
  {
  }

  lemma Accounting(plain: seq<bytes>, k: nat, delivered: bytes, unread: bytes, buffered: bytes)
    requires k <= |plain| && delivered + unread == Concat(plain[..k])
    ensures Concat(plain) + buffered == delivered + unread + Concat(plain[k..]) + buffered
  {
    assert plain == plain[..k] + plain[k..];
    ConcatAppend(plain[..k], plain[k..]);
  }

  /** When the sender has flushed and the wire has been read to its end, nothing is missing. */
  lemma Drained(s: NoiseOutput, r: NoiseOutput)
    requires s.Valid() && r.Valid() && Linked(s, r)
    requires s.sendOffset == 0 && s.io.Writer().unsent == []
    requires r.io.rx.InFlight() == [] && !r.io.readState.Terminal()
    ensures s.accepted == r.delivered + Unread(r.recvBuffer, r.recvOffset)
    ensures r.io.Reader().ahead == []
  {
    InFlightFrames(s, r);
    Conservation(s, r);
    var k := r.io.session.received;
    var part := r.io.Reader().ahead;
    IncompleteFrame(r.io.readState, r.io.readBuffer);
    assert part == Consumed(r.io.readState, r.io.readBuffer);
    assert part + [] == Wire(s.io.frames[k..]);
    ParseWire(s.io.frames[k..], []);
    PayloadsOfNonEmpty(s.io.frames[k..]);
    assert part + [] == part;
    ParseIncomplete(part);
  }

  /** However the transport split, delayed or withheld its bytes, the reader has found exactly
      the frames that the pure parser finds, and opened them as the reference receiver does:
      so far a prefix of them, and all of them once the wire is read to its end. */
  lemma RefinesParser(r: NoiseOutput)
    requires r.Valid() && r.InStep()
    ensures var seen := Parse(r.io.rx.written[r.origin..]);
            var cipher := r.io.session.incoming;
      && Payloads(r.readFrames) <= seen.frames
      && r.messages == OpenAll(cipher, 0, Payloads(r.readFrames)) <= OpenAll(cipher, 0, seen.frames)
      && (r.io.rx.InFlight() == [] && !r.io.readState.Terminal() ==>
            && seen.frames == Payloads(r.readFrames)
            && seen.rest == Consumed(r.io.readState, r.io.readBuffer)
            && r.messages == OpenAll(cipher, 0, seen.frames))
  {
    hide Wire;
    hide Payloads;
    hide Concat;
    hide Parse;
    hide Opens;
    var ahead, fs, cipher := r.io.Reader().ahead, Payloads(r.readFrames), r.io.session.incoming;
    ParseWire(r.readFrames, ahead);
    OpenAllOpens(cipher, 0, fs, r.messages);
    SameCount(cipher, fs, r.messages);
    OpenAllAppend(cipher, 0, fs, Parse(ahead).frames);
    if r.io.rx.InFlight() == [] {
      IncompleteFrame(r.io.readState, r.io.readBuffer);
      assert ahead == Consumed(r.io.readState, r.io.readBuffer);
      ParseIncomplete(ahead);
      assert fs + [] == fs;
    }
  }

  lemma SameCount(cipher: Cipher, cs: seq<bytes>, ps: seq<bytes>)
    requires Opens(cipher, 0, cs, ps)
    ensures |cs| == |ps|
  {
  }

  /** A reader never holds a complete frame between two calls. */
  lemma IncompleteFrame(state: ReadState, buffer: bytes)
    requires ReadValid(state, buffer)
    ensures Incomplete(Consumed(state, buffer))
  {
    match state
    case ReadData(len, off) =>
      BeBytesRoundTrip(len);
      assert Consumed(state, buffer)[..2] == ToBeBytes(len);
    case _ =>
  }

  /** Both directions between two distinct endpoints over two distinct pipes. */
  ghost predicate Topology(a: NoiseOutput, b: NoiseOutput) {
    && a != b && a.io != b.io && a.io.rx != a.io.tx
    && a.io.tx == b.io.rx && b.io.tx == a.io.rx
  }

  /** Neither direction has ended or failed. */
  ghost predicate Live(io: NoiseFramed)
    reads io
  {
    !io.readState.Terminal() && !io.writeState.Terminal()
  }

  ghost predicate Duplex(a: NoiseOutput, b: NoiseOutput)
    reads a, a.io, a.io.rx, a.io.tx, b, b.io, b.io.rx, b.io.tx
  {
    && Topology(a, b)
    && a.Valid() && b.Valid()
    && a.io.session.outgoing.Sound() && b.io.session.outgoing.Sound()
    && Live(a.io) && Live(b.io)
    && Linked(a, b) && Linked(b, a)
  }

  /** A reader whose own state did not change stays in step while its peer writes. */
  twostate lemma ReaderUntouched(r: NoiseOutput)
    requires old(r.Valid()) && r.io.Valid()
    requires r.readFrames == old(r.readFrames)
    requires r.io.readState == old(r.io.readState) && r.io.readBuffer == old(r.io.readBuffer)
    requires r.io.rx.taken == old(r.io.rx.taken) && old(r.io.rx.written) <= r.io.rx.written
    ensures old(r.InStep()) ==> r.InStep()
  {
    hide Wire;
    hide Consumed;
    hide NoiseOutput.SendValid;
    hide NoiseOutput.RecvValid;
    if old(r.InStep()) {
      WireGrows(Wire(r.readFrames), Consumed(r.io.readState, r.io.readBuffer),
                old(r.io.rx.written), r.io.rx.written, r.origin, r.io.rx.taken);
    }
  }

  lemma WireGrows(read: bytes, consumed: bytes, written: bytes, written': bytes, origin: nat, taken: nat)
    requires origin <= |written| && taken <= |written| && written <= written'
    requires written[origin..] == read + (consumed + written[taken..])
    ensures written'[origin..] == read + (consumed + written'[taken..])
  {
    var more := written'[|written|..];
    assert written' == written + more;
    assert written'[origin..] == written[origin..] + more;
    assert written'[taken..] == written[taken..] + more;
  }

  /** A writer whose own state did not change stays intact while its peer reads. */
  twostate lemma WriterUntouched(s: NoiseOutput)
    requires old(s.Valid()) && s.io.Valid()
    requires s.io.session.outgoing == old(s.io.session).outgoing && s.io.session.sent == old(s.io.session).sent
    requires s.io.writeState == old(s.io.writeState) && s.io.writeBuffer == old(s.io.writeBuffer)
    requires s.io.frames == old(s.io.frames) && s.io.plain == old(s.io.plain)
    requires s.io.tx.written == old(s.io.tx.written)
    ensures old(s.io.Intact()) ==> s.io.Intact()
  {
    hide Wire;
    hide Opens;
  }

  /** The transport failed, or moved no byte. */
  predicate Refused(answer: Answer) {
    answer == Failure || answer == Moved(0)
  }

  /** The transport was not ready, failed, or moved no byte. */
  predicate Stuck(answer: Answer) {
    answer == Waited || Refused(answer)
  }

  ghost predicate CannotSeal(cipher: Cipher) {
    exists k, p :: cipher.seal(k, p) == None
  }

  /** A linked reader never meets a frame that it cannot decrypt. */
  lemma NeverUndecipherable(s: NoiseOutput, r: NoiseOutput, used: bytes)
    requires s.Valid() && r.Valid()
    requires s.io.tx == r.io.rx && r.origin == s.io.base && s.io.session.outgoing == r.io.session.incoming
    requires s.io.Intact() && r.Accounted(used)
    requires IsFrame(used)
    ensures r.io.session.incoming.open(r.io.session.received, used[2..]).Some?
  {
    hide Payloads;
    hide Opens;
    hide Concat;
    hide NoiseFramed.Reader;
    hide NoiseFramed.Writer;
    OpensNext(s.io.tx.written[s.io.base..], s.io.Writer().unsent, s.io.session, s.io.frames, s.io.plain,
              r.readFrames, used, r.io.Reader().ahead, r.messages);
  }

  lemma OpensNext(wire: bytes, unsent: bytes, session: Session, frames: seq<bytes>, plain: seq<bytes>,
                  fs: seq<bytes>, used: bytes, ahead: bytes, ms: seq<bytes>)
    requires Faithful(wire, unsent, session, frames, plain)
    requires wire == Wire(fs) + used + ahead && AllFit(fs) && IsFrame(used)
    requires Opens(session.outgoing, 0, Payloads(fs), ms)
    ensures session.outgoing.open(|ms|, used[2..]).Some?
  {
    hide Wire;
    hide Payloads;
    var c := used[2..];
    assert used == Frame(c);
    WireAppend(fs, [c]);
    WireSingle(c);
    assert (Wire(fs) + used + ahead) + unsent == Wire(fs + [c]) + (ahead + unsent);
    UniquePrefix(fs + [c], ahead + unsent, frames);
    assert frames[..|fs|] == fs && frames[|fs|] == c;
    PayloadsOfNonEmpty(fs);
    assert session.outgoing.open(0 + |fs|, frames[|fs|]) == Some(plain[|fs|]);
  }

  /** One end of the conversation calls `poll_write`, `poll_flush`, `poll_close` or `poll_read`. */
  datatype Call = Write(data: bytes) | Flush | Close | Read(max: nat)

  /** What a call came to: bytes taken from or handed to the caller, a flush or close that is
      done, Pending, or a failure or end of file. */
  datatype Outcome = Took(n: nat) | Got(data: bytes) | Finished | NotReady | Broken

  /** Why the call failed: the transport did, or moved nothing, when this call asked it; or the
      cipher refused to seal. */
  ghost predicate Broke(io: NoiseFramed, call: Call)
    reads io, io.rx, io.tx
  {
    if call.Read? then Refused(io.rx.lastRead) else Refused(io.tx.lastWrite) || io.writeState == EncErr
  }

  /** The transport answered this call that it was not ready. */
  ghost predicate Delayed(io: NoiseFramed, call: Call)
    reads io, io.rx, io.tx
  {
    if call.Read? then io.rx.lastRead == Waited else io.tx.lastWrite == Waited
  }

  /** A successful call takes or delivers something unless it was offered nothing. */
  predicate Suits(call: Call, o: Outcome) {
    match (call, o)
    case (Write(data), Took(n)) => n <= |data| && (n == 0 ==> data == [])
    case (Read(max), Got(data)) => |data| <= max && (data == [] ==> max == 0)
    case (Flush, Finished) => true
    case (Close, Finished) => true
    case (_, NotReady) => true
    case (_, Broken) => true
    case _ => false
  }

  function TakenBy(call: Call, o: Outcome): bytes {
    match (call, o)
    case (Write(data), Took(n)) => if n <= |data| then data[..n] else []
    case _ => []
  }

  function GivenBy(o: Outcome): bytes {
    if o.Got? then o.data else []
  }

  /** All calls that were made, with what they came to. */
  class Transcript {
    ghost var turns: seq<(Turn, Outcome)>

    constructor ()
      ensures turns == []
    {
      turns := [];
    }
  }

  method WriteOnce(a: NoiseOutput, b: NoiseOutput, data: bytes) returns (o: Outcome)
    requires Duplex(a, b)
    modifies a`sendBuffer, a`sendOffset, a`accepted
    modifies a.io`session, a.io`writeState, a.io`writeBuffer, a.io`frames, a.io`plain
    modifies a.io.tx`written, a.io.tx`lastWrite, a.io.tx`flushed, a.io.tx`closed
    ensures Suits(Write(data), o) && a.accepted == old(a.accepted) + TakenBy(Write(data), o)
    ensures if o.Broken? then Broke(a.io, Write(data)) else Duplex(a, b)
    ensures o.NotReady? ==> Delayed(a.io, Write(data))
  {
    hide Sealed, ReadValid, WriteValid;
    hide NoiseOutput.InStep;
    hide NoiseFramed.Intact;
    hide NoiseFramed.Reader;
    hide NoiseFramed.Writer;
    hide NoiseOutput.SendValid;
    hide NoiseOutput.RecvValid;
    var r := a.PollWrite(data);
    o := if Done(r) then Took(r.value.value) else if r.Pending? then NotReady else Broken;
    ReaderUntouched(a);
    ReaderUntouched(b);
    WriterUntouched(b);
  }

  /** `poll_flush`, or `poll_close`. */
  method Finish(a: NoiseOutput, b: NoiseOutput, call: Call) returns (o: Outcome)
    requires Duplex(a, b) && (call.Flush? || call.Close?)
    modifies a`sendOffset
    modifies a.io`session, a.io`writeState, a.io`writeBuffer, a.io`frames, a.io`plain
    modifies a.io.tx`written, a.io.tx`lastWrite, a.io.tx`flushed, a.io.tx`closed
    ensures Suits(call, o)
    ensures if o.Broken? then Broke(a.io, call) else Duplex(a, b)
    ensures o.NotReady? ==> Delayed(a.io, call)
    ensures o.Finished? ==> a.sendOffset == 0 && a.io.Valid() && a.io.Writer() == WriterView(WriteReady, [])
    ensures o.Finished? ==> a.io.tx.flushed == |a.io.tx.written| && (call.Close? ==> a.io.tx.closed)
  {
    hide Sealed, ReadValid, WriteValid;
    hide NoiseOutput.InStep;
    hide NoiseFramed.Intact;
    hide NoiseFramed.Reader;
    hide NoiseFramed.Writer;
    hide NoiseOutput.SendValid;
    hide NoiseOutput.RecvValid;
    var r;
    if call.Flush? {
      r := a.PollFlush();
    } else {
      r := a.PollClose();
    }
    o := if Done(r) then Finished else if r.Pending? then NotReady else Broken;
    ReaderUntouched(a);
    ReaderUntouched(b);
    WriterUntouched(b);
  }

  method Send(a: NoiseOutput, b: NoiseOutput, call: Call) returns (o: Outcome)
    requires Duplex(a, b) && !call.Read?
    modifies a`sendBuffer, a`sendOffset, a`accepted
    modifies a.io`session, a.io`writeState, a.io`writeBuffer, a.io`frames, a.io`plain
    modifies a.io.tx`written, a.io.tx`lastWrite, a.io.tx`flushed, a.io.tx`closed
    ensures Suits(call, o) && a.accepted == old(a.accepted) + TakenBy(call, o)
    ensures if o.Broken? then Broke(a.io, call) else Duplex(a, b)
    ensures o.NotReady? ==> Delayed(a.io, call)
    ensures o.Finished? ==> a.sendOffset == 0 && a.io.Valid() && a.io.Writer() == WriterView(WriteReady, [])
    ensures o.Finished? ==> a.io.tx.flushed == |a.io.tx.written| && (call.Close? ==> a.io.tx.closed)
  {
    hide Duplex, Broke, Delayed;
    hide NoiseFramed.Valid;
    hide NoiseFramed.Writer;
    if call.Write? {
      o := WriteOnce(a, b, call.data);
    } else {
      o := Finish(a, b, call);
    }
  }

  method Receive(a: NoiseOutput, b: NoiseOutput, max: nat) returns (o: Outcome)
    requires Duplex(a, b)
    modifies a`recvBuffer, a`recvOffset, a`readFrames, a`messages, a`delivered
    modifies a.io`session, a.io`readState, a.io`readBuffer, a.io.rx`taken, a.io.rx`lastRead
    ensures Suits(Read(max), o) && a.delivered == old(a.delivered) + GivenBy(o)
    ensures if o.Broken? then Broke(a.io, Read(max)) else Duplex(a, b)
    ensures o.NotReady? ==> Delayed(a.io, Read(max))
  {
    hide NoiseFramed.Intact;
    hide NoiseFramed.Reader;
    hide NoiseFramed.Writer;
    hide NoiseOutput.SendValid;
    hide NoiseOutput.RecvValid;
    hide NoiseOutput.InStep;
    var buf := new byte[max];
    var r;
    ghost var used;
    r, used := a.PollRead(buf);
    o := if r.Pending? then NotReady
         else if Failed(r) || a.io.readState.Terminal() then Broken
         else Got(buf[..r.value.value]);
    if r == Ready(Err(InvalidData)) {
      WriterUntouched(b);
      NeverUndecipherable(b, a, used);
    }
    WriterUntouched(a);
    WriterUntouched(b);
    ReaderUntouched(b);
  }

  /** Which end acts next, and what it calls. */
  datatype Turn = Turn(first: bool, call: Call)

  /** What one end has taken from its caller over the turns so far, and handed to it. */
  function Accepted(turns: seq<(Turn, Outcome)>, first: bool): bytes {
    if turns == [] then []
    else
      var (turn, o) := turns[|turns| - 1];
      Accepted(turns[..|turns| - 1], first) + if turn.first == first then TakenBy(turn.call, o) else []
  }

  function Delivered(turns: seq<(Turn, Outcome)>, first: bool): bytes {
    if turns == [] then []
    else
      var (turn, o) := turns[|turns| - 1];
      Delivered(turns[..|turns| - 1], first) + if turn.first == first then GivenBy(o) else []
  }

  lemma OneTurn(turns: seq<(Turn, Outcome)>, turn: Turn, o: Outcome, first: bool)
    ensures Accepted(turns + [(turn, o)], first) ==
            Accepted(turns, first) + if turn.first == first then TakenBy(turn.call, o) else []
    ensures Delivered(turns + [(turn, o)], first) ==
            Delivered(turns, first) + if turn.first == first then GivenBy(o) else []
  {
    assert (turns + [(turn, o)])[..|turns|] == turns;
  }

  /** The turns made follow the script, each with a fitting outcome, and only the last may have
      failed: if it did not, the script was gone through to its end. */
  ghost predicate Follows(turns: seq<(Turn, Outcome)>, script: seq<Turn>) {
    && |turns| <= |script|
    && (forall i | 0 <= i < |turns| :: turns[i].0 == script[i] && Suits(script[i].call, turns[i].1))
    && (forall i | 0 <= i < |turns| - 1 :: !turns[i].1.Broken?)
    && (|turns| < |script| ==> turns != [] && turns[|turns| - 1].1.Broken?)
  }

  /** Any sequence of calls at the two ends, over any behaviour of the transport, up to the
      first failure or end of file. Delivery never runs ahead of, reorders or alters what
      was accepted, and as long as nothing fails nothing is lost either (`Conservation`). */
  method Converse(a: NoiseOutput, b: NoiseOutput, script: seq<Turn>, log: Transcript)
    returns (ghost turns: seq<(Turn, Outcome)>)
    requires Duplex(a, b)
    modifies a, a.io, b, b.io, a.io.rx, a.io.tx, log
    ensures log.turns == old(log.turns) + turns && Follows(turns, script)
    ensures if turns != [] && turns[|turns| - 1].1.Broken?
            then var turn := script[|turns| - 1]; Broke(if turn.first then a.io else b.io, turn.call)
            else Duplex(a, b)
    ensures a.accepted == old(a.accepted) + Accepted(turns, true)
    ensures b.accepted == old(b.accepted) + Accepted(turns, false)
    ensures a.delivered == old(a.delivered) + Delivered(turns, true)
    ensures b.delivered == old(b.delivered) + Delivered(turns, false)
    ensures b.delivered <= a.accepted && a.delivered <= b.accepted
  {
    hide Duplex, Suits, TakenBy, GivenBy, Accepted, Delivered;
    turns := [];
    NoTurns();
    DeliveredPrefix(a, b);
    for i := 0 to |script|
      invariant Duplex(a, b)
      invariant log.turns == old(log.turns) + turns && |turns| == i
      invariant forall k | 0 <= k < i ::
                  turns[k].0 == script[k] && Suits(script[k].call, turns[k].1) && !turns[k].1.Broken?
      invariant a.accepted == old(a.accepted) + Accepted(turns, true)
      invariant b.accepted == old(b.accepted) + Accepted(turns, false)
      invariant a.delivered == old(a.delivered) + Delivered(turns, true)
      invariant b.delivered == old(b.delivered) + Delivered(turns, false)
      invariant b.delivered <= a.accepted && a.delivered <= b.accepted
    {
      var turn := script[i];
      var o := TakeTurn(a, b, turn, log);
      OneTurn(turns, turn, o, true);
      OneTurn(turns, turn, o, false);
      turns := turns + [(turn, o)];
      if o.Broken? {
        return;
      }
    }
  }

  method TakeTurn(a: NoiseOutput, b: NoiseOutput, turn: Turn, log: Transcript) returns (o: Outcome)
    requires Duplex(a, b) && b.delivered <= a.accepted && a.delivered <= b.accepted
    modifies a, a.io, b, b.io, a.io.rx, a.io.tx, log
    ensures log.turns == old(log.turns) + [(turn, o)] && Suits(turn.call, o)
    ensures if o.Broken? then Broke(if turn.first then a.io else b.io, turn.call) else Duplex(a, b)
    ensures a.accepted == old(a.accepted) + if turn.first then TakenBy(turn.call, o) else []
    ensures b.accepted == old(b.accepted) + if turn.first then [] else TakenBy(turn.call, o)
    ensures a.delivered == old(a.delivered) + if turn.first then GivenBy(o) else []
    ensures b.delivered == old(b.delivered) + if turn.first then [] else GivenBy(o)
    ensures b.delivered <= a.accepted && a.delivered <= b.accepted
  {
    hide Duplex, Suits, TakenBy, GivenBy, Broke;
    DuplexSymmetric(a, b);
    if turn.first {
      o := Act(a, b, turn, log);
    } else {
      o := Act(b, a, turn, log);
    }
    NothingGiven(turn.call, o);
    if !o.Broken? {
      if !turn.first {
        DuplexSymmetric(b, a);
      }
      DeliveredPrefix(a, b);
    }
  }

  lemma NoTurns()
    ensures forall first :: Accepted([], first) == [] && Delivered([], first) == []
  {
  }

  lemma NothingGiven(call: Call, o: Outcome)
    ensures o.Broken? ==> TakenBy(call, o) == [] && GivenBy(o) == []
  {
  }

  method Act(a: NoiseOutput, b: NoiseOutput, turn: Turn, log: Transcript) returns (o: Outcome)
    requires Duplex(a, b)
    modifies a, a.io, a.io.rx`taken, a.io.rx`lastRead, a.io.tx`written, a.io.tx`lastWrite, a.io.tx`flushed,
             a.io.tx`closed, log
    ensures log.turns == old(log.turns) + [(turn, o)]
    ensures Suits(turn.call, o)
    ensures if o.Broken? then Broke(a.io, turn.call) else Duplex(a, b)
    ensures o.NotReady? ==> Delayed(a.io, turn.call)
    ensures a.accepted == old(a.accepted) + TakenBy(turn.call, o)
    ensures a.delivered == old(a.delivered) + GivenBy(o)
    ensures o.Finished? ==> a.io.tx.flushed == |a.io.tx.written| && (turn.call.Close? ==> a.io.tx.closed)
  {
    hide Duplex, Suits, TakenBy, GivenBy, Broke, Delayed;
    match turn.call {
      case Read(max) => o := Receive(a, b, max);
      case _ => o := Send(a, b, turn.call);
    }
    OtherSide(turn.call, o);
    log.turns := log.turns + [(turn, o)];
  }

  lemma OtherSide(call: Call, o: Outcome)
    requires Suits(call, o)
    ensures call.Read? ==> TakenBy(call, o) == [] && !o.Finished?
    ensures !call.Read? ==> GivenBy(o) == []
  {
  }

  lemma DuplexSymmetric(a: NoiseOutput, b: NoiseOutput)
    requires Duplex(a, b)
    ensures Duplex(b, a) && Topology(a, b)
  {
  }

  lemma DeliveredPrefix(a: NoiseOutput, b: NoiseOutput)
    requires Duplex(a, b)
    ensures b.delivered <= a.accepted && a.delivered <= b.accepted
  {
    Conservation(a, b);
    Conservation(b, a);
  }

  /** Even over a transport that loses, repeats, alters or invents bytes, or that is not the
      sender's at all, and even after a failed write: unless a frame that the receiver read was
      forged, the receiver delivers a prefix of what was accepted. The sender may seal more. */
  lemma TamperProof(s: NoiseOutput, r: NoiseOutput)
    requires s.Valid() && r.Valid()
    requires s.io.session.outgoing == r.io.session.incoming
    requires var read := Payloads(r.readFrames);
             r.io.session.incoming.Unforged(s.io.frames, read) && r.io.session.incoming.Bound(s.io.frames, |read|)
    ensures Payloads(r.readFrames) <= s.io.frames && r.messages <= s.io.plain
    ensures r.delivered + Unread(r.recvBuffer, r.recvOffset) <= s.accepted
  {
    hide Concat;
    UnforgedPrefix(r.io.session.incoming, s.io.frames, s.io.plain, Payloads(r.readFrames), r.messages);
    var rest := s.io.plain[|r.messages|..];
    assert s.io.plain == r.messages + rest;
    ConcatAppend(r.messages, rest);
    assert s.accepted == Concat(r.messages) + (Concat(rest) + Buffered(s.sendBuffer, s.sendOffset));
  }

  /** Why the last handshake message was not received: the transport has not delivered it, or it
      does not open. */
  ghost predicate HandshakeBroke(a: ReaderView, skipped: seq<bytes>, used: bytes, rx: Pipe)
    requires rx.Valid()
    reads rx
  {
    || Stuck(rx.lastRead)
    || (IsFrame(used) && AllEmpty(skipped) && (exists rest: bytes :: a.ahead == Wire(skipped) + used + rest)
        && a.session.incoming.open(a.session.received, used[2..]) == None)
  }

  lemma HandshakeStep(a: ReaderView, p: NextResult, skipped: seq<bytes>, used: bytes, b: ReaderView, rx: Pipe)
    requires rx.Valid() && !a.state.Terminal()
    requires NextStep(a, p, skipped, used, b) && NextCause(p, rx.lastRead)
    ensures if p.Ready? && p.value.Some? && p.value.value.Ok? then
              && b.state == ReadReady && IsFrame(used) && AllEmpty(skipped)
              && a.ahead == Wire(skipped) + used + b.ahead
            else HandshakeBroke(a, skipped, used, rx)
  {
    hide Wire;
  }

  /** The end of a handshake on the receiving side: read the last handshake message, turn the
      session into transport mode and put the byte stream on top. The reader has taken nothing
      behind that message, so transport frames already queued there are read from the start. */
  method Handover(handshake: NoiseFramed, transport: Session)
    returns (r: Option<NoiseOutput>, ghost skipped: seq<bytes>, ghost used: bytes)
    requires handshake.Valid() && !handshake.readState.Terminal()
    requires transport.sent == 0 && transport.received == 0
    modifies handshake, handshake.rx`taken, handshake.rx`lastRead
    ensures r.Some? ==>
      && fresh(r.value) && fresh(r.value.io) && r.value.Valid()
      && r.value.io.rx == handshake.rx && r.value.io.tx == handshake.tx
      && r.value.io.session == transport
      && r.value.InStep() && r.value.io.Intact()
      && IsFrame(used) && AllEmpty(skipped)
      && r.value.origin <= |handshake.rx.written|
      && old(handshake.Reader().ahead) == Wire(skipped) + used + handshake.rx.written[r.value.origin..]
      && r.value.origin == handshake.rx.taken && r.value.io.base == |handshake.tx.written|
      && Live(r.value.io)
    ensures handshake.rx.written == old(handshake.rx.written) && handshake.Valid()
    ensures r.None? ==> HandshakeBroke(old(handshake.Reader()), skipped, used, handshake.rx)
  {
    hide Wire, IsFrame, Sealed, NextStep, NextCause, HandshakeBroke;
    ghost var before := handshake.Reader();
    var p;
    p, skipped, used := handshake.PollNext();
    HandshakeStep(before, p, skipped, used, handshake.Reader(), handshake.rx);
    r := None;
    if p.Ready? && p.value.Some? && p.value.value.Ok? {
      var io := handshake.IntoTransport(Some(transport));
      var output := new NoiseOutput(io.value);
      r := Some(output);
    }
  }

  /** Only one frame can be read off the front of a non-empty frame. */
  lemma FirstFrame(skipped: seq<bytes>, used: bytes, x: bytes, last: bytes, y: bytes)
    requires AllEmpty(skipped) && IsFrame(used) && last != [] && Fits(last)
    requires Wire(skipped) + used + x == Frame(last) + y
    ensures skipped == [] && used == Frame(last) && x == y
  {
    BeBytesRoundTrip(|last|);
    BeBytesRoundTrip(0);
    BeBytesRoundTrip(|used| - 2);
    var all := Wire(skipped) + used + x;
    assert all[..2] == ToBeBytes(|last|);
    if skipped != [] {
      assert false;
    }
    assert all == used + x;
    assert all[..2] == used[..2];
    assert used == all[..|used|] && Frame(last) == all[..|used|];
  }

  lemma FrameBody(c: bytes)
    ensures Frame(c)[2..] == c
  {
  }

  lemma ReaderSession(io: NoiseFramed)
    requires io.Valid()
    ensures io.Reader().session == io.session
  {
  }

  /** `first` has gone over to transport mode after sending `last`, and started right behind
      everything `handshake` wrote. What is ahead of `handshake` is that message, and whatever
      `first` has written since. */
  ghost predicate Awaited(first: NoiseOutput, handshake: NoiseFramed, last: bytes)
    reads first, first.io, first.io.rx, first.io.tx, handshake, handshake.rx, handshake.tx
  {
    && first.Valid() && handshake.Valid() && first.io != handshake && first.io.rx != first.io.tx
    && first.io.tx == handshake.rx && first.io.rx == handshake.tx
    && Live(first.io) && !handshake.readState.Terminal()
    && first.InStep() && first.io.Intact() && first.origin == |handshake.tx.written|
    && last != [] && Fits(last) && first.io.base <= |handshake.rx.written|
    && handshake.Reader().ahead == Frame(last) + handshake.rx.written[first.io.base..]
  }

  /** The receiver of the last handshake message goes over to transport mode as well. Then both
      directions are linked, so that `Converse` applies. */
  method Establish(first: NoiseOutput, handshake: NoiseFramed, transport: Session, ghost last: bytes)
    returns (r: Option<NoiseOutput>)
    requires Awaited(first, handshake, last)
    requires first.io.session.outgoing == transport.incoming && first.io.session.incoming == transport.outgoing
    requires transport.incoming.Sound() && transport.outgoing.Sound()
    requires transport.sent == 0 && transport.received == 0
    modifies handshake, handshake.rx`taken, handshake.rx`lastRead
    ensures r.Some? ==> fresh(r.value) && fresh(r.value.io) && Duplex(first, r.value)
    ensures r.None? ==>
      || Stuck(handshake.rx.lastRead)
      || old(handshake.session).incoming.open(old(handshake.session).received, last) == None
  {
    hide Wire, Frame, Sealed, ReadValid, WriteValid, Consumed;
    hide NoiseFramed.Writer;
    hide NoiseFramed.Reader;
    hide NoiseOutput.SendValid;
    hide NoiseOutput.RecvValid;
    hide Faithful;
    ghost var skipped, used;
    ghost var before, queued := handshake.Reader(), handshake.rx.written[first.io.base..];
    ReaderSession(handshake);
    r, skipped, used := Handover(handshake, transport);
    if r.Some? {
      FirstFrame(skipped, used, handshake.rx.written[r.value.origin..], last, queued);
    } else if !Stuck(handshake.rx.lastRead) {
      var rest: bytes :| before.ahead == Wire(skipped) + used + rest;
      FirstFrame(skipped, used, rest, last, queued);
      FrameBody(last);
    }
    ReaderUntouched(first);
    WriterUntouched(first);
  }

  /** Both sides are between frames, and nothing is under way in either direction. */
  ghost predicate Idle(a: NoiseFramed, b: NoiseFramed)
    requires a.Valid() && b.Valid()
    reads a, a.rx, a.tx, b, b.rx, b.tx
  {
    && a != b && a.rx != a.tx && a.tx == b.rx && a.rx == b.tx
    && a.readState == ReadReady && b.readState == ReadReady
    && a.writeState == WriteReady && b.writeState == WriteReady
    && a.rx.InFlight() == [] && b.rx.InFlight() == []
  }

  /** Sends one more message and flushes it. */
  method SendMessage(a: NoiseFramed, message: bytes) returns (ok: bool, ghost c: bytes)
    requires a.Valid() && a.writeState == WriteReady && a.rx != a.tx
    requires a.session.outgoing.Sound() && |message| <= MAX_FRAME_LEN
    modifies a`session, a`writeState, a`writeBuffer, a`frames, a`plain
    modifies a.tx`written, a.tx`lastWrite, a.tx`flushed
    ensures a.Valid()
    ensures ok ==>
      && old(a.session).outgoing.seal(old(a.session).sent, message) == Some(c) && c != [] && Fits(c)
      && a.tx.written == old(a.tx.written) + Frame(c)
    ensures !ok ==> Stuck(a.tx.lastWrite) || old(a.session).outgoing.seal(old(a.session).sent, message) == None
  {
    hide Sealed, Opens, Frame;
    var started := a.StartSend(message);
    ok, c := false, [];
    if started.Ok? {
      c := old(a.session).outgoing.seal(old(a.session).sent, message).value;
      ghost var before := a.Writer();
      var flushed, moved := a.PollFlush();
      ok := Done(flushed);
      if ok {
        AllMoved(before, moved, a.Writer());
      }
    }
  }

  lemma AllMoved(a: WriterView, moved: bytes, b: WriterView)
    requires FlushStep(a, Ready(Ok(())), moved, b)
    ensures !a.state.Terminal() ==> moved == a.unsent
  {
  }

  /** The first half: `a` sends the last message, flushes it, and goes over to transport mode. */
  method SendLast(a: NoiseFramed, b: NoiseFramed, message: bytes, transport: Session)
    returns (first: Option<NoiseOutput>, ghost last: bytes)
    requires a.Valid() && b.Valid() && Idle(a, b)
    requires a.session.outgoing.Sound() && |message| <= MAX_FRAME_LEN
    requires transport.outgoing.Sound() && transport.sent == transport.received == 0
    modifies a, a.tx
    ensures first.Some? ==>
      && fresh(first.value) && fresh(first.value.io)
      && first.value.io.session == transport && Awaited(first.value, b, last)
      && old(a.session).outgoing.seal(old(a.session).sent, message) == Some(last)
    ensures first.None? ==> Stuck(a.tx.lastWrite) || old(a.session).outgoing.seal(old(a.session).sent, message) == None
  {
    hide Wire, Sealed, Faithful, Opens, Frame;
    hide NoiseOutput.SendValid;
    hide NoiseOutput.RecvValid;
    first := None;
    ghost var before := a.tx.written;
    var ok;
    ok, last := SendMessage(a, message);
    if ok {
      var io := a.IntoTransport(Some(transport));
      var output := new NoiseOutput(io.value);
      first := Some(output);
      assert before == b.rx.written[..b.rx.taken];
      assert a.tx.written[|before|..] == Frame(last) && a.tx.written[|a.tx.written|..] == [];
      assert b.Reader().ahead == Frame(last) + [];
    }
  }

  /** Between the two halves: `first` writes transport data, which queues behind the message. */
  method WriteEarly(first: NoiseOutput, b: NoiseFramed, data: bytes, ghost last: bytes) returns (ok: bool)
    requires Awaited(first, b, last) && first.io.session.outgoing.Sound()
    modifies first`sendBuffer, first`sendOffset, first`accepted
    modifies first.io`session, first.io`writeState, first.io`writeBuffer, first.io`frames, first.io`plain
    modifies first.io.tx`written, first.io.tx`lastWrite
    ensures ok ==> Awaited(first, b, last)
    ensures !ok ==> Stuck(first.io.tx.lastWrite) || CannotSeal(first.io.session.outgoing)
    ensures first.io.session == old(first.io.session).(sent := first.io.session.sent)
  {
    hide Wire, Frame, Sealed, ReadValid, WriteValid, Consumed;
    hide NoiseOutput.InStep;
    hide NoiseFramed.Intact;
    hide NoiseFramed.Writer;
    hide NoiseOutput.SendValid;
    hide NoiseOutput.RecvValid;
    var r := first.PollWrite(data);
    ok := !Failed(r);
    ReaderUntouched(first);
    AheadGrows(Consumed(b.readState, b.readBuffer), old(b.rx.written), b.rx.written, b.rx.taken, Frame(last),
               first.io.base);
  }

  /** What the peer writes queues behind what is ahead of a reader. */
  lemma AheadGrows(consumed: bytes, written: bytes, written': bytes, taken: nat, front: bytes, base: nat)
    requires written <= written' && taken <= |written| && base <= |written|
    requires consumed + written[taken..] == front + written[base..]
    ensures consumed + written'[taken..] == front + written'[base..]
  {
    var more := written'[|written|..];
    assert written' == written + more;
    assert written'[base..] == written[base..] + more;
    assert written'[taken..] == written[taken..] + more;
    assert consumed + (written[taken..] + more) == (consumed + written[taken..]) + more;
    assert front + (written[base..] + more) == (front + written[base..]) + more;
  }

  /** The end of a handshake on both sides: `a` sends the last message and goes over to transport
      mode, and writes `early` data; only then `b` reads the message and goes over as well. */
  method CompleteHandshake(a: NoiseFramed, b: NoiseFramed, message: bytes, ta: Session, tb: Session, early: seq<bytes>)
    returns (ends: Option<(NoiseOutput, NoiseOutput)>)
    requires a.Valid() && b.Valid() && Idle(a, b)
    requires a.session.outgoing.Sound() && |message| <= MAX_FRAME_LEN
    requires ta.outgoing == tb.incoming && tb.outgoing == ta.incoming
    requires ta.outgoing.Sound() && tb.outgoing.Sound()
    requires ta.sent == ta.received == tb.sent == tb.received == 0
    modifies a, b, a.rx, a.tx
    ensures ends.Some? ==> Duplex(ends.value.0, ends.value.1)
    ensures ends.None? ==>
      || Stuck(a.tx.lastWrite) || CannotSeal(old(a.session).outgoing) || CannotSeal(ta.outgoing)
      || Stuck(b.rx.lastRead)
      || match old(a.session).outgoing.seal(old(a.session).sent, message)
         case Some(c) => old(b.session).incoming.open(old(b.session).received, c) == None
         case None => false
  {
    hide Awaited, Duplex;
    ends := None;
    var first, last := SendLast(a, b, message, ta);
    if first.None? {
      return;
    }
    Ends(first.value, b, last);
    for i := 0 to |early|
      invariant Awaited(first.value, b, last) && b.session == old(b.session)
      invariant first.value.io.session == ta.(sent := first.value.io.session.sent)
    {
      var ok := WriteEarly(first.value, b, early[i], last);
      if !ok {
        return;
      }
    }
    var second := Establish(first.value, b, tb, last);
    if second.Some? {
      ends := Some((first.value, second.value));
    }
  }

  lemma Ends(first: NoiseOutput, b: NoiseFramed, last: bytes)
    requires Awaited(first, b, last)
    ensures first.io.tx == b.rx && first.io.rx == b.tx
  {
  }
}
