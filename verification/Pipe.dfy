/** One direction of the byte transport under a Noise session. */
module Transport {
  import opened Wrappers
  import opened Bytes

  type IoResult<+T> = Result<T, IoError>

  /** What the transport answered: not now, an error, a number of bytes moved, or that it has
      flushed or closed. */
  datatype Answer = Waited | Failure | Moved(n: nat) | Flushed | Closed

  ghost function AnswerOf<T>(r: Poll<IoResult<T>>, good: Answer): Answer {
    match r
    case Pending => Waited
    case Ready(Err(_)) => Failure
    case Ready(Ok(_)) => good
  }

  /** A FIFO byte channel. Each poll may answer Pending, move any number of bytes up to
      the slice it was given (including none), or fail: the choice is arbitrary, so what
      is proved about its callers holds for every transport behaviour. */
  class Pipe {
    var written: bytes
    var taken: nat

    /** History: the latest answers to a read and to a write, flush or close, how many bytes
        had been written at the latest successful flush, and whether a close succeeded. */
    ghost var lastRead: Answer
    ghost var lastWrite: Answer
    ghost var flushed: nat
    ghost var closed: bool

    constructor ()
      ensures Valid() && written == [] && taken == 0 && !closed
    {
      written, taken := [], 0;
      lastRead, lastWrite, flushed, closed := Waited, Waited, 0, false;
    }

    ghost predicate Valid()
      reads this
    {
      taken <= |written|
    }

    /** The bytes accepted by the transport and not yet read from it. */
    function InFlight(): bytes
      requires Valid()
      reads this
    {
      written[taken..]
    }

    /** `AsyncRead::poll_read` into a slice of `max` bytes. */
    method PollRead(max: nat) returns (r: Poll<IoResult<bytes>>)
      requires Valid()
      modifies `taken, `lastRead
      ensures Valid() && lastRead == AnswerOf(r, if r.Ready? && r.value.Ok? then Moved(|r.value.value|) else Waited)
      ensures r.Ready? && r.value.Ok? ==>
                |r.value.value| <= max && old(InFlight()) == r.value.value + InFlight()
      ensures r.Pending? || r.value.Err? ==> taken == old(taken)
      ensures r.Ready? && r.value.Err? ==> r.value.error == TransportError
    {
      if {
        case true => r := Pending;
        case true => r := Ready(Err(TransportError));
        case true =>
          var n: nat :| n <= max && n <= |written| - taken;
          r := Ready(Ok(written[taken..taken + n]));
          taken := taken + n;
      }
      lastRead := AnswerOf(r, if r.Ready? && r.value.Ok? then Moved(|r.value.value|) else Waited);
    }

    /** `AsyncWrite::poll_write` of `data`: how many of its bytes were accepted. */
    method PollWrite(data: bytes) returns (r: Poll<IoResult<nat>>)
      requires Valid()
      modifies `written, `lastWrite
      ensures Valid() && lastWrite == AnswerOf(r, if r.Ready? && r.value.Ok? then Moved(r.value.value) else Waited)
      ensures r.Ready? && r.value.Ok? ==>
                r.value.value <= |data| && written == old(written) + data[..r.value.value]
      ensures r.Pending? || r.value.Err? ==> written == old(written)
      ensures r.Ready? && r.value.Err? ==> r.value.error == TransportError
    {
      if {
        case true => r := Pending;
        case true => r := Ready(Err(TransportError));
        case true =>
          var n: nat :| n <= |data|;
          written := written + data[..n];
          r := Ready(Ok(n));
      }
      lastWrite := AnswerOf(r, if r.Ready? && r.value.Ok? then Moved(r.value.value) else Waited);
    }

    /** `AsyncWrite::poll_flush` of the transport itself. */
    method PollFlush() returns (r: Poll<IoResult<()>>)
      modifies `lastWrite, `flushed
      ensures lastWrite == AnswerOf(r, Flushed)
      ensures flushed == if r.Ready? && r.value.Ok? then |written| else old(flushed)
      ensures r.Ready? && r.value.Err? ==> r.value.error == TransportError
    {
      r := Whether();
      lastWrite := AnswerOf(r, Flushed);
      flushed := if r.Ready? && r.value.Ok? then |written| else flushed;
    }

    /** `AsyncWrite::poll_close` of the transport itself. */
    method PollClose() returns (r: Poll<IoResult<()>>)
      modifies `lastWrite, `closed
      ensures lastWrite == AnswerOf(r, Closed)
      ensures closed <==> (r.Ready? && r.value.Ok?) || old(closed)
      ensures r.Ready? && r.value.Err? ==> r.value.error == TransportError
    {
      r := Whether();
      lastWrite := AnswerOf(r, Closed);
      closed := (r.Ready? && r.value.Ok?) || closed;
    }

    method Whether() returns (r: Poll<IoResult<()>>)
      ensures r.Ready? && r.value.Err? ==> r.value.error == TransportError
    {
      if {
        case true => r := Pending;
        case true => r := Ready(Err(TransportError));
        case true => r := Ready(Ok(()));
      }
    }
  }
}
