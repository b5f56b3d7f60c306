/** A master's concurrent tasks over its ledger: request tasks, order votes and the handler of
    network events, interleaved at every read and insert. */
module MasterRuns {
  import opened Wrappers
  import opened Bytes
  import opened Orders
  import opened Ledger
  import opened ReplicaLedger

  /** A request task of `sync`, by where it is suspended. */
  datatype Task =
    | Arrived(body: BodyData)
    | Publishing(body: BodyData, height: nat, lastHash: bytes)
    | Ordering(body: BodyData)
    | OrderVoting(body: BodyData, height: nat, serial: bytes)
    | Inserting(body: BodyData, height: nat, hash: bytes)
    | Finished

  /** A spawned wait that will send `ApprovedBlockTimeout(height, hash, raw)`. */
  datatype Timer = Timer(height: nat, hash: bytes, raw: bytes)

  /** The ledger, the request tasks, and the event handler's local map of approved blocks
      (serialized bodies by their raw hash) with the waits it has spawned. */
  datatype Master = Master(
    ledger: seq<BlockRow>, tasks: seq<Task>, approved: map<bytes, bytes>, timers: set<Timer>)

  /** One atomic step. The outcome of publishing and voting is arbitrary. */
  datatype Event =
    | Request(body: BodyData)
    | ReadLast(task: nat)
    | Alone(task: nat)
    | PhaseOnePassed(task: nat)
    | ReadForOrder(task: nat)
    | OrderRetry(task: nat)
    | OrderPassed(task: nat)
    | GiveUp(task: nat)
    | Insert(task: nat)
    | NewBlock(hash: bytes, received: bytes)
    | ArchiveBlock(hash: bytes, serial: bytes, id: nat)
    | PendingTimeout(hash: bytes, rejected: bool)
    | ApprovedTimeout(timer: Timer, quorum: bool)

  /** The hash of a block at its position: the previous hash digested with the body. */
  function SerialHash(codec: Codec, previous: bytes, body: bytes): bytes {
    codec.sha256(previous + body)
  }

  /** `add_new` for a serialized block; a taken id leaves the table as it is. */
  function Archive(codec: Codec, ledger: seq<BlockRow>, id: nat, hash: bytes, body: bytes): seq<BlockRow> {
    if HasId(ledger, id) then ledger else InsertRow(ledger, BlockRow(id, codec.putBlock(Block(hash, body)), hash))
  }

  function StepTask(codec: Codec, ledger: seq<BlockRow>, task: Task, e: Event): Task
    requires ledger != []
  {
    var last := ledger[|ledger| - 1];
    match (task, e)
    case (Arrived(body), ReadLast(_)) =>
      if last.id < 0 then Finished else Publishing(body, last.id, last.hash)
    case (Publishing(body, height, lastHash), Alone(_)) =>
      Inserting(body, height + 1, SerialHash(codec, lastHash, codec.putBody(body)))
    case (Publishing(body, _, _), PhaseOnePassed(_)) => Ordering(body)
    case (Ordering(body), ReadForOrder(_)) =>
      if last.id < 0 then Finished
      else OrderVoting(body, last.id + 1, SerialHash(codec, last.hash, codec.putBody(body)))
    case (OrderVoting(body, _, _), OrderRetry(_)) => Ordering(body)
    case (OrderVoting(body, height, serial), OrderPassed(_)) => Inserting(body, height, serial)
    case (_, GiveUp(_)) => Finished
    case (Inserting(_, _, _), Insert(_)) => Finished
    case _ => task
  }

  function Step(codec: Codec, s: Master, e: Event): Master {
    if s.ledger == [] then s
    else
      var last := s.ledger[|s.ledger| - 1];
      match e
      case Request(body) => s.(tasks := s.tasks + [Arrived(body)])
      case NewBlock(hash, received) =>
        // the gossip handler has hashed the received bytes; they are decoded there and serialized again here
        if codec.sha256(received) == hash && codec.getBody(received).Some?
        then s.(approved := s.approved[hash := codec.putBody(codec.getBody(received).value)]) else s
      case ArchiveBlock(hash, serial, id) =>
        if hash in s.approved && last.id >= 0 && SerialHash(codec, last.hash, s.approved[hash]) == serial
          && last.id + 1 == id
        then s.(timers := s.timers + {Timer(id, serial, hash)}) else s
      case PendingTimeout(hash, rejected) => if rejected then s.(approved := s.approved - {hash}) else s
      case ApprovedTimeout(timer, quorum) =>
        if timer in s.timers && timer.raw in s.approved && quorum then
          s.(ledger := Archive(codec, s.ledger, timer.height, timer.hash, s.approved[timer.raw]),
             approved := s.approved - {timer.raw})
        else s
      case _ =>
        var i := e.task;
        if i >= |s.tasks| then s
        else
          var tasks := s.tasks[i := StepTask(codec, s.ledger, s.tasks[i], e)];
          if e.Insert? && s.tasks[i].Inserting? then
            s.(tasks := tasks,
               ledger := Archive(codec, s.ledger, s.tasks[i].height, s.tasks[i].hash, codec.putBody(s.tasks[i].body)))
          else s.(tasks := tasks)
  }

  function Run(codec: Codec, s: Master, events: seq<Event>): Master
    decreases |events|
  {
    if events == [] then s else Run(codec, Step(codec, s, events[0]), events[1..])
  }

  /** Ids 0, 1, 2, ..., each row the serialization of a block whose hash digests the previous
      row's hash with the block's body; genesis digests its body alone. */
  predicate Chain(codec: Codec, ledger: seq<BlockRow>) {
    && ledger != [] && Gapless(ledger)
    && (forall i | 0 <= i < |ledger| :: Links(codec, ledger, i))
  }

  predicate Links(codec: Codec, ledger: seq<BlockRow>, i: nat)
    requires i < |ledger|
  {
    match codec.getBlock(ledger[i].data)
    case None => false
    case Some(block) =>
      && block.hash == ledger[i].hash
      && block.hash == codec.sha256((if i == 0 then [] else ledger[i - 1].hash) + block.body)
  }

  /** `hash` is right for `body` at `height`, directly above some row of the ledger. */
  ghost predicate Fits(codec: Codec, ledger: seq<BlockRow>, height: nat, hash: bytes, body: bytes) {
    1 <= height <= |ledger| && hash == SerialHash(codec, ledger[height - 1].hash, body)
  }

  /** What a suspended task remembers is still true. */
  ghost predicate TaskOk(codec: Codec, ledger: seq<BlockRow>, task: Task) {
    match task
    case Publishing(_, height, lastHash) => height < |ledger| && ledger[height].hash == lastHash
    case OrderVoting(body, height, serial) => Fits(codec, ledger, height, serial, codec.putBody(body))
    case Inserting(body, height, hash) => Fits(codec, ledger, height, hash, codec.putBody(body))
    case _ => true
  }

  ghost predicate TimerOk(codec: Codec, ledger: seq<BlockRow>, timer: Timer) {
    exists body :: Approved(codec, timer.raw, body) && Fits(codec, ledger, timer.height, timer.hash, body)
  }

  /** `body` is what the bytes with this hash serialize to after decoding. Nothing says that they
      serialize to themselves, so its own hash may be another one. */
  ghost predicate Approved(codec: Codec, raw: bytes, body: bytes) {
    exists received :: codec.sha256(received) == raw && codec.getBody(received).Some?
                       && body == codec.putBody(codec.getBody(received).value)
  }

  lemma NewlyApproved(codec: Codec, received: bytes)
    requires codec.getBody(received).Some?
    ensures Approved(codec, codec.sha256(received), codec.putBody(codec.getBody(received).value))
  {
  }

  lemma ApprovedOnce(codec: Codec, raw: bytes, a: bytes, b: bytes)
    requires codec.CollisionFree() && Approved(codec, raw, a) && Approved(codec, raw, b)
    ensures a == b
  {
    var x :| codec.sha256(x) == raw && codec.getBody(x).Some? && a == codec.putBody(codec.getBody(x).value);
    var y :| codec.sha256(y) == raw && codec.getBody(y).Some? && b == codec.putBody(codec.getBody(y).value);
    assert codec.sha256(x) == codec.sha256(y);
  }

  ghost predicate Inv(codec: Codec, s: Master) {
    && Chain(codec, s.ledger)
    && (forall i | 0 <= i < |s.tasks| :: TaskOk(codec, s.ledger, s.tasks[i]))
    && (forall raw | raw in s.approved :: Approved(codec, raw, s.approved[raw]))
    && (forall t | t in s.timers :: TimerOk(codec, s.ledger, t))
  }

  /** An insert either fails or extends the chain at its end: the hash was computed from an
      older read, but the id can only still be free if that read is up to date. */
  lemma ArchiveExtends(codec: Codec, ledger: seq<BlockRow>, id: nat, hash: bytes, body: bytes)
    requires codec.Sound() && Chain(codec, ledger) && Fits(codec, ledger, id, hash, body)
    ensures var ledger' := Archive(codec, ledger, id, hash, body);
            Chain(codec, ledger') && ledger <= ledger'
    ensures Archive(codec, ledger, id, hash, body) != ledger <==> id == |ledger|
  {
    if id < |ledger| {
      assert ledger[id].id == id;
    } else {
      var row := BlockRow(id, codec.putBlock(Block(hash, body)), hash);
      InsertLast(ledger, row);
      var ledger' := ledger + [row];
      forall i | 0 <= i < |ledger'| ensures Links(codec, ledger', i) {
        if i < |ledger| {
          assert Links(codec, ledger, i);
        }
      }
    }
  }

  /** What was true of an older ledger stays true as the ledger grows. */
  lemma Remembered(codec: Codec, s: Master, ledger: seq<BlockRow>)
    requires Inv(codec, s) && s.ledger <= ledger
    ensures forall i | 0 <= i < |s.tasks| :: TaskOk(codec, ledger, s.tasks[i])
    ensures forall t | t in s.timers :: TimerOk(codec, ledger, t)
  {
    forall t | t in s.timers ensures TimerOk(codec, ledger, t) {
      var body :| Approved(codec, t.raw, body) && Fits(codec, s.ledger, t.height, t.hash, body);
      assert Fits(codec, ledger, t.height, t.hash, body);
    }
    forall i | 0 <= i < |s.tasks| ensures TaskOk(codec, ledger, s.tasks[i]) {
      assert TaskOk(codec, s.ledger, s.tasks[i]);
    }
  }

  lemma TaskStepOk(codec: Codec, ledger: seq<BlockRow>, task: Task, e: Event)
    requires Chain(codec, ledger) && TaskOk(codec, ledger, task)
    ensures TaskOk(codec, ledger, StepTask(codec, ledger, task, e))
  {
    var last := ledger[|ledger| - 1];
    assert last.id == |ledger| - 1;
  }

  /** The event handler's insert: the body approved under this raw hash is the one the
      position was computed for, because no two bodies share a hash. */
  lemma TimerFits(codec: Codec, s: Master, timer: Timer)
    requires codec.CollisionFree() && Inv(codec, s)
    requires timer in s.timers && timer.raw in s.approved
    ensures Fits(codec, s.ledger, timer.height, timer.hash, s.approved[timer.raw])
  {
    assert TimerOk(codec, s.ledger, timer);
    var body :| Approved(codec, timer.raw, body) && Fits(codec, s.ledger, timer.height, timer.hash, body);
    ApprovedOnce(codec, timer.raw, s.approved[timer.raw], body);
  }

  lemma StepKeepsInv(codec: Codec, s: Master, e: Event)
    requires codec.Sound() && codec.CollisionFree() && Inv(codec, s)
    ensures Inv(codec, Step(codec, s, e)) && s.ledger <= Step(codec, s, e).ledger
  {
    hide Chain;
    hide Archive;
    hide StepTask;
    hide Fits;
    hide Approved;
    LedgerNotEmpty(codec, s.ledger);
    var s' := Step(codec, s, e);
    var last := s.ledger[|s.ledger| - 1];
    match e
    case Request(body) =>
    case NewBlock(hash, received) =>
      if codec.sha256(received) == hash && codec.getBody(received).Some? {
        NewlyApproved(codec, received);
      }
    case ArchiveBlock(hash, serial, id) =>
      if hash in s.approved && last.id + 1 == id && SerialHash(codec, last.hash, s.approved[hash]) == serial {
        NewTimerOk(codec, s.ledger, Timer(id, serial, hash), s.approved[hash]);
      }
    case PendingTimeout(hash, rejected) =>
    case ApprovedTimeout(timer, quorum) =>
      if timer in s.timers && timer.raw in s.approved && quorum {
        TimerFits(codec, s, timer);
        ArchiveExtends(codec, s.ledger, timer.height, timer.hash, s.approved[timer.raw]);
        Remembered(codec, s, s'.ledger);
      }
    case _ =>
      TaskEventKeepsInv(codec, s, e);
  }

  lemma LedgerNotEmpty(codec: Codec, ledger: seq<BlockRow>)
    requires Chain(codec, ledger)
    ensures ledger != [] && ledger[|ledger| - 1].id == |ledger| - 1
  {
  }

  lemma NewTimerOk(codec: Codec, ledger: seq<BlockRow>, timer: Timer, body: bytes)
    requires Chain(codec, ledger)
    requires Approved(codec, timer.raw, body) && timer.height == |ledger|
    requires timer.hash == SerialHash(codec, ledger[|ledger| - 1].hash, body)
    ensures TimerOk(codec, ledger, timer)
  {
    assert Fits(codec, ledger, timer.height, timer.hash, body);
  }

  predicate TaskEvent(e: Event) {
    !e.Request? && !e.NewBlock? && !e.ArchiveBlock? && !e.PendingTimeout? && !e.ApprovedTimeout?
  }

  lemma TaskEventKeepsInv(codec: Codec, s: Master, e: Event)
    requires codec.Sound() && Inv(codec, s) && TaskEvent(e)
    ensures Inv(codec, Step(codec, s, e)) && s.ledger <= Step(codec, s, e).ledger
  {
    hide Chain;
    hide Archive;
    hide StepTask;
    hide TimerOk;
    hide Approved;
    LedgerNotEmpty(codec, s.ledger);
    var i := e.task;
    if i < |s.tasks| {
      var s' := Step(codec, s, e);
      TaskStepOk(codec, s.ledger, s.tasks[i], e);
      if e.Insert? && s.tasks[i].Inserting? {
        ArchiveExtends(codec, s.ledger, s.tasks[i].height, s.tasks[i].hash, codec.putBody(s.tasks[i].body));
      }
      Remembered(codec, s, s'.ledger);
      var task' := StepTask(codec, s.ledger, s.tasks[i], e);
      RememberedTask(codec, s.ledger, s'.ledger, task');
    }
  }

  lemma RememberedTask(codec: Codec, ledger: seq<BlockRow>, ledger': seq<BlockRow>, task: Task)
    requires TaskOk(codec, ledger, task) && ledger <= ledger'
    ensures TaskOk(codec, ledger', task)
  {
  }

  /** In every interleaving from genesis on, the ledger stays a gapless hash chain and only grows
      at its end: no row is lost or changed by concurrent requests, votes and timeouts. */
  lemma {:induction false} ChainAlways(codec: Codec, s: Master, events: seq<Event>)
    requires codec.Sound() && codec.CollisionFree() && Inv(codec, s)
    ensures Inv(codec, Run(codec, s, events)) && s.ledger <= Run(codec, s, events).ledger
    decreases |events|
  {
    hide Inv;
    hide Step;
    if events != [] {
      StepKeepsInv(codec, s, events[0]);
      ChainAlways(codec, Step(codec, s, events[0]), events[1..]);
    }
  }

  /** The state right after the first block was created. */
  function AfterGenesis(codec: Codec, body: BodyData): Master {
    var bytes := codec.putBody(body);
    var hash := codec.sha256(bytes);
    Master([BlockRow(0, codec.putBlock(Block(hash, bytes)), hash)], [], map[], {})
  }

  lemma GenesisInv(codec: Codec, body: BodyData)
    requires codec.Sound()
    ensures Inv(codec, AfterGenesis(codec, body))
  {
    var bytes := codec.putBody(body);
    assert [] + bytes == bytes;
  }

  /** Two rows of a chain with the same hash have the same history: with no collisions, a hash
      pins its block and, block by block, everything before it. */
  lemma {:induction false} HashPinsHistory(codec: Codec, a: seq<BlockRow>, b: seq<BlockRow>, n: nat)
    requires codec.CollisionFree() && Chain(codec, a) && Chain(codec, b)
    requires n < |a| && n < |b| && a[n].hash == b[n].hash
    requires SameLengths(a, b)
    ensures forall i | 0 <= i <= n :: a[i].hash == b[i].hash && codec.getBlock(a[i].data) == codec.getBlock(b[i].data)
  {
    hide Gapless;
    assert Links(codec, a, n) && Links(codec, b, n);
    var x, y := codec.getBlock(a[n].data).value, codec.getBlock(b[n].data).value;
    if n == 0 {
      assert [] + x.body == x.body && [] + y.body == y.body;
    } else {
      SplitEqual(a[n - 1].hash, x.body, b[n - 1].hash, y.body);
      HashPinsHistory(codec, a, b, n - 1);
    }
  }

  /** All hashes have one length, as SHA-256 digests do. */
  ghost predicate SameLengths(a: seq<BlockRow>, b: seq<BlockRow>) {
    forall i, j | 0 <= i < |a| && 0 <= j < |b| :: |a[i].hash| == |b[j].hash|
  }

  lemma SplitEqual(p: bytes, x: bytes, q: bytes, y: bytes)
    requires |p| == |q| && p + x == q + y
    ensures p == q && x == y
  {
    assert p == (p + x)[..|p|] && q == (q + y)[..|q|];
    assert x == (p + x)[|p|..] && y == (q + y)[|q|..];
  }

  /** The hash before a body can be told from the serial hash. */
  lemma SplitOff(p: bytes, q: bytes, body: bytes)
    requires |p| == |q|
    ensures p + body == q + body <==> p == q
  {
    assert (p + body)[..|p|] == p && (q + body)[..|q|] == q;
  }

  /** What the shipping loop and the client replay ask of a master's ledger. */
  lemma ChainIsWellFormed(codec: Codec, ledger: seq<BlockRow>)
    requires Chain(codec, ledger)
    ensures WellFormed(codec, ledger)
  {
    forall i | 0 <= i < |ledger|
      ensures codec.getBlock(ledger[i].data).Some? && codec.getBlock(ledger[i].data).value.hash == ledger[i].hash
    {
      assert Links(codec, ledger, i);
    }
  }

  /** The bodies that clients requested or other masters proposed during a run. */
  function Submitted(codec: Codec, events: seq<Event>): set<bytes> {
    if events == [] then {}
    else (match events[0]
          case Request(body) => {codec.putBody(body)}
          case NewBlock(_, received) =>
            if codec.getBody(received).Some? then {codec.putBody(codec.getBody(received).value)} else {}
          case _ => {}) + Submitted(codec, events[1..])
  }

  /** Everything above height `h`, and everything still under way, comes from `bodies`. */
  ghost predicate From(codec: Codec, s: Master, h: nat, bodies: set<bytes>) {
    && (forall i | h <= i < |s.ledger| ::
          codec.getBlock(s.ledger[i].data).Some? && codec.getBlock(s.ledger[i].data).value.body in bodies)
    && (forall i | 0 <= i < |s.tasks| :: !s.tasks[i].Finished? ==> codec.putBody(s.tasks[i].body) in bodies)
    && (forall raw | raw in s.approved :: s.approved[raw] in bodies)
  }

  lemma StepFrom(codec: Codec, s: Master, e: Event, h: nat, bodies: set<bytes>)
    requires codec.Sound() && codec.CollisionFree() && Inv(codec, s) && h <= |s.ledger|
    requires From(codec, s, h, bodies)
    ensures From(codec, Step(codec, s, e), h, bodies + Submitted(codec, [e]))
  {
    hide Inv;
    hide Archive;
    hide Chain;
    hide StepTask;
    hide Fits;
    assert [e][1..] == [];
    LedgerOf(codec, s);
    if TaskEvent(e) && e.task < |s.tasks| {
      SameBody(codec, s.ledger, s.tasks[e.task], e);
    }
    match e
    case ApprovedTimeout(timer, quorum) =>
      if timer in s.timers && timer.raw in s.approved && quorum {
        TimerFits(codec, s, timer);
        ArchivedBody(codec, s.ledger, timer.height, timer.hash, s.approved[timer.raw]);
      }
    case Insert(i) =>
      if i < |s.tasks| && s.tasks[i].Inserting? {
        TaskFits(codec, s, i);
        ArchivedBody(codec, s.ledger, s.tasks[i].height, s.tasks[i].hash, codec.putBody(s.tasks[i].body));
      }
    case _ =>
  }

  lemma SameBody(codec: Codec, ledger: seq<BlockRow>, task: Task, e: Event)
    requires ledger != []
    ensures var task' := StepTask(codec, ledger, task, e);
            !task'.Finished? ==> !task.Finished? && task'.body == task.body
  {
  }

  lemma LedgerOf(codec: Codec, s: Master)
    requires Inv(codec, s)
    ensures Chain(codec, s.ledger) && s.ledger != []
  {
  }

  lemma TaskFits(codec: Codec, s: Master, i: nat)
    requires Inv(codec, s) && i < |s.tasks| && s.tasks[i].Inserting?
    ensures Fits(codec, s.ledger, s.tasks[i].height, s.tasks[i].hash, codec.putBody(s.tasks[i].body))
  {
    assert TaskOk(codec, s.ledger, s.tasks[i]);
  }

  lemma ArchivedBody(codec: Codec, ledger: seq<BlockRow>, id: nat, hash: bytes, body: bytes)
    requires codec.Sound() && Chain(codec, ledger) && Fits(codec, ledger, id, hash, body)
    ensures var ledger' := Archive(codec, ledger, id, hash, body);
      && |ledger| <= |ledger'| <= |ledger| + 1
      && (forall i | 0 <= i < |ledger| :: ledger'[i] == ledger[i])
      && (|ledger'| > |ledger| ==> codec.getBlock(ledger'[|ledger|].data) == Some(Block(hash, body)))
  {
    if id < |ledger| {
      assert ledger[id].id == id;
    } else {
      InsertLast(ledger, BlockRow(id, codec.putBlock(Block(hash, body)), hash));
    }
  }

  /** No block is invented: in every interleaving each new row carries a body that was requested
      of this master or proposed to it in the run. */
  lemma {:induction false} BodiesSubmitted(codec: Codec, s: Master, events: seq<Event>, h: nat, bodies: set<bytes>)
    requires codec.Sound() && codec.CollisionFree() && Inv(codec, s) && h <= |s.ledger|
    requires From(codec, s, h, bodies)
    ensures From(codec, Run(codec, s, events), h, bodies + Submitted(codec, events))
    decreases |events|
  {
    hide From;
    hide Inv;
    hide Step;
    if events == [] {
      assert bodies + {} == bodies;
    } else {
      var s', more := Step(codec, s, events[0]), Submitted(codec, [events[0]]);
      StepFrom(codec, s, events[0], h, bodies);
      StepKeepsInv(codec, s, events[0]);
      BodiesSubmitted(codec, s', events[1..], h, bodies + more);
      assert [events[0]][1..] == [];
      assert (bodies + more) + Submitted(codec, events[1..]) == bodies + Submitted(codec, events);
    }
  }
}
