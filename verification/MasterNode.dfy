/** A master's shared settings, and the tasks that vote, publish and archive through them. */
module MasterNode {
  import opened Wrappers
  import opened Bytes
  import opened Orders
  import opened Ledger
  import opened Voting
  import opened ReplicaLedger
  import opened OrderSafety
  import opened ReplicaComplete
  import MasterRuns

  datatype RequestStatus = Accepted | Rejected | RequestFailed | NodeError

  /** What a request task has learnt when it answers: the wait after which it first read its
      ledger, if it could, and how publishing went. */
  datatype RequestTrace = RequestTrace(
    first: Option<nat>, published: Result<Option<(nat, bytes)>, PublishError>, publishing: PublishTrace)

  /** What a task writes to the database. */
  datatype Write = Stored(row: BlockRow, ok: bool) | Interpreted(req: seq<Order>)

  /** The ledger grew, and is still a chain. */
  predicate Grown(codec: Codec, was: seq<BlockRow>, now: seq<BlockRow>) {
    MasterRuns.Chain(codec, now) && was <= now
  }

  /** There is room for another row: ids are signed 64-bit integers. */
  predicate Small(ledger: seq<BlockRow>) {
    |ledger| <= I64_MAX
  }

  datatype State = State(log: Log, ledger: seq<BlockRow>, tables: Tables)

  /** Between the two moments the ledger only grew, and the task itself did not write to it. */
  ghost predicate Later(codec: Codec, was: State, now: State) {
    && LogGrown(was.log, now.log) && Ordered(was.log) && Ordered(now.log)
    && Grown(codec, was.ledger, now.ledger) && (Small(was.ledger) ==> Small(now.ledger))
    && Untouched(was, now)
  }

  ghost predicate Untouched(was: State, now: State) {
    var from, i, j := Image(was.ledger, was.tables), |was.log.waits|, |now.log.waits|;
    Quiet(now.log.waits, i, from, j) && Image(now.ledger, now.tables) == LeftBy(now.log.waits, i, from, j)
  }

  class Swarm {
    const vote: nat
    const blockPushRetries: nat
    const votePushRetries: nat
    const db: Database
    var pendingBlocks: seq<Ballot>
    var approvedBlocks: seq<Position>
    /** The `NewBlock` events sent to the event handler. */
    var newBlocks: seq<(bytes, BodyData)>
    /** Every change of the two vectors so far, by any task. */
    ghost var history: seq<BallotEvent>
    /** The waits, messages and writes of this task, whether its last read failed, and what it was
        told each time it asked for other masters. */
    ghost var waits: seq<Wait>
    ghost var said: seq<Message>
    ghost var writes: seq<Write>
    ghost var readFailed: bool
    ghost var others: seq<bool>

    constructor (vote: nat, blockPushRetries: nat, votePushRetries: nat, db: Database)
      ensures this.vote == vote && this.db == db
      ensures this.blockPushRetries == blockPushRetries && this.votePushRetries == votePushRetries
      ensures Recorded() && View() == NONE && newBlocks == []
    {
      this.vote, this.blockPushRetries, this.votePushRetries, this.db := vote, blockPushRetries, votePushRetries, db;
      pendingBlocks, approvedBlocks, newBlocks := [], [], [];
      history, waits, said, writes, others := [], [], [], [], [];
    }

    ghost function View(): Ballots
      reads this
    {
      Ballots(pendingBlocks, approvedBlocks)
    }

    ghost function Logs(): Log
      reads this
    {
      Log(history, waits)
    }

    ghost function Now(): State
      reads this, db
    {
      State(Logs(), db.blocks, db.Tabs())
    }

    ghost function Content(): Image
      reads this, db
    {
      Image(db.blocks, db.Tabs())
    }

    /** The vectors are what the recorded events made of them, and all votes have their weight. */
    ghost predicate Recorded()
      reads this
    {
      && View() == HappenAll(NONE, history)
      && (forall e | e in history :: Weighed(e, vote))
      && Ordered(Logs())
    }

    ghost predicate Ready(codec: Codec)
      reads this, db
    {
      Recorded() && MasterRuns.Chain(codec, db.blocks)
    }

    /** The `Vote` event: the handler's loop over all entries. */
    method OnVote(hash: bytes, ok: bool, weight: nat)
      modifies `pendingBlocks, `history
      ensures View() == Happen(old(View()), Vote(hash, ok, weight))
              && history == old(history) + [Vote(hash, ok, weight)]
    {
      ghost var was := pendingBlocks;
      for i := 0 to |pendingBlocks|
        invariant |pendingBlocks| == |was| && history == old(history)
        invariant forall j | 0 <= j < i :: pendingBlocks[j] == CountVote(was[j], hash, ok, weight)
        invariant forall j | i <= j < |was| :: pendingBlocks[j] == was[j]
      {
        var p := pendingBlocks[i];
        if p.hash == hash {
          p := if ok then p.(ok := p.ok + weight) else p.(no := p.no + weight);
          pendingBlocks := pendingBlocks[i := p.(voters := p.voters + 1)];
        }
      }
      assert pendingBlocks == VoteAll(was, hash, ok, weight);
      history := history + [Vote(hash, ok, weight)];
    }

    /** The `SerialVote` event. */
    method OnSerialVote(id: nat, hash: bytes, ok: bool, weight: nat)
      modifies `approvedBlocks, `history
      ensures View() == Happen(old(View()), SerialVote(id, hash, ok, weight))
      ensures history == old(history) + [SerialVote(id, hash, ok, weight)]
    {
      ghost var was := approvedBlocks;
      for i := 0 to |approvedBlocks|
        invariant |approvedBlocks| == |was| && history == old(history)
        invariant forall j | 0 <= j < i :: approvedBlocks[j] == CountSerial(was[j], id, hash, ok, weight)
        invariant forall j | i <= j < |was| :: approvedBlocks[j] == was[j]
      {
        var p := approvedBlocks[i];
        if p.height == id && p.hash == hash {
          p := if ok then p.(ok := p.ok + weight) else p.(no := p.no + weight);
          approvedBlocks := approvedBlocks[i := p.(voters := p.voters + 1)];
        }
      }
      assert approvedBlocks == SerialAll(was, id, hash, ok, weight);
      history := history + [SerialVote(id, hash, ok, weight)];
    }

    /** While a task waits, other tasks may change the vectors and the database any number of
        times; the ledger only as `MasterRuns.ChainAlways` allows. */
    method Await(codec: Codec)
      requires Ready(codec)
      modifies `pendingBlocks, `approvedBlocks, `history, `waits, db
      ensures Ready(codec) && Later(codec, old(Now()), Now())
      ensures waits == old(waits) + [Wait(|old(history)|, |history|, old(Content()), db.blocks, db.Tabs())]
      ensures Own(old(Logs()), Logs()) == []
    {
      hide MasterRuns.Chain;
      hide HappenAll, Weighed;
      var es: seq<BallotEvent> :| forall e | e in es :: Weighed(e, vote);
      var b := HappenAll(Ballots(pendingBlocks, approvedBlocks), es);
      HappenConcat(NONE, history, es);
      pendingBlocks, approvedBlocks := b.pending, b.positions;
      history := history + es;
      NothingNew(codec, db.blocks);
      var rows :| Grown(codec, db.blocks, rows) && (Small(db.blocks) ==> Small(rows));
      IsChain(codec, db.blocks, rows);
      db.blocks := rows;
      var tables: Tables :| true;
      db.users, db.nodes, db.configs := tables.users, tables.nodes, tables.configs;
      waits := waits + [Wait(|old(history)|, |history|, old(Content()), db.blocks, db.Tabs())];
      OwnWait(old(Logs()), Logs());
      assert View() == HappenAll(NONE, history);
      assert forall e | e in history :: e in old(history) || e in es;
      assert forall w | w in waits :: w in old(waits) || w.at == |history|;
    }

    /** Publishing on the gossip network: any outcome is possible. */
    method Gossip(ghost net: NetData) returns (r: Sent)
      modifies `said
      ensures said == old(said) + [Message(net, r)]
    {
      if {
        case true => r := Delivered;
        case true => r := InsufficientPeers;
        case true => r := Broken;
      }
      said := said + [Message(net, r)];
    }

    /** Publishing from a task, which waits for the outcome. */
    method Tell(codec: Codec, ghost net: NetData) returns (r: Sent)
      requires Ready(codec)
      modifies `pendingBlocks, `approvedBlocks, `history, `waits, `said, db
      ensures Ready(codec) && Later(codec, old(Now()), Now())
      ensures said == old(said) + [Message(net, r)]
      ensures waits == old(waits) + [Wait(|old(history)|, |history|, old(Content()), db.blocks, db.Tabs())]
      ensures Own(old(Logs()), Logs()) == []
    {
      r := Gossip(net);
      Await(codec);
    }

    /** `block::get_last_block`, which may also fail. */
    method ReadLast(codec: Codec) returns (r: Option<(nat, bytes)>)
      requires Ready(codec)
      modifies `pendingBlocks, `approvedBlocks, `history, `waits, `readFailed, db
      ensures Ready(codec) && Later(codec, old(Now()), Now())
      ensures waits == old(waits) + [Wait(|old(history)|, |history|, old(Content()), db.blocks, db.Tabs())]
      ensures Own(old(Logs()), Logs()) == []
      ensures readFailed <==> r.None?
      ensures r.Some? ==> db.blocks != [] && r.value == LastOf(db.blocks)
    {
      hide HappenAll, Weighed;
      Await(codec);
      SaneLedger(codec, db.blocks);
      hide MasterRuns.Chain;
      var failed: bool :| true;
      if failed {
        r := None;
      } else {
        var last := db.GetLastBlock();
        r := Some((last.value.0, last.value.1));
      }
      readFailed := failed;
    }

    /** `peer::multi_master`. */
    method MultiMaster() returns (r: bool)
      modifies `others
      ensures others == old(others) + [r]
    {
      r :| true;
      others := others + [r];
    }

    /** The scan of `approved_blocks` for the first entry of a position. */
    method FindPosition(hash: bytes) returns (r: Option<Position>)
      ensures r == FirstPosition(approvedBlocks, hash)
    {
      for i := 0 to |approvedBlocks|
        invariant FirstPosition(approvedBlocks, hash) == FirstPosition(approvedBlocks[i..], hash)
      {
        FirstPositionAt(approvedBlocks, hash, i);
        if approvedBlocks[i].hash == hash {
          return Some(approvedBlocks[i]);
        }
      }
      r := None;
    }

    /** The scan of `pending_blocks` for the first entry of a block. */
    method FindBallot(hash: bytes) returns (r: Option<Ballot>)
      ensures r == FirstBallot(pendingBlocks, hash)
    {
      for i := 0 to |pendingBlocks|
        invariant FirstBallot(pendingBlocks, hash) == FirstBallot(pendingBlocks[i..], hash)
      {
        FirstBallotAt(pendingBlocks, hash, i);
        if pendingBlocks[i].hash == hash {
          return Some(pendingBlocks[i]);
        }
      }
      r := None;
    }

    /** The scan of `pending_blocks` after the first round. */
    method CheckPending(hash: bytes) returns (passed: bool)
      ensures passed <==> Uncontested(pendingBlocks, hash)
    {
      for i := 0 to |pendingBlocks|
        invariant Uncontested(pendingBlocks[..i], hash)
      {
        var p := pendingBlocks[i];
        if p.hash == hash && p.no > p.ok {
          assert p in pendingBlocks;
          return false;
        }
        assert pendingBlocks[..i + 1] == pendingBlocks[..i] + [p];
      }
      assert pendingBlocks[..|pendingBlocks|] == pendingBlocks;
      passed := true;
    }

    method PushPending(hash: bytes)
      requires Recorded()
      modifies `pendingBlocks, `history
      ensures Recorded() && View() == Happen(old(View()), OpenPending(hash, vote))
      ensures history == old(history) + [OpenPending(hash, vote)]
    {
      HappenThen(NONE, history, OpenPending(hash, vote));
      pendingBlocks := pendingBlocks + [Ballot(hash, vote, 0, 1)];
      history := history + [OpenPending(hash, vote)];
    }

    method DropPending(hash: bytes)
      requires Recorded()
      modifies `pendingBlocks, `history
      ensures Recorded() && View() == Happen(old(View()), ClosePending(hash))
      ensures history == old(history) + [ClosePending(hash)]
      ensures forall p | p in pendingBlocks :: p.hash != hash
    {
      HappenThen(NONE, history, ClosePending(hash));
      pendingBlocks := Retain(pendingBlocks, ForOther(hash));
      history := history + [ClosePending(hash)];
    }

    method PushPosition(height: nat, hash: bytes)
      requires Recorded()
      modifies `approvedBlocks, `history
      ensures Recorded() && View() == Happen(old(View()), OpenPosition(height, hash, vote))
      ensures history == old(history) + [OpenPosition(height, hash, vote)]
    {
      HappenThen(NONE, history, OpenPosition(height, hash, vote));
      approvedBlocks := approvedBlocks + [Position(height, hash, vote, 0, 1)];
      history := history + [OpenPosition(height, hash, vote)];
    }

    method DropPositions(height: nat)
      requires Recorded()
      modifies `approvedBlocks, `history
      ensures Recorded() && View() == Happen(old(View()), ClosePositionsAt(height))
      ensures history == old(history) + [ClosePositionsAt(height)]
      ensures forall p | p in approvedBlocks :: p.height != height
    {
      HappenThen(NONE, history, ClosePositionsAt(height));
      approvedBlocks := Retain(approvedBlocks, NotAt(height));
      history := history + [ClosePositionsAt(height)];
    }

    /** After a proposal went out: open an entry for the block, wait, and count. A block that
        passes is no longer pending. */
    method CountBallots(codec: Codec, hash: bytes)
      returns (passed: bool, ghost pushed: nat, ghost wait: nat, ghost phaseOne: Ballots)
      requires Ready(codec)
      modifies `pendingBlocks, `approvedBlocks, `history, `waits, db
      ensures Ready(codec) && Later(codec, old(Now()), Now())
      ensures Counted(Logs(), |old(history)|, pushed, wait, OpenPending(hash, vote), phaseOne) && |old(waits)| <= wait
      ensures passed <==> Uncontested(phaseOne.pending, hash)
      ensures passed ==> forall p | p in pendingBlocks :: p.hash != hash
      ensures Own(old(Logs()), Logs()) == [OpenPending(hash, vote)] + if passed then [ClosePending(hash)] else []
    {
      hide MasterRuns.Chain;
      hide HappenAll, Happen, Weighed, Uncontested, Counted, Later, Own;
      ghost var start, e := Now(), OpenPending(hash, vote);
      pushed, wait := |history|, |waits|;
      PushPending(hash);
      ghost var before := Now();
      LaterPushed(codec, start, start, e);
      Await(codec);
      LaterStill(codec, start, before, Now());
      phaseOne := View();
      CountedNow(before, Now(), codec, e, db.Tabs(), phaseOne);
      passed := CheckPending(hash);
      if passed {
        ghost var counted := Now();
        Await(codec);
        LaterStill(codec, start, counted, Now());
        ghost var later := Now();
        CountedStill(codec, counted, later, pushed, pushed, wait, e, phaseOne);
        DropPending(hash);
        LaterPushed(codec, start, later, ClosePending(hash));
        LaterPushed(codec, later, later, ClosePending(hash));
        CountedStill(codec, later, Now(), pushed, pushed, wait, e, phaseOne);
      }
    }

    /** After an announcement went out: open an entry for the position, wait, and count. */
    method CountPosition(codec: Codec, height: nat, serial: bytes)
      returns (found: Option<Position>, ghost pushed: nat, ghost wait: nat, ghost seen: Ballots)
      requires Ready(codec)
      modifies `pendingBlocks, `approvedBlocks, `history, `waits, db
      ensures Ready(codec) && Later(codec, old(Now()), Now())
      ensures Counted(Logs(), |old(history)|, pushed, wait, OpenPosition(height, serial, vote), seen)
              && |old(waits)| <= wait
      ensures found == FirstPosition(seen.positions, serial)
      ensures Own(old(Logs()), Logs()) == [OpenPosition(height, serial, vote)]
    {
      hide MasterRuns.Chain;
      hide HappenAll, Happen, Weighed, FirstPosition, Counted, Later, Own;
      ghost var start, e := Now(), OpenPosition(height, serial, vote);
      pushed, wait := |history|, |waits|;
      PushPosition(height, serial);
      ghost var before := Now();
      LaterPushed(codec, start, start, e);
      Await(codec);
      LaterStill(codec, start, before, Now());
      seen := View();
      CountedNow(before, Now(), codec, e, db.Tabs(), seen);
      found := FindPosition(serial);
      ghost var counted := Now();
      Await(codec);
      LaterStill(codec, start, counted, Now());
      CountedStill(codec, counted, Now(), pushed, pushed, wait, e, seen);
    }

    /** One round of `block_order_vote`: read the last block, announce the position after it, and
        if that was delivered, count. */
    method Announce(codec: Codec, block: Block)
      returns (last: Option<(nat, bytes)>, sent: Sent, found: Option<Position>, ghost round: Round)
      requires Ready(codec)
      modifies `pendingBlocks, `approvedBlocks, `history, `waits, `said, `readFailed, db
      ensures Ready(codec) && Later(codec, old(Now()), Now())
      ensures last.None? ==> said == old(said) && readFailed
      ensures last.Some? ==>
        var serial := MasterRuns.SerialHash(codec, last.value.1, block.body);
        && said == old(said) + [Message(Announcement(codec, block, last.value), sent)]
        && Held(codec, block, vote, Logs(), |old(waits)|, Message(Announcement(codec, block, last.value), sent), round)
        && MasterRuns.Fits(codec, db.blocks, last.value.0 + 1, serial, block.body)
        && (sent.Delivered? ==> found == FirstPosition(round.seen.positions, serial))
        && Own(old(Logs()), Logs()) == OpenedBy(vote, Message(Announcement(codec, block, last.value), sent))
      ensures last.None? ==> Own(old(Logs()), Logs()) == []
    {
      hide MasterRuns.Chain;
      hide MasterRuns.Fits;
      hide MasterRuns.SerialHash;
      hide HappenAll, Happen, Weighed, FirstPosition, Counted, Later, Held, Own;
      ghost var start, fetched := Now(), |waits|;
      found, round, sent := None, Round(fetched, 0, fetched, NONE), Broken;
      last := ReadLast(codec);
      if last.None? {
        return;
      }
      ghost var read := Now();
      FitsRead(codec, db.blocks, block.body);
      var serial := MasterRuns.SerialHash(codec, last.value.1, block.body);
      sent := Tell(codec, Announcement(codec, block, last.value));
      ghost var told, m := Now(), Message(Announcement(codec, block, last.value), sent);
      LaterStill(codec, start, read, told);
      if sent.Delivered? {
        ghost var pushed, wait, seen;
        found, pushed, wait, seen := CountPosition(codec, last.value.0 + 1, serial);
        round := Round(fetched, pushed, wait, seen);
        LaterStill(codec, start, told, Now());
        LaterStill(codec, read, told, Now());
        HeldNow(codec, block, vote, read, told, Now(), fetched, m, round);
      } else {
        HeldUnheard(codec, block, vote, read, told, fetched, m, round);
      }
      FitsLater(codec, read, Now(), last.value.0 + 1, serial, block.body);
    }

    /** `block_order_vote`. */
    method BlockOrderVote(codec: Codec, data: Option<Block>)
      returns (r: Result<(nat, bytes), PublishError>, ghost ordered: seq<Message>, ghost trace: OrderTrace)
      requires Ready(codec)
      modifies `pendingBlocks, `approvedBlocks, `history, `waits, `said, `readFailed, db
      ensures Ready(codec) && Later(codec, old(Now()), Now())
      ensures said == old(said) + ordered
      ensures OrderOutcome(codec, data, vote, blockPushRetries, Logs(), |old(waits)|, ordered, trace, r)
      ensures trace.unread ==> readFailed
      ensures r.Ok? ==> data.Some? && MasterRuns.Fits(codec, db.blocks, r.value.0, r.value.1, data.value.body)
      ensures r.Ok? ==> forall p | p in approvedBlocks :: p.height != r.value.0
      ensures Own(old(Logs()), Logs()) == OrderChanges(vote, ordered, trace.unread)
    {
      hide MasterRuns.Chain;
      hide MasterRuns.Fits;
      hide MasterRuns.SerialHash;
      hide HappenAll, Happen, Weighed, FirstPosition, Later, Held, Retrying, OrderOutcome, LastRound, Own, Opened;
      ordered, trace := [], OrderTrace([], false);
      ghost var start, first := Now(), |waits|;
      NothingYet(codec, start, data, vote, blockPushRetries, first);
      if data.None? {
        return Err(GeneralFailure), ordered, trace;
      }
      var block := data.value;
      var retry := 0;
      while true
        invariant Ready(codec) && Later(codec, start, Now())
        invariant said == old(said) + ordered && Own(start.log, Logs()) == Opened(vote, ordered)
        invariant retry <= blockPushRetries && Retrying(codec, block, vote, Logs(), first, retry, ordered, trace)
        decreases blockPushRetries - retry
      {
        ghost var top := Now();
        MoreWaits(codec, start, top);
        var last, sent, found, round := Announce(codec, block);
        ghost var now := Now();
        LaterStill(codec, start, top, now);
        if last.None? {
          NoLastBlock(codec, block, vote, blockPushRetries, retry, top, now, first, ordered, trace);
          return Err(RejectedByVote), ordered, trace.(unread := true);
        }
        var height, serial := last.value.0 + 1, MasterRuns.SerialHash(codec, last.value.1, block.body);
        ghost var m, before, traced := Message(Announcement(codec, block, last.value), sent), ordered, trace;
        HeldSince(codec, block, vote, now.log, |top.log.waits|, first, m, round);
        OpenedThen(vote, ordered, m);
        ordered, trace := ordered + [m], OrderTrace(trace.rounds + [round], false);
        match sent {
          case Delivered =>
            if found.Some? && found.value.no > found.value.ok && retry < blockPushRetries {
              RoundFailed(codec, block, vote, retry, top, now, first, before, traced, m, round);
              retry := retry + 1;
            } else {
              DropPositions(height);
              Dropped(codec, block, vote, start, top, now, Now(), ClosePositionsAt(height), first, m, round);
              r := if found.None? then Err(ReqError)
                   else if found.value.no > found.value.ok then Err(RejectedByVote)
                   else Ok((height, serial));
              CountDecides(codec, block, last.value, sent, round.seen, retry == blockPushRetries, r);
              RoundDecides(codec, block, vote, blockPushRetries, retry, top, Now(), first, before, traced, m, round, r);
              return;
            }
          case InsufficientPeers =>
            if retry >= blockPushRetries {
              r := Err(ReqError);
              CountDecides(codec, block, last.value, sent, round.seen, true, r);
              RoundDecides(codec, block, vote, blockPushRetries, retry, top, now, first, before, traced, m, round, r);
              return;
            }
            RoundFailed(codec, block, vote, retry, top, now, first, before, traced, m, round);
            retry := retry + 1;
            Await(codec);
            LaterStill(codec, start, now, Now());
            RetryingStill(codec, block, vote, retry, now, Now(), first, ordered, trace);
          case Broken =>
            r := Err(ReqError);
            CountDecides(codec, block, last.value, sent, round.seen, retry == blockPushRetries, r);
            RoundDecides(codec, block, vote, blockPushRetries, retry, top, now, first, before, traced, m, round, r);
            return;
        }
      }
    }

    /** `publish` after the proposal was delivered: vote on the block, and if it passes, on its
        position. */
    method VoteTwice(codec: Codec, hash: bytes, data: Option<Block>, ghost was: PublishTrace)
      returns (r: Result<Option<(nat, bytes)>, PublishError>, ghost trace: PublishTrace)
      requires Ready(codec) && was.ordered == [] && !was.order.unread
      modifies `pendingBlocks, `approvedBlocks, `history, `waits, `said, `readFailed, db
      ensures Ready(codec) && Later(codec, old(Now()), Now())
      ensures said == old(said) + trace.ordered && trace.asked == was.asked && trace.alone == was.alone
      ensures Voted(codec, hash, data, vote, blockPushRetries, Logs(), |old(history)|, |old(waits)|, trace, r)
      ensures trace.order.unread ==> readFailed
      ensures r.Ok? && r.value.Some? ==>
        data.Some? && MasterRuns.Fits(codec, db.blocks, r.value.value.0, r.value.value.1, data.value.body)
      ensures Own(old(Logs()), Logs()) == VoteChanges(hash, vote, trace)
    {
      hide MasterRuns.Chain;
      hide MasterRuns.Fits;
      hide HappenAll, Weighed, OrderOutcome, Uncontested, Counted, Later, Own, OrderChanges;
      ghost var start := Now();
      var passed, pushed, wait, phaseOne := CountBallots(codec, hash);
      trace := was.(pushed := pushed, wait := wait, phaseOne := phaseOne);
      if !passed {
        return Err(RejectedByVote), trace;
      }
      ghost var counted := Now();
      var won, ordered, order := BlockOrderVote(codec, data);
      trace := trace.(ordered := ordered, order := order);
      LaterStill(codec, start, counted, Now());
      CountedStill(codec, counted, Now(), |start.log.history|, pushed, wait, OpenPending(hash, vote), phaseOne);
      WaitIsPast(counted.log, |start.log.history|, pushed, wait, OpenPending(hash, vote), phaseOne);
      OrderSince(codec, data, vote, blockPushRetries, Logs(), |counted.log.waits|, wait + 1, ordered, order, won);
      match won {
        case Ok(v) => r := Ok(Some(v));
        case Err(e) => r := Err(e);
      }
    }

    /** `publish`: `None` means that this master is alone. */
    method Publish(codec: Codec, hash: bytes, data: Option<Block>)
      returns (r: Result<Option<(nat, bytes)>, PublishError>, ghost trace: PublishTrace)
      requires Ready(codec)
      modifies `pendingBlocks, `approvedBlocks, `history, `waits, `said, `readFailed, `others, db
      ensures Ready(codec) && Later(codec, old(Now()), Now())
      ensures said == old(said) + trace.asked + trace.ordered
      ensures PublishOutcome(codec, hash, data, vote, blockPushRetries, Logs(), |old(history)|, |old(waits)|, trace, r)
      ensures trace.asked != [] && others == old(others) + OthersFound(trace)
      ensures trace.order.unread ==> readFailed
      ensures Own(old(Logs()), Logs()) == PublishChanges(hash, vote, trace)
      ensures r.Ok? && r.value.Some? ==>
        data.Some? && MasterRuns.Fits(codec, db.blocks, r.value.value.0, r.value.value.1, data.value.body)
    {
      hide MasterRuns.Chain;
      hide MasterRuns.Fits;
      hide HappenAll, Happen, Weighed, PublishOutcome, Asking, Voted, Later, Own, Ordered;
      hide VoteChanges, PublishChanges, OthersFound, Trues;
      trace := PublishTrace([], false, 0, 0, NONE, [], OrderTrace([], false));
      ghost var start := Now();
      NothingAsked(codec, start, data);
      var retry := 0;
      while true
        invariant Ready(codec) && Later(codec, start, Now())
        invariant said == old(said) + trace.asked && trace.ordered == [] && !trace.alone && !trace.order.unread
        invariant retry <= blockPushRetries && Asking(data, trace.asked, retry) && |trace.asked| == retry
        invariant others == old(others) + Trues(retry) && Own(start.log, Logs()) == []
        decreases blockPushRetries - retry
      {
        ghost var was, top := trace.asked, Now();
        var sent := Tell(codec, Proposal(data));
        ghost var told := Now();
        LaterStill(codec, start, top, told);
        MoreWaits(codec, start, told);
        trace := trace.(asked := was + [Message(Proposal(data), sent)]);
        match sent {
          case Delivered =>
            r, trace := VoteTwice(codec, hash, data, trace);
            LaterStill(codec, start, told, Now());
            VotedSince(codec, hash, data, vote, blockPushRetries, Logs(), told.log, start.log, trace, r);
            PublishDecides(codec, hash, data, vote, blockPushRetries, retry, was, sent, Logs(), start.log, trace, r);
            return;
          case InsufficientPeers =>
            var multiMaster := MultiMaster();
            if !multiMaster {
              trace := trace.(alone := true);
              r := Ok(None);
              PublishDecides(codec, hash, data, vote, blockPushRetries, retry, was, sent, Logs(), start.log, trace, r);
              return;
            } else if retry >= blockPushRetries {
              r := Err(ReqError);
              PublishDecides(codec, hash, data, vote, blockPushRetries, retry, was, sent, Logs(), start.log, trace, r);
              return;
            }
            AskedOnce(data, was, retry);
            retry := retry + 1;
            Await(codec);
            LaterStill(codec, start, told, Now());
          case Broken =>
            r := Err(ReqError);
            PublishDecides(codec, hash, data, vote, blockPushRetries, retry, was, sent, Logs(), start.log, trace, r);
            return;
        }
      }
    }

    method Store(id: nat, data: bytes, hash: bytes) returns (stored: bool)
      requires Ascending(db.blocks)
      modifies `writes, db`blocks
      ensures stored <==> !HasId(old(db.blocks), AsI64(id))
      ensures db.blocks == if stored then InsertRow(old(db.blocks), BlockRow(AsI64(id), data, hash)) else old(db.blocks)
      ensures writes == old(writes) + [Stored(BlockRow(AsI64(id), data, hash), stored)]
    {
      var r := db.AddNew(id, data, hash);
      stored := r.Ok?;
      writes := writes + [Stored(BlockRow(AsI64(id), data, hash), stored)];
    }

    method InterpretStored(req: seq<Order>)
      modifies `writes, db`users, db`nodes, db`configs
      ensures db.Tabs() == Interpret(old(db.Tabs()), req)
      ensures writes == old(writes) + [Interpreted(req)]
    {
      var updates := db.InterpretBlock(req);
      writes := writes + [Interpreted(req)];
    }

    /** The last part of the Block branch of `sync`: insert the row at the position found, and if
        that worked, interpret its orders. Other tasks run before each of the two. */
    method InsertBlock(codec: Codec, body: BodyData, height: nat, hash: bytes) returns (ghost stored: bool)
      requires codec.Sound() && Ready(codec) && Small(db.blocks)
      requires MasterRuns.Fits(codec, db.blocks, height, hash, codec.putBody(body))
      modifies `pendingBlocks, `approvedBlocks, `history, `waits, `writes, db
      ensures Ready(codec) && LogGrown(old(Logs()), Logs()) && old(db.blocks) <= db.blocks
      ensures |waits| == |old(waits)| + (if stored then 2 else 1) && waits[|old(waits)|].since == old(Content())
      ensures old(writes) <= writes && Own(old(Logs()), Logs()) == []
      ensures Archived(codec, body, (height, hash), Logs(), writes[|old(writes)|..], stored, db.blocks, db.Tabs())
    {
      hide MasterRuns.Chain;
      hide MasterRuns.Fits;
      hide MasterRuns.Archive;
      hide HappenAll, Weighed, Later, LogGrown, Own, Ordered, Archived, Interpret, InsertRow, HasId, Ascending, AsI64,
           Small;
      ghost var start, written := Now(), writes;
      var bytes := codec.putBody(body);
      Await(codec);
      ghost var before := Now();
      LaterMeans(codec, start, before);
      FitsLater(codec, start, before, height, hash, bytes);
      SaneLedger(codec, db.blocks);
      AddsLast(codec, db.blocks, height, hash, bytes);
      MasterRuns.ArchiveExtends(codec, db.blocks, height, hash, bytes);
      var added := Store(height, codec.putBlock(Block(hash, bytes)), hash);
      stored := added;
      ghost var after := Now();
      if added {
        Await(codec);
        LaterMeans(codec, after, Now());
        LogLater(start.log, after.log, Logs());
        InterpretStored(body.req);
        WasStored(codec, body, (height, hash), before, after.ledger, Logs(), writes[|written|..], db.Tabs());
      } else {
        NotStored(codec, body, (height, hash), before, Logs(), writes[|written|..], db.Tabs());
      }
    }

    /** The Block branch of `sync`. The client is told that its request was accepted before the
        row is inserted; the insert fails if another task took the height first. */
    method ServeRequest(codec: Codec, body: BodyData)
      returns (status: RequestStatus, ghost trace: RequestTrace, ghost stored: bool)
      requires codec.Sound() && Ready(codec) && Small(db.blocks)
      modifies `pendingBlocks, `approvedBlocks, `history, `waits, `said, `readFailed, `others, `writes, db
      ensures Ready(codec) && LogGrown(old(Logs()), Logs()) && old(db.blocks) <= db.blocks
      ensures Served(codec, body, vote, blockPushRetries, Logs(), |old(waits)|, trace, status)
      ensures said == old(said) + trace.publishing.asked + trace.publishing.ordered
      ensures status == NodeError ==> readFailed
      ensures Own(old(Logs()), Logs()) == PublishChanges(codec.sha256(codec.putBody(body)), vote, trace.publishing)
      ensures old(writes) <= writes
      ensures match Target(codec, body, Logs(), trace)
              case None => status != Accepted && writes == old(writes)
              case Some(target) =>
                && status == Accepted
                && Archived(codec, body, target, Logs(), writes[|old(writes)|..], stored, db.blocks, db.Tabs())
                && var n := |waits| - if stored then 1 else 0;
                   |old(waits)| + 1 < n && Quiet(waits, |old(waits)|, old(Content()), n)
      ensures Target(codec, body, Logs(), trace).None? ==> Untouched(old(Now()), Now())
    {
      hide MasterRuns.Chain;
      hide MasterRuns.Fits;
      hide MasterRuns.SerialHash;
      hide HappenAll, Happen, Weighed, Later, LogGrown, Own, Ordered, PublishChanges, OthersFound, PublishOutcome,
           Archived;
      hide Served, Small, Quiet, Untouched;
      ghost var start, w := Now(), |waits|;
      stored, trace := false, NotRead();
      var first := ReadLast(codec);
      ghost var read := Now();
      LaterMeans(codec, start, read);
      if first.None? {
        NothingServed(codec, body, vote, blockPushRetries, Logs(), w);
        return NodeError, trace, stored;
      }
      var bytes := codec.putBody(body);
      FitsRead(codec, db.blocks, bytes);
      var published, publishing := Publish(codec, codec.sha256(bytes), Some(Block(codec.sha256(bytes), bytes)));
      trace := RequestTrace(Some(w), published, publishing);
      ghost var done := Now();
      LaterStill(codec, start, read, done);
      LaterMeans(codec, start, done);
      LaterMeans(codec, read, done);
      if published.Err? {
        status := if published.error.RejectedByVote? then RequestStatus.Rejected else RequestFailed;
        ServedThen(codec, body, vote, blockPushRetries, read.log, done.log, Logs(), trace, status);
        return;
      }
      status := Accepted;
      var height, hash;
      if published.value.Some? {
        height, hash := published.value.value.0, published.value.value.1;
      } else {
        height, hash := first.value.0 + 1, MasterRuns.SerialHash(codec, first.value.1, bytes);
        FitsLater(codec, read, done, height, hash, bytes);
      }
      stored := InsertBlock(codec, body, height, hash);
      ServedThen(codec, body, vote, blockPushRetries, read.log, done.log, Logs(), trace, status);
      LogLater(start.log, done.log, Logs());
      QuietUntil(codec, start, done, Logs());
    }

    /** The Block branch of the gossip handler: announce the block, check it, and either pass it
        on with a vote for it, or vote against it and forget every entry for its hash. */
    method OnBlock(codec: Codec, block: Block) returns (accepted: bool, ghost answers: seq<Message>)
      requires Ready(codec)
      modifies `pendingBlocks, `approvedBlocks, `newBlocks, `history, `waits, `said, db
      ensures Ready(codec) && Later(codec, old(Now()), Now()) && |old(waits)| < |waits|
      ensures said == old(said) + answers
      ensures var valid := ValidBlock(codec, waits[|old(waits)|].tables, block);
        && BlockAnswers(block.hash, valid, votePushRetries, answers, accepted)
        && Own(old(Logs()), Logs()) == BlockEvents(block.hash, valid, accepted)
      ensures !accepted ==> forall p | p in pendingBlocks :: p.hash != block.hash
      ensures newBlocks == old(newBlocks) + PassedOn(codec, block, accepted)
    {
      hide MasterRuns.Chain;
      hide HappenAll, Happen, Weighed, ValidBlock, BlockAnswers, BlockEvents, VotedFor, PassedOn, Ordered, Later, Own;
      answers := [];
      ghost var start, w := Now(), |waits|;
      Receive(block.hash);
      ghost var received := Now();
      LaterPushed(codec, start, start, ReceiveBlock(block.hash));
      Await(codec);
      var valid := ValidBlock(codec, Tables(db.users, db.nodes, db.configs), block);
      LaterStill(codec, start, received, Now());
      ghost var checked := Now();
      accepted := false;
      if valid {
        accepted, answers := Endorse(codec, block.hash);
        LaterStill(codec, start, checked, Now());
        KeepsWait(codec, checked, Now(), w);
      }
      ghost var votes := answers;
      if accepted {
        HasBody(codec, waits[w].tables, block);
        newBlocks := newBlocks + [(block.hash, codec.getBody(block.body).value)];
      } else {
        ghost var last := Now();
        ghost var answer := Refuse(codec, block.hash);
        answers := answers + [answer];
        LaterStill(codec, start, last, Now());
        KeepsWait(codec, last, Now(), w);
        NotPassedOn(codec, block);
      }
      Answered(block.hash, valid, votePushRetries, votes, answers, accepted);
      EventsOf(block.hash, valid, accepted);
    }

    /** Votes against a block, and forgets every entry for its hash. */
    method Refuse(codec: Codec, hash: bytes) returns (ghost answer: Message)
      requires Ready(codec)
      modifies `pendingBlocks, `approvedBlocks, `history, `waits, `said, db
      ensures Ready(codec) && Later(codec, old(Now()), Now())
      ensures said == old(said) + [answer] && answer.net == BlockVote(hash, false)
      ensures Own(old(Logs()), Logs()) == [ClosePending(hash)]
      ensures forall p | p in pendingBlocks :: p.hash != hash
    {
      hide MasterRuns.Chain;
      hide HappenAll, Happen, Weighed, Later, Own;
      ghost var start := Now();
      var sent := Gossip(BlockVote(hash, false));
      answer := Message(BlockVote(hash, false), sent);
      Await(codec);
      ghost var waited := Now();
      DropPending(hash);
      LaterPushed(codec, start, waited, ClosePending(hash));
    }

    method Receive(hash: bytes)
      requires Recorded()
      modifies `pendingBlocks, `history
      ensures Recorded() && View() == Happen(old(View()), ReceiveBlock(hash))
      ensures history == old(history) + [ReceiveBlock(hash)]
    {
      HappenThen(NONE, history, ReceiveBlock(hash));
      pendingBlocks := pendingBlocks + [Ballot(hash, 0, 0, 0)];
      history := history + [ReceiveBlock(hash)];
    }

    /** Counts the own vote for a valid block, and gossips it. */
    method Endorse(codec: Codec, hash: bytes) returns (delivered: bool, ghost votes: seq<Message>)
      requires Ready(codec)
      modifies `pendingBlocks, `approvedBlocks, `history, `waits, `said, db
      ensures Ready(codec) && Later(codec, old(Now()), Now())
      ensures said == old(said) + votes && VotedFor(hash, votePushRetries, votes, delivered)
      ensures Own(old(Logs()), Logs()) == [Vote(hash, true, 1)]
    {
      hide MasterRuns.Chain;
      hide HappenAll, Happen, Later, Own, VotedFor;
      ghost var start := Now();
      Await(codec);
      ghost var waited := Now();
      HappenThen(NONE, history, Vote(hash, true, 1));
      OnVote(hash, true, 1);
      LaterPushed(codec, start, waited, Vote(hash, true, 1));
      delivered, votes := VoteFor(hash);
    }

    /** The vote for a valid block is repeated until it is delivered. */
    method VoteFor(hash: bytes) returns (delivered: bool, ghost votes: seq<Message>)
      modifies `said
      ensures said == old(said) + votes && VotedFor(hash, votePushRetries, votes, delivered)
    {
      votes := [];
      for i := 1 to votePushRetries + 1
        invariant said == old(said) + votes && |votes| == i - 1
        invariant forall k | 0 <= k < |votes| :: votes[k].net == BlockVote(hash, true) && !votes[k].outcome.Delivered?
      {
        var sent := Gossip(BlockVote(hash, true));
        votes := votes + [Message(BlockVote(hash, true), sent)];
        if sent.Delivered? {
          return true, votes;
        }
      }
      delivered := false;
    }

    /** The `ArchiveBlock` event: another master announces a position for a block that this one
        has approved. If it computes the same position it votes for it and starts to wait. Unless
        it cannot read its ledger, it then votes against the raw hash at this height as well. */
    method OnArchiveBlock(codec: Codec, approved: map<bytes, bytes>, raw: bytes, serial: bytes, id: nat)
      returns (timer: Option<MasterRuns.Timer>, ghost answers: seq<Message>)
      requires Ready(codec)
      modifies `pendingBlocks, `approvedBlocks, `history, `waits, `said, `readFailed, db
      ensures Ready(codec) && Later(codec, old(Now()), Now())
      ensures said == old(said) + answers
      ensures |old(waits)| < |waits| && waits[|old(waits)|].ledger != []
      ensures timer == (if answers != [] && Agrees(codec, waits[|old(waits)|].ledger, approved, raw, serial, id)
                        then Some(MasterRuns.Timer(id, serial, raw)) else None)
      ensures answers == [] ==> raw in approved && readFailed
      ensures answers != [] ==> Nets(answers) == Reply(id, serial, raw, timer.Some?)
      ensures Own(old(Logs()), Logs()) == []
    {
      hide MasterRuns.Chain;
      hide MasterRuns.SerialHash;
      hide HappenAll, Weighed, Later, Own;
      ghost var start, w := Now(), |waits|;
      timer, answers := None, [];
      LaterSelf(codec, start);
      if raw in approved {
        var last := ReadLast(codec);
        SaneLedger(codec, db.blocks);
        if last.None? {
          return;
        }
        ghost var read := Now();
        if MasterRuns.SerialHash(codec, last.value.1, approved[raw]) == serial && last.value.0 + 1 == id {
          timer := Some(MasterRuns.Timer(id, serial, raw));
          var sent := Tell(codec, PositionVote(id, serial, true));
          LaterStill(codec, start, read, Now());
          KeepsWait(codec, read, Now(), w);
          answers := [Message(PositionVote(id, serial, true), sent)];
        }
      }
      ghost var voted := Now();
      var sent := Tell(codec, PositionVote(id, raw, false));
      answers := answers + [Message(PositionVote(id, raw, false), sent)];
      LaterStill(codec, start, voted, Now());
      if raw in approved {
        KeepsWait(codec, voted, Now(), w);
      } else {
        SaneLedger(codec, db.blocks);
      }
    }

    /** The `PendingBlockTimeout` event: an approved block whose first entry is outvoted is
        dropped, and its entries are closed. */
    method OnPendingTimeout(codec: Codec, approved: map<bytes, bytes>, hash: bytes)
      returns (approved': map<bytes, bytes>)
      requires Ready(codec)
      modifies `pendingBlocks, `approvedBlocks, `history, `waits, db
      ensures Ready(codec) && Later(codec, old(Now()), Now())
      ensures |old(waits)| < |waits| && waits[|old(waits)|].at <= |history|
      ensures var first := FirstBallot(At(Logs(), waits[|old(waits)|].at).pending, hash);
              approved' == if first.Some? && first.value.no > first.value.ok then approved - {hash} else approved
      ensures Own(old(Logs()), Logs()) == [ClosePending(hash)]
      ensures forall p | p in pendingBlocks :: p.hash != hash
    {
      hide MasterRuns.Chain;
      hide HappenAll, Happen, Weighed, Later, Own, FirstBallot;
      ghost var start, w := Now(), |waits|;
      Await(codec);
      ghost var scanned, seen := Now(), View();
      var first := FindBallot(hash);
      approved' := if first.Some? && first.value.no > first.value.ok then approved - {hash} else approved;
      Await(codec);
      LaterStill(codec, start, scanned, Now());
      ghost var waited := Now();
      DropPending(hash);
      LaterPushed(codec, start, waited, ClosePending(hash));
      LaterPushed(codec, waited, waited, ClosePending(hash));
      LaterStill(codec, scanned, waited, Now());
      LaterMeans(codec, scanned, Now());
      SeenAt(scanned.log, Logs(), w, seen);
    }

    method DropPositionsOf(hash: bytes)
      requires Recorded()
      modifies `approvedBlocks, `history
      ensures Recorded() && View() == Happen(old(View()), ClosePositionsOf(hash))
      ensures history == old(history) + [ClosePositionsOf(hash)]
    {
      HappenThen(NONE, history, ClosePositionsOf(hash));
      approvedBlocks := Retain(approvedBlocks, NotOf(hash));
      history := history + [ClosePositionsOf(hash)];
    }

    /** The `ApprovedBlockTimeout` event: with a quorum, as counted after the first wait, the
        approved block is stored at its position, after the last one; it is not interpreted. */
    method OnApprovedTimeout(codec: Codec, approved: map<bytes, bytes>, timer: MasterRuns.Timer)
      returns (approved': map<bytes, bytes>)
      requires Ready(codec)
      modifies `pendingBlocks, `approvedBlocks, `history, `waits, `writes, db
      ensures Recorded() && LogGrown(old(Logs()), Logs())
      ensures if timer.raw !in approved then
                approved' == approved && Logs() == old(Logs()) && db.blocks == old(db.blocks)
              else
                && |old(waits)| < |waits| && waits[|old(waits)|].at <= |history|
                && var positions := At(Logs(), waits[|old(waits)|].at).positions;
                   && TimedOut(codec, positions, timer, waits[|waits| - 1].ledger, approved, db.blocks, approved')
                   && Own(old(Logs()), Logs()) ==
                      (if Quorum(positions, timer.hash) then [ClosePositionsOf(timer.raw)] else [])
                   && Quiet(waits, |old(waits)|, old(Content()), |waits|)
                   && db.Tabs() == waits[|waits| - 1].tables
                   && if Quorum(positions, timer.hash)
                      then StoredOne(codec, timer, approved[timer.raw], waits, old(writes), writes)
                      else writes == old(writes)
      ensures timer.raw !in approved ==> writes == old(writes) && db.Tabs() == old(db.Tabs())
    {
      hide MasterRuns.Chain;
      hide MasterRuns.Archive;
      hide HappenAll, Happen, Weighed, Own, Ordered, FirstPosition, LogGrown, Later, StoredOne, Quiet, LeftBy;
      approved' := approved;
      ghost var start, w := Now(), |waits|;
      LaterSelf(codec, start);
      LaterMeans(codec, start, start);
      if timer.raw !in approved {
        return;
      }
      Await(codec);
      ghost var scanned, seen := Now(), View();
      var first := FindPosition(timer.hash);
      if first.Some? && first.value.no < first.value.ok {
        approved' := approved - {timer.raw};
        StoreApproved(codec, timer, approved[timer.raw]);
        LaterMeans(codec, start, scanned);
        LogLater(start.log, scanned.log, Logs());
        SeenAt(scanned.log, Logs(), w, seen);
        QuietThen(scanned.log.waits, waits, w, old(Content()));
      } else {
        LaterMeans(codec, start, scanned);
        SeenAt(scanned.log, scanned.log, w, seen);
      }
    }

    /** Closes the entries of the block, and then stores it at its position. */
    method StoreApproved(codec: Codec, timer: MasterRuns.Timer, body: bytes)
      requires Ready(codec)
      modifies `pendingBlocks, `approvedBlocks, `history, `waits, `writes, db
      ensures Recorded() && LogGrown(old(Logs()), Logs()) && |old(waits)| < |waits|
      ensures Own(old(Logs()), Logs()) == [ClosePositionsOf(timer.raw)]
      ensures timer.height <= I64_MAX ==>
        db.blocks == MasterRuns.Archive(codec, waits[|waits| - 1].ledger, timer.height, timer.hash, body)
      ensures Quiet(waits, |old(waits)|, old(Content()), |waits|) && old(waits) <= waits
      ensures db.Tabs() == waits[|waits| - 1].tables
      ensures StoredOne(codec, timer, body, waits, old(writes), writes)
    {
      hide MasterRuns.Chain;
      hide MasterRuns.Archive;
      hide HappenAll, Happen, Weighed, Own, Ordered, LogGrown, Later, InsertRow, HasId, Ascending, AsI64;
      ghost var start := Now();
      Await(codec);
      ghost var waited := Now();
      DropPositionsOf(timer.raw);
      ghost var dropped := Now();
      LaterPushed(codec, start, waited, ClosePositionsOf(timer.raw));
      Await(codec);
      LaterStill(codec, start, dropped, Now());
      LaterMeans(codec, start, Now());
      SaneLedger(codec, db.blocks);
      StoredAs(codec, db.blocks, timer, body);
      var stored := Store(timer.height, codec.putBlock(Block(timer.hash, body)), timer.hash);
    }
  }

  /** Storing the approved block, tried once after the last wait, is all that was written: the
      orders in it are not interpreted. */
  ghost predicate StoredOne(codec: Codec, timer: MasterRuns.Timer, body: bytes, waits: seq<Wait>,
                            writes: seq<Write>, writes': seq<Write>) {
    && waits != [] && |writes'| == |writes| + 1 && writes <= writes'
    && var row := BlockRow(AsI64(timer.height), codec.putBlock(Block(timer.hash, body)), timer.hash);
       writes'[|writes|] == Stored(row, !HasId(waits[|waits| - 1].ledger, row.id))
  }

  /** What the vectors held at the end of a wait, as found in a later log. */
  lemma SeenAt(was: Log, now: Log, w: nat, seen: Ballots)
    requires was == now || LogGrown(was, now)
    requires |was.waits| == w + 1 && was.waits[w].at == |was.history| && seen == HappenAll(NONE, was.history)
    ensures w < |now.waits| && now.waits[w] == was.waits[w]
    ensures now.waits[w].at <= |now.history| && At(now, now.waits[w].at) == seen
  {
    hide HappenAll;
    assert now.history[..|was.history|] == was.history;
  }

  /** What storing an approved block amounts to. */
  lemma StoredAs(codec: Codec, rows: seq<BlockRow>, timer: MasterRuns.Timer, body: bytes)
    ensures timer.height <= I64_MAX ==>
      MasterRuns.Archive(codec, rows, timer.height, timer.hash, body) ==
      if HasId(rows, AsI64(timer.height)) then rows
      else InsertRow(rows, BlockRow(AsI64(timer.height), codec.putBlock(Block(timer.hash, body)), timer.hash))
  {
  }

  lemma NothingNew(codec: Codec, rows: seq<BlockRow>)
    requires MasterRuns.Chain(codec, rows)
    ensures Grown(codec, rows, rows)
  {
  }

  lemma IsChain(codec: Codec, was: seq<BlockRow>, now: seq<BlockRow>)
    requires Grown(codec, was, now)
    ensures MasterRuns.Chain(codec, now)
  {
  }

  lemma SaneLedger(codec: Codec, rows: seq<BlockRow>)
    requires MasterRuns.Chain(codec, rows)
    ensures Ascending(rows) && rows != [] && rows[|rows| - 1].id == |rows| - 1
  {
  }

  lemma LaterStill(codec: Codec, a: State, b: State, c: State)
    requires Later(codec, a, b) && Later(codec, b, c)
    ensures Later(codec, a, c)
    ensures Own(a.log, c.log) == Own(a.log, b.log) + Own(b.log, c.log)
  {
    hide MasterRuns.Chain;
    hide Own, Quiet, LeftBy;
    OwnThen(a.log, b.log, c.log);
    QuietThen(b.log.waits, c.log.waits, |a.log.waits|, Image(a.ledger, a.tables));
  }

  lemma MoreWaits(codec: Codec, a: State, b: State)
    requires Later(codec, a, b)
    ensures |a.log.waits| <= |b.log.waits| && |a.log.history| <= |b.log.history|
  {
    hide MasterRuns.Chain;
  }

  lemma LaterSelf(codec: Codec, a: State)
    requires MasterRuns.Chain(codec, a.ledger) && Ordered(a.log)
    ensures Later(codec, a, a) && Own(a.log, a.log) == []
  {
    hide MasterRuns.Chain;
    OwnNothing(a.log);
  }

  /** A change of the vectors, with nothing else happening. */
  lemma LaterPushed(codec: Codec, a: State, b: State, e: BallotEvent)
    requires MasterRuns.Chain(codec, b.ledger) && Ordered(b.log) && (a == b || Later(codec, a, b))
    ensures var c := b.(log := Log(b.log.history + [e], b.log.waits));
            Later(codec, a, c) && Own(a.log, c.log) == (if a == b then [] else Own(a.log, b.log)) + [e]
  {
    hide MasterRuns.Chain;
    hide Own;
    var c := b.(log := Log(b.log.history + [e], b.log.waits));
    OwnEvent(b.log, e);
    if a != b {
      OwnThen(a.log, b.log, c.log);
    }
  }

  /** What a task sees at the end of a wait, with its own entry pushed before. */
  lemma CountedNow(before: State, now: State, codec: Codec, entry: BallotEvent, tables: Tables, seen: Ballots)
    requires before.log.history != [] && before.log.history[|before.log.history| - 1] == entry
    requires Later(codec, before, now)
    requires now.log.waits == before.log.waits + [Wait(|before.log.history|, |now.log.history|,
                                                       Image(before.ledger, before.tables), now.ledger, tables)]
    requires seen == HappenAll(NONE, now.log.history)
    ensures Counted(now.log, |before.log.history| - 1, |before.log.history| - 1, |before.log.waits|, entry, seen)
  {
    hide MasterRuns.Chain;
    hide HappenAll;
    assert now.log.history[..|now.log.history|] == now.log.history;
  }

  lemma CountedStill(codec: Codec, was: State, now: State, since: nat, pushed: nat, wait: nat, entry: BallotEvent,
                     seen: Ballots)
    requires Later(codec, was, now) && Counted(was.log, since, pushed, wait, entry, seen)
    ensures Counted(now.log, since, pushed, wait, entry, seen)
  {
    hide MasterRuns.Chain;
    hide Counted;
    CountedLater(was.log, now.log, since, since, pushed, wait, entry, seen);
  }

  /** An order vote that has failed `retry` rounds so far. */
  ghost predicate Retrying(codec: Codec, block: Block, own: nat, log: Log, start: nat, retry: nat,
                           ordered: seq<Message>, t: OrderTrace) {
    && !t.unread && |ordered| == retry
    && Rounds(codec, block, own, log, start, ordered, t.rounds)
    && Retried(ordered, t.rounds, retry)
  }

  lemma NothingYet(codec: Codec, now: State, data: Option<Block>, own: nat, retries: nat, start: nat)
    requires MasterRuns.Chain(codec, now.ledger) && Ordered(now.log)
    ensures Later(codec, now, now) && Own(now.log, now.log) == Opened(own, []) == []
    ensures var t := OrderTrace([], false);
            match data
            case None => OrderOutcome(codec, None, own, retries, now.log, start, [], t, Err(GeneralFailure))
            case Some(block) => Retrying(codec, block, own, now.log, start, 0, [], t)
  {
  }

  lemma RetryingStill(codec: Codec, block: Block, own: nat, retry: nat, was: State, now: State, start: nat,
                      ordered: seq<Message>, t: OrderTrace)
    requires Retrying(codec, block, own, was.log, start, retry, ordered, t) && Later(codec, was, now)
    ensures Retrying(codec, block, own, now.log, start, retry, ordered, t)
  {
    hide MasterRuns.Chain;
    hide Rounds, Retried;
    RoundsLater(codec, block, own, was.log, now.log, start, ordered, t.rounds);
  }

  lemma NoLastBlock(codec: Codec, block: Block, own: nat, retries: nat, retry: nat, was: State, now: State, start: nat,
                    ordered: seq<Message>, t: OrderTrace)
    requires Retrying(codec, block, own, was.log, start, retry, ordered, t) && retry <= retries
             && Later(codec, was, now)
    ensures OrderOutcome(codec, Some(block), own, retries, now.log, start, ordered, t.(unread := true),
                         Err(RejectedByVote))
  {
    hide MasterRuns.Chain;
    hide Held;
    RoundsLater(codec, block, own, was.log, now.log, start, ordered, t.rounds);
  }

  lemma HeldNow(codec: Codec, block: Block, own: nat, read: State, told: State, now: State, start: nat, m: Message,
                round: Round)
    requires Later(codec, read, told) && Later(codec, told, now)
    requires start <= round.fetched == |read.log.waits| - 1 && read.ledger != []
    requires read.log.waits[round.fetched].at == |read.log.history|
             && read.log.waits[round.fetched].ledger == read.ledger
    requires m.net == Announcement(codec, block, LastOf(read.ledger))
    requires Counted(now.log, |told.log.history|, round.pushed, round.wait, OpenPosition(m.net.id, m.net.serial, own),
                     round.seen)
    requires |told.log.waits| <= round.wait
    ensures Held(codec, block, own, now.log, start, m, round)
  {
    hide MasterRuns.Chain;
    hide MasterRuns.SerialHash;
    hide HappenAll;
    assert now.log.waits[round.fetched] == told.log.waits[round.fetched] == read.log.waits[round.fetched];
  }

  lemma HeldUnheard(codec: Codec, block: Block, own: nat, read: State, told: State, start: nat, m: Message,
                    round: Round)
    requires Later(codec, read, told) && !m.outcome.Delivered?
    requires start <= round.fetched == round.wait == |read.log.waits| - 1 && read.ledger != []
    requires read.log.waits[round.fetched].ledger == read.ledger
    requires m.net == Announcement(codec, block, LastOf(read.ledger))
    ensures Held(codec, block, own, told.log, start, m, round)
  {
    hide MasterRuns.Chain;
    hide MasterRuns.SerialHash;
    assert told.log.waits[round.fetched] == read.log.waits[round.fetched];
  }

  lemma HeldStill(codec: Codec, block: Block, own: nat, was: State, now: State, start: nat, m: Message, round: Round)
    requires Held(codec, block, own, was.log, start, m, round) && Later(codec, was, now)
    ensures Held(codec, block, own, now.log, start, m, round)
  {
    hide MasterRuns.Chain;
    hide Held;
    HeldLater(codec, block, own, was.log, now.log, start, m, round);
  }

  lemma HeldSince(codec: Codec, block: Block, own: nat, log: Log, start: nat, start': nat, m: Message, round: Round)
    requires Held(codec, block, own, log, start, m, round) && start' <= start
    ensures Held(codec, block, own, log, start', m, round) && start <= round.fetched
  {
    hide Counted;
  }

  /** The entries are dropped after the count. */
  lemma Dropped(codec: Codec, block: Block, own: nat, start: State, top: State, was: State, now: State, e: BallotEvent,
                first: nat, m: Message, round: Round)
    requires MasterRuns.Chain(codec, was.ledger)
    requires Later(codec, start, was) && Later(codec, top, was)
    requires now == was.(log := Log(was.log.history + [e], was.log.waits))
    requires Held(codec, block, own, was.log, first, m, round)
    ensures Later(codec, start, now) && Later(codec, top, now) && Held(codec, block, own, now.log, first, m, round)
    ensures start != was ==> Own(start.log, now.log) == Own(start.log, was.log) + [e]
  {
    hide MasterRuns.Chain;
    hide Held, Own;
    LaterPushed(codec, start, was, e);
    LaterPushed(codec, top, was, e);
    LaterPushed(codec, was, was, e);
    HeldStill(codec, block, own, was, now, first, m, round);
  }

  lemma RoundFailed(codec: Codec, block: Block, own: nat, retry: nat, was: State, now: State, start: nat,
                    ordered: seq<Message>, t: OrderTrace, m: Message, round: Round)
    requires Retrying(codec, block, own, was.log, start, retry, ordered, t) && Later(codec, was, now)
    requires Held(codec, block, own, now.log, start, m, round) && |was.log.waits| <= round.fetched
    requires NoResult(m, round)
    ensures Retrying(codec, block, own, now.log, start, retry + 1, ordered + [m], OrderTrace(t.rounds + [round], false))
  {
    hide MasterRuns.Chain;
    hide Held, NoResult;
    RoundsThen(codec, block, own, was.log, now.log, start, ordered, t.rounds, m, round);
    hide Rounds;
    SizeOf(codec, block, own, was.log, start, ordered, t.rounds);
    RetriedThen(ordered, t.rounds, m, round);
  }

  lemma SizeOf(codec: Codec, block: Block, own: nat, log: Log, start: nat, said: seq<Message>, rounds: seq<Round>)
    requires Rounds(codec, block, own, log, start, said, rounds)
    ensures |said| == |rounds|
  {
  }

  lemma RetriedThen(said: seq<Message>, rounds: seq<Round>, m: Message, round: Round)
    requires |said| == |rounds| && Retried(said, rounds, |said|) && NoResult(m, round)
    ensures Retried(said + [m], rounds + [round], |said| + 1)
    ensures Retried(said + [m], rounds + [round], |said|)
  {
    hide NoResult;
  }

  lemma RetriedBefore(said: seq<Message>, rounds: seq<Round>, m: Message, round: Round)
    requires |said| == |rounds| && Retried(said, rounds, |said|)
    ensures Retried(said + [m], rounds + [round], |said|)
  {
    hide NoResult;
  }

  /** What the last announcement and its count amount to. */
  lemma CountDecides(codec: Codec, block: Block, read: (nat, bytes), sent: Sent, seen: Ballots, exhausted: bool,
                     r: Result<(nat, bytes), PublishError>)
    requires match sent
             case Broken => r == Err(ReqError)
             case InsufficientPeers => r == Err(ReqError) && exhausted
             case Delivered =>
               var serial := MasterRuns.SerialHash(codec, read.1, block.body);
               match FirstPosition(seen.positions, serial)
               case None => r == Err(ReqError)
               case Some(p) =>
                 if p.no > p.ok then r == Err(RejectedByVote) && exhausted else r == Ok((read.0 + 1, serial))
    ensures LastRound(Message(Announcement(codec, block, read), sent), seen, exhausted, r)
  {
  }

  lemma RoundDecides(codec: Codec, block: Block, own: nat, retries: nat, retry: nat, was: State, now: State, start: nat,
                     ordered: seq<Message>, t: OrderTrace, m: Message, round: Round,
                     r: Result<(nat, bytes), PublishError>)
    requires Retrying(codec, block, own, was.log, start, retry, ordered, t) && retry <= retries
             && Later(codec, was, now)
    requires Held(codec, block, own, now.log, start, m, round) && |was.log.waits| <= round.fetched
    requires LastRound(m, round.seen, retry == retries, r)
    ensures OrderOutcome(codec, Some(block), own, retries, now.log, start, ordered + [m],
                         OrderTrace(t.rounds + [round], false), r)
  {
    hide MasterRuns.Chain;
    hide Held, NoResult, LastRound;
    RoundsThen(codec, block, own, was.log, now.log, start, ordered, t.rounds, m, round);
    SizeOf(codec, block, own, was.log, start, ordered, t.rounds);
    hide Rounds;
    RetriedBefore(ordered, t.rounds, m, round);
    hide Retried;
    assert (ordered + [m])[|ordered|] == m && (t.rounds + [round])[|ordered|] == round;
  }

  lemma FitsRead(codec: Codec, rows: seq<BlockRow>, body: bytes)
    requires MasterRuns.Chain(codec, rows)
    ensures rows != []
    ensures var (height, hash) := LastOf(rows);
            MasterRuns.Fits(codec, rows, height + 1, MasterRuns.SerialHash(codec, hash, body), body)
  {
  }

  lemma FitsLater(codec: Codec, was: State, now: State, height: nat, serial: bytes, body: bytes)
    requires Later(codec, was, now) && MasterRuns.Fits(codec, was.ledger, height, serial, body)
    ensures MasterRuns.Fits(codec, now.ledger, height, serial, body)
  {
    hide MasterRuns.Chain;
  }

  predicate Asking(data: Option<Block>, asked: seq<Message>, retry: nat) {
    |asked| == retry && forall i | 0 <= i < |asked| :: asked[i] == Message(Proposal(data), InsufficientPeers)
  }

  lemma NothingAsked(codec: Codec, now: State, data: Option<Block>)
    requires MasterRuns.Chain(codec, now.ledger) && Ordered(now.log)
    ensures Later(codec, now, now) && Own(now.log, now.log) == [] && Asking(data, [], 0) && Trues(0) == []
  {
  }

  lemma AskedOnce(data: Option<Block>, asked: seq<Message>, retry: nat)
    requires Asking(data, asked, retry)
    ensures Asking(data, asked + [Message(Proposal(data), InsufficientPeers)], retry + 1)
    ensures Trues(retry + 1) == Trues(retry) + [true]
  {
  }

  lemma PublishDecides(codec: Codec, hash: bytes, data: Option<Block>, own: nat, retries: nat, retry: nat,
                       was: seq<Message>, sent: Sent, log: Log, start: Log, trace: PublishTrace,
                       r: Result<Option<(nat, bytes)>, PublishError>)
    requires Asking(data, was, retry) && retry <= retries
    requires trace.asked == was + [Message(Proposal(data), sent)]
    requires match sent
             case Broken => trace.ordered == [] && r == Err(ReqError)
             case InsufficientPeers =>
               trace.ordered == [] && if trace.alone then r == Ok(None) else r == Err(ReqError) && retry == retries
             case Delivered => Voted(codec, hash, data, own, retries, log, |start.history|, |start.waits|, trace, r)
    ensures PublishOutcome(codec, hash, data, own, retries, log, |start.history|, |start.waits|, trace, r)
    ensures trace.asked != []
    ensures OthersFound(trace) == Trues(retry) + if sent.InsufficientPeers? then [!trace.alone] else []
    ensures PublishChanges(hash, own, trace) == if sent.Delivered? then VoteChanges(hash, own, trace) else []
  {
    hide Voted, VoteChanges, Trues;
  }

  lemma VotedSince(codec: Codec, hash: bytes, data: Option<Block>, own: nat, retries: nat, log: Log, told: Log,
                   start: Log,
                   trace: PublishTrace, r: Result<Option<(nat, bytes)>, PublishError>)
    requires Voted(codec, hash, data, own, retries, log, |told.history|, |told.waits|, trace, r)
    requires |start.history| <= |told.history| && |start.waits| <= |told.waits|
    ensures Voted(codec, hash, data, own, retries, log, |start.history|, |start.waits|, trace, r)
  {
    hide OrderOutcome, Uncontested, HappenAll;
  }

  lemma WaitIsPast(log: Log, since: nat, pushed: nat, wait: nat, entry: BallotEvent, seen: Ballots)
    requires Counted(log, since, pushed, wait, entry, seen)
    ensures wait < |log.waits|
  {
  }

  lemma OrderSince(codec: Codec, data: Option<Block>, own: nat, retries: nat, log: Log, start: nat, start': nat,
                   said: seq<Message>, t: OrderTrace, r: Result<(nat, bytes), PublishError>)
    requires OrderOutcome(codec, data, own, retries, log, start, said, t, r) && start' <= start
    ensures OrderOutcome(codec, data, own, retries, log, start', said, t, r)
  {
    hide Counted, LastRound, NoResult;
  }

  lemma OrderLater(codec: Codec, data: Option<Block>, own: nat, retries: nat, was: Log, now: Log, start: nat,
                   said: seq<Message>, t: OrderTrace, r: Result<(nat, bytes), PublishError>)
    requires OrderOutcome(codec, data, own, retries, was, start, said, t, r) && LogGrown(was, now)
    ensures OrderOutcome(codec, data, own, retries, now, start, said, t, r)
  {
    hide LastRound, Held, NoResult, LogGrown;
    if data.Some? {
      RoundsLater(codec, data.value, own, was, now, start, said, t.rounds);
    }
  }

  lemma PublishLater(codec: Codec, hash: bytes, data: Option<Block>, own: nat, retries: nat, was: Log, now: Log,
                     since: nat, start: nat, t: PublishTrace, r: Result<Option<(nat, bytes)>, PublishError>)
    requires PublishOutcome(codec, hash, data, own, retries, was, since, start, t, r) && LogGrown(was, now)
    ensures PublishOutcome(codec, hash, data, own, retries, now, since, start, t, r)
  {
    hide OrderOutcome, Uncontested, Counted, LogGrown;
    if t.asked[|t.asked| - 1].outcome.Delivered? {
      CountedLater(was, now, since, since, t.pushed, t.wait, OpenPending(hash, own), t.phaseOne);
      if Uncontested(t.phaseOne.pending, hash) {
        var won := match r
          case Ok(Some(v)) => Ok(v)
          case Ok(None) => Err(ReqError)
          case Err(e) => Err(e);
        OrderLater(codec, data, own, retries, was, now, t.wait + 1, t.ordered, t.order, won);
      }
    }
  }

  function NotRead(): RequestTrace {
    RequestTrace(None, Err(GeneralFailure), PublishTrace([], false, 0, 0, NONE, [], OrderTrace([], false)))
  }

  /** Which status the client is sent. The first read is wait `start` of the log. */
  ghost predicate Served(codec: Codec, body: BodyData, own: nat, retries: nat, log: Log, start: nat,
                         trace: RequestTrace, status: RequestStatus) {
    match trace.first
    case None => status == NodeError
    case Some(w) =>
      var bytes := codec.putBody(body);
      var hash := codec.sha256(bytes);
      && w == start < |log.waits| && log.waits[w].ledger != []
      && PublishOutcome(codec, hash, Some(Block(hash, bytes)), own, retries, log, log.waits[w].at, w + 1,
                        trace.publishing, trace.published)
      && status == match trace.published
                   case Ok(_) => Accepted
                   case Err(RejectedByVote) => RequestStatus.Rejected
                   case Err(_) => RequestFailed
  }

  lemma NothingServed(codec: Codec, body: BodyData, own: nat, retries: nat, log: Log, start: nat)
    ensures Served(codec, body, own, retries, log, start, NotRead(), NodeError)
    ensures PublishChanges(codec.sha256(codec.putBody(body)), own, NotRead().publishing) == []
  {
  }

  lemma ServedThen(codec: Codec, body: BodyData, own: nat, retries: nat, read: Log, done: Log, now: Log,
                   trace: RequestTrace, status: RequestStatus)
    requires trace.first.Some? && |read.waits| == trace.first.value + 1
    requires read.waits[trace.first.value].ledger != [] && read.waits[trace.first.value].at == |read.history|
    requires LogGrown(read, done) && (done == now || LogGrown(done, now))
    requires var bytes := codec.putBody(body);
             var hash := codec.sha256(bytes);
             PublishOutcome(codec, hash, Some(Block(hash, bytes)), own, retries, done, |read.history|, |read.waits|,
                            trace.publishing, trace.published)
    requires status == match trace.published
                       case Ok(_) => Accepted
                       case Err(RejectedByVote) => RequestStatus.Rejected
                       case Err(_) => RequestFailed
    ensures Served(codec, body, own, retries, now, trace.first.value, trace, status)
    ensures now.waits[trace.first.value] == read.waits[trace.first.value]
  {
    hide PublishOutcome;
    var bytes := codec.putBody(body);
    var hash := codec.sha256(bytes);
    PublishLater(codec, hash, Some(Block(hash, bytes)), own, retries, done, now, |read.history|, |read.waits|,
                 trace.publishing, trace.published);
    assert now.waits[trace.first.value] == done.waits[trace.first.value] == read.waits[trace.first.value];
  }

  /** The position a request task inserts at: the one it won, or for a lone master the one after
      its first read. */
  ghost function Target(codec: Codec, body: BodyData, log: Log, trace: RequestTrace): Option<(nat, bytes)>
    requires trace.first.Some? ==> trace.first.value < |log.waits| && log.waits[trace.first.value].ledger != []
  {
    match (trace.first, trace.published)
    case (Some(_), Ok(Some(won))) => Some(won)
    case (Some(w), Ok(None)) =>
      var (height, hash) := LastOf(log.waits[w].ledger);
      Some((height + 1, MasterRuns.SerialHash(codec, hash, codec.putBody(body))))
    case _ => None
  }

  /** A request task wrote the row at its target, or tried to. The insert comes right after a
      wait, and works exactly if the ledger then ends below the target; the orders are
      interpreted right after one more wait, exactly if the insert worked. */
  ghost predicate Archived(codec: Codec, body: BodyData, target: (nat, bytes), log: Log, writes: seq<Write>,
                           stored: bool,
                           ledger: seq<BlockRow>, tables: Tables) {
    var bytes := codec.putBody(body);
    var n := |log.waits| - if stored then 2 else 1;
    && n >= 0
    && var before := log.waits[n].ledger;
    && MasterRuns.Fits(codec, before, target.0, target.1, bytes)
    && (stored <==> target.0 == |before|)
    && writes == [Stored(BlockRow(target.0, codec.putBlock(Block(target.1, bytes)), target.1), stored)]
               + (if stored then [Interpreted(body.req)] else [])
    && if stored then
         && log.waits[n + 1].since.ledger == MasterRuns.Archive(codec, before, target.0, target.1, bytes)
         && log.waits[n + 1].since.tables == log.waits[n].tables
         && log.waits[n + 1].since.ledger <= ledger == log.waits[n + 1].ledger
         && tables == Interpret(log.waits[n + 1].tables, body.req)
       else ledger == before && tables == log.waits[n].tables
  }

  lemma WasStored(codec: Codec, body: BodyData, target: (nat, bytes), before: State, after: seq<BlockRow>, log: Log,
                  writes: seq<Write>, tables: Tables)
    requires before.log.waits != [] && before.log.waits[|before.log.waits| - 1].ledger == before.ledger
    requires |log.waits| == |before.log.waits| + 1 && before.log.waits <= log.waits
    requires MasterRuns.Fits(codec, before.ledger, target.0, target.1, codec.putBody(body))
             && target.0 == |before.ledger|
    requires after == MasterRuns.Archive(codec, before.ledger, target.0, target.1, codec.putBody(body))
    requires after <= log.waits[|log.waits| - 1].ledger
    requires log.waits[|log.waits| - 1].since == Image(after, before.tables)
    requires before.log.waits[|before.log.waits| - 1].tables == before.tables
    requires tables == Interpret(log.waits[|log.waits| - 1].tables, body.req)
    requires writes == [Stored(BlockRow(target.0, codec.putBlock(Block(target.1, codec.putBody(body))), target.1),
                               true),
                        Interpreted(body.req)]
    ensures Archived(codec, body, target, log, writes, true, log.waits[|log.waits| - 1].ledger, tables)
  {
    hide MasterRuns.Archive;
    hide MasterRuns.Fits;
    hide Interpret;
    assert log.waits[|log.waits| - 2] == before.log.waits[|before.log.waits| - 1];
  }

  lemma NotStored(codec: Codec, body: BodyData, target: (nat, bytes), before: State, log: Log, writes: seq<Write>,
                  tables: Tables)
    requires log == before.log && log.waits != []
    requires log.waits[|log.waits| - 1].ledger == before.ledger && log.waits[|log.waits| - 1].tables == tables
    requires MasterRuns.Fits(codec, before.ledger, target.0, target.1, codec.putBody(body))
             && target.0 != |before.ledger|
    requires writes == [Stored(BlockRow(target.0, codec.putBlock(Block(target.1, codec.putBody(body))), target.1),
                               false)]
    ensures Archived(codec, body, target, log, writes, false, before.ledger, tables)
  {
    hide MasterRuns.Fits;
  }

  /** The task wrote nothing until it inserted its row, after the wait following `done`. */
  lemma QuietUntil(codec: Codec, start: State, done: State, now: Log)
    requires Later(codec, start, done) && LogGrown(done.log, now) && |done.log.waits| < |now.waits|
    requires now.waits[|done.log.waits|].since == Image(done.ledger, done.tables)
    ensures Quiet(now.waits, |start.log.waits|, Image(start.ledger, start.tables), |done.log.waits| + 1)
  {
    hide MasterRuns.Chain;
    hide Quiet, LeftBy;
    QuietOne(done.log.waits, now.waits, |start.log.waits|, Image(start.ledger, start.tables));
  }

  lemma LaterMeans(codec: Codec, a: State, b: State)
    requires Later(codec, a, b)
    ensures Untouched(a, b)
    ensures LogGrown(a.log, b.log) && a.ledger <= b.ledger && (Small(a.ledger) ==> Small(b.ledger))
    ensures |a.log.waits| <= |b.log.waits| && |a.log.history| <= |b.log.history|
    ensures a.log.waits <= b.log.waits && Ordered(a.log) && Ordered(b.log)
  {
    hide MasterRuns.Chain;
  }

  lemma LogLater(a: Log, b: Log, c: Log)
    requires LogGrown(a, b) && LogGrown(b, c) && Ordered(b) && Ordered(c)
    ensures LogGrown(a, c) && Own(a, c) == Own(a, b) + Own(b, c)
  {
    OwnThen(a, b, c);
  }

  lemma KeepsWait(codec: Codec, a: State, b: State, w: nat)
    requires Later(codec, a, b) && w < |a.log.waits|
    ensures w < |b.log.waits| && b.log.waits[w] == a.log.waits[w]
  {
    hide MasterRuns.Chain;
  }

  /** The insert that the ledger table does is the one that keeps the chain. */
  lemma AddsLast(codec: Codec, rows: seq<BlockRow>, height: nat, hash: bytes, body: bytes)
    requires MasterRuns.Chain(codec, rows) && Small(rows) && MasterRuns.Fits(codec, rows, height, hash, body)
    ensures AsI64(height) == height && (HasId(rows, height) <==> height < |rows|) && height <= |rows|
    ensures MasterRuns.Archive(codec, rows, height, hash, body) ==
            if height < |rows| then rows else InsertRow(rows, BlockRow(height, codec.putBlock(Block(hash, body)), hash))
  {
    if height < |rows| {
      assert rows[height].id == height;
    }
  }

  function Nets(ms: seq<Message>): (nets: seq<NetData>)
    ensures |nets| == |ms| && forall i | 0 <= i < |ms| :: nets[i] == ms[i].net
  {
    seq(|ms|, i requires 0 <= i < |ms| => ms[i].net)
  }

  /** This master computes the same position for the announced block. */
  predicate Agrees(codec: Codec, rows: seq<BlockRow>, approved: map<bytes, bytes>, raw: bytes, serial: bytes, id: nat)
    requires rows != []
  {
    && raw in approved && id == |rows|
    && serial == MasterRuns.SerialHash(codec, rows[|rows| - 1].hash, approved[raw])
  }

  predicate Quorum(positions: seq<Position>, hash: bytes) {
    var first := FirstPosition(positions, hash);
    first.Some? && first.value.no < first.value.ok
  }

  /** What an `ApprovedBlockTimeout` does to the ledger and to the map of approved blocks. */
  ghost predicate TimedOut(codec: Codec, positions: seq<Position>, timer: MasterRuns.Timer,
                           ledger: seq<BlockRow>, approved: map<bytes, bytes>,
                           ledger': seq<BlockRow>, approved': map<bytes, bytes>) {
    if timer.raw in approved && Quorum(positions, timer.hash) then
      && approved' == approved - {timer.raw}
      && (timer.height <= I64_MAX ==>
            ledger' == MasterRuns.Archive(codec, ledger, timer.height, timer.hash, approved[timer.raw]))
    else
      approved' == approved && ledger' == ledger
  }

  /** The timeout does what the interleaving model says, with the quorum counted, and so keeps
      the chain: its block extends the ledger, or the height is taken. */
  lemma TimeoutIsStep(codec: Codec, s: MasterRuns.Master, timer: MasterRuns.Timer, positions: seq<Position>,
                      ledger': seq<BlockRow>, approved': map<bytes, bytes>)
    requires codec.Sound() && codec.CollisionFree() && MasterRuns.Inv(codec, s) && timer in s.timers && Small(s.ledger)
    requires TimedOut(codec, positions, timer, s.ledger, s.approved, ledger', approved')
    ensures var s' := MasterRuns.Step(codec, s, MasterRuns.ApprovedTimeout(timer, Quorum(positions, timer.hash)));
            ledger' == s'.ledger && approved' == s'.approved && s'.tasks == s.tasks && s'.timers == s.timers
    ensures MasterRuns.Chain(codec, ledger') && s.ledger <= ledger'
  {
    hide MasterRuns.Chain;
    hide MasterRuns.Archive;
    MasterRuns.LedgerOf(codec, s);
    MasterRuns.StepKeepsInv(codec, s, MasterRuns.ApprovedTimeout(timer, Quorum(positions, timer.hash)));
    if timer.raw in s.approved && Quorum(positions, timer.hash) {
      MasterRuns.TimerFits(codec, s, timer);
    }
    hide MasterRuns.StepTask;
    KeepsChain(codec, MasterRuns.Step(codec, s, MasterRuns.ApprovedTimeout(timer, Quorum(positions, timer.hash))));
  }

  lemma KeepsChain(codec: Codec, s: MasterRuns.Master)
    requires MasterRuns.Inv(codec, s)
    ensures MasterRuns.Chain(codec, s.ledger)
  {
  }

  /** After any votes on an announced position there is a quorum exactly if those for it, the
      proposer's own included, outweigh those against it. */
  lemma QuorumExactly(b: Ballots, height: nat, hash: bytes, own: nat, votes: seq<(bool, nat)>)
    requires forall p | p in b.positions :: p.hash != hash
    ensures Quorum(HappenAll(b, [OpenPosition(height, hash, own)] + SerialVotes(height, hash, votes)).positions, hash)
       <==> Cast(votes, false) < own + Cast(votes, true)
  {
    PositionExactly(b, height, hash, own, votes);
  }

  /** The timeout of a pending block drops it exactly if its first entry is outvoted, as a step of
      the interleaving model. */
  lemma PendingIsStep(codec: Codec, s: MasterRuns.Master, pending: seq<Ballot>, hash: bytes, approved': map<bytes,
                      bytes>)
    requires s.ledger != []
    requires var first := FirstBallot(pending, hash);
             approved' == if first.Some? && first.value.no > first.value.ok then s.approved - {hash} else s.approved
    ensures var first := FirstBallot(pending, hash);
            MasterRuns.Step(codec, s, MasterRuns.PendingTimeout(hash, first.Some? && first.value.no > first.value.ok))
            == s.(approved := approved')
  {
  }

  /** An announcement starts a wait exactly where the interleaving model does. */
  lemma AnnouncementIsStep(codec: Codec, s: MasterRuns.Master, raw: bytes, serial: bytes, id: nat)
    requires MasterRuns.Inv(codec, s) && s.ledger != []
    ensures MasterRuns.Step(codec, s, MasterRuns.ArchiveBlock(raw, serial, id))
         == s.(timers := s.timers + if Agrees(codec, s.ledger, s.approved, raw, serial, id)
                                    then {MasterRuns.Timer(id, serial, raw)} else {})
  {
    MasterRuns.LedgerNotEmpty(codec, s.ledger);
    hide MasterRuns.SerialHash;
    hide MasterRuns.Inv;
  }

  /** What the gossip handler answers: votes for a valid block until one is delivered, and a vote
      against any block that it does not pass on. */
  ghost predicate BlockAnswers(hash: bytes, valid: bool, retries: nat, answers: seq<Message>, accepted: bool) {
    && answers != []
    && (forall i | 0 <= i < |answers| - 1 :: answers[i].net == BlockVote(hash, true) && !answers[i].outcome.Delivered?)
    && if accepted then
         valid && |answers| <= retries && answers[|answers| - 1] == Message(BlockVote(hash, true), Delivered)
       else
         |answers| == (if valid then retries else 0) + 1 && answers[|answers| - 1].net == BlockVote(hash, false)
  }

  ghost predicate VotedFor(hash: bytes, retries: nat, votes: seq<Message>, delivered: bool) {
    && (forall i | 0 <= i < |votes| :: votes[i].net == BlockVote(hash, true))
    && (forall i | 0 <= i < |votes| - 1 :: !votes[i].outcome.Delivered?)
    && if delivered then 1 <= |votes| <= retries && votes[|votes| - 1].outcome.Delivered?
       else |votes| == retries && (votes != [] ==> !votes[|votes| - 1].outcome.Delivered?)
  }

  lemma Answered(hash: bytes, valid: bool, retries: nat, votes: seq<Message>, answers: seq<Message>, accepted: bool)
    requires if valid then VotedFor(hash, retries, votes, accepted) else votes == [] && !accepted
    requires if accepted then answers == votes
             else
               && |answers| == |votes| + 1 && answers[..|votes|] == votes
               && answers[|votes|].net == BlockVote(hash, false)
    ensures BlockAnswers(hash, valid, retries, answers, accepted)
  {
    if !accepted {
      forall i | 0 <= i < |answers| - 1 ensures answers[i] == votes[i] {
        assert answers[..|votes|][i] == votes[i];
      }
    }
  }

  function BlockEvents(hash: bytes, valid: bool, accepted: bool): seq<BallotEvent> {
    [ReceiveBlock(hash)] + (if valid then [Vote(hash, true, 1)] else [])
      + (if accepted then [] else [ClosePending(hash)])
  }

  /** The event that passes an accepted block on to the event handler. */
  function PassedOn(codec: Codec, block: Block, accepted: bool): seq<(bytes, BodyData)> {
    match codec.getBody(block.body)
    case Some(body) => if accepted then [(block.hash, body)] else []
    case None => []
  }

  lemma EventsOf(hash: bytes, valid: bool, accepted: bool)
    ensures BlockEvents(hash, valid, accepted) ==
            [ReceiveBlock(hash)] + (if valid then [Vote(hash, true, 1)] else [])
              + (if accepted then [] else [ClosePending(hash)])
  {
  }

  lemma NotPassedOn(codec: Codec, block: Block)
    ensures PassedOn(codec, block, false) == []
  {
  }

  lemma HasBody(codec: Codec, tables: Tables, block: Block)
    requires ValidBlock(codec, tables, block)
    ensures codec.getBody(block.body).Some?
    ensures PassedOn(codec, block, true) == [(block.hash, codec.getBody(block.body).value)]
  {
  }

  /** What the gossip handler checks. The signature is checked over the whole serialized body,
      while the request path and the client check it over the serialized orders only. */
  predicate ValidBlock(codec: Codec, tables: Tables, block: Block) {
    && codec.sha256(block.body) == block.hash
    && codec.getBody(block.body).Some?
    && var body := codec.getBody(block.body).value;
       && FirstActive(tables.users, body.user).Ok?
       && VerifyReq(tables, codec.verifySig(body.user, block.body, body.sign), body.req, body.user,
                    FirstActive(tables.users, body.user).value.perms) == Ok(None)
  }

  /** A follower that has approved a block under its raw hash agrees with the position that the
      proposer announces, exactly if its own ledger ends at the same height with the same hash, as
      long as no two inputs share a digest and hashes have one length. */
  lemma FollowerAgrees(codec: Codec, block: Block, rows: seq<BlockRow>, mine: seq<BlockRow>,
                       approved: map<bytes, bytes>)
    requires codec.CollisionFree() && rows != [] && mine != []
    requires block.hash in approved && approved[block.hash] == block.body
    requires |rows[|rows| - 1].hash| == |mine[|mine| - 1].hash|
    ensures var ann := Announcement(codec, block, LastOf(rows));
      && ann.ArchiveBlock?
      && (Agrees(codec, mine, approved, ann.hash, ann.serial, ann.id) <==> LastOf(mine) == LastOf(rows))
  {
    MasterRuns.SplitOff(LastOf(rows).1, LastOf(mine).1, block.body);
  }

  /** What the gossip handler passes on is what the interleaving model takes as a `NewBlock` event:
      it approves the block under its raw hash, with its body serialized again. */
  lemma PassedOnIsStep(codec: Codec, tables: Tables, block: Block, s: MasterRuns.Master)
    requires ValidBlock(codec, tables, block) && s.ledger != []
    ensures PassedOn(codec, block, true) == [(block.hash, codec.getBody(block.body).value)]
    ensures MasterRuns.Step(codec, s, MasterRuns.NewBlock(block.hash, block.body)) ==
            s.(approved := s.approved[block.hash := codec.putBody(codec.getBody(block.body).value)])
  {
  }

  /** A block passes the handler's checks exactly if it carries its own digest, decodes, and is
      signed over its whole body by an active user whose permissions allow each of its orders. */
  lemma ValidExactly(codec: Codec, tables: Tables, block: Block)
    ensures ValidBlock(codec, tables, block) <==>
      && codec.sha256(block.body) == block.hash && codec.getBody(block.body).Some?
      && var body := codec.getBody(block.body).value;
         && codec.verifySig(body.user, block.body, body.sign) == Ok(true)
         && exists i :: FirstActiveAt(tables.users, body.user, i) &&
              forall k | 0 <= k < |body.req| ::
                VerifyOrder(tables, body.req[k], body.user, tables.users[i].perms) == Ok(None)
  {
    hide VerifyOrder, FirstActive;
    if codec.getBody(block.body).Some? {
      var body := codec.getBody(block.body).value;
      FirstActiveExactly(tables.users, body.user);
      if FirstActive(tables.users, body.user).Ok? {
        var user := FirstActive(tables.users, body.user).value;
        SignatureFirst(tables, codec.verifySig(body.user, block.body, body.sign), body.req, body.user, user.perms);
        hide VerifyReq;
        if ValidBlock(codec, tables, block) {
          var i :| FirstActiveAt(tables.users, body.user, i);
          assert tables.users[i] == user;
        }
      }
    }
  }

  /** The proposal that `serialize_req` makes of a request. */
  function ProposalOf(codec: Codec, body: BodyData): Block {
    Block(codec.sha256(codec.putBody(body)), codec.putBody(body))
  }

  /** A request that a master accepts is signed over its orders, so no gossip handler, with
      whatever tables, accepts the block that is proposed for it. */
  lemma RequestNeverValid(codec: Codec, checked: Tables, perms: Permissions, tables: Tables, body: BodyData)
    requires codec.Sound() && codec.SignsOnce() && codec.putOrders(body.req) != codec.putBody(body)
    requires VerifyReq(checked, codec.verifySig(body.user, codec.putOrders(body.req), body.sign), body.req, body.user,
                       perms) == Ok(None)
    ensures !ValidBlock(codec, tables, ProposalOf(codec, body))
  {
    hide VerifyOrders;
    var block := ProposalOf(codec, body);
    assert codec.getBody(block.body) == Some(body);
    assert codec.verifySig(body.user, codec.putOrders(body.req), body.sign) == Ok(true);
    assert codec.verifySig(body.user, codec.putBody(body), body.sign) != Ok(true);
  }
}
