/** The per-client loop of a master: batches of ledger rows and of node reports. */
module Shipping {
  import opened Wrappers
  import opened Bytes
  import opened Orders
  import opened Ledger
  import opened ReplicaLedger

  const BATCH: nat := 9

  datatype StatRow = StatRow(node: nat, data: bytes, sig: bytes, timestamp: nat)

  function Flatten<T>(batches: seq<seq<T>>): seq<T> {
    if batches == [] then [] else batches[0] + Flatten(batches[1..])
  }

  lemma {:induction false} FlattenSnoc<T>(batches: seq<seq<T>>, b: seq<T>)
    ensures Flatten(batches + [b]) == Flatten(batches) + b
  {
    if batches == [] {
      assert batches + [b] == [b];
      assert Flatten([b]) == b + Flatten<T>([]);
    } else {
      assert (batches + [b])[1..] == batches[1..] + [b];
      FlattenSnoc(batches[1..], b);
    }
  }

  /** Batches of 1 to 9 blocks; only the one that ends at the polled height may be short. */
  ghost predicate BlockBatches(batches: seq<seq<RequestBlock>>, last: nat) {
    forall b: seq<RequestBlock> | b in batches :: 1 <= |b| <= BATCH && (|b| < BATCH ==> b[|b| - 1].id == last)
  }

  /** Batches of 9 reports; only the last of a complete read may be short. */
  ghost predicate StatBatches(batches: seq<seq<StatRow>>, complete: bool) {
    forall k | 0 <= k < |batches| ::
      |batches[k]| == BATCH || (complete && k == |batches| - 1 && 1 <= |batches[k]| < BATCH)
  }

  /** How many of `n` rows above the cursor are read but never sent, when `due` of them were
      there at the height poll: a batch goes out when it is full and at the polled height, and
      what is left in the batch at the end of the stream is dropped. */
  function Dropped(n: nat, due: nat): (dropped: nat)
    ensures dropped <= n
  {
    if n < due then n % BATCH else (n - due) % BATCH
  }

  lemma DroppedNext(n: nat, due: nat)
    requires due > 0
    ensures Dropped(0, due) == 0 && Dropped(n, due) < BATCH && Dropped(n, due) <= n
    ensures Dropped(n + 1, due) == if n + 1 == due || Dropped(n, due) + 1 >= BATCH then 0 else Dropped(n, due) + 1
  {
    if n < due {
      RestNext(n);
    } else {
      RestNext(n - due);
    }
  }

  lemma RestNext(n: nat)
    ensures 0 <= n % BATCH < BATCH && n % BATCH <= n
    ensures (n + 1) % BATCH == if n % BATCH + 1 >= BATCH then 0 else n % BATCH + 1
  {
  }

  lemma NoBatches<T>()
    ensures Flatten<T>([]) == []
    ensures forall last :: BlockBatches([], last)
    ensures StatBatches([], false) && OpenStats(0) == 0
  {
  }

  lemma SendBatch<T>(batches: seq<seq<T>>, b: seq<T>)
    ensures Flatten(batches + [b]) == Flatten(batches) + b
    ensures Flatten(batches + [b]) + [] == Flatten(batches) + b
  {
    FlattenSnoc(batches, b);
  }

  lemma SendBlocks(batches: seq<seq<RequestBlock>>, b: seq<RequestBlock>, last: nat)
    requires BlockBatches(batches, last) && 1 <= |b| <= BATCH
    requires |b| < BATCH ==> b[|b| - 1].id == last
    ensures BlockBatches(batches + [b], last)
  {
  }

  lemma SendStats(batches: seq<seq<StatRow>>, b: seq<StatRow>, complete: bool)
    requires StatBatches(batches, false) && 1 <= |b| <= BATCH && (|b| < BATCH ==> complete)
    ensures StatBatches(batches + [b], complete)
  {
  }

  lemma AllFull(batches: seq<seq<StatRow>>, complete: bool)
    requires StatBatches(batches, false)
    ensures StatBatches(batches, complete)
  {
  }

  /** One more row read into the open batch. */
  lemma ReadOne<T>(sent: seq<T>, open: seq<T>, rows: seq<T>, i: nat)
    requires i < |rows| && sent + open == rows[..i]
    ensures sent + (open + [rows[i]]) == rows[..i + 1]
  {
    assert rows[..i + 1] == rows[..i] + [rows[i]];
  }

  lemma SentPrefix<T>(sent: seq<T>, open: seq<T>, rows: seq<T>)
    requires sent + open == rows
    ensures sent == rows[..|rows| - |open|]
  {
  }

  /** The size of the open report batch before row `i` is read. */
  function OpenStats(i: nat): nat {
    if i == 0 then 0 else (i - 1) % BATCH + 1
  }

  /** How many of `n` reports are sent: all of them if the rows ended, and otherwise those in
      the full batches that a further row pushed out. */
  function SentStats(n: nat, complete: bool): (sent: nat)
    ensures sent <= n
  {
    if complete || n == 0 then n else (n - 1) / BATCH * BATCH
  }

  /** A complete read sends everything. A failed one sends whole batches and leaves 1 to 9 rows. */
  lemma SentExactly(n: nat)
    ensures SentStats(n, true) == n && SentStats(0, false) == 0
    ensures n > 0 ==> SentStats(n, false) % 9 == 0 && 1 <= n - SentStats(n, false) <= 9
  {
  }

  /** The cursor after the first `n` rows were sent. */
  function Cursor(rows: seq<StatRow>, n: nat, before: nat): nat
    requires n <= |rows|
  {
    if n == 0 then before else rows[n - 1].timestamp
  }

  lemma OpenStatsNext(i: nat)
    ensures OpenStats(i) <= BATCH && OpenStats(i) <= i && (i > 0 ==> OpenStats(i) >= 1)
    ensures OpenStats(i + 1) == if OpenStats(i) >= BATCH then 1 else OpenStats(i) + 1
    ensures SentStats(i, true) == i && SentStats(i, false) == i - OpenStats(i)
  {
  }

  // Reports over several polls

  /** What a poll for reports finds: the table, and after how many rows the query fails, if so. */
  datatype StatPoll = StatPoll(table: seq<StatRow>, failsAfter: Option<nat>)

  /** `get_stats_from`: the rows with a later timestamp, in the order of the table. */
  function StatsFrom(table: seq<StatRow>, cursor: nat): (rows: seq<StatRow>)
    ensures forall r | r in rows :: r.timestamp > cursor
    ensures forall r :: multiset(rows)[r] == if r.timestamp > cursor then multiset(table)[r] else 0
  {
    if table == [] then []
    else
      assert table == [table[0]] + table[1..];
      (if table[0].timestamp > cursor then [table[0]] else []) + StatsFrom(table[1..], cursor)
  }

  function PollReads(cursor: nat, p: StatPoll): seq<StatRow> {
    var rows := StatsFrom(p.table, cursor);
    match p.failsAfter
    case None => rows
    case Some(n) => rows[..Min(n, |rows|)]
  }

  function PollSends(cursor: nat, p: StatPoll): seq<StatRow> {
    var rows := PollReads(cursor, p);
    rows[..SentStats(|rows|, p.failsAfter.None?)]
  }

  function PollCursor(cursor: nat, p: StatPoll): nat {
    var rows := PollReads(cursor, p);
    Cursor(rows, SentStats(|rows|, p.failsAfter.None?), cursor)
  }

  /** Everything that a run of polls sends. */
  function RunSends(cursor: nat, polls: seq<StatPoll>): seq<StatRow>
    decreases |polls|
  {
    if polls == [] then [] else PollSends(cursor, polls[0]) + RunSends(PollCursor(cursor, polls[0]), polls[1..])
  }

  /** A poll sends only rows above the cursor, which ends at the last of them. */
  lemma PollAdvances(cursor: nat, p: StatPoll)
    ensures forall r | r in PollSends(cursor, p) :: r.timestamp > cursor
    ensures PollCursor(cursor, p) >= cursor
    ensures PollSends(cursor, p) != [] ==>
              PollCursor(cursor, p) == PollSends(cursor, p)[|PollSends(cursor, p)| - 1].timestamp > cursor
  {
    hide StatsFrom;
    var rows, sent := PollReads(cursor, p), PollSends(cursor, p);
    assert forall r | r in sent :: r in rows;
    assert forall r | r in rows :: r in StatsFrom(p.table, cursor);
    if sent != [] {
      assert sent[|sent| - 1] in sent;
    }
  }

  /** What is not above the cursor is never sent again. */
  lemma {:induction false} NeverBehind(cursor: nat, polls: seq<StatPoll>, r: StatRow)
    requires r.timestamp <= cursor
    ensures r !in RunSends(cursor, polls)
    decreases |polls|
  {
    hide PollSends, PollCursor;
    if polls != [] {
      PollAdvances(cursor, polls[0]);
      NeverBehind(PollCursor(cursor, polls[0]), polls[1..], r);
    }
  }

  /** How often a poll that ends well sends each row of the table. */
  lemma CompleteSends(cursor: nat, table: seq<StatRow>, r: StatRow)
    ensures multiset(PollSends(cursor, StatPoll(table, None)))[r] ==
            if r.timestamp > cursor then multiset(table)[r] else 0
  {
    var rows := StatsFrom(table, cursor);
    assert rows[..|rows|] == rows;
  }

  /** Over two polls, the first of which may have failed: a row of the second table is sent as often
      as the first one sent it, and once more for each time it is there, if its timestamp is above
      the cursor in between. If it has not been sent after both, that is because the cursor had
      reached its timestamp, and then it is lost: no further polls send it. */
  lemma StatsLost(cursor: nat, first: StatPoll, table: seq<StatRow>, r: StatRow)
    ensures var between := PollCursor(cursor, first);
            var sent := PollSends(cursor, first) + PollSends(between, StatPoll(table, None));
      && multiset(sent)[r] == multiset(PollSends(cursor, first))[r] +
                              (if r.timestamp > between then multiset(table)[r] else 0)
      && (r in table ==>
            (r !in sent <==> r !in PollSends(cursor, first) && r.timestamp <= between))
      && (r in table && r !in sent ==>
            forall polls :: r !in RunSends(PollCursor(between, StatPoll(table, None)), polls))
  {
    hide PollSends, PollCursor;
    var between := PollCursor(cursor, first);
    var last := StatPoll(table, None);
    CompleteSends(between, table, r);
    PollAdvances(between, last);
    assert multiset(PollSends(cursor, first) + PollSends(between, last))
        == multiset(PollSends(cursor, first)) + multiset(PollSends(between, last));
    assert r in PollSends(between, last) <==> multiset(PollSends(between, last))[r] > 0;
    assert r in table <==> multiset(table)[r] > 0;
    if r.timestamp <= between {
      forall polls ensures r !in RunSends(PollCursor(between, last), polls) {
        NeverBehind(PollCursor(between, last), polls, r);
      }
    }
  }

  /** One client's session: its cursors, and the requests sent to it. */
  class Feed {
    var lastRequestHeight: int
    var lastTimestamp: nat
    var sentBlocks: seq<seq<RequestBlock>>
    var sentStats: seq<seq<StatRow>>

    constructor (height: int, timestamp: nat)
      ensures lastRequestHeight == height && lastTimestamp == timestamp
      ensures sentBlocks == [] && sentStats == []
    {
      lastRequestHeight, lastTimestamp, sentBlocks, sentStats := height, timestamp, [], [];
    }

    /** The block branch: `last` is the polled height, `rows` what the query yields before it
        ends or fails. */
    method ShipBlocks(last: nat, rows: seq<BlockRow>) returns (ghost batches: seq<seq<RequestBlock>>)
      requires lastRequestHeight >= -1
      requires forall i | 0 <= i < |rows| :: rows[i].id == lastRequestHeight + 1 + i
      modifies `lastRequestHeight, `sentBlocks
      ensures sentBlocks == old(sentBlocks) + batches && BlockBatches(batches, last)
      ensures last <= old(lastRequestHeight) ==> batches == [] && lastRequestHeight == old(lastRequestHeight)
      ensures last > old(lastRequestHeight) ==>
                var dropped := Dropped(|rows|, last - old(lastRequestHeight));
                && Flatten(batches) == Requests(rows)[..|rows| - dropped]
                && lastRequestHeight == old(lastRequestHeight) + |rows|
    {
      hide Flatten;
      hide BlockBatches;
      hide Dropped;
      batches := [];
      NoBatches<RequestBlock>();
      if last > lastRequestHeight {
        var due := last - lastRequestHeight;
        var blocks: seq<RequestBlock> := [];
        ghost var all := Requests(rows);
        DroppedNext(|rows|, due);
        for i := 0 to |rows|
          invariant sentBlocks == old(sentBlocks) + batches && BlockBatches(batches, last)
          invariant lastRequestHeight == old(lastRequestHeight) + i
          invariant Flatten(batches) + blocks == all[..i]
          invariant |blocks| == Dropped(i, due)
        {
          DroppedNext(i, due);
          ReadOne(Flatten(batches), blocks, all, i);
          blocks := blocks + [RequestBlock(rows[i].id, rows[i].data)];
          if last == blocks[|blocks| - 1].id || |blocks| >= BATCH {
            SendBatch(batches, blocks);
            SendBlocks(batches, blocks, last);
            sentBlocks, batches := sentBlocks + [blocks], batches + [blocks];
            blocks := [];
          }
          lastRequestHeight := lastRequestHeight + 1;
        }
        assert all[..|rows|] == all;
        SentPrefix(Flatten(batches), blocks, all);
      }
    }

    /** The report branch: `complete` says whether the rows ended, or the query failed. */
    method ShipStats(rows: seq<StatRow>, complete: bool) returns (ghost batches: seq<seq<StatRow>>)
      modifies `lastTimestamp, `sentStats
      ensures sentStats == old(sentStats) + batches && StatBatches(batches, complete)
      ensures Flatten(batches) == rows[..SentStats(|rows|, complete)]
      ensures lastTimestamp == Cursor(rows, SentStats(|rows|, complete), old(lastTimestamp))
    {
      hide Flatten;
      hide StatBatches;
      hide OpenStats;
      hide SentStats;
      batches := [];
      NoBatches<StatRow>();
      OpenStatsNext(0);
      OpenStatsNext(|rows|);
      var stats: seq<StatRow> := [];
      var last := 0;
      for i := 0 to |rows|
        invariant sentStats == old(sentStats) + batches && StatBatches(batches, false)
        invariant |stats| == OpenStats(i)
        invariant Flatten(batches) + stats == rows[..i]
        invariant last == Cursor(rows, i, 0)
        invariant lastTimestamp == Cursor(rows, i - |stats|, old(lastTimestamp))
      {
        OpenStatsNext(i);
        if |stats| >= BATCH {
          SendBatch(batches, stats);
          SendStats(batches, stats, false);
          sentStats, batches := sentStats + [stats], batches + [stats];
          lastTimestamp := last;
          stats := [];
        }
        ReadOne(Flatten(batches), stats, rows, i);
        stats := stats + [rows[i]];
        last := rows[i].timestamp;
      }
      assert rows[..|rows|] == rows;
      AllFull(batches, complete);
      if complete && |stats| > 0 {
        SendBatch(batches, stats);
        SendStats(batches, stats, complete);
        sentStats, batches := sentStats + [stats], batches + [stats];
        lastTimestamp := last;
        stats := [];
      }
      SentPrefix(Flatten(batches), stats, rows);
    }

    /** One poll for reports: what the query yields is everything above the cursor. */
    method PollStats(p: StatPoll) returns (ghost batches: seq<seq<StatRow>>)
      modifies `lastTimestamp, `sentStats
      ensures sentStats == old(sentStats) + batches && StatBatches(batches, p.failsAfter.None?)
      ensures Flatten(batches) == PollSends(old(lastTimestamp), p)
      ensures lastTimestamp == PollCursor(old(lastTimestamp), p)
    {
      hide Flatten, StatBatches, SentStats;
      batches := ShipStats(PollReads(lastTimestamp, p), p.failsAfter.None?);
    }

    /** One round: the height is polled from `polled`, and the rows are then read from `queried`,
        which may have grown in between. The rows sent are those above the cursor except the last
        ones: as many are skipped as the growth leaves over when divided by the batch size. The
        cursor passes the skipped rows, so nothing is skipped exactly when the growth is a
        multiple of the batch size, in particular when both see the same table. */
    method ShipRound(polled: seq<BlockRow>, queried: seq<BlockRow>) returns (ghost batches: seq<seq<RequestBlock>>)
      requires Gapless(polled) && Gapless(queried) && polled <= queried
      requires -1 <= lastRequestHeight < |queried|
      modifies `lastRequestHeight, `sentBlocks
      ensures sentBlocks == old(sentBlocks) + batches
      ensures polled != [] ==> BlockBatches(batches, |polled| - 1)
      ensures if |polled| - 1 > old(lastRequestHeight) then
                && RoundSends(polled, queried, old(lastRequestHeight), batches)
                && lastRequestHeight == |queried| - 1
              else batches == [] && lastRequestHeight == old(lastRequestHeight)
    {
      hide *;
      batches := [];
      NoBatches<RequestBlock>();
      if polled != [] {
        var rows := RowsFrom(queried, lastRequestHeight);
        RoundRows(polled, queried, lastRequestHeight);
        batches := ShipBlocks(polled[|polled| - 1].id, rows);
        if |polled| - 1 > old(lastRequestHeight) {
          RoundEnds(polled, queried, old(lastRequestHeight), rows, batches);
        }
      }
    }
  }

  /** The rows above the cursor are sent in order, up to the ones left over. */
  ghost predicate RoundSends(polled: seq<BlockRow>, queried: seq<BlockRow>, cursor: int,
                             batches: seq<seq<RequestBlock>>)
    requires Gapless(queried) && polled <= queried && -1 <= cursor < |polled| - 1
  {
    var skipped := (|queried| - |polled|) % BATCH;
    Flatten(batches) == Requests(queried[cursor + 1..|queried| - skipped])
  }

  lemma RoundEnds(polled: seq<BlockRow>, queried: seq<BlockRow>, cursor: int, rows: seq<BlockRow>,
                  batches: seq<seq<RequestBlock>>)
    requires Gapless(queried) && polled <= queried && -1 <= cursor < |polled| - 1
    requires rows == queried[cursor + 1..]
    requires Dropped(|rows|, |polled| - 1 - cursor) <= |rows|
    requires Flatten(batches) == Requests(rows)[..|rows| - Dropped(|rows|, |polled| - 1 - cursor)]
    ensures RoundSends(polled, queried, cursor, batches)
  {
    hide Flatten;
    DroppedGrowth(|queried|, |polled|, cursor + 1);
    RequestsSlice(queried, cursor + 1, (|queried| - |polled|) % BATCH);
  }

  lemma DroppedGrowth(queried: nat, polled: nat, from: nat)
    requires from < polled <= queried
    ensures Dropped(queried - from, polled - from) == (queried - polled) % BATCH <= queried - polled
  {
  }

  lemma RoundRows(polled: seq<BlockRow>, queried: seq<BlockRow>, cursor: int)
    requires Gapless(polled) && Gapless(queried) && polled <= queried && polled != []
    requires -1 <= cursor < |queried|
    ensures polled[|polled| - 1].id == |polled| - 1 && |polled| <= |queried|
    ensures var rows := RowsFrom(queried, cursor);
            rows == queried[cursor + 1..] && forall i | 0 <= i < |rows| :: rows[i].id == cursor + 1 + i
    ensures forall i | 0 <= i < |queried| :: queried[i].id >= 0
  {
    RowsFromGapless(queried, 0, cursor);
  }

  lemma RequestsSlice(rows: seq<BlockRow>, from: nat, skipped: nat)
    requires forall i | 0 <= i < |rows| :: rows[i].id >= 0
    requires from + skipped <= |rows|
    ensures Requests(rows[from..])[..|rows| - from - skipped] == Requests(rows[from..|rows| - skipped])
  {
  }

  lemma {:induction false} DeliverConcat(codec: Codec, s: Replica, a: seq<RequestBlock>, b: seq<RequestBlock>)
    ensures DeliverAll(codec, s, a + b) == DeliverAll(codec, DeliverAll(codec, s, a), b)
    ensures Committed(codec, s, a + b) == Committed(codec, s, a) + Committed(codec, DeliverAll(codec, s, a), b)
    decreases |a|
  {
    hide Deliver;
    if a == [] {
      assert a + b == b;
    } else {
      assert (a + b)[0] == a[0] && (a + b)[1..] == a[1..] + b;
      DeliverConcat(codec, Deliver(codec, s, a[0]).0, a[1..], b);
    }
  }

  lemma {:induction false} CommittedEverything(codec: Codec, s: Replica, metas: seq<RequestBlock>)
    requires |Committed(codec, s, metas)| == |metas|
    ensures Committed(codec, s, metas) == metas
    decreases |metas|
  {
    hide Deliver;
    if metas != [] {
      var next := Deliver(codec, s, metas[0]).0;
      CommittedLength(codec, next, metas[1..]);
      CommittedEverything(codec, next, metas[1..]);
    }
  }

  /** Batches handed to a client in turn. */
  method HandleAll(client: Client, outbox: seq<seq<RequestBlock>>) returns (disconnects: nat)
    requires Ascending(client.db.blocks)
    modifies client`last, client.db
    ensures Ascending(client.db.blocks)
    ensures client.View() == DeliverAll(client.codec, old(client.View()), Flatten(outbox))
    ensures disconnects == |Flatten(outbox)| - |Committed(client.codec, old(client.View()), Flatten(outbox))|
  {
    hide *;
    ghost var start, done: seq<RequestBlock> := client.View(), [];
    disconnects := 0;
    Nothing(client.codec, start);
    SplitOutbox(outbox, 0, done);
    for i := 0 to |outbox|
      invariant Ascending(client.db.blocks)
      invariant done + Flatten(outbox[i..]) == Flatten(outbox)
      invariant client.View() == DeliverAll(client.codec, start, done)
      invariant disconnects == |done| - |Committed(client.codec, start, done)|
    {
      SplitOutbox(outbox, i, done);
      DeliverConcat(client.codec, start, done, outbox[i]);
      var d := client.Handle(outbox[i]);
      disconnects := disconnects + d;
      done := done + outbox[i];
    }
    SplitOutbox(outbox, |outbox|, done);
  }

  /** Master to client and back to the fold: one round over a well-formed ledger, every batch
      handed to the client in turn. The client is delivered exactly the rows it lacks, in order,
      and disconnects once for each that it does not interpret. If there is none, it ends with the
      master's whole ledger, and with the tables that interpreting it in order produces. */
  method ShipAndReplay(feed: Feed, client: Client, ledger: seq<BlockRow>) returns (disconnects: nat)
    requires WellFormed(client.codec, ledger)
    requires Ascending(client.db.blocks) && CopyOf(client.codec, ledger, client.View())
    requires feed.lastRequestHeight == client.last
    modifies feed`lastRequestHeight, feed`sentBlocks, client`last, client.db
    ensures Replayed(client.codec, ledger, old(client.View()), client.View(), disconnects)
    ensures feed.lastRequestHeight == |ledger| - 1
    ensures disconnects == 0 ==>
      && client.db.blocks == ledger
      && client.last == feed.lastRequestHeight == |ledger| - 1
      && client.db.Tabs() == Replay(client.codec, EMPTY, RowDatas(ledger))
  {
    hide *;
    var first := |feed.sentBlocks|;
    ghost var start := client.View();
    ViewOf(client);
    Outstanding(client.codec, ledger, start);
    ghost var rows := ledger[|start.blocks|..];
    ghost var batches := feed.ShipRound(ledger, ledger);
    SentAll(ledger, start.last, batches);
    disconnects := HandleAll(client, feed.sentBlocks[first..]);
    assert feed.sentBlocks[first..] == batches;
    ReplayedAll(client.codec, ledger, start, client.View(), disconnects);
    if disconnects == 0 {
      CommittedEverything(client.codec, start, Requests(rows));
      InOrder(client.codec, ledger, start, rows);
      CopyWhole(client.codec, ledger, client.View());
      ViewOf(client);
    }
  }

  /** From `s` to `s'` the rows of the ledger above those in `s` were delivered, and so many were
      not interpreted. */
  ghost predicate Replayed(codec: Codec, ledger: seq<BlockRow>, s: Replica, s': Replica, failed: nat) {
    && |s.blocks| <= |ledger| && (forall i | 0 <= i < |ledger| :: ledger[i].id >= 0)
    && var metas := Requests(ledger[|s.blocks|..]);
       s' == DeliverAll(codec, s, metas) && failed == |metas| - |Committed(codec, s, metas)|
  }

  lemma ReplayedAll(codec: Codec, ledger: seq<BlockRow>, s: Replica, s': Replica, failed: nat)
    requires |s.blocks| <= |ledger| && forall i | 0 <= i < |ledger| :: ledger[i].id >= 0
    requires var metas := Requests(ledger[|s.blocks|..]);
             s' == DeliverAll(codec, s, metas) && failed == |metas| - |Committed(codec, s, metas)|
    ensures Replayed(codec, ledger, s, s', failed)
  {
  }

  lemma ViewOf(client: Client)
    ensures client.View() == Replica(client.db.Tabs(), client.db.blocks, client.last)
  {
  }

  lemma SplitOutbox(outbox: seq<seq<RequestBlock>>, i: nat, done: seq<RequestBlock>)
    requires i <= |outbox|
    ensures i == 0 && done == [] ==> done + Flatten(outbox[i..]) == Flatten(outbox)
    ensures i < |outbox| ==> done + Flatten(outbox[i..]) == (done + outbox[i]) + Flatten(outbox[i + 1..])
    ensures i == |outbox| ==> done + Flatten(outbox[i..]) == done
  {
    if i < |outbox| {
      FlattenHead(outbox, i);
    }
    assert i == 0 ==> outbox[i..] == outbox;
  }

  lemma SentAll(ledger: seq<BlockRow>, cursor: int, batches: seq<seq<RequestBlock>>)
    requires Gapless(ledger) && -1 <= cursor < |ledger|
    requires if |ledger| - 1 > cursor then RoundSends(ledger, ledger, cursor, batches) else batches == []
    ensures Flatten(batches) == Requests(ledger[cursor + 1..])
  {
    assert ledger[cursor + 1..|ledger| - 0] == ledger[cursor + 1..];
  }

  lemma Outstanding(codec: Codec, ledger: seq<BlockRow>, s: Replica)
    requires WellFormed(codec, ledger) && CopyOf(codec, ledger, s)
    ensures |s.blocks| <= |ledger| && s.last == |s.blocks| - 1 && Gapless(ledger)
    ensures forall i | 0 <= i < |ledger| :: ledger[i].id >= 0
    ensures var rows := ledger[|s.blocks|..];
            |s.blocks| + |rows| == |ledger| && rows == ledger[|s.blocks|..|s.blocks| + |rows|]
    ensures ledger[..|ledger|] == ledger
  {
  }

  lemma CopyWhole(codec: Codec, ledger: seq<BlockRow>, s: Replica)
    requires CopyOf(codec, ledger, s) && s.blocks == ledger
    ensures s.last == |ledger| - 1 && s.tables == Replay(codec, EMPTY, RowDatas(ledger))
  {
  }

  lemma FlattenHead<T>(batches: seq<seq<T>>, i: nat)
    requires i < |batches|
    ensures Flatten(batches[i..]) == batches[i] + Flatten(batches[i + 1..])
  {
    assert batches[i..][1..] == batches[i + 1..];
  }

  lemma Nothing(codec: Codec, s: Replica)
    ensures DeliverAll(codec, s, []) == s && Committed(codec, s, []) == []
  {
  }
}
