/** What a master's tables are, next to its ledger: a request task interprets its row some time
    after inserting it, and a row stored by a timeout is never interpreted. */
module MasterTables {
  import opened Wrappers
  import opened Bytes
  import opened Orders
  import opened Ledger
  import opened ReplicaLedger
  import opened MasterRuns

  /** `waiting` are the orders of rows that request tasks have inserted and not interpreted yet, by
      height; `skipped` the rows stored by timeouts; `done` the interpreted rows, in that order. */
  datatype Node = Node(
    master: Master, tables: Tables, waiting: map<nat, seq<Order>>, skipped: set<nat>, done: seq<nat>)

  datatype Move = Base(event: Event) | InterpretRow(height: nat)

  function Advance(codec: Codec, n: Node, m: Move): Node {
    match m
    case Base(e) =>
      var next, h := MasterRuns.Step(codec, n.master, e), |n.master.ledger|;
      if |next.ledger| <= h then n.(master := next)
      else if e.Insert? && e.task < |n.master.tasks| && n.master.tasks[e.task].Inserting? then
        n.(master := next, waiting := n.waiting[h := n.master.tasks[e.task].body.req])
      else n.(master := next, skipped := n.skipped + {h})
    case InterpretRow(h) =>
      if h !in n.waiting then n
      else n.(tables := Interpret(n.tables, n.waiting[h]), waiting := n.waiting - {h}, done := n.done + [h])
  }

  function AdvanceAll(codec: Codec, n: Node, moves: seq<Move>): Node
    decreases |moves|
  {
    if moves == [] then n else AdvanceAll(codec, Advance(codec, n, moves[0]), moves[1..])
  }

  /** The serialized blocks at these heights. */
  function Pick(ledger: seq<BlockRow>, heights: seq<nat>): (datas: seq<bytes>)
    requires forall i | 0 <= i < |heights| :: heights[i] < |ledger|
    ensures |datas| == |heights| && forall i | 0 <= i < |heights| :: datas[i] == ledger[heights[i]].data
  {
    seq(|heights|, i requires 0 <= i < |heights| => ledger[heights[i]].data)
  }

  predicate NoTwice(heights: seq<nat>) {
    forall i, j | 0 <= i < j < |heights| :: heights[i] != heights[j]
  }

  /** Of the heights from `g` to below `end`, each is waiting, skipped or done, and only one of these. */
  ghost predicate Accounts(g: nat, end: nat, waiting: set<nat>, skipped: set<nat>, done: seq<nat>) {
    && (forall i | 0 <= i < |done| :: g <= done[i] < end)
    && (forall h | h in waiting :: g <= h < end && h !in skipped && h !in done)
    && (forall h | h in skipped :: g <= h < end && h !in done)
    && (forall h | g <= h < end :: h in waiting || h in skipped || h in done)
    && NoTwice(done)
  }

  /** The tables are what interpreting the rows in `done`, in that order, makes of `base`. */
  ghost predicate TablesOk(codec: Codec, n: Node, g: nat, base: Tables) {
    && Accounts(g, |n.master.ledger|, n.waiting.Keys, n.skipped, n.done)
    && (forall h | h in n.waiting :: n.waiting[h] == OrdersOf(codec, n.master.ledger[h].data))
    && n.tables == Replay(codec, base, Pick(n.master.ledger, n.done))
  }

  lemma ReplayOne(codec: Codec, base: Tables, datas: seq<bytes>, data: bytes)
    ensures Replay(codec, base, datas + [data]) == Interpret(Replay(codec, base, datas), OrdersOf(codec, data))
  {
    hide Interpret, OrdersOf;
    ReplayAppend(codec, base, datas, [data]);
    var t := Replay(codec, base, datas);
    assert [data][1..] == [];
    assert Replay(codec, Interpret(t, OrdersOf(codec, data)), []) == Interpret(t, OrdersOf(codec, data));
  }

  /** What a step adds to the ledger: at most one row, with the body of the inserting task. */
  lemma StepAdds(codec: Codec, s: Master, e: Event)
    requires codec.Sound() && codec.CollisionFree() && MasterRuns.Inv(codec, s)
    ensures var s' := MasterRuns.Step(codec, s, e);
      && s.ledger <= s'.ledger && |s'.ledger| <= |s.ledger| + 1
      && (|s'.ledger| > |s.ledger| && e.Insert? && e.task < |s.tasks| && s.tasks[e.task].Inserting? ==>
            OrdersOf(codec, s'.ledger[|s.ledger|].data) == s.tasks[e.task].body.req)
  {
    hide MasterRuns.Inv;
    hide Chain;
    hide Archive;
    hide StepTask;
    hide Fits;
    LedgerOf(codec, s);
    StepKeepsInv(codec, s, e);
    match e
    case ApprovedTimeout(timer, quorum) =>
      if timer in s.timers && timer.raw in s.approved && quorum {
        TimerFits(codec, s, timer);
        ArchivedBody(codec, s.ledger, timer.height, timer.hash, s.approved[timer.raw]);
      }
    case Insert(i) =>
      if i < |s.tasks| && s.tasks[i].Inserting? {
        TaskFits(codec, s, i);
        ArchivedBody(codec, s.ledger, s.tasks[i].height, s.tasks[i].hash, codec.putBody(s.tasks[i].body));
      }
    case _ =>
  }

  lemma AdvanceKeeps(codec: Codec, n: Node, m: Move, g: nat, base: Tables)
    requires codec.Sound() && codec.CollisionFree() && MasterRuns.Inv(codec, n.master)
    requires TablesOk(codec, n, g, base) && g <= |n.master.ledger|
    ensures var n' := Advance(codec, n, m);
      && MasterRuns.Inv(codec, n'.master) && n.master.ledger <= n'.master.ledger
      && TablesOk(codec, n', g, base)
      && n.done <= n'.done && n.skipped <= n'.skipped
  {
    hide MasterRuns.Inv;
    hide MasterRuns.Step;
    hide Interpret, OrdersOf, Replay, Accounts;
    match m
    case Base(e) =>
      StepKeepsInv(codec, n.master, e);
      StepAdds(codec, n.master, e);
      RowAccounted(g, |n.master.ledger|, n.waiting.Keys, n.skipped, n.done);
      InRange(g, |n.master.ledger|, n.waiting.Keys, n.skipped, n.done);
      SamePick(n.master.ledger, MasterRuns.Step(codec, n.master, e).ledger, n.done);
      var waiting := Advance(codec, n, m).waiting;
      assert waiting == n.waiting || waiting.Keys == n.waiting.Keys + {|n.master.ledger|};
    case InterpretRow(h) =>
      if h in n.waiting {
        RowDone(g, |n.master.ledger|, n.waiting.Keys, n.skipped, n.done, h);
        InRange(g, |n.master.ledger|, n.waiting.Keys, n.skipped, n.done);
        PickOne(n.master.ledger, n.done, h);
        ReplayOne(codec, base, Pick(n.master.ledger, n.done), n.master.ledger[h].data);
      }
  }

  lemma InRange(g: nat, end: nat, waiting: set<nat>, skipped: set<nat>, done: seq<nat>)
    requires Accounts(g, end, waiting, skipped, done)
    ensures (forall h | h in waiting :: h < end) && forall i | 0 <= i < |done| :: done[i] < end
  {
  }

  /** A new row waits, or is skipped. */
  lemma RowAccounted(g: nat, end: nat, waiting: set<nat>, skipped: set<nat>, done: seq<nat>)
    requires Accounts(g, end, waiting, skipped, done) && g <= end
    ensures Accounts(g, end + 1, waiting + {end}, skipped, done)
    ensures Accounts(g, end + 1, waiting, skipped + {end}, done)
    ensures end !in waiting
  {
  }

  lemma RowDone(g: nat, end: nat, waiting: set<nat>, skipped: set<nat>, done: seq<nat>, h: nat)
    requires Accounts(g, end, waiting, skipped, done) && h in waiting
    ensures Accounts(g, end, waiting - {h}, skipped, done + [h])
  {
  }

  lemma SamePick(ledger: seq<BlockRow>, next: seq<BlockRow>, heights: seq<nat>)
    requires ledger <= next && forall i | 0 <= i < |heights| :: heights[i] < |ledger|
    ensures Pick(next, heights) == Pick(ledger, heights)
  {
  }

  lemma PickOne(ledger: seq<BlockRow>, heights: seq<nat>, h: nat)
    requires h < |ledger| && forall i | 0 <= i < |heights| :: heights[i] < |ledger|
    ensures Pick(ledger, heights + [h]) == Pick(ledger, heights) + [ledger[h].data]
  {
  }

  /** Over every interleaving: the tables are always the replay of exactly the rows interpreted so
      far, in the order in which that happened; no row is interpreted twice, and one stored by a
      timeout never is. */
  lemma {:induction false} TablesAlways(codec: Codec, n: Node, moves: seq<Move>, g: nat, base: Tables)
    requires codec.Sound() && codec.CollisionFree() && MasterRuns.Inv(codec, n.master)
    requires TablesOk(codec, n, g, base) && g <= |n.master.ledger|
    ensures var n' := AdvanceAll(codec, n, moves);
      && MasterRuns.Inv(codec, n'.master) && n.master.ledger <= n'.master.ledger
      && TablesOk(codec, n', g, base)
      && n.done <= n'.done && n.skipped <= n'.skipped
    decreases |moves|
  {
    hide MasterRuns.Inv;
    hide TablesOk, Advance;
    if moves != [] {
      AdvanceKeeps(codec, n, moves[0], g, base);
      TablesAlways(codec, Advance(codec, n, moves[0]), moves[1..], g, base);
    }
  }

  predicate Ascends(heights: seq<nat>) {
    forall i, j | 0 <= i < j < |heights| :: heights[i] < heights[j]
  }

  function Range(from: nat, to: nat): (r: seq<nat>)
    requires from <= to
    ensures |r| == to - from && forall i | 0 <= i < |r| :: r[i] == from + i
  {
    seq(to - from, i requires 0 <= i < to - from => from + i)
  }

  /** An ascending sequence with exactly the numbers of a range is that range. */
  lemma {:induction false} AscendsAll(hs: seq<nat>, from: nat, to: nat)
    requires from <= to && Ascends(hs) && forall h :: h in hs <==> from <= h < to
    ensures hs == Range(from, to)
    decreases |hs|
  {
    if hs != [] {
      assert hs[0] in hs;
    }
    if from < to {
      assert from in hs;
      assert hs[0] in hs;
      assert hs[0] == from;
      var rest := hs[1..];
      forall h ensures h in rest <==> from + 1 <= h < to {
        assert h in hs <==> from <= h < to;
        assert h in hs <==> h == hs[0] || h in rest;
        assert h in rest ==> h > hs[0];
      }
      AscendsAll(rest, from + 1, to);
      assert hs == [from] + rest;
    }
  }

  /** All rows were interpreted, in the order of the ledger, exactly if no row was stored by a
      timeout, none is waiting, and no task overtook another between insert and interpretation.
      Then the tables are the replay of the ledger. */
  lemma InLedgerOrder(codec: Codec, n: Node, g: nat, base: Tables)
    requires TablesOk(codec, n, g, base) && g <= |n.master.ledger|
    ensures n.done == Range(g, |n.master.ledger|) <==> n.skipped == {} && n.waiting == map[] && Ascends(n.done)
    ensures n.done == Range(g, |n.master.ledger|) ==>
              n.tables == Replay(codec, base, RowDatas(n.master.ledger[g..]))
  {
    hide Replay;
    var ledger := n.master.ledger;
    if n.skipped == {} && n.waiting == map[] && Ascends(n.done) {
      AscendsAll(n.done, g, |ledger|);
    }
    if n.done == Range(g, |ledger|) {
      forall h | g <= h < |ledger| ensures h in n.done {
        assert n.done[h - g] == h;
      }
      assert n.waiting.Keys == {};
      assert Pick(ledger, n.done) == RowDatas(ledger[g..]);
    }
  }

  /** A master right after genesis, whose tables are the replay of its only row. */
  function Founded(codec: Codec, body: BodyData): Node {
    Node(AfterGenesis(codec, body), Interpret(EMPTY, body.req), map[], {}, [])
  }

  lemma FoundedOk(codec: Codec, body: BodyData)
    requires codec.Sound()
    ensures MasterRuns.Inv(codec, Founded(codec, body).master)
    ensures TablesOk(codec, Founded(codec, body), 1, Replay(codec, EMPTY, RowDatas(AfterGenesis(codec, body).ledger)))
  {
    hide Interpret;
    GenesisInv(codec, body);
    var n := Founded(codec, body);
    assert n.master.ledger[1..] == [];
    assert RowDatas(n.master.ledger) == [] + [n.master.ledger[0].data];
    ReplayOne(codec, EMPTY, [], n.master.ledger[0].data);
    assert Pick(n.master.ledger, n.done) == [];
  }

  /** From genesis on: the rows interpreted so far, in that order, make the tables, and these are
      the replay of the master's own ledger if every row came from a request task, all of them are
      interpreted, and none overtook another. */
  lemma ReplayOfOwnLedger(codec: Codec, body: BodyData, moves: seq<Move>)
    requires codec.Sound() && codec.CollisionFree()
    ensures var n := AdvanceAll(codec, Founded(codec, body), moves);
      && TablesOk(codec, n, 1, Interpret(EMPTY, body.req)) && |n.master.ledger| >= 1
      && (n.skipped == {} && n.waiting == map[] && Ascends(n.done) <==> n.done == Range(1, |n.master.ledger|))
      && (n.done == Range(1, |n.master.ledger|) ==> n.tables == Replay(codec, EMPTY, RowDatas(n.master.ledger)))
  {
    hide MasterRuns.Inv;
    hide TablesOk, Interpret;
    var n0, base := Founded(codec, body), Interpret(EMPTY, body.req);
    FoundedOk(codec, body);
    TablesAlways(codec, n0, moves, 1, base);
    var n := AdvanceAll(codec, n0, moves);
    InLedgerOrder(codec, n, 1, base);
    var ledger := n.master.ledger;
    assert RowDatas(ledger) == [n0.master.ledger[0].data] + RowDatas(ledger[1..]);
    ReplayAppend(codec, EMPTY, [n0.master.ledger[0].data], RowDatas(ledger[1..]));
  }

  // Runs in which the tables are not the replay of the ledger

  /** One request served by a lone master, up to the insert. */
  function Serve(i: nat, body: BodyData): seq<Move> {
    [Base(Request(body)), Base(ReadLast(i)), Base(Alone(i)), Base(Insert(i))]
  }

  lemma AdvanceFour(codec: Codec, n: Node, a: Move, b: Move, c: Move, d: Move)
    ensures AdvanceAll(codec, n, [a, b, c, d]) ==
            Advance(codec, Advance(codec, Advance(codec, Advance(codec, n, a), b), c), d)
  {
    hide Advance;
    var n1 := Advance(codec, n, a);
    var n2 := Advance(codec, n1, b);
    var n3 := Advance(codec, n2, c);
    assert [a, b, c, d][1..] == [b, c, d] && [b, c, d][1..] == [c, d] && [c, d][1..] == [d] && [d][1..] == [];
    assert AdvanceAll(codec, n3, [d]) == AdvanceAll(codec, Advance(codec, n3, d), []);
    assert AdvanceAll(codec, n2, [c, d]) == AdvanceAll(codec, n3, [d]);
    assert AdvanceAll(codec, n1, [b, c, d]) == AdvanceAll(codec, n2, [c, d]);
  }

  lemma ServeAdds(codec: Codec, n: Node, body: BodyData)
    requires codec.Sound() && Chain(codec, n.master.ledger)
    ensures var n', h := AdvanceAll(codec, n, Serve(|n.master.tasks|, body)), |n.master.ledger|;
      && |n'.master.ledger| == h + 1 && n.master.ledger <= n'.master.ledger
      && OrdersOf(codec, n'.master.ledger[h].data) == body.req
      && |n'.master.tasks| == |n.master.tasks| + 1
      && n'.waiting == n.waiting[h := body.req]
      && n'.tables == n.tables && n'.done == n.done && n'.skipped == n.skipped
      && Chain(codec, n'.master.ledger)
  {
    var i, ledger, h := |n.master.tasks|, n.master.ledger, |n.master.ledger|;
    AdvanceFour(codec, n, Base(Request(body)), Base(ReadLast(i)), Base(Alone(i)), Base(Insert(i)));
    LedgerNotEmpty(codec, ledger);
    var last, bytes := ledger[h - 1], codec.putBody(body);
    var hash := SerialHash(codec, last.hash, bytes);
    assert Fits(codec, ledger, h, hash, bytes);
    ArchiveExtends(codec, ledger, h, hash, bytes);
    ArchivedBody(codec, ledger, h, hash, bytes);
    hide Chain, Archive;
    var n1 := Advance(codec, n, Base(Request(body)));
    assert n1.master == n.master.(tasks := n.master.tasks + [Arrived(body)]);
    var n2 := Advance(codec, n1, Base(ReadLast(i)));
    assert n2.master == n.master.(tasks := n.master.tasks + [Publishing(body, h - 1, last.hash)]);
    var n3 := Advance(codec, n2, Base(Alone(i)));
    assert n3.master == n.master.(tasks := n.master.tasks + [Inserting(body, h, hash)]);
    var n4 := Advance(codec, n3, Base(Insert(i)));
    assert n4.master.ledger == Archive(codec, ledger, h, hash, bytes);
  }

  /** A request whose block passed its vote, or whose position did not pass, goes on to vote on a
      position. */
  lemma GoesOn(codec: Codec, n: Node, i: nat, body: BodyData)
    requires n.master.ledger != [] && n.master.ledger[|n.master.ledger| - 1].id >= 0 && i < |n.master.tasks|
    ensures n.master.tasks[i] == Arrived(body) ==>
              Advance(codec, Advance(codec, n, Base(ReadLast(i))), Base(PhaseOnePassed(i)))
              == n.(master := n.master.(tasks := n.master.tasks[i := Ordering(body)]))
    ensures n.master.tasks[i].OrderVoting? && n.master.tasks[i].body == body ==>
              Advance(codec, n, Base(OrderRetry(i)))
                == n.(master := n.master.(tasks := n.master.tasks[i := Ordering(body)]))
  {
    hide Archive;
    if n.master.tasks[i] == Arrived(body) {
      var n1 := Advance(codec, n, Base(ReadLast(i)));
      assert n1.master.tasks[i].Publishing? && n1.master.tasks[i].body == body;
    }
  }

  /** From there, a position that passes is where the row is added. */
  lemma VotedAdds(codec: Codec, n: Node, i: nat, body: BodyData)
    requires codec.Sound() && Chain(codec, n.master.ledger)
    requires i < |n.master.tasks| && n.master.tasks[i] == Ordering(body)
    ensures var n1 := Advance(codec, n, Base(ReadForOrder(i)));
            var n2 := Advance(codec, n1, Base(OrderPassed(i)));
            var n', h := Advance(codec, n2, Base(Insert(i))), |n.master.ledger|;
      && |n'.master.ledger| == h + 1 && n.master.ledger <= n'.master.ledger
      && OrdersOf(codec, n'.master.ledger[h].data) == body.req
      && n'.waiting == n.waiting[h := body.req] && n'.tables == n.tables
      && n'.master.tasks == n.master.tasks[i := Finished]
  {
    var ledger, h := n.master.ledger, |n.master.ledger|;
    LedgerNotEmpty(codec, ledger);
    var last, bytes := ledger[h - 1], codec.putBody(body);
    var hash := SerialHash(codec, last.hash, bytes);
    assert Fits(codec, ledger, h, hash, bytes);
    ArchiveExtends(codec, ledger, h, hash, bytes);
    ArchivedBody(codec, ledger, h, hash, bytes);
    hide Chain, Archive;
    var n1 := Advance(codec, n, Base(ReadForOrder(i)));
    assert n1.master == n.master.(tasks := n.master.tasks[i := OrderVoting(body, h, hash)]);
    var n2 := Advance(codec, n1, Base(OrderPassed(i)));
    assert n2.master == n.master.(tasks := n.master.tasks[i := Inserting(body, h, hash)]);
  }

  /** Two requests to a lone master, of which the second is interpreted first. */
  function Race(first: BodyData, second: BodyData): seq<Move> {
    Serve(0, first) + (Serve(1, second) + [InterpretRow(2), InterpretRow(1)])
  }

  lemma {:induction false} AdvanceConcat(codec: Codec, n: Node, a: seq<Move>, b: seq<Move>)
    ensures AdvanceAll(codec, n, a + b) == AdvanceAll(codec, AdvanceAll(codec, n, a), b)
    decreases |a|
  {
    hide Advance;
    if a == [] {
      assert a + b == b;
    } else {
      assert (a + b)[0] == a[0] && (a + b)[1..] == a[1..] + b;
      AdvanceConcat(codec, Advance(codec, n, a[0]), a[1..], b);
    }
  }

  /** Both rows are in the ledger in one order, and were interpreted in the other. */
  lemma RaceSwaps(codec: Codec, genesis: BodyData, first: BodyData, second: BodyData)
    requires codec.Sound()
    ensures var n, t := AdvanceAll(codec, Founded(codec, genesis), Race(first, second)), Interpret(EMPTY, genesis.req);
      && n.tables == Interpret(Interpret(t, second.req), first.req)
      && Replay(codec, EMPTY, RowDatas(n.master.ledger)) == Interpret(Interpret(t, first.req), second.req)
  {
    hide Interpret, OrdersOf;
    var n0 := Founded(codec, genesis);
    FoundedOk(codec, genesis);
    LedgerOf(codec, n0.master);
    AdvanceConcat(codec, n0, Serve(0, first), Serve(1, second) + [InterpretRow(2), InterpretRow(1)]);
    ServeAdds(codec, n0, first);
    var n1 := AdvanceAll(codec, n0, Serve(0, first));
    AdvanceConcat(codec, n1, Serve(1, second), [InterpretRow(2), InterpretRow(1)]);
    ServeAdds(codec, n1, second);
    var n2 := AdvanceAll(codec, n1, Serve(1, second));
    hide Chain;
    var n3 := Advance(codec, n2, InterpretRow(2));
    var n4 := Advance(codec, n3, InterpretRow(1));
    assert [InterpretRow(2), InterpretRow(1)][1..] == [InterpretRow(1)] && [InterpretRow(1)][1..] == [];
    assert AdvanceAll(codec, n3, [InterpretRow(1)]) == AdvanceAll(codec, n4, []);
    var ledger := n2.master.ledger;
    ReplayOne(codec, EMPTY, [], ledger[0].data);
    ReplayOne(codec, EMPTY, [ledger[0].data], ledger[1].data);
    ReplayOne(codec, EMPTY, [ledger[0].data, ledger[1].data], ledger[2].data);
    assert [] + [ledger[0].data] == [ledger[0].data];
    assert [ledger[0].data] + [ledger[1].data] == [ledger[0].data, ledger[1].data];
    assert RowDatas(ledger) == [ledger[0].data, ledger[1].data] + [ledger[2].data];
  }

  lemma ConfigSet(t: Tables, name: Name, master: bytes, node: bytes)
    ensures Interpret(t, [SetConfig(name, master, node)]) == t.(configs := t.configs[name := ConfigRow(master, node)])
  {
    var o := SetConfig(name, master, node);
    var t' := Apply(t, o).value.0;
    assert [o][1..] == [] && ApplyAll(t', []) == Ok((t', []));
  }

  /** Two requests that set one configuration differently leave the master with one value and its
      ledger, replayed by every client, with the other. */
  lemma RaceDiverges(codec: Codec, genesis: BodyData, first: BodyData, second: BodyData, name: Name, a: bytes, b: bytes)
    requires codec.Sound() && a != b
    requires first.req == [SetConfig(name, a, [])] && second.req == [SetConfig(name, b, [])]
    ensures var n := AdvanceAll(codec, Founded(codec, genesis), Race(first, second));
            var replayed := Replay(codec, EMPTY, RowDatas(n.master.ledger));
      && name in n.tables.configs && n.tables.configs[name].master == a
      && name in replayed.configs && replayed.configs[name].master == b
  {
    hide Race, Replay, RowDatas, Interpret;
    RaceSwaps(codec, genesis, first, second);
    var t := Interpret(EMPTY, genesis.req);
    ConfigSet(t, name, a, []);
    ConfigSet(t, name, b, []);
    ConfigSet(t.(configs := t.configs[name := ConfigRow(a, [])]), name, b, []);
    ConfigSet(t.(configs := t.configs[name := ConfigRow(b, [])]), name, a, []);
  }

  /** A row stored by a timeout is in the ledger and never takes effect on the master itself. */
  lemma TimeoutNeverInterpreted(codec: Codec, n: Node, timer: Timer, moves: seq<Move>, g: nat, base: Tables)
    requires codec.Sound() && codec.CollisionFree() && MasterRuns.Inv(codec, n.master)
    requires TablesOk(codec, n, g, base) && g <= |n.master.ledger|
    requires var now := Advance(codec, n, Base(ApprovedTimeout(timer, true)));
             |now.master.ledger| > |n.master.ledger|
    ensures var now := Advance(codec, n, Base(ApprovedTimeout(timer, true)));
      && now.tables == n.tables
      && |n.master.ledger| !in AdvanceAll(codec, now, moves).done
  {
    hide MasterRuns.Inv;
    hide MasterRuns.Step;
    hide Interpret, Replay, OrdersOf;
    var now := Advance(codec, n, Base(ApprovedTimeout(timer, true)));
    AdvanceKeeps(codec, n, Base(ApprovedTimeout(timer, true)), g, base);
    TablesAlways(codec, now, moves, g, base);
  }
}
