/** The client's copy of the ledger: `handle_block` checks a block, stores it and replays it. */
module ReplicaLedger {
  import opened Wrappers
  import opened Bytes
  import opened Orders
  import opened Ledger

  /** `RequestBlock`: an id and the serialized block. */
  datatype RequestBlock = RequestBlock(id: nat, body: bytes)

  datatype Replica = Replica(tables: Tables, blocks: seq<BlockRow>, last: int)

  /** What happened to a delivered block: nothing at all; stored, but its orders failed and were
      rolled back; or stored and interpreted. */
  datatype Fate = Refused(why: Failure) | StoredOnly(why: Failure) | Applied

  /** `get_user_with_pubkey` fetches the first active row, and fails when there is none. */
  function FirstActive(users: seq<UserRow>, key: PublicKey): Result<UserRow, Failure> {
    if users == [] then Err(RowNotFound)
    else if users[0].key == key && users[0].active then Ok(users[0])
    else FirstActive(users[1..], key)
  }

  /** The checks of `handle_block` for blocks above genesis. */
  function Verified(codec: Codec, tables: Tables, body: BodyData): Result<(), Failure> {
    match FirstActive(tables.users, body.user)
    case Err(f) => Err(f)
    case Ok(user) =>
      match VerifyReq(tables, codec.verifySig(body.user, codec.putOrders(body.req), body.sign), body.req, body.user,
                      user.perms)
      case Err(f) => Err(f)
      case Ok(Some(_)) => Err(Rejected)
      case Ok(None) => Ok(())
  }

  /** Everything that is decided before the block is stored. */
  function Admit(codec: Codec, s: Replica, meta: RequestBlock): Result<(Block, BodyData), Failure> {
    match codec.getBlock(meta.body)
    case None => Err(Malformed)
    case Some(block) =>
      match codec.getBody(block.body)
      case None => Err(Malformed)
      case Some(body) =>
        if meta.id > I64_MAX then Err(Overflow)
        else if s.last > meta.id then Err(Rejected)
        else
          match if meta.id != 0 then Verified(codec, s.tables, body) else Ok(())
          case Err(f) => Err(f)
          case Ok(_) => if HasId(s.blocks, meta.id) then Err(UniqueViolation) else Ok((block, body))
  }

  /** One `handle_block`. */
  function Deliver(codec: Codec, s: Replica, meta: RequestBlock): (Replica, Fate) {
    match Admit(codec, s, meta)
    case Err(f) => (s, Refused(f))
    case Ok((block, body)) =>
      var stored := s.(blocks := InsertRow(s.blocks, BlockRow(meta.id, meta.body, block.hash)));
      match ApplyAll(s.tables, body.req)
      case Err(f) => (stored, StoredOnly(f))
      case Ok((t, _)) => (stored.(tables := t, last := s.last + 1), Applied)
  }

  /** Any sequence of deliveries, one at a time; a failed one does not stop the others. */
  function DeliverAll(codec: Codec, s: Replica, metas: seq<RequestBlock>): Replica
    decreases |metas|
  {
    if metas == [] then s else DeliverAll(codec, Deliver(codec, s, metas[0]).0, metas[1..])
  }

  /** The deliveries that were interpreted, in the order in which that happened. */
  function Committed(codec: Codec, s: Replica, metas: seq<RequestBlock>): seq<RequestBlock>
    decreases |metas|
  {
    if metas == [] then []
    else
      var (s', fate) := Deliver(codec, s, metas[0]);
      (if fate.Applied? then [metas[0]] else []) + Committed(codec, s', metas[1..])
  }

  /** The orders in a serialized block. */
  function OrdersOf(codec: Codec, data: bytes): seq<Order> {
    match codec.getBlock(data)
    case None => []
    case Some(block) => match codec.getBody(block.body) case None => [] case Some(body) => body.req
  }

  /** The tables after replaying serialized blocks from `t`. */
  function Replay(codec: Codec, t: Tables, datas: seq<bytes>): Tables
    decreases |datas|
  {
    if datas == [] then t else Replay(codec, Interpret(t, OrdersOf(codec, datas[0])), datas[1..])
  }

  function Datas(metas: seq<RequestBlock>): (r: seq<bytes>)
    ensures |r| == |metas| && forall i | 0 <= i < |metas| :: r[i] == metas[i].body
  {
    if metas == [] then [] else [metas[0].body] + Datas(metas[1..])
  }

  /** No row is lost or replaced. */
  ghost predicate Extends(rows: seq<BlockRow>, rows': seq<BlockRow>) {
    forall row | row in rows :: row in rows'
  }

  ghost predicate Holds(rows: seq<BlockRow>, meta: RequestBlock) {
    exists row :: row in rows && row.id == meta.id && row.data == meta.body
  }

  predicate DistinctIds(metas: seq<RequestBlock>) {
    forall i, j | 0 <= i < j < |metas| :: metas[i].id != metas[j].id
  }

  /** From `s` to `s'` exactly the blocks `done` were interpreted, in this order. */
  ghost predicate Interpreted(codec: Codec, s: Replica, s': Replica, done: seq<RequestBlock>) {
    && Ascending(s'.blocks) && Extends(s.blocks, s'.blocks)
    && DistinctIds(done)
    && (forall i | 0 <= i < |done| :: !HasId(s.blocks, done[i].id) && Holds(s'.blocks, done[i]))
    && s'.tables == Replay(codec, s.tables, Datas(done))
    && s'.last == s.last + |done|
  }

  lemma DeliverOne(codec: Codec, s: Replica, meta: RequestBlock)
    requires Ascending(s.blocks)
    ensures var (s', fate) := Deliver(codec, s, meta);
      && Interpreted(codec, s, s', if fate.Applied? then [meta] else [])
      && (fate.Refused? ==> s' == s)
      && (!fate.Refused? ==> !HasId(s.blocks, meta.id) && Holds(s'.blocks, meta) && |s'.blocks| == |s.blocks| + 1)
  {
    hide ApplyAll;
    hide Verified;
    var (s', fate) := Deliver(codec, s, meta);
    assert Datas([meta]) == [meta.body] + Datas([]);
    assert Replay(codec, s.tables, [meta.body]) == Replay(codec, Interpret(s.tables, OrdersOf(codec, meta.body)), []);
    if Admit(codec, s, meta).Ok? {
      var row := BlockRow(meta.id, meta.body, Admit(codec, s, meta).value.0.hash);
      InsertAscending(s.blocks, row);
      assert row in s'.blocks;
    }
  }

  lemma ExtendsIds(rows: seq<BlockRow>, rows': seq<BlockRow>, id: int)
    requires Extends(rows, rows') && HasId(rows, id)
    ensures HasId(rows', id)
  {
    var i :| 0 <= i < |rows| && rows[i].id == id;
    assert rows[i] in rows';
  }

  lemma HoldsId(rows: seq<BlockRow>, meta: RequestBlock)
    requires Holds(rows, meta)
    ensures HasId(rows, meta.id)
  {
  }

  lemma {:induction false} ReplayAppend(codec: Codec, t: Tables, a: seq<bytes>, b: seq<bytes>)
    ensures Replay(codec, t, a + b) == Replay(codec, Replay(codec, t, a), b)
    decreases |a|
  {
    hide Interpret;
    hide OrdersOf;
    if a == [] {
      assert a + b == b;
    } else {
      assert (a + b)[0] == a[0] && (a + b)[1..] == a[1..] + b;
      ReplayAppend(codec, Interpret(t, OrdersOf(codec, a[0])), a[1..], b);
    }
  }

  /** Runs compose. */
  lemma InterpretedThen(codec: Codec, s: Replica, m: Replica, s': Replica, a: seq<RequestBlock>, b: seq<RequestBlock>)
    requires Interpreted(codec, s, m, a) && Interpreted(codec, m, s', b)
    ensures Interpreted(codec, s, s', a + b)
  {
    hide Replay;
    hide Datas;
    var done := a + b;
    assert Datas(done) == Datas(a) + Datas(b);
    ReplayAppend(codec, s.tables, Datas(a), Datas(b));
    forall i | 0 <= i < |done| ensures !HasId(s.blocks, done[i].id) && Holds(s'.blocks, done[i]) {
      if i < |a| {
        assert done[i] == a[i];
      } else {
        assert done[i] == b[i - |a|];
        if HasId(s.blocks, done[i].id) {
          ExtendsIds(s.blocks, m.blocks, done[i].id);
        }
      }
    }
    forall i, j | 0 <= i < j < |done| ensures done[i].id != done[j].id {
      if i < |a| <= j {
        assert done[i] == a[i] && done[j] == b[j - |a|];
        HoldsId(m.blocks, a[i]);
      } else if j < |a| {
        assert done[i] == a[i] && done[j] == a[j];
      } else {
        assert done[i] == b[i - |a|] && done[j] == b[j - |a|];
      }
    }
  }

  /** For any deliveries, with duplicates, gaps and in any order: no stored row is ever replaced;
      every height is interpreted at most once, and only if it was not stored before; the tables
      are the replay of exactly the blocks that committed; and `last` counts those. */
  lemma {:induction false} AnyDeliveries(codec: Codec, s: Replica, metas: seq<RequestBlock>)
    requires Ascending(s.blocks)
    ensures Interpreted(codec, s, DeliverAll(codec, s, metas), Committed(codec, s, metas))
    decreases |metas|
  {
    hide Deliver;
    hide Interpreted;
    if metas == [] {
      NothingInterpreted(codec, s);
    } else {
      var (next, fate) := Deliver(codec, s, metas[0]);
      DeliverOne(codec, s, metas[0]);
      StillAscending(codec, s, next, if fate.Applied? then [metas[0]] else []);
      AnyDeliveries(codec, next, metas[1..]);
      InterpretedThen(codec, s, next, DeliverAll(codec, next, metas[1..]),
                      if fate.Applied? then [metas[0]] else [], Committed(codec, next, metas[1..]));
    }
  }

  lemma NothingInterpreted(codec: Codec, s: Replica)
    requires Ascending(s.blocks)
    ensures Interpreted(codec, s, s, [])
  {
  }

  lemma StillAscending(codec: Codec, s: Replica, s': Replica, done: seq<RequestBlock>)
    requires Interpreted(codec, s, s', done)
    ensures Ascending(s'.blocks)
  {
  }

  // Deliveries in order from a master

  /** Ids count up from 0, and every row is the serialization of a block with that row's hash. */
  ghost predicate WellFormed(codec: Codec, ledger: seq<BlockRow>) {
    && Gapless(ledger)
    && forall i | 0 <= i < |ledger| ::
         codec.getBlock(ledger[i].data).Some? && codec.getBlock(ledger[i].data).value.hash == ledger[i].hash
  }

  function RowDatas(rows: seq<BlockRow>): (r: seq<bytes>)
    ensures |r| == |rows| && forall i | 0 <= i < |rows| :: r[i] == rows[i].data
  {
    seq(|rows|, i requires 0 <= i < |rows| => rows[i].data)
  }

  /** The rows as they are sent to a client. */
  function Requests(rows: seq<BlockRow>): (r: seq<RequestBlock>)
    requires forall i | 0 <= i < |rows| :: rows[i].id >= 0
    ensures |r| == |rows| && forall i | 0 <= i < |rows| :: r[i] == RequestBlock(rows[i].id, rows[i].data)
  {
    seq(|rows|, i requires 0 <= i < |rows| => RequestBlock(rows[i].id, rows[i].data))
  }

  /** The replica is the master's ledger up to its own height, replayed. */
  ghost predicate CopyOf(codec: Codec, ledger: seq<BlockRow>, s: Replica) {
    && s.blocks <= ledger
    && s.last == |s.blocks| - 1
    && s.tables == Replay(codec, EMPTY, RowDatas(s.blocks))
  }

  lemma NextBlock(codec: Codec, ledger: seq<BlockRow>, s: Replica)
    requires WellFormed(codec, ledger) && CopyOf(codec, ledger, s) && |s.blocks| < |ledger|
    requires Deliver(codec, s, RequestBlock(|s.blocks|, ledger[|s.blocks|].data)).1.Applied?
    ensures var s' := Deliver(codec, s, RequestBlock(|s.blocks|, ledger[|s.blocks|].data)).0;
            CopyOf(codec, ledger, s') && |s'.blocks| == |s.blocks| + 1
  {
    var n := |s.blocks|;
    var row := ledger[n];
    var s' := Deliver(codec, s, RequestBlock(n, row.data)).0;
    InsertLast(s.blocks, row);
    assert s'.blocks == s.blocks + [row];
    assert RowDatas(s'.blocks) == RowDatas(s.blocks) + [row.data];
    ReplayAppend(codec, EMPTY, RowDatas(s.blocks), [row.data]);
    assert Replay(codec, s.tables, [row.data]) == Replay(codec, Interpret(s.tables, OrdersOf(codec, row.data)), []);
  }

  /** Blocks delivered in order above the client's height: if each `handle_block` succeeds, the
      client's ledger is the master's up to the last of them, and the client's tables, row ids
      included, are what the master's orders produce when interpreted in order. */
  lemma {:induction false} InOrder(codec: Codec, ledger: seq<BlockRow>, s: Replica, rows: seq<BlockRow>)
    requires WellFormed(codec, ledger) && CopyOf(codec, ledger, s)
    requires |s.blocks| + |rows| <= |ledger| && rows == ledger[|s.blocks|..|s.blocks| + |rows|]
    requires Committed(codec, s, Requests(rows)) == Requests(rows)
    ensures CopyOf(codec, ledger, DeliverAll(codec, s, Requests(rows)))
    ensures DeliverAll(codec, s, Requests(rows)).blocks == ledger[..|s.blocks| + |rows|]
    decreases |rows|
  {
    hide Deliver, CopyOf, Committed;
    if rows == [] {
      CopyPrefix(codec, ledger, s);
    } else {
      var metas := Requests(rows);
      var next := Deliver(codec, s, metas[0]).0;
      RestOf(ledger, |s.blocks|, rows);
      CommittedAll(codec, s, metas);
      NextBlock(codec, ledger, s);
      hide WellFormed;
      InOrder(codec, ledger, next, rows[1..]);
    }
  }

  lemma RestOf(ledger: seq<BlockRow>, n: nat, rows: seq<BlockRow>)
    requires rows != [] && n + |rows| <= |ledger| && rows == ledger[n..n + |rows|]
    requires forall i | 0 <= i < |rows| :: rows[i].id >= 0
    ensures rows[0] == ledger[n] && rows[1..] == ledger[n + 1..n + 1 + |rows[1..]|]
    ensures Requests(rows)[1..] == Requests(rows[1..])
  {
  }

  lemma CopyPrefix(codec: Codec, ledger: seq<BlockRow>, s: Replica)
    requires CopyOf(codec, ledger, s)
    ensures s.blocks == ledger[..|s.blocks|]
  {
  }

  lemma CommittedAll(codec: Codec, s: Replica, metas: seq<RequestBlock>)
    requires metas != [] && Committed(codec, s, metas) == metas
    ensures var (next, fate) := Deliver(codec, s, metas[0]);
            fate.Applied? && Committed(codec, next, metas[1..]) == metas[1..]
  {
    var (next, fate) := Deliver(codec, s, metas[0]);
    CommittedLength(codec, next, metas[1..]);
  }

  lemma {:induction false} CommittedLength(codec: Codec, s: Replica, metas: seq<RequestBlock>)
    ensures |Committed(codec, s, metas)| <= |metas|
    decreases |metas|
  {
    if metas != [] {
      CommittedLength(codec, Deliver(codec, s, metas[0]).0, metas[1..]);
    }
  }

  // The client itself

  class Client {
    const codec: Codec
    const db: Database
    var last: int

    constructor (codec: Codec, db: Database)
      requires Ascending(db.blocks)
      ensures this.codec == codec && this.db == db
      ensures db.blocks == [] ==> last == -1
      ensures db.blocks != [] ==> last == db.blocks[|db.blocks| - 1].id
    {
      this.codec, this.db := codec, db;
      last := if db.blocks == [] then -1 else db.blocks[|db.blocks| - 1].id;
    }

    ghost function View(): Replica
      reads this, db
    {
      Replica(db.Tabs(), db.blocks, last)
    }

    /** `handle_block`. */
    method HandleBlock(meta: RequestBlock) returns (r: Result<(), Failure>)
      requires Ascending(db.blocks)
      modifies `last, db
      ensures Ascending(db.blocks)
      ensures View() == Deliver(codec, old(View()), meta).0
      ensures match Deliver(codec, old(View()), meta).1
              case Applied => r == Ok(())
              case Refused(why) => r == Err(why)
              case StoredOnly(why) => r == Err(why)
    {
      hide ApplyAll;
      hide InsertRow;
      hide Ascending;
      hide VerifyReq;
      var block := codec.getBlock(meta.body);
      if block.None? {
        return Err(Malformed);
      }
      var body := codec.getBody(block.value.body);
      if body.None? {
        return Err(Malformed);
      }
      if meta.id > I64_MAX {
        return Err(Overflow);
      }
      if last > meta.id {
        return Err(Rejected);
      } else if meta.id != 0 {
        var user := FirstActive(db.users, body.value.user);
        if user.Err? {
          return Err(user.error);
        }
        var signature := codec.verifySig(body.value.user, codec.putOrders(body.value.req), body.value.sign);
        var tables := Tables(db.users, db.nodes, db.configs);
        var verdict := VerifyReq(tables, signature, body.value.req, body.value.user, user.value.perms);
        if verdict.Err? {
          return Err(verdict.error);
        }
        if verdict.value.Some? {
          return Err(Rejected);
        }
      }
      var added := db.AddNew(meta.id, meta.body, block.value.hash);
      if added.Err? {
        return Err(added.error);
      }
      var updates := db.InterpretBlock(body.value.req);
      if updates.Err? {
        return Err(updates.error);
      }
      last := last + 1;
      r := Ok(());
    }

    /** The Block branch of `handle`: an error disconnects the peer, and the loop goes on. */
    method Handle(metas: seq<RequestBlock>) returns (disconnects: nat)
      requires Ascending(db.blocks)
      modifies `last, db
      ensures Ascending(db.blocks)
      ensures View() == DeliverAll(codec, old(View()), metas)
      ensures disconnects == |metas| - |Committed(codec, old(View()), metas)|
    {
      hide Deliver;
      hide Ascending;
      disconnects := 0;
      for i := 0 to |metas|
        invariant Ascending(db.blocks)
        invariant DeliverAll(codec, old(View()), metas) == DeliverAll(codec, View(), metas[i..])
        invariant |Committed(codec, old(View()), metas)| == i - disconnects + |Committed(codec, View(), metas[i..])|
        invariant disconnects <= i
      {
        assert metas[i..][0] == metas[i] && metas[i..][1..] == metas[i + 1..];
        var r := HandleBlock(metas[i]);
        if r.Err? {
          disconnects := disconnects + 1;
        }
      }
    }
  }
}
