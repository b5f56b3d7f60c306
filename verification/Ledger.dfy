/** The `order` table, and the database that holds it together with the tables of `Orders`. */
module Ledger {
  import opened Wrappers
  import opened Bytes
  import opened Orders

  /** A row of the `order` table. */
  datatype BlockRow = BlockRow(id: int, data: bytes, hash: bytes)

  datatype Block = Block(hash: bytes, body: bytes)

  datatype BodyData = BodyData(req: seq<Order>, sign: bytes, user: PublicKey, timestamp: nat)

  /** Serialization, SHA-256 and signatures, kept abstract. */
  datatype Codec = Codec(
    sha256: bytes -> bytes,
    putBlock: Block -> bytes,
    getBlock: bytes -> Option<Block>,
    putBody: BodyData -> bytes,
    getBody: bytes -> Option<BodyData>,
    putOrders: seq<Order> -> bytes,
    verifySig: (PublicKey, bytes, bytes) -> Result<bool, Failure>)
  {
    ghost predicate Sound() {
      && (forall b :: getBlock(putBlock(b)) == Some(b))
      && (forall b :: getBody(putBody(b)) == Some(b))
    }

    /** No signature is good for two messages of one key. */
    ghost predicate SignsOnce() {
      forall key, m, n, sign :: verifySig(key, m, sign) == Ok(true) && verifySig(key, n, sign) == Ok(true) ==> m == n
    }

    ghost predicate CollisionFree() {
      forall x, y :: sha256(x) == sha256(y) ==> x == y
    }
  }

  const I64_MAX: nat := 0x7FFF_FFFF_FFFF_FFFF

  /** `n as i64` for an unsigned 64-bit `n`. */
  function AsI64(n: nat): int {
    if n <= I64_MAX then n else n - 0x1_0000_0000_0000_0000
  }

  predicate Ascending(rows: seq<BlockRow>) {
    forall i, j | 0 <= i < j < |rows| :: rows[i].id < rows[j].id
  }

  predicate HasId(rows: seq<BlockRow>, id: int) {
    exists i :: 0 <= i < |rows| && rows[i].id == id
  }

  /** The row goes where its id belongs. */
  function InsertRow(rows: seq<BlockRow>, row: BlockRow): (r: seq<BlockRow>)
    ensures |r| == |rows| + 1
    ensures forall x :: x in r <==> x == row || x in rows
  {
    if rows == [] then [row]
    else if row.id < rows[0].id then [row] + rows
    else [rows[0]] + InsertRow(rows[1..], row)
  }

  lemma {:induction false} InsertAscending(rows: seq<BlockRow>, row: BlockRow)
    requires Ascending(rows) && !HasId(rows, row.id)
    ensures Ascending(InsertRow(rows, row))
  {
    if rows != [] && rows[0].id <= row.id {
      assert rows[0].id != row.id;
      assert forall i | 0 <= i < |rows[1..]| :: rows[1..][i] == rows[i + 1];
      InsertAscending(rows[1..], row);
      var tail := InsertRow(rows[1..], row);
      forall i | 0 <= i < |tail| ensures rows[0].id < tail[i].id {
        assert tail[i] in tail;
      }
    }
  }

  /** A row above all others goes to the end. */
  lemma {:induction false} InsertLast(rows: seq<BlockRow>, row: BlockRow)
    requires forall i | 0 <= i < |rows| :: rows[i].id < row.id
    ensures InsertRow(rows, row) == rows + [row]
  {
    if rows != [] {
      InsertLast(rows[1..], row);
      assert rows + [row] == [rows[0]] + (rows[1..] + [row]);
    }
  }

  /** `select .. where id > height order by id asc`. */
  function RowsFrom(rows: seq<BlockRow>, height: int): (r: seq<BlockRow>)
    ensures forall x :: x in r <==> x in rows && x.id > height
  {
    if rows == [] then []
    else (if rows[0].id > height then [rows[0]] else []) + RowsFrom(rows[1..], height)
  }

  /** Ids 0, 1, 2, ... without a gap. */
  predicate Gapless(rows: seq<BlockRow>) {
    forall i | 0 <= i < |rows| :: rows[i].id == i
  }

  lemma {:induction false} RowsFromGapless(rows: seq<BlockRow>, first: int, height: int)
    requires forall i | 0 <= i < |rows| :: rows[i].id == first + i
    requires first - 1 <= height < first + |rows|
    ensures RowsFrom(rows, height) == rows[height + 1 - first..]
    decreases |rows|
  {
    if rows == [] {
    } else if height < first {
      assert height == first - 1;
      AllAbove(rows, height);
    } else {
      assert forall i | 0 <= i < |rows[1..]| :: rows[1..][i] == rows[i + 1];
      RowsFromGapless(rows[1..], first + 1, height);
      assert rows[1..][height - first..] == rows[height + 1 - first..];
    }
  }

  lemma {:induction false} AllAbove(rows: seq<BlockRow>, height: int)
    requires forall i | 0 <= i < |rows| :: rows[i].id > height
    ensures RowsFrom(rows, height) == rows
  {
    if rows != [] {
      assert forall i | 0 <= i < |rows[1..]| :: rows[1..][i] == rows[i + 1];
      AllAbove(rows[1..], height);
    }
  }

  class Database {
    var users: seq<UserRow>
    var nodes: seq<NodeRow>
    var configs: map<Name, ConfigRow>
    var blocks: seq<BlockRow>

    constructor ()
      ensures Tabs() == EMPTY && blocks == []
    {
      users, nodes, configs, blocks := [], [], map[], [];
    }

    ghost function Tabs(): Tables
      reads this
    {
      Tables(users, nodes, configs)
    }

    /** `block::add_new`: the id is the primary key, so a row is never replaced. */
    method AddNew(id: nat, data: bytes, hash: bytes) returns (r: Result<(), Failure>)
      requires Ascending(blocks)
      modifies `blocks
      ensures Ascending(blocks)
      ensures r.Ok? <==> !HasId(old(blocks), AsI64(id))
      ensures r.Ok? ==> blocks == InsertRow(old(blocks), BlockRow(AsI64(id), data, hash))
      ensures r.Err? ==> blocks == old(blocks) && r == Err(UniqueViolation)
    {
      var row := BlockRow(AsI64(id), data, hash);
      if HasId(blocks, row.id) {
        return Err(UniqueViolation);
      }
      InsertAscending(blocks, row);
      blocks := InsertRow(blocks, row);
      r := Ok(());
    }

    /** `block::get_last_block`. */
    method GetLastBlock() returns (r: Option<(int, bytes)>)
      requires Ascending(blocks)
      ensures r.None? <==> blocks == []
      ensures r.Some? ==> r.value == (blocks[|blocks| - 1].id, blocks[|blocks| - 1].hash)
      ensures r.Some? ==> forall x | x in blocks :: x.id <= r.value.0
    {
      if blocks == [] {
        return None;
      }
      var row := blocks[|blocks| - 1];
      r := Some((row.id, row.hash));
    }

    /** `interpret_order`, within the transaction of `InterpretBlock`. */
    method InterpretOrder(o: Order) returns (r: Result<Update, Failure>)
      modifies `users, `nodes, `configs
      ensures match Apply(old(Tabs()), o)
              case Ok((t, update)) => r == Ok(update) && Tabs() == t
              case Err(f) => r == Err(f) && Tabs() == old(Tabs())
    {
      var update := NoUpdate;
      match o {
        case AddUser(name, key, perm) =>
          users := users + [UserRow(NextUserId(users), name, key, perm, true)];
        case AddMasterNode(name, key) =>
          nodes := nodes + [NodeRow(NextNodeId(nodes), name, key, true, DEFAULT_CONFIG, Some(1))];
          update := MasterNodeListUpdate;
        case AddNode(name, key) =>
          nodes := nodes + [NodeRow(NextNodeId(nodes), name, key, false, DEFAULT_CONFIG, None)];
        case EditUser(name, key, perm) =>
          users := MapUsers(users, (u: UserRow) => if u.key == key then u.(name := name, perms := perm) else u);
        case EditMasterNode(name, key) =>
          nodes := MapNodes(nodes, (n: NodeRow) => if n.key == key && n.master then n.(name := name) else n);
          update := MasterNodeListUpdate;
        case EditNode(name, key) =>
          nodes := MapNodes(nodes, (n: NodeRow) => if n.key == key then n.(name := name) else n);
        case UpdatePublicKey(_, _) =>
          return Err(NoSuchColumn);
        case UpdateVoteWeight(key, weight) =>
          nodes := MapNodes(nodes, (n: NodeRow) => if n.key == key && n.master then n.(weight := Some(weight)) else n);
        case RemoveUser(key) =>
          users := MapUsers(users, (u: UserRow) => if u.key == key then u.(active := false) else u);
        case RemoveMasterNode(key) =>
          nodes := DeleteNodes(nodes, key);
          update := MasterNodeListUpdate;
        case RemoveNode(key) =>
          nodes := DeleteNodes(nodes, key);
        case SetConfig(name, master, node) =>
          configs := configs[name := ConfigRow(master, node)];
          update := ConfigUpdate(name, master, node);
        case RemoveConfig(name) =>
          configs := configs - {name};
        case ChangeNodeConfig(key, name) =>
          nodes := MapNodes(nodes, (n: NodeRow) => if n.key == key then n.(conf := name) else n);
          update := NodeConfigChange(key, name);
      }
      r := Ok(update);
    }

    /** `interpret_block`: one transaction, so all orders take effect or none does. */
    method InterpretBlock(reqs: seq<Order>) returns (r: Result<seq<Update>, Failure>)
      modifies `users, `nodes, `configs
      ensures Tabs() == Interpret(old(Tabs()), reqs)
      ensures match ApplyAll(old(Tabs()), reqs)
              case Ok((_, updates)) => r == Ok(updates)
              case Err(f) => r == Err(f)
    {
      hide Apply;
      var saved := (users, nodes, configs);
      var updates := [];
      for i := 0 to |reqs|
        invariant ApplyAll(old(Tabs()), reqs[..i]) == Ok((Tabs(), updates))
      {
        ApplyOne(old(Tabs()), reqs, i);
        var update := InterpretOrder(reqs[i]);
        if update.Err? {
          users, nodes, configs := saved.0, saved.1, saved.2;
          return Err(update.error);
        }
        updates := updates + [update.value];
      }
      assert reqs[..|reqs|] == reqs;
      r := Ok(updates);
    }
  }

  /** One more order: how the fold over a prefix goes on, and what a failure means for the whole. */
  lemma ApplyOne(t: Tables, reqs: seq<Order>, i: nat)
    requires i < |reqs| && ApplyAll(t, reqs[..i]).Ok?
    ensures var (t', u) := ApplyAll(t, reqs[..i]).value;
      match Apply(t', reqs[i])
      case Ok((t'', update)) => ApplyAll(t, reqs[..i + 1]) == Ok((t'', u + [update]))
      case Err(f) => ApplyAll(t, reqs) == Err(f)
  {
    hide Apply;
    var (t', u) := ApplyAll(t, reqs[..i]).value;
    assert reqs[..i + 1] == reqs[..i] + [reqs[i]];
    assert reqs == reqs[..i] + reqs[i..];
    assert [reqs[i]][1..] == [];
    assert reqs[i..][0] == reqs[i];
    ApplyAllAppend(t, reqs[..i], [reqs[i]]);
    ApplyAllAppend(t, reqs[..i], reqs[i..]);
    if Apply(t', reqs[i]).Ok? {
      var (t'', update) := Apply(t', reqs[i]).value;
      assert ApplyAll(t'', []) == Ok((t'', []));
      assert [update] + [] == [update];
      assert ApplyAll(t', [reqs[i]]) == Ok((t'', [update]));
    }
  }
}
