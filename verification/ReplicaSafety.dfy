/** What the checks of `handle_block` guarantee for the client's tables. */
module ReplicaSafety {
  import opened Wrappers
  import opened Bytes
  import opened Orders
  import opened OrderSafety
  import opened Ledger
  import opened ReplicaLedger

  /** The serialized block is well formed and passes the checks against tables `t`. */
  ghost predicate CheckedAgainst(codec: Codec, t: Tables, data: bytes) {
    match codec.getBlock(data)
    case None => false
    case Some(block) =>
      match codec.getBody(block.body)
      case None => false
      case Some(body) => Verified(codec, t, body).Ok?
  }

  /** Passing means: an active user of these tables signed the orders, and with that user's
      stored permissions every one of them is allowed. */
  lemma CheckedMeans(codec: Codec, t: Tables, data: bytes)
    requires CheckedAgainst(codec, t, data)
    ensures var body := codec.getBody(codec.getBlock(data).value.body).value;
      && codec.verifySig(body.user, codec.putOrders(body.req), body.sign) == Ok(true)
      && exists user :: user in t.users && user.active && user.key == body.user
                        && Accepts(t, OrdersOf(codec, data), body.user, user.perms)
  {
    var body := codec.getBody(codec.getBlock(data).value.body).value;
    FirstActiveRow(t.users, body.user);
    var user := FirstActive(t.users, body.user).value;
    assert Accepts(t, OrdersOf(codec, data), body.user, user.perms);
  }

  lemma {:induction false} FirstActiveRow(users: seq<UserRow>, key: PublicKey)
    ensures match FirstActive(users, key)
            case Ok(user) => user in users && user.active && user.key == key
            case Err(f) => f == RowNotFound && forall u | u in users :: !(u.active && u.key == key)
  {
    if users != [] {
      FirstActiveRow(users[1..], key);
    }
  }

  /** Every block above genesis that was interpreted had passed the checks against the replay of
      exactly the blocks interpreted before it, and all of its orders had succeeded. */
  lemma {:induction false} CommittedWasChecked(codec: Codec, s: Replica, metas: seq<RequestBlock>, i: nat)
    requires i < |Committed(codec, s, metas)|
    ensures var done := Committed(codec, s, metas);
            var t := Replay(codec, s.tables, Datas(done[..i]));
      && (done[i].id != 0 ==> CheckedAgainst(codec, t, done[i].body))
      && ApplyAll(t, OrdersOf(codec, done[i].body)).Ok?
    decreases |metas|
  {
    hide Verified;
    hide ApplyAll;
    var done := Committed(codec, s, metas);
    var (next, fate) := Deliver(codec, s, metas[0]);
    var rest := Committed(codec, next, metas[1..]);
    if fate.Applied? && i == 0 {
      assert done[..0] == [] && Replay(codec, s.tables, Datas([])) == s.tables;
      AppliedWasChecked(codec, s, metas[0]);
    } else if fate.Applied? {
      CommittedWasChecked(codec, next, metas[1..], i - 1);
      assert done[..i] == [metas[0]] + rest[..i - 1];
      assert done[..i][1..] == rest[..i - 1];
      AppliedTables(codec, s, metas[0]);
      assert Datas(done[..i]) == [metas[0].body] + Datas(rest[..i - 1]);
      assert Datas(done[..i])[1..] == Datas(rest[..i - 1]);
    } else {
      assert done == rest;
      CommittedWasChecked(codec, next, metas[1..], i);
      SameTables(codec, s, metas[0]);
    }
  }

  lemma AppliedWasChecked(codec: Codec, s: Replica, meta: RequestBlock)
    requires Deliver(codec, s, meta).1.Applied?
    ensures meta.id != 0 ==> CheckedAgainst(codec, s.tables, meta.body)
    ensures ApplyAll(s.tables, OrdersOf(codec, meta.body)).Ok?
  {
    hide Verified;
    hide ApplyAll;
  }

  lemma AppliedTables(codec: Codec, s: Replica, meta: RequestBlock)
    requires Deliver(codec, s, meta).1.Applied?
    ensures Deliver(codec, s, meta).0.tables == Interpret(s.tables, OrdersOf(codec, meta.body))
  {
  }

  lemma SameTables(codec: Codec, s: Replica, meta: RequestBlock)
    requires !Deliver(codec, s, meta).1.Applied?
    ensures Deliver(codec, s, meta).0.tables == s.tables
  {
  }

  /** Once genesis is stored, whatever is delivered, every node keeps an existing configuration, and keys
      stay unique as long as no delivered block adds a key twice. */
  lemma {:induction false} ReplicaStaysSafe(codec: Codec, s: Replica, metas: seq<RequestBlock>)
    requires Ascending(s.blocks) && HasId(s.blocks, 0)
    ensures ConfigsIntact(s.tables) ==> ConfigsIntact(DeliverAll(codec, s, metas).tables)
    ensures KeysUnique(s.tables) &&
              (forall i | 0 <= i < |metas| :: Distinct(AddedKeys(OrdersOf(codec, metas[i].body)))) ==>
              KeysUnique(DeliverAll(codec, s, metas).tables)
    decreases |metas|
  {
    hide Deliver;
    hide ConfigsIntact;
    hide KeysUnique;
    hide OrdersOf;
    hide HasId;
    if metas != [] {
      var next := Deliver(codec, s, metas[0]).0;
      DeliveryStaysSafe(codec, s, metas[0]);
      KeepsGenesis(codec, s, metas[0]);
      assert forall i | 0 <= i < |metas[1..]| :: metas[1..][i] == metas[i + 1];
      ReplicaStaysSafe(codec, next, metas[1..]);
    }
  }

  lemma KeepsGenesis(codec: Codec, s: Replica, meta: RequestBlock)
    requires Ascending(s.blocks) && HasId(s.blocks, 0)
    ensures Ascending(Deliver(codec, s, meta).0.blocks) && HasId(Deliver(codec, s, meta).0.blocks, 0)
  {
    hide Deliver;
    hide Replay;
    DeliverOne(codec, s, meta);
    var i :| 0 <= i < |s.blocks| && s.blocks[i].id == 0;
    assert s.blocks[i] in Deliver(codec, s, meta).0.blocks;
  }

  lemma DeliveryStaysSafe(codec: Codec, s: Replica, meta: RequestBlock)
    requires HasId(s.blocks, 0)
    ensures ConfigsIntact(s.tables) ==> ConfigsIntact(Deliver(codec, s, meta).0.tables)
    ensures KeysUnique(s.tables) && Distinct(AddedKeys(OrdersOf(codec, meta.body))) ==>
              KeysUnique(Deliver(codec, s, meta).0.tables)
  {
    hide ConfigsIntact;
    hide KeysUnique;
    hide ApplyAll;
    hide Accepts;
    hide VerifyReq;
    if Deliver(codec, s, meta).1.Applied? {
      assert meta.id != 0;
      assert CheckedAgainst(codec, s.tables, meta.body);
      CheckedMeans(codec, s.tables, meta.body);
      AppliedTables(codec, s, meta);
      var req := OrdersOf(codec, meta.body);
      var key := codec.getBody(codec.getBlock(meta.body).value.body).value.user;
      var user :| user in s.tables.users && Accepts(s.tables, req, key, user.perms);
      AcceptedIsSafe(s.tables, req, key, user.perms);
      if ConfigsIntact(s.tables) {
        InterpretKeepsConfigs(s.tables, req, s.tables.configs.Keys);
      }
      if KeysUnique(s.tables) {
        UniqueIffDistinctAdds(s.tables, req, key, user.perms);
      }
    } else {
      SameTables(codec, s, meta);
    }
  }
}
