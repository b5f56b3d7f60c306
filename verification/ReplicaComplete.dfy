/** When the client takes a block, and when it takes a whole ledger. */
module ReplicaComplete {
  import opened Wrappers
  import opened Bytes
  import opened Orders
  import opened OrderSafety
  import opened OrderEffects
  import opened Ledger
  import opened ReplicaLedger
  import opened ReplicaSafety
  import opened Shipping

  /** The first active row with this key is the `i`th. */
  predicate FirstActiveAt(users: seq<UserRow>, key: PublicKey, i: int) {
    && 0 <= i < |users| && users[i].key == key && users[i].active
    && forall j | 0 <= j < i :: !(users[j].key == key && users[j].active)
  }

  lemma {:induction false} FirstActiveExactly(users: seq<UserRow>, key: PublicKey)
    ensures FirstActive(users, key).Err? <==> forall i | 0 <= i < |users| :: !(users[i].key == key && users[i].active)
    ensures forall i | FirstActiveAt(users, key, i) :: FirstActive(users, key) == Ok(users[i])
    ensures FirstActive(users, key).Ok? ==> exists i :: FirstActiveAt(users, key, i)
  {
    if users != [] {
      FirstActiveExactly(users[1..], key);
      if users[0].key == key && users[0].active {
        assert FirstActiveAt(users, key, 0);
      } else {
        forall i | FirstActiveAt(users, key, i) ensures FirstActive(users, key) == Ok(users[i]) {
          assert FirstActiveAt(users[1..], key, i - 1);
        }
        if FirstActive(users, key).Ok? {
          var i :| FirstActiveAt(users[1..], key, i);
          assert FirstActiveAt(users, key, i + 1);
        }
        assert forall i | 1 <= i < |users| :: users[i] == users[1..][i - 1];
      }
    }
  }

  /** The block was signed over its orders by an active user of these tables, and each of its
      orders is accepted with that user's permissions. */
  ghost predicate Signed(codec: Codec, t: Tables, body: BodyData) {
    && codec.verifySig(body.user, codec.putOrders(body.req), body.sign) == Ok(true)
    && exists i :: FirstActiveAt(t.users, body.user, i) &&
         forall k | 0 <= k < |body.req| :: VerifyOrder(t, body.req[k], body.user, t.users[i].perms) == Ok(None)
  }

  lemma VerifiedExactly(codec: Codec, t: Tables, body: BodyData)
    ensures Verified(codec, t, body).Ok? <==> Signed(codec, t, body)
  {
    hide VerifyOrder, FirstActive;
    FirstActiveExactly(t.users, body.user);
    var signature := codec.verifySig(body.user, codec.putOrders(body.req), body.sign);
    if FirstActive(t.users, body.user).Ok? {
      var user := FirstActive(t.users, body.user).value;
      SignatureFirst(t, signature, body.req, body.user, user.perms);
      hide VerifyReq;
      if Verified(codec, t, body).Ok? {
        var i :| FirstActiveAt(t.users, body.user, i);
        assert t.users[i] == user;
      }
    }
  }

  ghost predicate Decodes(codec: Codec, data: bytes) {
    codec.getBlock(data).Some? && codec.getBody(codec.getBlock(data).value.body).Some?
  }

  function BodyOf(codec: Codec, data: bytes): BodyData
    requires codec.getBlock(data).Some? && codec.getBody(codec.getBlock(data).value.body).Some?
  {
    codec.getBody(codec.getBlock(data).value.body).value
  }

  /** What has to hold for a delivered block to be stored. Genesis needs no signature. */
  ghost predicate Storable(codec: Codec, s: Replica, meta: RequestBlock) {
    && Decodes(codec, meta.body)
    && meta.id < 0x8000_0000_0000_0000 && s.last <= meta.id && !HasId(s.blocks, meta.id)
    && (meta.id != 0 ==> Signed(codec, s.tables, BodyOf(codec, meta.body)))
  }

  /** What happens to a delivered block, exactly: it is stored if it may be, and then interpreted
      unless one of its orders changes a public key. */
  lemma FateExactly(codec: Codec, s: Replica, meta: RequestBlock)
    ensures var fate := Deliver(codec, s, meta).1;
      && (!fate.Refused? <==> Storable(codec, s, meta))
      && (fate.Applied? <==>
            Storable(codec, s, meta) && forall o | o in OrdersOf(codec, meta.body) :: !o.UpdatePublicKey?)
  {
    hide Verified, Signed, ApplyAll, InsertRow, HasId;
    if Decodes(codec, meta.body) {
      VerifiedExactly(codec, s.tables, BodyOf(codec, meta.body));
      hide UsersAfter, NodesAfter, UsersAdded, NodesAdded, ConfigOf, Last;
      LastWriter(s.tables, OrdersOf(codec, meta.body));
    }
  }

  /** Row `n` of a ledger can be taken by a client that has exactly the rows below it. */
  ghost predicate Takeable(codec: Codec, ledger: seq<BlockRow>, n: nat)
    requires n < |ledger|
  {
    var below := Replay(codec, EMPTY, RowDatas(ledger[..n]));
    && Decodes(codec, ledger[n].data)
    && (n > 0 ==> Signed(codec, below, BodyOf(codec, ledger[n].data)))
    && forall o | o in OrdersOf(codec, ledger[n].data) :: !o.UpdatePublicKey?
  }

  lemma TakesNext(codec: Codec, ledger: seq<BlockRow>, s: Replica, meta: RequestBlock)
    requires WellFormed(codec, ledger) && |ledger| <= 0x8000_0000_0000_0000
    requires CopyOf(codec, ledger, s) && |s.blocks| < |ledger|
    requires meta == RequestBlock(|s.blocks|, ledger[|s.blocks|].data)
    ensures Deliver(codec, s, meta).1.Applied? <==> Takeable(codec, ledger, |s.blocks|)
    ensures Deliver(codec, s, meta).1.Applied? ==>
              CopyOf(codec, ledger, Deliver(codec, s, meta).0) && |Deliver(codec, s, meta).0.blocks| == |s.blocks| + 1
  {
    hide Signed, Decodes, Replay, Deliver;
    FateExactly(codec, s, meta);
    CopyPrefix(codec, ledger, s);
    assert !HasId(s.blocks, meta.id) by {
      assert forall i | 0 <= i < |s.blocks| :: s.blocks[i].id == i;
    }
    if Deliver(codec, s, meta).1.Applied? {
      NextBlock(codec, ledger, s);
    }
  }

  /** A client that has the rows below takes all further rows of the ledger, delivered in order,
      exactly if each of them can be taken where it stands. */
  lemma {:induction false} TakesAll(codec: Codec, ledger: seq<BlockRow>, s: Replica, rows: seq<BlockRow>)
    requires WellFormed(codec, ledger) && |ledger| <= 0x8000_0000_0000_0000
    requires CopyOf(codec, ledger, s)
    requires |s.blocks| <= |ledger| && rows == ledger[|s.blocks|..]
    ensures Committed(codec, s, Requests(rows)) == Requests(rows)
       <==> forall n | |s.blocks| <= n < |ledger| :: Takeable(codec, ledger, n)
    decreases |rows|
  {
    hide Deliver, CopyOf, Takeable;
    var metas := Requests(rows);
    hide WellFormed;
    if rows != [] {
      var n := |s.blocks|;
      RestOf(ledger, n, rows);
      TakesNext(codec, ledger, s, metas[0]);
      var (next, fate) := Deliver(codec, s, metas[0]);
      CommittedAllIff(codec, s, metas);
      hide Committed;
      if fate.Applied? {
        TakesAll(codec, ledger, next, rows[1..]);
      }
    }
  }

  lemma CommittedAllIff(codec: Codec, s: Replica, metas: seq<RequestBlock>)
    requires metas != []
    ensures var (next, fate) := Deliver(codec, s, metas[0]);
            Committed(codec, s, metas) == metas <==> fate.Applied? && Committed(codec, next, metas[1..]) == metas[1..]
  {
    hide Deliver;
    var (next, fate) := Deliver(codec, s, metas[0]);
    CommittedLength(codec, next, metas[1..]);
    assert metas == [metas[0]] + metas[1..];
  }

  /** A fresh client takes a whole ledger, genesis first, exactly if every block above genesis is
      signed and accepted in the replay of those below it, and none changes a public key. Then it
      ends with the ledger, and with the tables of its replay. */
  lemma FreshTakesAll(codec: Codec, ledger: seq<BlockRow>)
    requires WellFormed(codec, ledger) && |ledger| <= 0x8000_0000_0000_0000
    ensures forall i | 0 <= i < |ledger| :: ledger[i].id >= 0
    ensures var start := Replica(EMPTY, [], -1);
      && (Committed(codec, start, Requests(ledger)) == Requests(ledger)
          <==> forall n | 0 <= n < |ledger| :: Takeable(codec, ledger, n))
      && ((forall n | 0 <= n < |ledger| :: Takeable(codec, ledger, n)) ==>
            DeliverAll(codec, start, Requests(ledger))
            == Replica(Replay(codec, EMPTY, RowDatas(ledger)), ledger, |ledger| - 1))
  {
    hide Deliver, Takeable;
    var s := Replica(EMPTY, [], -1);
    assert ledger[0..] == ledger && ledger[..|ledger|] == ledger && RowDatas([]) == [];
    TakesAll(codec, ledger, s, ledger);
    if forall n | 0 <= n < |ledger| :: Takeable(codec, ledger, n) {
      InOrder(codec, ledger, s, ledger);
    }
  }

  /** One shipping round disconnects nobody exactly if each row that the client lacks can be taken
      where it stands. */
  lemma ShipsWhole(codec: Codec, ledger: seq<BlockRow>, s: Replica, s': Replica, failed: nat)
    requires WellFormed(codec, ledger) && |ledger| <= 0x8000_0000_0000_0000 && CopyOf(codec, ledger, s)
    requires Replayed(codec, ledger, s, s', failed)
    ensures failed == 0 <==> forall n | |s.blocks| <= n < |ledger| :: Takeable(codec, ledger, n)
  {
    hide Takeable, CopyOf, WellFormed, DeliverAll, Committed;
    var rows := ledger[|s.blocks|..];
    TakesAll(codec, ledger, s, rows);
    if failed == 0 {
      CommittedEverything(codec, s, Requests(rows));
    }
  }
}
