/** The premises on serialization, hashes and signatures can be met, all of them at once: a codec
    that writes values field by field, numbers in unary, and whose digest is the identity. */
module Existence {
  import opened Wrappers
  import opened Bytes
  import opened Orders
  import opened Ledger

  // Each function writes a value in front of `rest`

  function PutNat(n: nat, rest: bytes): (w: bytes)
    ensures |w| > |rest|
  {
    if n == 0 then [0] + rest else [1] + PutNat(n - 1, rest)
  }

  function PutBytes(b: bytes, rest: bytes): (w: bytes)
    ensures |w| > |rest|
  {
    PutNat(|b|, b + rest)
  }

  function PermBytes(p: Permissions): (w: bytes)
    ensures |w| == |p| && forall i | 0 <= i < |p| :: w[i] == if p[i].Root? then 0 else 1
  {
    seq(|p|, i requires 0 <= i < |p| => if p[i].Root? then 0 else 1)
  }

  datatype Fields = Fields(tag: nat, a: bytes, b: bytes, c: bytes, n: nat)

  function FieldsOf(o: Order): Fields {
    match o
    case AddUser(name, key, perm) => Fields(0, name, key.raw, PermBytes(perm), 0)
    case AddMasterNode(name, key) => Fields(1, name, key.raw, [], 0)
    case AddNode(name, key) => Fields(2, name, key.raw, [], 0)
    case EditUser(name, key, perm) => Fields(3, name, key.raw, PermBytes(perm), 0)
    case EditMasterNode(name, key) => Fields(4, name, key.raw, [], 0)
    case EditNode(name, key) => Fields(5, name, key.raw, [], 0)
    case RemoveUser(key) => Fields(6, key.raw, [], [], 0)
    case RemoveMasterNode(key) => Fields(7, key.raw, [], [], 0)
    case RemoveNode(key) => Fields(8, key.raw, [], [], 0)
    case ChangeNodeConfig(key, name) => Fields(9, key.raw, name, [], 0)
    case UpdatePublicKey(key, next) => Fields(10, key.raw, next.raw, [], 0)
    case SetConfig(name, master, node) => Fields(11, name, master, node, 0)
    case RemoveConfig(name) => Fields(12, name, [], [], 0)
    case UpdateVoteWeight(key, weight) => Fields(13, key.raw, [], [], weight)
  }

  function PutFields(f: Fields, rest: bytes): bytes {
    PutNat(f.tag, PutBytes(f.a, PutBytes(f.b, PutBytes(f.c, PutNat(f.n, rest)))))
  }

  function PutAll(os: seq<Order>, rest: bytes): bytes {
    if os == [] then rest else PutFields(FieldsOf(os[0]), PutAll(os[1..], rest))
  }

  function PutOrders(os: seq<Order>, rest: bytes): bytes {
    PutNat(|os|, PutAll(os, rest))
  }

  function PutBody(b: BodyData): bytes {
    PutOrders(b.req, PutBytes(b.sign, PutBytes(b.user.raw, PutNat(b.timestamp, []))))
  }

  function PutBlock(b: Block): bytes {
    PutBytes(b.hash, b.body)
  }

  // What was written, and what came after it, can be told from the whole

  lemma {:induction false} NatsDiffer(n: nat, m: nat, x: bytes, y: bytes)
    requires PutNat(n, x) == PutNat(m, y)
    ensures n == m && x == y
    decreases n
  {
    var w := PutNat(n, x);
    assert w[0] == if n == 0 then 0 else 1;
    assert w[1..] == if n == 0 then x else PutNat(n - 1, x);
    assert w[1..] == if m == 0 then y else PutNat(m - 1, y);
    if n > 0 {
      NatsDiffer(n - 1, m - 1, x, y);
    }
  }

  lemma BytesDiffer(a: bytes, b: bytes, x: bytes, y: bytes)
    requires PutBytes(a, x) == PutBytes(b, y)
    ensures a == b && x == y
  {
    NatsDiffer(|a|, |b|, a + x, b + y);
    assert a == (a + x)[..|a|] && b == (b + y)[..|a|];
    assert x == (a + x)[|a|..] && y == (b + y)[|a|..];
  }

  lemma PermsDiffer(p: Permissions, q: Permissions)
    requires PermBytes(p) == PermBytes(q)
    ensures p == q
  {
    forall i | 0 <= i < |p| ensures p[i] == q[i] {
      assert PermBytes(p)[i] == PermBytes(q)[i];
    }
  }

  lemma FieldsDiffer(o: Order, p: Order)
    requires FieldsOf(o) == FieldsOf(p)
    ensures o == p
  {
    hide PermBytes;
    match o
    case AddUser(_, _, perm) => PermsDiffer(perm, p.perm);
    case EditUser(_, _, perm) => PermsDiffer(perm, p.perm);
    case _ =>
  }

  lemma OrdersDiffer(f: Fields, g: Fields, x: bytes, y: bytes)
    requires PutFields(f, x) == PutFields(g, y)
    ensures f == g && x == y
  {
    hide PutNat, PutBytes;
    var fn, gn := PutNat(f.n, x), PutNat(g.n, y);
    var fc, gc := PutBytes(f.c, fn), PutBytes(g.c, gn);
    var fb, gb := PutBytes(f.b, fc), PutBytes(g.b, gc);
    NatsDiffer(f.tag, g.tag, PutBytes(f.a, fb), PutBytes(g.a, gb));
    BytesDiffer(f.a, g.a, fb, gb);
    BytesDiffer(f.b, g.b, fc, gc);
    BytesDiffer(f.c, g.c, fn, gn);
    NatsDiffer(f.n, g.n, x, y);
  }

  lemma {:induction false} AllDiffer(a: seq<Order>, b: seq<Order>, x: bytes, y: bytes)
    requires |a| == |b| && PutAll(a, x) == PutAll(b, y)
    ensures a == b && x == y
  {
    hide PutFields, FieldsOf;
    if a != [] {
      OrdersDiffer(FieldsOf(a[0]), FieldsOf(b[0]), PutAll(a[1..], x), PutAll(b[1..], y));
      FieldsDiffer(a[0], b[0]);
      AllDiffer(a[1..], b[1..], x, y);
      assert a == [a[0]] + a[1..] && b == [b[0]] + b[1..];
    }
  }

  lemma BodiesDiffer(a: BodyData, b: BodyData)
    requires PutBody(a) == PutBody(b)
    ensures a == b
  {
    hide PutNat, PutBytes, PutAll;
    var at, bt := PutNat(a.timestamp, []), PutNat(b.timestamp, []);
    var au, bu := PutBytes(a.user.raw, at), PutBytes(b.user.raw, bt);
    var x, y := PutBytes(a.sign, au), PutBytes(b.sign, bu);
    NatsDiffer(|a.req|, |b.req|, PutAll(a.req, x), PutAll(b.req, y));
    AllDiffer(a.req, b.req, x, y);
    BytesDiffer(a.sign, b.sign, au, bu);
    BytesDiffer(a.user.raw, b.user.raw, at, bt);
    NatsDiffer(a.timestamp, b.timestamp, [], []);
  }

  ghost function GetBody(w: bytes): Option<BodyData> {
    if exists b :: PutBody(b) == w then
      var b :| PutBody(b) == w;
      Some(b)
    else None
  }

  ghost function GetBlock(w: bytes): Option<Block> {
    if exists b :: PutBlock(b) == w then
      var b :| PutBlock(b) == w;
      Some(b)
    else None
  }

  ghost function PlainCodec(): Codec {
    Codec(
      (b: bytes) => b,
      (b: Block) => PutBlock(b), (w: bytes) => GetBlock(w),
      (b: BodyData) => PutBody(b), (w: bytes) => GetBody(w),
      (os: seq<Order>) => PutOrders(os, []),
      (key: PublicKey, message: bytes, sign: bytes) => Ok(message == sign))
  }

  /** There is a codec with all properties that the theorems about the ledger ask for. */
  lemma CodecExists()
    ensures PlainCodec().Sound() && PlainCodec().CollisionFree() && PlainCodec().SignsOnce()
    ensures forall body: BodyData :: PlainCodec().putOrders(body.req) != PlainCodec().putBody(body)
  {
    hide PutBody, PutBlock, PutOrders;
    forall b: BodyData ensures GetBody(PutBody(b)) == Some(b) {
      BodiesDiffer(b, GetBody(PutBody(b)).value);
    }
    forall b: Block ensures GetBlock(PutBlock(b)) == Some(b) {
      BlocksDiffer(b, GetBlock(PutBlock(b)).value);
    }
    forall body: BodyData ensures PutOrders(body.req, []) != PutBody(body) {
      OrdersAreNoBody(body);
    }
  }

  lemma BlocksDiffer(a: Block, b: Block)
    requires PutBlock(a) == PutBlock(b)
    ensures a == b
  {
    BytesDiffer(a.hash, b.hash, a.body, b.body);
  }

  lemma OrdersAreNoBody(b: BodyData)
    ensures PutOrders(b.req, []) != PutBody(b)
  {
    var rest := PutBytes(b.sign, PutBytes(b.user.raw, PutNat(b.timestamp, [])));
    if PutOrders(b.req, []) == PutBody(b) {
      NatsDiffer(|b.req|, |b.req|, PutAll(b.req, []), PutAll(b.req, rest));
      AllDiffer(b.req, b.req, [], rest);
      assert false;
    }
  }
}
