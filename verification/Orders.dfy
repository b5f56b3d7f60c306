/** Orders, the tables they change, the checks before them and their effect. */
module Orders {
  import opened Wrappers
  import opened Bytes

  datatype PublicKey = PublicKey(raw: bytes)

  datatype Permission = Root | Monitor

  type Permissions = seq<Permission>

  /** Names are UTF-8 text; the limit of 30 counts bytes. */
  type Name = bytes

  const MAX_NAME_LEN: nat := 30

  /** The name "default", given to every new node as its configuration. */
  const DEFAULT_CONFIG: Name := [100, 101, 102, 97, 117, 108, 116]

  datatype Order =
    | AddUser(name: Name, publickey: PublicKey, perm: Permissions)
    | AddMasterNode(name: Name, publickey: PublicKey)
    | AddNode(name: Name, publickey: PublicKey)
    | EditUser(name: Name, publickey: PublicKey, perm: Permissions)
    | EditMasterNode(name: Name, publickey: PublicKey)
    | EditNode(name: Name, publickey: PublicKey)
    | RemoveUser(publickey: PublicKey)
    | RemoveMasterNode(publickey: PublicKey)
    | RemoveNode(publickey: PublicKey)
    | ChangeNodeConfig(publickey: PublicKey, name: Name)
    | UpdatePublicKey(publickey: PublicKey, newPublickey: PublicKey)
    | SetConfig(name: Name, master: bytes, node: bytes)
    | RemoveConfig(name: Name)
    | UpdateVoteWeight(publickey: PublicKey, weight: nat)

  datatype RequestError =
    | SignatureError | LongParameter | PermissionError | NoPermission
    | InvalidEntity | DuplicateEntity | ConfigUsed | InvalidConfig

  /** A failed query, statement or signature check: the caller gives up on the request. */
  datatype Failure = RowNotFound | NoSuchColumn | UniqueViolation | BadSignatureFormat | Malformed | Overflow | Rejected

  datatype UserRow = UserRow(id: nat, name: Name, key: PublicKey, perms: Permissions, active: bool)

  datatype NodeRow = NodeRow(id: nat, name: Name, key: PublicKey, master: bool, conf: Name, weight: Option<nat>)

  datatype ConfigRow = ConfigRow(master: bytes, node: bytes)

  /** The tables `users`, `node` and `config`; rows are in the order of their ids. */
  datatype Tables = Tables(users: seq<UserRow>, nodes: seq<NodeRow>, configs: map<Name, ConfigRow>)

  const EMPTY: Tables := Tables([], [], map[])

  // Existence queries

  predicate ActiveUser(t: Tables, key: PublicKey) {
    exists i :: 0 <= i < |t.users| && t.users[i].key == key && t.users[i].active
  }

  predicate HasNode(t: Tables, key: PublicKey) {
    exists i :: 0 <= i < |t.nodes| && t.nodes[i].key == key
  }

  predicate HasMaster(t: Tables, key: PublicKey) {
    exists i :: 0 <= i < |t.nodes| && t.nodes[i].key == key && t.nodes[i].master
  }

  predicate ConfigInUse(t: Tables, name: Name) {
    exists i :: 0 <= i < |t.nodes| && t.nodes[i].conf == name
  }

  /** `entity_with_pubkey_exists` reads all rows, so that no row is no error. */
  function EntityExists(t: Tables, key: PublicKey): Result<bool, Failure> {
    Ok(ActiveUser(t, key) || HasNode(t, key))
  }

  /** The other queries fetch exactly one row: they never answer `false`, they fail. */
  function FetchOne(found: bool): Result<bool, Failure> {
    if found then Ok(true) else Err(RowNotFound)
  }

  // Checks

  function Check(refused: bool, e: RequestError): Option<RequestError> {
    if refused then Some(e) else None
  }

  /** The first match of `verify_order`: does what the order names exist as it should? */
  function VerifyEntity(t: Tables, o: Order): Result<Option<RequestError>, Failure> {
    match o
    case AddUser(_, key, _) => Exists(EntityExists(t, key), false, DuplicateEntity)
    case AddMasterNode(_, key) => Exists(EntityExists(t, key), false, DuplicateEntity)
    case AddNode(_, key) => Exists(EntityExists(t, key), false, DuplicateEntity)
    case EditUser(_, key, _) => Exists(EntityExists(t, key), true, InvalidEntity)
    case RemoveUser(key) => Exists(EntityExists(t, key), true, InvalidEntity)
    case EditMasterNode(_, key) => Exists(EntityExists(t, key), true, InvalidEntity)
    case RemoveMasterNode(key) => Exists(EntityExists(t, key), true, InvalidEntity)
    case EditNode(_, key) => Exists(EntityExists(t, key), true, InvalidEntity)
    case RemoveNode(key) => Exists(EntityExists(t, key), true, InvalidEntity)
    case UpdatePublicKey(key, _) => Exists(EntityExists(t, key), true, InvalidEntity)
    case ChangeNodeConfig(key, _) => Exists(EntityExists(t, key), true, InvalidEntity)
    case UpdateVoteWeight(key, _) => Exists(FetchOne(HasMaster(t, key)), true, InvalidEntity)
    case SetConfig(name, _, _) => Ok(Check(|name| > MAX_NAME_LEN, LongParameter))
    case RemoveConfig(name) => Exists(FetchOne(ConfigInUse(t, name)), false, ConfigUsed)
  }

  function Exists(found: Result<bool, Failure>, wanted: bool, e: RequestError): Result<Option<RequestError>, Failure> {
    match found
    case Err(f) => Err(f)
    case Ok(b) => Ok(Check(b != wanted, e))
  }

  /** The second match of `verify_order`: may this user do it? */
  function VerifyRights(t: Tables, o: Order, user: PublicKey, perms: Permissions)
    : Result<Option<RequestError>, Failure>
  {
    var root := Root in perms;
    match o
    case AddUser(name, _, perm) =>
      Ok(if |name| > MAX_NAME_LEN then Some(LongParameter)
         else if !root then Some(PermissionError)
         else Check(perm == [], NoPermission))
    case EditUser(name, key, perm) =>
      Ok(if |name| > MAX_NAME_LEN then Some(LongParameter)
         else if user == key && !root then Check(!SubsetOf(perm, perms), PermissionError)
         else Check(!root, PermissionError))
    case AddMasterNode(name, _) => Ok(NamedByRoot(name, root))
    case AddNode(name, _) => Ok(NamedByRoot(name, root))
    case EditMasterNode(name, _) => Ok(NamedByRoot(name, root))
    case EditNode(name, _) => Ok(NamedByRoot(name, root))
    case UpdatePublicKey(key, _) => Ok(Check(user != key || !root, PermissionError))
    case ChangeNodeConfig(_, name) =>
      if !root then Ok(Some(PermissionError))
      else Exists(FetchOne(name in t.configs), true, InvalidConfig)
    case UpdateVoteWeight(_, _) => Ok(Check(!root, PermissionError))
    case RemoveUser(_) => Ok(Check(!root, PermissionError))
    case RemoveMasterNode(_) => Ok(Check(!root, PermissionError))
    case RemoveNode(_) => Ok(Check(!root, PermissionError))
    case SetConfig(_, _, _) => Ok(Check(!root, PermissionError))
    case RemoveConfig(_) => Ok(Check(!root, PermissionError))
  }

  function NamedByRoot(name: Name, root: bool): Option<RequestError> {
    if |name| > MAX_NAME_LEN then Some(LongParameter) else Check(!root, PermissionError)
  }

  predicate SubsetOf(a: Permissions, b: Permissions) {
    forall p | p in a :: p in b
  }

  /** `verify_order`. */
  function VerifyOrder(t: Tables, o: Order, user: PublicKey, perms: Permissions)
    : Result<Option<RequestError>, Failure>
  {
    match VerifyEntity(t, o)
    case Err(f) => Err(f)
    case Ok(Some(e)) => Ok(Some(e))
    case Ok(None) => VerifyRights(t, o, user, perms)
  }

  /** The loop of `verify_req`: the first order that fails or is refused decides. */
  function VerifyOrders(t: Tables, req: seq<Order>, user: PublicKey, perms: Permissions)
    : Result<Option<RequestError>, Failure>
    decreases |req|
  {
    if req == [] then Ok(None)
    else
      match VerifyOrder(t, req[0], user, perms)
      case Err(f) => Err(f)
      case Ok(Some(e)) => Ok(Some(e))
      case Ok(None) => VerifyOrders(t, req[1..], user, perms)
  }

  /** `verify_req`, given the outcome of the signature check. */
  function VerifyReq(t: Tables, signature: Result<bool, Failure>, req: seq<Order>, user: PublicKey, perms: Permissions)
    : Result<Option<RequestError>, Failure>
  {
    match signature
    case Err(f) => Err(f)
    case Ok(good) => if good then VerifyOrders(t, req, user, perms) else Ok(Some(SignatureError))
  }

  predicate Accepts(t: Tables, req: seq<Order>, user: PublicKey, perms: Permissions) {
    VerifyOrders(t, req, user, perms) == Ok(None)
  }

  // Effects

  datatype Update =
    | ConfigUpdate(name: Name, master: bytes, node: bytes)
    | NodeConfigChange(key: PublicKey, name: Name)
    | MasterNodeListUpdate
    | NoUpdate

  /** The id sqlite gives to a new row: one more than the largest. */
  function NextUserId(users: seq<UserRow>): nat {
    if users == [] then 1 else users[|users| - 1].id + 1
  }

  function NextNodeId(nodes: seq<NodeRow>): nat {
    if nodes == [] then 1 else nodes[|nodes| - 1].id + 1
  }

  /** `update users set .. where ..`. */
  function MapUsers(users: seq<UserRow>, f: UserRow -> UserRow): (r: seq<UserRow>)
    ensures |r| == |users|
    ensures forall i | 0 <= i < |users| :: r[i] == f(users[i])
  {
    seq(|users|, i requires 0 <= i < |users| => f(users[i]))
  }

  function MapNodes(nodes: seq<NodeRow>, f: NodeRow -> NodeRow): (r: seq<NodeRow>)
    ensures |r| == |nodes|
    ensures forall i | 0 <= i < |nodes| :: r[i] == f(nodes[i])
  {
    seq(|nodes|, i requires 0 <= i < |nodes| => f(nodes[i]))
  }

  /** `delete from node where public_key = ..`. */
  function DeleteNodes(nodes: seq<NodeRow>, key: PublicKey): (r: seq<NodeRow>)
    ensures forall n | n in r :: n in nodes && n.key != key
  {
    if nodes == [] then []
    else (if nodes[0].key == key then [] else [nodes[0]]) + DeleteNodes(nodes[1..], key)
  }

  /** `interpret_order`: the new tables and the note for running nodes. Changing a public key
      names a column that the schema does not have, so that statement always fails. */
  function Apply(t: Tables, o: Order): Result<(Tables, Update), Failure> {
    match o
    case AddUser(name, key, perm) =>
      Ok((t.(users := t.users + [UserRow(NextUserId(t.users), name, key, perm, true)]), NoUpdate))
    case AddMasterNode(name, key) =>
      Ok((t.(nodes := t.nodes + [NodeRow(NextNodeId(t.nodes), name, key, true, DEFAULT_CONFIG, Some(1))]),
          MasterNodeListUpdate))
    case AddNode(name, key) =>
      Ok((t.(nodes := t.nodes + [NodeRow(NextNodeId(t.nodes), name, key, false, DEFAULT_CONFIG, None)]), NoUpdate))
    case EditUser(name, key, perm) =>
      Ok((t.(users := MapUsers(t.users, (u: UserRow) => if u.key == key then u.(name := name, perms := perm) else u)),
          NoUpdate))
    case EditMasterNode(name, key) =>
      Ok((t.(nodes := MapNodes(t.nodes, (n: NodeRow) => if n.key == key && n.master then n.(name := name) else n)),
          MasterNodeListUpdate))
    case EditNode(name, key) =>
      Ok((t.(nodes := MapNodes(t.nodes, (n: NodeRow) => if n.key == key then n.(name := name) else n)), NoUpdate))
    case UpdatePublicKey(_, _) => Err(NoSuchColumn)
    case UpdateVoteWeight(key, weight) =>
      Ok((t.(nodes := MapNodes(t.nodes, (n: NodeRow) =>
                                 if n.key == key && n.master then n.(weight := Some(weight)) else n)), NoUpdate))
    case RemoveUser(key) =>
      Ok((t.(users := MapUsers(t.users, (u: UserRow) => if u.key == key then u.(active := false) else u)), NoUpdate))
    case RemoveMasterNode(key) => Ok((t.(nodes := DeleteNodes(t.nodes, key)), MasterNodeListUpdate))
    case RemoveNode(key) => Ok((t.(nodes := DeleteNodes(t.nodes, key)), NoUpdate))
    case SetConfig(name, master, node) =>
      Ok((t.(configs := t.configs[name := ConfigRow(master, node)]), ConfigUpdate(name, master, node)))
    case RemoveConfig(name) => Ok((t.(configs := t.configs - {name}), NoUpdate))
    case ChangeNodeConfig(key, name) =>
      Ok((t.(nodes := MapNodes(t.nodes, (n: NodeRow) => if n.key == key then n.(conf := name) else n)),
          NodeConfigChange(key, name)))
  }

  /** All orders of a block, one after the other, on a transaction's copy of the tables. */
  function ApplyAll(t: Tables, req: seq<Order>): Result<(Tables, seq<Update>), Failure>
    decreases |req|
  {
    if req == [] then Ok((t, []))
    else
      match Apply(t, req[0])
      case Err(f) => Err(f)
      case Ok((t', update)) =>
        match ApplyAll(t', req[1..])
        case Err(f) => Err(f)
        case Ok((t'', updates)) => Ok((t'', [update] + updates))
  }

  /** The tables after `interpret_block`: all of its orders, or none of them. */
  function Interpret(t: Tables, req: seq<Order>): Tables {
    match ApplyAll(t, req)
    case Err(_) => t
    case Ok((t', _)) => t'
  }

  lemma {:induction false} ApplyAllAppend(t: Tables, a: seq<Order>, b: seq<Order>)
    ensures ApplyAll(t, a + b)
         == match ApplyAll(t, a)
            case Err(f) => Err(f)
            case Ok((t', u)) =>
              match ApplyAll(t', b)
              case Err(f) => Err(f)
              case Ok((t'', v)) => Ok((t'', u + v))
    decreases |a|
  {
    hide Apply;
    if a == [] {
      assert a + b == b;
      assert ApplyAll(t, a) == Ok((t, []));
      if ApplyAll(t, b).Ok? {
        assert [] + ApplyAll(t, b).value.1 == ApplyAll(t, b).value.1;
      }
    } else {
      assert (a + b)[0] == a[0] && (a + b)[1..] == a[1..] + b;
      var first := Apply(t, a[0]);
      if first.Ok? {
        var (t', u) := first.value;
        ApplyAllAppend(t', a[1..], b);
        var mid := ApplyAll(t', a[1..]);
        if mid.Ok? {
          var last := ApplyAll(mid.value.0, b);
          if last.Ok? {
            assert [u] + (mid.value.1 + last.value.1) == ([u] + mid.value.1) + last.value.1;
          }
        }
      }
    }
  }
}
