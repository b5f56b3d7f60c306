/** What accepted requests can and cannot do to the tables. */
module OrderSafety {
  import opened Wrappers
  import opened Bytes
  import opened Orders

  lemma {:induction false} AcceptsEach(t: Tables, req: seq<Order>, user: PublicKey, perms: Permissions)
    ensures Accepts(t, req, user, perms)
       <==> forall i :: 0 <= i < |req| ==> VerifyOrder(t, req[i], user, perms) == Ok(None)
    decreases |req|
  {
    hide VerifyOrder;
    if req != [] {
      AcceptsEach(t, req[1..], user, perms);
      assert forall i | 0 <= i < |req[1..]| :: req[1..][i] == req[i + 1];
      if VerifyOrder(t, req[0], user, perms) == Ok(None) {
        assert Accepts(t, req, user, perms) <==> Accepts(t, req[1..], user, perms);
        assert forall i | 1 <= i < |req| :: req[i] == req[1..][i - 1];
      }
    }
  }

  /** The query behind `RemoveConfig` fails when the configuration is unused, and refuses when
      it is used: no request that removes a configuration is ever accepted. */
  lemma RemoveConfigNeverAccepted(t: Tables, name: Name, user: PublicKey, perms: Permissions)
    ensures VerifyOrder(t, RemoveConfig(name), user, perms)
         == if ConfigInUse(t, name) then Ok(Some(ConfigUsed)) else Err(RowNotFound)
  {
  }

  // Referential integrity of configurations

  /** Every node uses an existing configuration, and "default" exists for new nodes. */
  ghost predicate ConfigsIntact(t: Tables) {
    && DEFAULT_CONFIG in t.configs
    && forall n | n in t.nodes :: n.conf in t.configs
  }

  /** The order was accepted when the configurations were `known`. */
  ghost predicate SafeOrder(o: Order, known: set<Name>) {
    !o.RemoveConfig? && (o.ChangeNodeConfig? ==> o.name in known)
  }

  lemma AcceptedIsSafe(t: Tables, req: seq<Order>, user: PublicKey, perms: Permissions)
    requires Accepts(t, req, user, perms)
    ensures forall i | 0 <= i < |req| :: SafeOrder(req[i], t.configs.Keys)
  {
    AcceptsEach(t, req, user, perms);
  }

  lemma ApplyKeepsConfigs(t: Tables, o: Order, known: set<Name>)
    requires ConfigsIntact(t) && SafeOrder(o, known) && known <= t.configs.Keys
    ensures Apply(t, o).Ok? ==> ConfigsIntact(Apply(t, o).value.0) && t.configs.Keys <= Apply(t, o).value.0.configs.Keys
  {
  }

  lemma {:induction false} InterpretKeepsConfigs(t: Tables, req: seq<Order>, known: set<Name>)
    requires ConfigsIntact(t) && known <= t.configs.Keys
    requires forall i | 0 <= i < |req| :: SafeOrder(req[i], known)
    ensures ConfigsIntact(Interpret(t, req))
    ensures t.configs.Keys <= Interpret(t, req).configs.Keys
    decreases |req|
  {
    hide Apply;
    hide SafeOrder;
    hide ConfigsIntact;
    if req != [] {
      ApplyKeepsConfigs(t, req[0], known);
      if Apply(t, req[0]).Ok? {
        InterpretKeepsConfigs(Apply(t, req[0]).value.0, req[1..], known);
      }
    }
  }

  /** The first block: the root user, the first master node and the default configuration. */
  function Genesis(root: PublicKey, node: PublicKey, master: bytes, conf: bytes): seq<Order> {
    [AddUser([114, 111, 111, 116], root, [Root]),
     AddMasterNode([99, 111, 110, 116, 114, 111, 108, 108, 101, 114, 48], node),
     SetConfig(DEFAULT_CONFIG, master, conf)]
  }

  lemma GenesisTables(root: PublicKey, node: PublicKey, master: bytes, conf: bytes)
    ensures var t := Interpret(EMPTY, Genesis(root, node, master, conf));
      && ApplyAll(EMPTY, Genesis(root, node, master, conf)).Ok?
      && |t.users| == 1 && t.users[0].key == root && t.users[0].active && t.users[0].perms == [Root]
      && |t.nodes| == 1 && t.nodes[0].key == node && t.nodes[0].conf == DEFAULT_CONFIG
      && DEFAULT_CONFIG in t.configs
  {
    var o := Genesis(root, node, master, conf);
    var t1 := Apply(EMPTY, o[0]).value.0;
    var t2 := Apply(t1, o[1]).value.0;
    var t3 := Apply(t2, o[2]).value.0;
    assert o[1..][0] == o[1] && o[1..][1..][0] == o[2] && o[1..][1..][1..] == [];
    assert ApplyAll(t3, []) == Ok((t3, []));
    assert ApplyAll(t2, o[1..][1..]).Ok? && ApplyAll(t2, o[1..][1..]).value.0 == t3;
    assert ApplyAll(t1, o[1..]).Ok? && ApplyAll(t1, o[1..]).value.0 == t3;
  }

  /** A request that was applied, and the earlier point at which it had been checked. */
  datatype Request = Request(req: seq<Order>, user: PublicKey, perms: Permissions, checkedAt: nat)

  /** Block boundaries from genesis on. Requests are checked before they are voted on, so by
      the time one is applied the tables may have moved on from those it was checked against. */
  ghost predicate History(states: seq<Tables>, reqs: seq<Request>) {
    && |states| == |reqs| + 1
    && (exists root, node, master, conf :: states[0] == Interpret(EMPTY, Genesis(root, node, master, conf)))
    && forall i | 0 <= i < |reqs| ::
         && reqs[i].checkedAt <= i
         && Accepts(states[reqs[i].checkedAt], reqs[i].req, reqs[i].user, reqs[i].perms)
         && states[i + 1] == Interpret(states[i], reqs[i].req)
  }

  /** At every block boundary every node's configuration exists, however stale the checks were. */
  lemma {:induction false} ConfigsIntactAlways(states: seq<Tables>, reqs: seq<Request>, n: nat)
    requires History(states, reqs) && n < |states|
    ensures forall i | 0 <= i <= n :: ConfigsIntact(states[i]) && states[i].configs.Keys <= states[n].configs.Keys
  {
    hide Interpret;
    hide Accepts;
    if n == 0 {
      var root, node, master, conf :| states[0] == Interpret(EMPTY, Genesis(root, node, master, conf));
      GenesisTables(root, node, master, conf);
    } else {
      ConfigsIntactAlways(states, reqs, n - 1);
      var r := reqs[n - 1];
      AcceptedIsSafe(states[r.checkedAt], r.req, r.user, r.perms);
      InterpretKeepsConfigs(states[n - 1], r.req, states[r.checkedAt].configs.Keys);
    }
  }

  // Rows and their ids

  ghost predicate UserIdsAscend(users: seq<UserRow>) {
    forall i, j | 0 <= i < j < |users| :: users[i].id < users[j].id
  }

  ghost predicate NodeIdsAscend(nodes: seq<NodeRow>) {
    forall i, j | 0 <= i < j < |nodes| :: nodes[i].id < nodes[j].id
  }

  /** Ids ascend in the order of the rows, so they are unique and a new row's id is new. */
  ghost predicate IdsAscend(t: Tables) {
    UserIdsAscend(t.users) && NodeIdsAscend(t.nodes)
  }

  /** The order may change the row of this key in place. */
  predicate Names(o: Order, key: PublicKey) {
    !o.SetConfig? && !o.RemoveConfig? && o.publickey == key
  }

  /** One order touches only the rows it names: users are never deleted or renumbered, a node is
      deleted only by its own key, and everything else about other keys and other configurations
      stays exactly as it is. */
  lemma ApplyFrame(t: Tables, o: Order)
    requires Apply(t, o).Ok?
    ensures var t' := Apply(t, o).value.0;
      && |t.users| <= |t'.users| <= |t.users| + 1
      && (forall i | 0 <= i < |t.users| ::
            && t'.users[i].id == t.users[i].id && t'.users[i].key == t.users[i].key
            && (t'.users[i] != t.users[i] ==> Names(o, t.users[i].key)))
      && (if o.RemoveNode? || o.RemoveMasterNode? then
            forall n | n in t.nodes :: n in t'.nodes <==> n.key != o.publickey
          else
            && |t.nodes| <= |t'.nodes| <= |t.nodes| + 1
            && forall i | 0 <= i < |t.nodes| ::
                 && t'.nodes[i].id == t.nodes[i].id && t'.nodes[i].key == t.nodes[i].key
                 && t'.nodes[i].master == t.nodes[i].master
                 && (t'.nodes[i] != t.nodes[i] ==> Names(o, t.nodes[i].key)))
      && (forall name | name in t.configs && (name !in t'.configs || t'.configs[name] != t.configs[name]) ::
            (o.SetConfig? || o.RemoveConfig?) && o.name == name)
  {
    hide DeleteNodes;
    match o
    case RemoveMasterNode(key) => DeletedNodes(t.nodes, key);
    case RemoveNode(key) => DeletedNodes(t.nodes, key);
    case _ =>
  }

  /** Deleting keeps exactly the rows of other keys, in their order. */
  lemma {:induction false} DeletedNodes(nodes: seq<NodeRow>, key: PublicKey)
    ensures forall n | n in nodes && n.key != key :: n in DeleteNodes(nodes, key)
    ensures NodeIdsAscend(nodes) ==> NodeIdsAscend(DeleteNodes(nodes, key))
  {
    if nodes != [] {
      DeletedNodes(nodes[1..], key);
      var rest := DeleteNodes(nodes[1..], key);
      if NodeIdsAscend(nodes) {
        TailAscends(nodes);
        forall j | 0 <= j < |rest| ensures nodes[0].id < rest[j].id {
          assert rest[j] in nodes[1..];
        }
        HeadAscends(nodes[0], rest);
        assert [] + rest == rest;
      }
    }
  }

  lemma TailAscends(nodes: seq<NodeRow>)
    requires nodes != [] && NodeIdsAscend(nodes)
    ensures NodeIdsAscend(nodes[1..])
    ensures forall n | n in nodes[1..] :: nodes[0].id < n.id
  {
  }

  lemma HeadAscends(head: NodeRow, rest: seq<NodeRow>)
    requires NodeIdsAscend(rest) && forall j | 0 <= j < |rest| :: head.id < rest[j].id
    ensures NodeIdsAscend([head] + rest)
  {
  }

  lemma ApplyKeepsIds(t: Tables, o: Order)
    requires IdsAscend(t)
    ensures Apply(t, o).Ok? ==> IdsAscend(Apply(t, o).value.0)
  {
    hide DeleteNodes;
    match o
    case RemoveMasterNode(key) => DeletedNodes(t.nodes, key);
    case RemoveNode(key) => DeletedNodes(t.nodes, key);
    case _ =>
  }

  /** A new row gets one more than the largest id in the table, or 1. */
  lemma NewIds(t: Tables)
    requires IdsAscend(t)
    ensures (forall u | u in t.users :: u.id < NextUserId(t.users))
            && (forall n | n in t.nodes :: n.id < NextNodeId(t.nodes))
    ensures if t.users == [] then NextUserId(t.users) == 1
            else exists u :: u in t.users && u.id + 1 == NextUserId(t.users)
    ensures if t.nodes == [] then NextNodeId(t.nodes) == 1
            else exists n :: n in t.nodes && n.id + 1 == NextNodeId(t.nodes)
  {
    if t.users != [] {
      assert t.users[|t.users| - 1] in t.users;
    }
    if t.nodes != [] {
      assert t.nodes[|t.nodes| - 1] in t.nodes;
    }
  }

  /** Whatever blocks are interpreted, accepted or not, row ids stay unique and in order. */
  lemma {:induction false} InterpretKeepsIds(t: Tables, req: seq<Order>)
    requires IdsAscend(t)
    ensures IdsAscend(Interpret(t, req))
    decreases |req|
  {
    hide IdsAscend;
    hide Apply;
    if req != [] {
      ApplyKeepsIds(t, req[0]);
      if Apply(t, req[0]).Ok? {
        InterpretKeepsIds(Apply(t, req[0]).value.0, req[1..]);
      }
    }
  }

  // Length of names

  /** No user, node or configuration has a name above the limit. */
  ghost predicate NamesShort(t: Tables) {
    && (forall u | u in t.users :: |u.name| <= MAX_NAME_LEN)
    && (forall n | n in t.nodes :: |n.name| <= MAX_NAME_LEN)
    && (forall name | name in t.configs :: |name| <= MAX_NAME_LEN)
  }

  ghost predicate ShortOrder(o: Order) {
    match o
    case AddUser(name, _, _) => |name| <= MAX_NAME_LEN
    case AddMasterNode(name, _) => |name| <= MAX_NAME_LEN
    case AddNode(name, _) => |name| <= MAX_NAME_LEN
    case EditUser(name, _, _) => |name| <= MAX_NAME_LEN
    case EditMasterNode(name, _) => |name| <= MAX_NAME_LEN
    case EditNode(name, _) => |name| <= MAX_NAME_LEN
    case SetConfig(name, _, _) => |name| <= MAX_NAME_LEN
    case _ => true
  }

  lemma {:induction false} InterpretKeepsNames(t: Tables, req: seq<Order>)
    requires NamesShort(t) && forall i | 0 <= i < |req| :: ShortOrder(req[i])
    ensures NamesShort(Interpret(t, req))
    decreases |req|
  {
    hide NamesShort;
    hide ShortOrder;
    hide Apply;
    if req != [] {
      ApplyKeepsNames(t, req[0]);
      if Apply(t, req[0]).Ok? {
        InterpretKeepsNames(Apply(t, req[0]).value.0, req[1..]);
      }
    }
  }

  lemma ApplyKeepsNames(t: Tables, o: Order)
    requires NamesShort(t) && ShortOrder(o)
    ensures Apply(t, o).Ok? ==> NamesShort(Apply(t, o).value.0)
  {
  }

  /** Over every history from genesis on, however stale the checks: no name exceeds the limit. */
  lemma {:induction false} NamesShortAlways(states: seq<Tables>, reqs: seq<Request>, n: nat)
    requires History(states, reqs) && n < |states|
    ensures NamesShort(states[n])
  {
    hide NamesShort;
    hide ShortOrder;
    hide Interpret;
    hide Accepts;
    if n == 0 {
      var root, node, master, conf :| states[0] == Interpret(EMPTY, Genesis(root, node, master, conf));
      GenesisNamesShort(root, node, master, conf);
    } else {
      NamesShortAlways(states, reqs, n - 1);
      var r := reqs[n - 1];
      AcceptedIsShort(states[r.checkedAt], r.req, r.user, r.perms);
      InterpretKeepsNames(states[n - 1], r.req);
    }
  }

  lemma GenesisNamesShort(root: PublicKey, node: PublicKey, master: bytes, conf: bytes)
    ensures NamesShort(Interpret(EMPTY, Genesis(root, node, master, conf)))
  {
    InterpretKeepsNames(EMPTY, Genesis(root, node, master, conf));
  }

  lemma AcceptedIsShort(t: Tables, req: seq<Order>, user: PublicKey, perms: Permissions)
    requires Accepts(t, req, user, perms)
    ensures forall i | 0 <= i < |req| :: ShortOrder(req[i])
  {
    AcceptsEach(t, req, user, perms);
  }

  // Uniqueness of public keys

  function CountUsers(users: seq<UserRow>, key: PublicKey): nat {
    if users == [] then 0
    else (if users[0].key == key && users[0].active then 1 else 0) + CountUsers(users[1..], key)
  }

  function CountNodes(nodes: seq<NodeRow>, key: PublicKey): nat {
    if nodes == [] then 0 else (if nodes[0].key == key then 1 else 0) + CountNodes(nodes[1..], key)
  }

  /** How many active users and nodes have this public key. */
  function Owners(t: Tables, key: PublicKey): nat {
    CountUsers(t.users, key) + CountNodes(t.nodes, key)
  }

  ghost predicate KeysUnique(t: Tables) {
    forall key :: Owners(t, key) <= 1
  }

  lemma {:induction false} CountUsersAppend(users: seq<UserRow>, u: UserRow, key: PublicKey)
    ensures CountUsers(users + [u], key) == CountUsers(users, key) + if u.key == key && u.active then 1 else 0
  {
    if users == [] {
      assert [] + [u] == [u];
    } else {
      assert (users + [u])[1..] == users[1..] + [u];
      CountUsersAppend(users[1..], u, key);
    }
  }

  lemma {:induction false} CountNodesAppend(nodes: seq<NodeRow>, n: NodeRow, key: PublicKey)
    ensures CountNodes(nodes + [n], key) == CountNodes(nodes, key) + if n.key == key then 1 else 0
  {
    if nodes == [] {
      assert [] + [n] == [n];
    } else {
      assert (nodes + [n])[1..] == nodes[1..] + [n];
      CountNodesAppend(nodes[1..], n, key);
    }
  }

  /** Rows rewritten in place: the count follows the rows that own the key. */
  lemma {:induction false} CountUsersMapped(users: seq<UserRow>, users': seq<UserRow>, key: PublicKey)
    requires |users'| == |users|
    requires forall i | 0 <= i < |users| :: users'[i].key == users[i].key && (users'[i].active ==> users[i].active)
    ensures CountUsers(users', key) <= CountUsers(users, key)
    ensures (forall i | 0 <= i < |users| :: users[i].key == key ==> users'[i].active == users[i].active) ==>
              CountUsers(users', key) == CountUsers(users, key)
  {
    if users != [] {
      CountUsersMapped(users[1..], users'[1..], key);
      assert forall i | 0 <= i < |users[1..]| :: users[1..][i] == users[i + 1] && users'[1..][i] == users'[i + 1];
    }
  }

  lemma {:induction false} CountNodesMapped(nodes: seq<NodeRow>, nodes': seq<NodeRow>, key: PublicKey)
    requires |nodes'| == |nodes|
    requires forall i | 0 <= i < |nodes| :: nodes'[i].key == nodes[i].key
    ensures CountNodes(nodes', key) == CountNodes(nodes, key)
  {
    if nodes != [] {
      CountNodesMapped(nodes[1..], nodes'[1..], key);
    }
  }

  lemma {:induction false} CountNodesDeleted(nodes: seq<NodeRow>, gone: PublicKey, key: PublicKey)
    ensures CountNodes(DeleteNodes(nodes, gone), key) == if key == gone then 0 else CountNodes(nodes, key)
  {
    if nodes != [] {
      CountNodesDeleted(nodes[1..], gone, key);
      var rest := DeleteNodes(nodes[1..], gone);
      if nodes[0].key != gone {
        assert ([nodes[0]] + rest)[1..] == rest;
      } else {
        assert [] + rest == rest;
      }
    }
  }

  lemma {:induction false} OwnedUsers(users: seq<UserRow>, key: PublicKey)
    ensures CountUsers(users, key) > 0 <==> exists i :: 0 <= i < |users| && users[i].key == key && users[i].active
  {
    if users != [] {
      OwnedUsers(users[1..], key);
      assert forall i | 0 <= i < |users[1..]| :: users[1..][i] == users[i + 1];
      assert forall i | 1 <= i < |users| :: users[i] == users[1..][i - 1];
    }
  }

  lemma {:induction false} OwnedNodes(nodes: seq<NodeRow>, key: PublicKey)
    ensures CountNodes(nodes, key) > 0 <==> exists i :: 0 <= i < |nodes| && nodes[i].key == key
  {
    if nodes != [] {
      OwnedNodes(nodes[1..], key);
      assert forall i | 0 <= i < |nodes[1..]| :: nodes[1..][i] == nodes[i + 1];
      assert forall i | 1 <= i < |nodes| :: nodes[i] == nodes[1..][i - 1];
    }
  }

  predicate IsAdd(o: Order) {
    o.AddUser? || o.AddMasterNode? || o.AddNode?
  }

  predicate IsRemove(o: Order) {
    o.RemoveUser? || o.RemoveMasterNode? || o.RemoveNode?
  }

  function AddedKeys(req: seq<Order>): seq<PublicKey> {
    if req == [] then []
    else (if IsAdd(req[0]) then [req[0].publickey] else []) + AddedKeys(req[1..])
  }

  predicate Distinct(keys: seq<PublicKey>) {
    forall i, j | 0 <= i < j < |keys| :: keys[i] != keys[j]
  }

  /** The effect of one order on the owners of a key. */
  lemma ApplyOwners(t: Tables, o: Order, key: PublicKey)
    requires Apply(t, o).Ok?
    ensures var t' := Apply(t, o).value.0;
      && Owners(t', key) <= Owners(t, key) + (if IsAdd(o) && o.publickey == key then 1 else 0)
      && (!(IsRemove(o) && o.publickey == key) ==>
            Owners(t', key) == Owners(t, key) + if IsAdd(o) && o.publickey == key then 1 else 0)
  {
    hide CountUsers;
    hide CountNodes;
    hide DeleteNodes;
    var t' := Apply(t, o).value.0;
    match o
    case AddUser(_, _, _) => CountUsersAppend(t.users, t'.users[|t.users|], key);
    case AddMasterNode(_, _) => CountNodesAppend(t.nodes, t'.nodes[|t.nodes|], key);
    case AddNode(_, _) => CountNodesAppend(t.nodes, t'.nodes[|t.nodes|], key);
    case EditUser(_, _, _) => CountUsersMapped(t.users, t'.users, key);
    case RemoveUser(_) => CountUsersMapped(t.users, t'.users, key);
    case RemoveMasterNode(gone) => CountNodesDeleted(t.nodes, gone, key);
    case RemoveNode(gone) => CountNodesDeleted(t.nodes, gone, key);
    case EditMasterNode(_, _) => CountNodesMapped(t.nodes, t'.nodes, key);
    case EditNode(_, _) => CountNodesMapped(t.nodes, t'.nodes, key);
    case UpdateVoteWeight(_, _) => CountNodesMapped(t.nodes, t'.nodes, key);
    case ChangeNodeConfig(_, _) => CountNodesMapped(t.nodes, t'.nodes, key);
    case SetConfig(_, _, _) =>
    case RemoveConfig(_) =>
  }

  lemma {:induction false} ApplyAllOwners(t: Tables, req: seq<Order>, key: PublicKey)
    requires ApplyAll(t, req).Ok?
    ensures var t' := ApplyAll(t, req).value.0;
      && Owners(t', key) <= Owners(t, key) + multiset(AddedKeys(req))[key]
      && ((forall i | 0 <= i < |req| :: !(IsRemove(req[i]) && req[i].publickey == key)) ==>
            Owners(t', key) == Owners(t, key) + multiset(AddedKeys(req))[key])
    decreases |req|
  {
    hide Apply;
    hide Owners;
    if req != [] {
      ApplyOwners(t, req[0], key);
      ApplyAllOwners(Apply(t, req[0]).value.0, req[1..], key);
      assert forall i | 0 <= i < |req[1..]| :: req[1..][i] == req[i + 1];
    }
  }

  /** The batch adds no key twice, and none that already has an owner. */
  predicate Harmless(t: Tables, req: seq<Order>) {
    Distinct(AddedKeys(req)) && forall key | key in AddedKeys(req) :: Owners(t, key) == 0
  }

  /** Keys stay unique across a batch, whatever tables it was accepted against, exactly when it
      is harmless for the tables it is applied to. */
  lemma UniqueIffHarmless(t: Tables, checked: Tables, req: seq<Order>, user: PublicKey, perms: Permissions)
    requires KeysUnique(t) && Accepts(checked, req, user, perms) && ApplyAll(t, req).Ok?
    ensures KeysUnique(Interpret(t, req)) <==> Harmless(t, req)
  {
    hide ApplyAll;
    hide Accepts;
    hide Owners;
    var t', added := Interpret(t, req), AddedKeys(req);
    forall key
      ensures key in added ==> Owners(t', key) == Owners(t, key) + multiset(added)[key]
      ensures key !in added ==> Owners(t', key) <= 1
    {
      ApplyAllOwners(t, req, key);
      if key in added {
        AddedIsFresh(checked, req, user, perms, key);
      }
    }
    DistinctCounts(added);
  }

  /** Keys stay unique across a batch checked against the tables it is applied to exactly when
      the batch adds no key twice. */
  lemma UniqueIffDistinctAdds(t: Tables, req: seq<Order>, user: PublicKey, perms: Permissions)
    requires KeysUnique(t) && Accepts(t, req, user, perms) && ApplyAll(t, req).Ok?
    ensures KeysUnique(Interpret(t, req)) <==> Distinct(AddedKeys(req))
  {
    hide *;
    UniqueIffHarmless(t, t, req, user, perms);
    FreshIsHarmless(t, req, user, perms);
  }

  lemma FreshIsHarmless(t: Tables, req: seq<Order>, user: PublicKey, perms: Permissions)
    requires Accepts(t, req, user, perms)
    ensures Harmless(t, req) <==> Distinct(AddedKeys(req))
  {
    hide Accepts;
    hide Owners;
    forall key | key in AddedKeys(req) ensures Owners(t, key) == 0 {
      AddedIsFresh(t, req, user, perms, key);
    }
  }

  lemma AddedIsFresh(t: Tables, req: seq<Order>, user: PublicKey, perms: Permissions, key: PublicKey)
    requires Accepts(t, req, user, perms) && key in AddedKeys(req)
    ensures Owners(t, key) == 0
    ensures forall i | 0 <= i < |req| :: !(IsRemove(req[i]) && req[i].publickey == key)
  {
    AcceptsEach(t, req, user, perms);
    var a := AddedAt(req, key);
    OwnedUsers(t.users, key);
    OwnedNodes(t.nodes, key);
    assert VerifyOrder(t, req[a], user, perms) == Ok(None);
  }

  lemma {:induction false} AddedAt(req: seq<Order>, key: PublicKey) returns (a: nat)
    requires key in AddedKeys(req)
    ensures a < |req| && IsAdd(req[a]) && req[a].publickey == key
  {
    if IsAdd(req[0]) && req[0].publickey == key {
      a := 0;
    } else {
      a := AddedAt(req[1..], key);
      a := a + 1;
    }
  }

  lemma {:induction false} DistinctCounts(keys: seq<PublicKey>)
    ensures Distinct(keys) <==> forall key :: multiset(keys)[key] <= 1
  {
    if keys != [] {
      assert keys == [keys[0]] + keys[1..];
      DistinctCounts(keys[1..]);
      if Distinct(keys) {
        assert keys[0] !in keys[1..];
        assert forall key :: multiset(keys)[key] <= 1;
      } else if Distinct(keys[1..]) {
        assert keys[0] in keys[1..];
        assert multiset(keys)[keys[0]] >= 2;
      } else {
        var key :| multiset(keys[1..])[key] > 1;
        assert multiset(keys)[key] > 1;
      }
    }
  }

  /** The batch was checked against the tables it was applied to, and adds no key twice. */
  ghost predicate CheckedFresh(reqs: seq<Request>) {
    forall i | 0 <= i < |reqs| :: reqs[i].checkedAt == i && Distinct(AddedKeys(reqs[i].req))
  }

  /** The batch failed as a whole, or was harmless where it was applied. */
  ghost predicate HarmlessAt(t: Tables, req: seq<Order>) {
    ApplyAll(t, req).Ok? ==> Harmless(t, req)
  }

  lemma UniqueStep(states: seq<Tables>, reqs: seq<Request>, i: nat)
    requires History(states, reqs) && i < |reqs| && KeysUnique(states[i])
    ensures KeysUnique(states[i + 1]) <==> HarmlessAt(states[i], reqs[i].req)
  {
    hide KeysUnique, ApplyAll, Harmless, Accepts;
    var r := reqs[i];
    if ApplyAll(states[i], r.req).Ok? {
      UniqueIffHarmless(states[i], states[r.checkedAt], r.req, r.user, r.perms);
    }
  }

  ghost predicate UniqueUpTo(states: seq<Tables>, n: nat)
    requires n < |states|
  {
    forall i | 0 <= i <= n :: KeysUnique(states[i])
  }

  ghost predicate HarmlessUpTo(states: seq<Tables>, reqs: seq<Request>, n: nat)
    requires n <= |reqs| < |states|
  {
    forall i | 0 <= i < n :: HarmlessAt(states[i], reqs[i].req)
  }

  lemma OneMore(states: seq<Tables>, reqs: seq<Request>, n: nat)
    requires n < |reqs| < |states|
    ensures UniqueUpTo(states, n + 1) <==> UniqueUpTo(states, n) && KeysUnique(states[n + 1])
    ensures HarmlessUpTo(states, reqs, n + 1) <==> HarmlessUpTo(states, reqs, n) && HarmlessAt(states[n], reqs[n].req)
    ensures UniqueUpTo(states, n) ==> KeysUnique(states[n])
  {
    hide KeysUnique, HarmlessAt;
  }

  /** Over every history, however stale the checks: keys are unique at all block boundaries
      exactly if they are at the first one and every batch that took effect was harmless. */
  lemma {:induction false} KeysUniqueAlways(states: seq<Tables>, reqs: seq<Request>, n: nat)
    requires History(states, reqs) && n < |states|
    ensures UniqueUpTo(states, n) <==> KeysUnique(states[0]) && HarmlessUpTo(states, reqs, n)
  {
    hide KeysUnique, HarmlessAt;
    assert |states| == |reqs| + 1;
    if n > 0 {
      hide *;
      KeysUniqueAlways(states, reqs, n - 1);
      OneMore(states, reqs, n - 1);
      if UniqueUpTo(states, n - 1) {
        UniqueStep(states, reqs, n - 1);
      }
    }
  }

  /** In particular with fresh checks and no key added twice in one batch. */
  lemma KeysUniqueIfFresh(states: seq<Tables>, reqs: seq<Request>, n: nat)
    requires History(states, reqs) && n < |states|
    requires CheckedFresh(reqs) && KeysUnique(states[0])
    ensures KeysUnique(states[n])
  {
    hide KeysUnique, ApplyAll, Harmless, Accepts, Interpret;
    forall i | 0 <= i < n ensures HarmlessAt(states[i], reqs[i].req) {
      FreshIsHarmless(states[i], reqs[i].req, reqs[i].user, reqs[i].perms);
    }
    KeysUniqueAlways(states, reqs, n);
  }

  /** Genesis itself meets the start of `KeysUniqueAlways` exactly when root user and node differ. */
  lemma GenesisKeysUnique(root: PublicKey, node: PublicKey, master: bytes, conf: bytes)
    ensures KeysUnique(Interpret(EMPTY, Genesis(root, node, master, conf))) <==> root != node
  {
    GenesisTables(root, node, master, conf);
    var t := Interpret(EMPTY, Genesis(root, node, master, conf));
    assert t.users[1..] == [] && t.nodes[1..] == [];
    assert forall key :: CountUsers(t.users, key) == if key == root then 1 else 0;
    assert forall key :: CountNodes(t.nodes, key) == if key == node then 1 else 0;
    assert Owners(t, root) == if root == node then 2 else 1;
  }

  /** Without fresh checks it fails: two requests that each add the same new node, both checked
      at genesis and then applied one after the other, leave a key with two owners. */
  lemma StaleCheckDuplicates(root: PublicKey, node: PublicKey, other: PublicKey, master: bytes, conf: bytes)
    requires other != root && other != node && root != node
    ensures var t := Interpret(EMPTY, Genesis(root, node, master, conf));
            var req := [AddNode([], other)];
            var states := [t, Interpret(t, req), Interpret(Interpret(t, req), req)];
      && History(states, [Request(req, root, [Root], 0), Request(req, root, [Root], 0)])
      && KeysUnique(states[0]) && !KeysUnique(states[2])
  {
    var t := Interpret(EMPTY, Genesis(root, node, master, conf));
    var o := AddNode([], other);
    GenesisTables(root, node, master, conf);
    GenesisKeysUnique(root, node, master, conf);
    OwnedUsers(t.users, other);
    OwnedNodes(t.nodes, other);
    hide Genesis;
    assert VerifyOrder(t, o, root, [Root]) == Ok(None);
    AcceptsEach(t, [o], root, [Root]);
    var t1 := Apply(t, o).value.0;
    var t2 := Apply(t1, o).value.0;
    InterpretSingle(t, o);
    InterpretSingle(t1, o);
    ApplyOwners(t, o, other);
    ApplyOwners(t1, o, other);
    assert Owners(t2, other) >= 2;
  }

  lemma InterpretSingle(t: Tables, o: Order)
    requires Apply(t, o).Ok?
    ensures Interpret(t, [o]) == Apply(t, o).value.0
  {
    hide Apply;
    var t' := Apply(t, o).value.0;
    assert [o][1..] == [] && ApplyAll(t', []) == Ok((t', []));
  }

  // What is accepted, and what each refusal answers

  /** Orders that name an entity which has to exist. */
  predicate IsTouch(o: Order) {
    o.EditUser? || o.EditMasterNode? || o.EditNode? || IsRemove(o) || o.UpdatePublicKey? || o.ChangeNodeConfig?
  }

  /** Orders that give something a name. */
  predicate IsNaming(o: Order) {
    IsAdd(o) || o.EditUser? || o.EditMasterNode? || o.EditNode? || o.SetConfig?
  }

  ghost predicate MasterRow(t: Tables, key: PublicKey) {
    exists n :: n in t.nodes && n.key == key && n.master
  }

  ghost predicate ConfigRowUsed(t: Tables, name: Name) {
    exists n :: n in t.nodes && n.conf == name
  }

  lemma OwnedExactly(t: Tables, key: PublicKey)
    ensures ActiveUser(t, key) || HasNode(t, key) <==> Owners(t, key) > 0
    ensures HasMaster(t, key) <==> MasterRow(t, key)
  {
    OwnedUsers(t.users, key);
    OwnedNodes(t.nodes, key);
    if HasMaster(t, key) {
      var i :| 0 <= i < |t.nodes| && t.nodes[i].key == key && t.nodes[i].master;
      assert t.nodes[i] in t.nodes;
    }
  }

  lemma UsedExactly(t: Tables, name: Name)
    ensures ConfigInUse(t, name) <==> ConfigRowUsed(t, name)
  {
    if ConfigInUse(t, name) {
      var i :| 0 <= i < |t.nodes| && t.nodes[i].conf == name;
      assert t.nodes[i] in t.nodes;
    }
  }

  /** What a user with Root may order, exactly. */
  ghost predicate RootMay(t: Tables, o: Order, user: PublicKey) {
    && (IsAdd(o) ==> Owners(t, o.publickey) == 0)
    && (IsTouch(o) ==> Owners(t, o.publickey) > 0)
    && (IsNaming(o) ==> |o.name| <= 30)
    && (o.AddUser? ==> o.perm != [])
    && (o.ChangeNodeConfig? ==> o.name in t.configs)
    && (o.UpdateVoteWeight? ==> MasterRow(t, o.publickey))
    && (o.UpdatePublicKey? ==> o.publickey == user)
    && !o.RemoveConfig?
  }

  lemma RootOrder(t: Tables, o: Order, user: PublicKey, perms: Permissions)
    requires Root in perms
    ensures VerifyOrder(t, o, user, perms) == Ok(None) <==> RootMay(t, o, user)
  {
    hide Owners;
    if IsAdd(o) || IsTouch(o) || o.UpdateVoteWeight? {
      OwnedExactly(t, o.publickey);
    }
  }

  /** What the check of one order answers, for any permissions: whether its entity is there comes
      first, then the length of a name, then what the user may do. */
  lemma Answers(t: Tables, o: Order, user: PublicKey, perms: Permissions)
    ensures var v := VerifyOrder(t, o, user, perms);
            var root := Root in perms;
            var present := (IsAdd(o) ==> Owners(t, o.publickey) == 0) && (IsTouch(o) ==> Owners(t, o.publickey) > 0);
            var own := o.EditUser? && o.publickey == user && SubsetOf(o.perm, perms);
      && (IsAdd(o) && !present ==> v == Ok(Some(DuplicateEntity)))
      && (IsTouch(o) && !present ==> v == Ok(Some(InvalidEntity)))
      && (o.UpdateVoteWeight? && !MasterRow(t, o.publickey) ==> v == Err(RowNotFound))
      && (o.RemoveConfig? ==> v == if ConfigRowUsed(t, o.name) then Ok(Some(ConfigUsed)) else Err(RowNotFound))
      && (present && IsNaming(o) && |o.name| > 30 ==> v == Ok(Some(LongParameter)))
      && (present && !o.RemoveConfig? && (IsNaming(o) ==> |o.name| <= 30)
          && (o.UpdateVoteWeight? ==> MasterRow(t, o.publickey)) ==>
            && (!root && !own ==> v == Ok(Some(PermissionError)))
            && (!root && own ==> v == Ok(None))
            && (root && o.AddUser? && o.perm == [] ==> v == Ok(Some(NoPermission)))
            && (root && o.UpdatePublicKey? && o.publickey != user ==> v == Ok(Some(PermissionError)))
            && (root && o.ChangeNodeConfig? && o.name !in t.configs ==> v == Err(RowNotFound))
            && (root && RootMay(t, o, user) ==> v == Ok(None)))
  {
    hide Owners;
    if IsAdd(o) || IsTouch(o) || o.UpdateVoteWeight? {
      OwnedExactly(t, o.publickey);
    }
    if o.RemoveConfig? {
      UsedExactly(t, o.name);
    }
  }

  /** A request is answered by its signature, and then by the first order that is not accepted. */
  lemma {:induction false} FirstAnswer(t: Tables, req: seq<Order>, user: PublicKey, perms: Permissions, i: nat)
    requires i < |req| && VerifyOrder(t, req[i], user, perms) != Ok(None)
    requires forall j | 0 <= j < i :: VerifyOrder(t, req[j], user, perms) == Ok(None)
    ensures VerifyReq(t, Ok(true), req, user, perms) == VerifyOrder(t, req[i], user, perms)
    decreases i
  {
    hide VerifyOrder;
    if i > 0 {
      FirstAnswer(t, req[1..], user, perms, i - 1);
    }
  }

  lemma SignatureFirst(t: Tables, signature: Result<bool, Failure>, req: seq<Order>, user: PublicKey,
                       perms: Permissions)
    ensures signature == Ok(false) ==> VerifyReq(t, signature, req, user, perms) == Ok(Some(SignatureError))
    ensures signature.Err? ==> VerifyReq(t, signature, req, user, perms) == Err(signature.error)
    ensures VerifyReq(t, signature, req, user, perms) == Ok(None) <==>
              signature == Ok(true) && forall i | 0 <= i < |req| :: VerifyOrder(t, req[i], user, perms) == Ok(None)
  {
    AcceptsEach(t, req, user, perms);
  }

  // Users without Root

  /** What a user without Root may order: to rename itself and give up permissions. */
  predicate OwnEdit(o: Order, user: PublicKey, perms: Permissions) {
    o.EditUser? && o.publickey == user && |o.name| <= MAX_NAME_LEN && SubsetOf(o.perm, perms)
  }

  lemma NonRootOrder(t: Tables, o: Order, user: PublicKey, perms: Permissions)
    requires Root !in perms
    ensures VerifyOrder(t, o, user, perms) == Ok(None)
       <==> OwnEdit(o, user, perms) && (ActiveUser(t, user) || HasNode(t, user))
  {
  }

  /** Compared with `u`, only name and permissions of the user's own row may differ, and the
      permissions are unchanged or among those the request was checked with. */
  predicate OnlyOwnRow(u: UserRow, u': UserRow, user: PublicKey, perms: Permissions) {
    && u' == u.(name := u'.name, perms := u'.perms)
    && (u.key != user ==> u' == u)
    && (u'.perms == u.perms || SubsetOf(u'.perms, perms))
  }

  lemma {:induction false} NonRootApplies(t: Tables, req: seq<Order>, user: PublicKey, perms: Permissions)
    requires forall i | 0 <= i < |req| :: OwnEdit(req[i], user, perms)
    ensures ApplyAll(t, req).Ok?
    ensures var t' := ApplyAll(t, req).value.0;
      && t'.nodes == t.nodes && t'.configs == t.configs && |t'.users| == |t.users|
      && forall i | 0 <= i < |t.users| :: OnlyOwnRow(t.users[i], t'.users[i], user, perms)
    decreases |req|
  {
    if req != [] {
      var t1 := Apply(t, req[0]).value.0;
      assert forall i | 0 <= i < |t.users| :: OnlyOwnRow(t.users[i], t1.users[i], user, perms);
      hide Apply;
      NonRootApplies(t1, req[1..], user, perms);
    }
  }

  /** A batch from a user without Root is accepted exactly when it consists of edits of the
      user's own entry. It always commits, changes no node, no configuration and no other
      user, and never leaves the user with a permission beyond the stored or checked ones. */
  lemma NonRootBatch(t: Tables, req: seq<Order>, user: PublicKey, perms: Permissions)
    requires Root !in perms
    ensures Accepts(t, req, user, perms)
       <==>
       && (forall i | 0 <= i < |req| :: OwnEdit(req[i], user, perms))
       && (req == [] || ActiveUser(t, user) || HasNode(t, user))
    ensures Accepts(t, req, user, perms) ==>
      var t' := Interpret(t, req);
      && ApplyAll(t, req).Ok?
      && t'.nodes == t.nodes && t'.configs == t.configs && |t'.users| == |t.users|
      && forall i | 0 <= i < |t.users| :: OnlyOwnRow(t.users[i], t'.users[i], user, perms)
  {
    hide VerifyOrder;
    hide OwnEdit;
    hide ApplyAll;
    AcceptsEach(t, req, user, perms);
    forall i | 0 <= i < |req|
      ensures VerifyOrder(t, req[i], user, perms) == Ok(None)
         <==> OwnEdit(req[i], user, perms) && (ActiveUser(t, user) || HasNode(t, user))
    {
      NonRootOrder(t, req[i], user, perms);
    }
    if req != [] {
      assert Accepts(t, req, user, perms) ==> VerifyOrder(t, req[0], user, perms) == Ok(None);
    }
    if Accepts(t, req, user, perms) {
      NonRootApplies(t, req, user, perms);
    }
  }
}
