/** What interpreting orders leaves in the tables, row by row: each field holds what was last
    written to it. */
module OrderEffects {
  import opened Wrappers
  import opened Bytes
  import opened Orders
  import opened OrderSafety

  /** The last value that `writes` finds in the orders, or `before` if there is none. */
  function Last<T>(os: seq<Order>, writes: Order -> Option<T>, before: T): T {
    if os == [] then before
    else
      match writes(os[|os| - 1])
      case Some(x) => x
      case None => Last(os[..|os| - 1], writes, before)
  }

  /** It is the value of some order, behind which none writes. */
  lemma {:induction false} LastIsLast<T>(os: seq<Order>, writes: Order -> Option<T>, before: T)
    ensures || (Last(os, writes, before) == before && forall i | 0 <= i < |os| :: writes(os[i]).None?)
            || exists i :: 0 <= i < |os| && writes(os[i]) == Some(Last(os, writes, before))
                           && forall j | i < j < |os| :: writes(os[j]).None?
    decreases |os|
  {
    if os != [] {
      var n := |os| - 1;
      if writes(os[n]).Some? {
        assert writes(os[n]) == Some(Last(os, writes, before));
      } else {
        LastIsLast(os[..n], writes, before);
        if !(forall i | 0 <= i < n :: writes(os[..n][i]).None?) || Last(os[..n], writes, before) != before {
          var i :| 0 <= i < n && writes(os[..n][i]) == Some(Last(os[..n], writes, before))
                   && forall j | i < j < n :: writes(os[..n][j]).None?;
          assert writes(os[i]) == Some(Last(os, writes, before));
          assert forall j | i < j < |os| :: j < n ==> os[j] == os[..n][j];
        } else {
          assert forall i | 0 <= i < |os| :: i < n ==> os[i] == os[..n][i];
        }
      }
    }
  }

  lemma {:induction false} LastAfterFirst<T>(os: seq<Order>, writes: Order -> Option<T>, before: T)
    requires os != []
    ensures Last(os, writes, before) ==
            Last(os[1..], writes, match writes(os[0]) case Some(x) => x case None => before)
    decreases |os|
  {
    var n := |os| - 1;
    if n > 0 {
      assert os[1..][|os[1..]| - 1] == os[n] && os[1..][..n - 1] == os[..n][1..];
      LastAfterFirst(os[..n], writes, before);
    } else {
      assert os[..0] == [] && os[1..] == [];
    }
  }

  lemma LastThen<T>(o: Order, os: seq<Order>, writes: Order -> Option<T>, before: T)
    ensures Last([o], writes, before) == match writes(o) case Some(x) => x case None => before
    ensures Last([o] + os, writes, before) == Last(os, writes, Last([o], writes, before))
    ensures Last([], writes, before) == before
  {
    assert [o][..0] == [] && ([o] + os)[1..] == os;
    LastAfterFirst([o] + os, writes, before);
  }

  // Users

  function NameOfUser(key: PublicKey): Order -> Option<Name> {
    (o: Order) => if o.EditUser? && o.publickey == key then Some(o.name) else None
  }

  function PermsOfUser(key: PublicKey): Order -> Option<Permissions> {
    (o: Order) => if o.EditUser? && o.publickey == key then Some(o.perm) else None
  }

  predicate Deactivated(key: PublicKey, os: seq<Order>) {
    exists i :: 0 <= i < |os| && os[i] == RemoveUser(key)
  }

  /** A user row after some orders: the name and permissions of the last edit of its key, and
      active unless its key was removed. */
  function UserAfter(u: UserRow, os: seq<Order>): UserRow {
    UserRow(u.id, Last(os, NameOfUser(u.key), u.name), u.key, Last(os, PermsOfUser(u.key), u.perms),
            u.active && !Deactivated(u.key, os))
  }

  function UsersAfter(us: seq<UserRow>, os: seq<Order>): (r: seq<UserRow>)
    ensures |r| == |us| && forall i | 0 <= i < |us| :: r[i] == UserAfter(us[i], os)
  {
    seq(|us|, i requires 0 <= i < |us| => UserAfter(us[i], os))
  }

  /** The row that the order adds. */
  function BornUser(t: Tables, o: Order): seq<UserRow> {
    if o.AddUser? then [UserRow(NextUserId(t.users), o.name, o.publickey, o.perm, true)] else []
  }

  // Nodes

  function NameOfNode(key: PublicKey, master: bool): Order -> Option<Name> {
    (o: Order) =>
      if (o.EditNode? || (o.EditMasterNode? && master)) && o.publickey == key then Some(o.name) else None
  }

  function ConfOfNode(key: PublicKey): Order -> Option<Name> {
    (o: Order) => if o.ChangeNodeConfig? && o.publickey == key then Some(o.name) else None
  }

  function WeightOfNode(key: PublicKey, master: bool): Order -> Option<Option<nat>> {
    (o: Order) => if o.UpdateVoteWeight? && master && o.publickey == key then Some(Some(o.weight)) else None
  }

  predicate Removed(key: PublicKey, os: seq<Order>) {
    exists i :: 0 <= i < |os| && (os[i] == RemoveNode(key) || os[i] == RemoveMasterNode(key))
  }

  /** A node row after some orders that do not remove its key: the name of the last edit that
      applies to its role, the last configuration, and for a master the last weight. */
  function NodeAfter(n: NodeRow, os: seq<Order>): NodeRow {
    NodeRow(n.id, Last(os, NameOfNode(n.key, n.master), n.name), n.key, n.master,
            Last(os, ConfOfNode(n.key), n.conf), Last(os, WeightOfNode(n.key, n.master), n.weight))
  }

  /** The rows whose keys are not removed, in order. */
  function NodesAfter(ns: seq<NodeRow>, os: seq<Order>): seq<NodeRow> {
    if ns == [] then []
    else (if Removed(ns[0].key, os) then [] else [NodeAfter(ns[0], os)]) + NodesAfter(ns[1..], os)
  }

  function BornNode(t: Tables, o: Order): seq<NodeRow> {
    match o
    case AddMasterNode(name, key) => [NodeRow(NextNodeId(t.nodes), name, key, true, DEFAULT_CONFIG, Some(1))]
    case AddNode(name, key) => [NodeRow(NextNodeId(t.nodes), name, key, false, DEFAULT_CONFIG, None)]
    case _ => []
  }

  // Configurations

  /** Setting a configuration writes its values, removing it writes that there are none. */
  function ValueOfConfig(name: Name): Order -> Option<Option<ConfigRow>> {
    (o: Order) =>
      if o.SetConfig? && o.name == name then Some(Some(ConfigRow(o.master, o.node)))
      else if o.RemoveConfig? && o.name == name then Some(None)
      else None
  }

  function ConfigOf(t: Tables, name: Name): Option<ConfigRow> {
    if name in t.configs then Some(t.configs[name]) else None
  }

  // All rows that are added, as they are at the end

  function UsersAdded(t: Tables, os: seq<Order>): seq<UserRow>
    decreases |os|
  {
    if os == [] || Apply(t, os[0]).Err? then []
    else UsersAfter(BornUser(t, os[0]), os[1..]) + UsersAdded(Apply(t, os[0]).value.0, os[1..])
  }

  function NodesAdded(t: Tables, os: seq<Order>): seq<NodeRow>
    decreases |os|
  {
    if os == [] || Apply(t, os[0]).Err? then []
    else NodesAfter(BornNode(t, os[0]), os[1..]) + NodesAdded(Apply(t, os[0]).value.0, os[1..])
  }

  // One order

  lemma OneUser(u: UserRow, o: Order, os: seq<Order>)
    ensures UserAfter(u, [o] + os) == UserAfter(UserAfter(u, [o]), os)
    ensures UserAfter(u, [o]) ==
            match o
            case EditUser(name, key, perm) => if key == u.key then u.(name := name, perms := perm) else u
            case RemoveUser(key) => if key == u.key then u.(active := false) else u
            case _ => u
    ensures UserAfter(u, []) == u
  {
    hide Last, Deactivated;
    LastThen(o, os, NameOfUser(u.key), u.name);
    LastThen(o, os, PermsOfUser(u.key), u.perms);
    DeactivatedThen(u.key, o, os);
  }

  lemma DeactivatedThen(key: PublicKey, o: Order, os: seq<Order>)
    ensures Deactivated(key, [o]) <==> o == RemoveUser(key)
    ensures Deactivated(key, [o] + os) <==> Deactivated(key, [o]) || Deactivated(key, os)
    ensures !Deactivated(key, [])
  {
    var all := [o] + os;
    assert [o][0] == o && all[0] == o;
    assert forall i | 0 <= i < |os| :: os[i] == all[i + 1];
    assert forall i | 1 <= i < |all| :: all[i] == os[i - 1];
  }

  lemma RemovedThen(key: PublicKey, o: Order, os: seq<Order>)
    ensures Removed(key, [o]) <==> o == RemoveNode(key) || o == RemoveMasterNode(key)
    ensures Removed(key, [o] + os) <==> Removed(key, [o]) || Removed(key, os)
    ensures !Removed(key, [])
  {
    var all := [o] + os;
    assert [o][0] == o && all[0] == o;
    assert forall i | 0 <= i < |os| :: os[i] == all[i + 1];
    assert forall i | 1 <= i < |all| :: all[i] == os[i - 1];
  }

  lemma OneNode(n: NodeRow, o: Order, os: seq<Order>)
    ensures NodeAfter(n, [o] + os) == NodeAfter(NodeAfter(n, [o]), os)
    ensures Removed(n.key, [o] + os) <==> Removed(n.key, [o]) || Removed(n.key, os)
    ensures NodeAfter(n, [o]) ==
            match o
            case EditMasterNode(name, key) => if key == n.key && n.master then n.(name := name) else n
            case EditNode(name, key) => if key == n.key then n.(name := name) else n
            case UpdateVoteWeight(key, weight) => if key == n.key && n.master then n.(weight := Some(weight)) else n
            case ChangeNodeConfig(key, name) => if key == n.key then n.(conf := name) else n
            case _ => n
    ensures Removed(n.key, [o]) <==> o == RemoveNode(n.key) || o == RemoveMasterNode(n.key)
    ensures NodeAfter(n, []) == n && !Removed(n.key, [])
  {
    hide Last, Removed;
    LastThen(o, os, NameOfNode(n.key, n.master), n.name);
    LastThen(o, os, ConfOfNode(n.key), n.conf);
    LastThen(o, os, WeightOfNode(n.key, n.master), n.weight);
    RemovedThen(n.key, o, os);
  }

  lemma {:induction false} NodesSplit(a: seq<NodeRow>, b: seq<NodeRow>, os: seq<Order>)
    ensures NodesAfter(a + b, os) == NodesAfter(a, os) + NodesAfter(b, os)
  {
    hide NodeAfter, Removed;
    if a == [] {
      assert a + b == b;
    } else {
      assert (a + b)[0] == a[0] && (a + b)[1..] == a[1..] + b;
      NodesSplit(a[1..], b, os);
    }
  }

  lemma {:induction false} NodesThen(ns: seq<NodeRow>, o: Order, os: seq<Order>)
    ensures NodesAfter(ns, [o] + os) == NodesAfter(NodesAfter(ns, [o]), os)
    ensures NodesAfter(ns, []) == ns
  {
    hide NodeAfter, Removed;
    if ns != [] {
      OneNode(ns[0], o, os);
      NodesThen(ns[1..], o, os);
      var kept := if Removed(ns[0].key, [o]) then [] else [NodeAfter(ns[0], [o])];
      NodesSplit(kept, NodesAfter(ns[1..], [o]), os);
      KeyStays(ns[0], [o]);
      if kept != [] {
        assert kept[1..] == [];
        assert NodesAfter(kept[1..], os) == [];
      }
      assert ns == [ns[0]] + ns[1..];
    }
  }

  lemma KeyStays(n: NodeRow, os: seq<Order>)
    ensures NodeAfter(n, os).key == n.key && NodeAfter(n, os).master == n.master
  {
  }

  lemma {:induction false} NodesOne(ns: seq<NodeRow>, o: Order)
    ensures (o.RemoveNode? || o.RemoveMasterNode?) ==> NodesAfter(ns, [o]) == DeleteNodes(ns, o.publickey)
    ensures !(o.RemoveNode? || o.RemoveMasterNode?) ==>
              && |NodesAfter(ns, [o])| == |ns|
              && forall i | 0 <= i < |ns| :: NodesAfter(ns, [o])[i] == NodeAfter(ns[i], [o])
  {
    hide NodeAfter, Removed;
    if ns != [] {
      OneNode(ns[0], o, []);
      NodesOne(ns[1..], o);
      assert forall i | 1 <= i < |ns| :: ns[i] == ns[1..][i - 1];
    }
  }

  /** One order writes what it names, and leaves everything else. */
  lemma ApplyWrites(t: Tables, o: Order)
    ensures Apply(t, o).Err? <==> o.UpdatePublicKey?
    ensures Apply(t, o).Ok? ==>
      var t' := Apply(t, o).value.0;
      && t'.users == UsersAfter(t.users, [o]) + BornUser(t, o)
      && t'.nodes == NodesAfter(t.nodes, [o]) + BornNode(t, o)
      && forall name :: ConfigOf(t', name) == Last([o], ValueOfConfig(name), ConfigOf(t, name))
  {
    hide UserAfter, NodeAfter, Removed, NodesAfter, DeleteNodes;
    if Apply(t, o).Ok? {
      var t' := Apply(t, o).value.0;
      forall i | 0 <= i < |t.users|
        ensures t'.users[i] == UserAfter(t.users[i], [o])
      {
        OneUser(t.users[i], o, []);
      }
      assert t'.users == UsersAfter(t.users, [o]) + BornUser(t, o);
      NodesOne(t.nodes, o);
      forall i | 0 <= i < |t.nodes|
        ensures o.RemoveNode? || o.RemoveMasterNode? || t'.nodes[i] == NodeAfter(t.nodes[i], [o])
      {
        OneNode(t.nodes[i], o, []);
      }
      assert t'.nodes == NodesAfter(t.nodes, [o]) + BornNode(t, o);
      forall name ensures ConfigOf(t', name) == Last([o], ValueOfConfig(name), ConfigOf(t, name)) {
        assert [o][..0] == [];
      }
    }
  }

  lemma UsersThen(us: seq<UserRow>, o: Order, os: seq<Order>)
    ensures UsersAfter(UsersAfter(us, [o]), os) == UsersAfter(us, [o] + os)
    ensures UsersAfter(us, []) == us
  {
    hide UserAfter;
    forall i | 0 <= i < |us|
      ensures UserAfter(UserAfter(us[i], [o]), os) == UserAfter(us[i], [o] + os) && UserAfter(us[i], []) == us[i]
    {
      OneUser(us[i], o, os);
    }
  }

  /** The last-writer law. Orders that none fails leave: of each user row the name and permissions
      last written to its key, active unless its key was removed; of each node row, unless its key
      was removed, the name, configuration and weight last written; of each configuration the
      values last set, unless it was removed behind that; and the same of every row added on the
      way, counting from there. */
  lemma {:induction false} LastWriter(t: Tables, os: seq<Order>)
    ensures ApplyAll(t, os).Ok? <==> forall o | o in os :: !o.UpdatePublicKey?
    ensures ApplyAll(t, os).Ok? ==>
      var t' := ApplyAll(t, os).value.0;
      && t'.users == UsersAfter(t.users, os) + UsersAdded(t, os)
      && t'.nodes == NodesAfter(t.nodes, os) + NodesAdded(t, os)
      && forall name :: ConfigOf(t', name) == Last(os, ValueOfConfig(name), ConfigOf(t, name))
    decreases |os|
  {
    hide UserAfter, NodeAfter, Removed, NodesAfter, Apply, BornUser, BornNode, ConfigOf, UsersAfter, ValueOfConfig;
    if os == [] {
      UsersThen(t.users, RemoveUser(PublicKey([])), []);
      NodesThen(t.nodes, RemoveUser(PublicKey([])), []);
    } else {
      var o, rest := os[0], os[1..];
      assert os == [o] + rest;
      ApplyWrites(t, o);
      if Apply(t, o).Ok? {
        var t1 := Apply(t, o).value.0;
        LastWriter(t1, rest);
        UsersSplit(UsersAfter(t.users, [o]), BornUser(t, o), rest);
        UsersThen(t.users, o, rest);
        NodesSplit(NodesAfter(t.nodes, [o]), BornNode(t, o), rest);
        NodesThen(t.nodes, o, rest);
        forall name
          ensures Last(os, ValueOfConfig(name), ConfigOf(t, name)) ==
                  Last(rest, ValueOfConfig(name), ConfigOf(t1, name))
        {
          LastAfterFirst(os, ValueOfConfig(name), ConfigOf(t, name));
          LastAfterFirst([o], ValueOfConfig(name), ConfigOf(t, name));
          assert [o][1..] == [];
        }
      }
    }
  }

  lemma UsersSplit(a: seq<UserRow>, b: seq<UserRow>, os: seq<Order>)
    ensures UsersAfter(a + b, os) == UsersAfter(a, os) + UsersAfter(b, os)
  {
    hide UserAfter;
  }

  /** What a block reports to running nodes: a change of the list of masters for each order that
      adds, edits or removes one, each configuration set, with its values, and each node that gets
      another configuration; one note for each order, in order. */
  lemma {:induction false} Reports(t: Tables, os: seq<Order>)
    requires ApplyAll(t, os).Ok?
    ensures var updates := ApplyAll(t, os).value.1;
      && |updates| == |os|
      && forall i | 0 <= i < |os| ::
           && (updates[i].MasterNodeListUpdate? <==>
                 os[i].AddMasterNode? || os[i].EditMasterNode? || os[i].RemoveMasterNode?)
           && (updates[i].ConfigUpdate? <==> os[i].SetConfig?)
           && (os[i].SetConfig? ==> updates[i] == ConfigUpdate(os[i].name, os[i].master, os[i].node))
           && (updates[i].NodeConfigChange? <==> os[i].ChangeNodeConfig?)
           && (os[i].ChangeNodeConfig? ==> updates[i] == NodeConfigChange(os[i].publickey, os[i].name))
    decreases |os|
  {
    if os != [] {
      var (t1, u) := Apply(t, os[0]).value;
      Reports(t1, os[1..]);
      assert forall i | 1 <= i < |os| :: os[i] == os[1..][i - 1];
    }
  }

  // Over blocks

  /** The orders of the blocks that commit: one that changes a public key fails its whole block. */
  function Committing(blocks: seq<seq<Order>>): seq<Order> {
    if blocks == [] then []
    else (if exists o :: o in blocks[0] && o.UpdatePublicKey? then [] else blocks[0]) + Committing(blocks[1..])
  }

  function InterpretAll(t: Tables, blocks: seq<seq<Order>>): Tables
    decreases |blocks|
  {
    if blocks == [] then t else InterpretAll(Interpret(t, blocks[0]), blocks[1..])
  }

  /** Interpreting blocks is applying the orders of those that commit, so that `LastWriter` holds
      over any number of blocks. */
  lemma {:induction false} BlocksAreOrders(t: Tables, blocks: seq<seq<Order>>)
    ensures ApplyAll(t, Committing(blocks)).Ok?
    ensures InterpretAll(t, blocks) == ApplyAll(t, Committing(blocks)).value.0
    decreases |blocks|
  {
    hide Apply, UsersAfter, UsersAdded, NodesAfter, NodesAdded, ConfigOf, Last;
    if blocks != [] {
      var rest := Committing(blocks[1..]);
      LastWriter(t, blocks[0]);
      BlocksAreOrders(Interpret(t, blocks[0]), blocks[1..]);
      if ApplyAll(t, blocks[0]).Ok? {
        ApplyAllAppend(t, blocks[0], rest);
      } else {
        assert [] + rest == rest;
      }
    }
  }
}
