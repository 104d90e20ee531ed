/** `NodeManager` (cudet/nodes.py:232-557): the table of managed nodes,
    keyed by ip, filled from the fuel master's own entry and from the
    inventory records, then configured again and given the `once_...`
    sections. Inventory discovery, the release lookups and the reading of
    the request files happen before and are taken as inputs. */
module Manager {
  import opened Values
  import opened Resolver
  import opened ResolverFrame
  import opened Once
  import opened Records
  import opened Nodes
  import Filter

  // ---------------------------------------------------------------------
  // The table `self.nodes`.

  /** `self.nodes`: its keys in iteration order and, position by position,
      the attributes of the node stored under each. */
  datatype Table = Table(keys: seq<Value>, states: States)

  predicate Distinct<T(==)>(s: seq<T>) {
    forall i, j :: 0 <= i < j < |s| ==> s[i] != s[j]
  }

  predicate WFTable(t: Table) {
    |t.keys| == |t.states| && Distinct(t.keys) && AllGood(t.states)
  }

  /** The position of `key` among `keys`, or `|keys|` when it is absent. */
  function Position(keys: seq<Value>, key: Value): (r: nat)
    ensures r <= |keys|
    ensures r < |keys| ==> keys[r] == key
    ensures forall j :: 0 <= j < r ==> keys[j] != key
  {
    if keys == [] then 0
    else if keys[0] == key then 0
    else 1 + Position(keys[1..], key)
  }

  /** `self.nodes.get(key)`: the attributes stored under `key`. */
  function Lookup(t: Table, key: Value): (r: Option<map<string, Value>>)
    requires |t.keys| == |t.states|
    ensures r.Some? <==> key in t.keys
  {
    var p := Position(t.keys, key);
    if p < |t.keys| then Some(t.states[p]) else None
  }

  /** `self.nodes[key] = node`: a key already present keeps its place and
      now holds the new node; a new key goes last. */
  function Put(t: Table, key: Value, a: map<string, Value>): (r: Table)
    requires WFTable(t) && GoodAttrs(a)
    ensures WFTable(r)
    ensures |r.keys| == if key in t.keys then |t.keys| else |t.keys| + 1
    ensures forall j :: 0 <= j < |t.keys| ==> r.keys[j] == t.keys[j]
    ensures forall j :: 0 <= j < |t.keys| && t.keys[j] != key ==> r.states[j] == t.states[j]
  {
    var p := Position(t.keys, key);
    if p < |t.keys| then Table(t.keys, t.states[p := a])
    else
      assert forall j :: 0 <= j < |t.keys| ==> t.keys[j] != key;
      Table(t.keys + [key], t.states + [a])
  }

  /** After the assignment the key maps to the new node and every other key
      to what it mapped to before. */
  lemma PutLookup(t: Table, key: Value, a: map<string, Value>, other: Value)
    requires WFTable(t) && GoodAttrs(a)
    ensures Lookup(Put(t, key, a), key) == Some(a)
    ensures other != key ==> Lookup(Put(t, key, a), other) == Lookup(t, other)
  {
    if Position(t.keys, key) < |t.keys| {
      PutLookupPresent(t, key, a, other);
    } else {
      PutLookupAbsent(t, key, a, other);
    }
  }

  lemma PutLookupPresent(t: Table, key: Value, a: map<string, Value>, other: Value)
    requires WFTable(t) && GoodAttrs(a) && Position(t.keys, key) < |t.keys|
    ensures Lookup(Put(t, key, a), key) == Some(a)
    ensures other != key ==> Lookup(Put(t, key, a), other) == Lookup(t, other)
  {
    var p := Position(t.keys, key);
    PutPresent(t, key, a);
    var q := Position(t.keys, other);
    if other != key && q < |t.keys| {
      assert t.keys[q] != t.keys[p];
    }
  }

  lemma PutLookupAbsent(t: Table, key: Value, a: map<string, Value>, other: Value)
    requires WFTable(t) && GoodAttrs(a) && Position(t.keys, key) == |t.keys|
    ensures Lookup(Put(t, key, a), key) == Some(a)
    ensures other != key ==> Lookup(Put(t, key, a), other) == Lookup(t, other)
  {
    PutAbsent(t, key, a);
    var ks := t.keys + [key];
    PositionOf(ks, key, |t.keys|);
    if other != key {
      var q := Position(t.keys, other);
      if q < |t.keys| {
        PositionOf(ks, other, q);
      } else {
        PositionOf(ks, other, |ks|);
      }
    }
  }

  /** Storing under a key already present replaces its node in place. */
  lemma PutPresent(t: Table, key: Value, a: map<string, Value>)
    requires WFTable(t) && GoodAttrs(a) && Position(t.keys, key) < |t.keys|
    ensures Put(t, key, a) == Table(t.keys, t.states[Position(t.keys, key) := a])
  {
  }

  /** Storing under a new key appends it. */
  lemma PutAbsent(t: Table, key: Value, a: map<string, Value>)
    requires WFTable(t) && GoodAttrs(a) && Position(t.keys, key) == |t.keys|
    ensures Put(t, key, a) == Table(t.keys + [key], t.states + [a])
  {
  }

  lemma DistinctUpdate<T>(s: seq<T>, p: nat, x: T)
    requires Distinct(s) && p < |s| && x !in s
    ensures Distinct(s[p := x])
  {
  }

  lemma DistinctAppend<T>(s: seq<T>, x: T)
    requires Distinct(s) && x !in s
    ensures Distinct(s + [x])
  {
  }

  /** Positions are determined by the keys before them. */
  lemma {:induction false} PositionOf(keys: seq<Value>, key: Value, q: nat)
    requires q <= |keys| && (q < |keys| ==> keys[q] == key)
    requires forall j :: 0 <= j < q ==> keys[j] != key
    ensures Position(keys, key) == q
    decreases q
  {
    if q > 0 {
      assert keys[0] != key;
      PositionOf(keys[1..], key, q - 1);
    }
  }

  // ---------------------------------------------------------------------
  // Filling the table (lines 329-348 and 479-516).

  /** One node to store: its key and its attributes. */
  datatype Slot = Slot(key: Value, attrs: map<string, Value>)

  /** A node's attributes once `Node.__init__` has resolved the document. */
  function NodeAttrs(p: NodeParams, conf: Value): (a: map<string, Value>)
    requires WFLevel(conf)
    ensures GoodAttrs(a) && "ip" in a
  {
    var a0 := InitialAttrs(Int(p.id), p.name, p.fqdn, p.mac, p.cluster, p.release, p.roles,
                           p.osPlatform, p.online, p.status, p.ip);
    assert "ip" in a0;
    Resolve(a0, conf, true)
  }

  /** `node = Node(**params); self.nodes[node.ip] = node` for one record: the
      key is the ip the node has after the document is applied; a key that
      is not hashable makes the assignment raise. */
  function NodeOf(rec: Value, releaseMap: Value, conf: Value): (r: Result<Slot>)
    requires rec.Dict? && WFLevel(conf)
    ensures r.Ok? <==> RecordToParams(rec, releaseMap).Ok?
                       && Hashable(NodeAttrs(RecordToParams(rec, releaseMap).value, conf)["ip"])
    ensures r.Ok? ==> r.value.attrs == NodeAttrs(RecordToParams(rec, releaseMap).value, conf)
                      && r.value.key == r.value.attrs["ip"]
  {
    var p := RecordToParams(rec, releaseMap);
    if p.Err? then Err(p.error)
    else
      var a := NodeAttrs(p.value, conf);
      if !Hashable(a["ip"]) then Err(TypeError("unhashable"))
      else Ok(Slot(a["ip"], a))
  }

  /** A table and how its filling ended. */
  datatype Loaded = Loaded(table: Table, st: Status)

  /** The loop of lines 486-516 over the filtered records. */
  function InsertRecords(t: Table, recs: seq<Value>, releaseMap: Value, conf: Value): (r: Loaded)
    requires WFTable(t) && Filter.AllRecords(recs) && WFLevel(conf)
    ensures WFTable(r.table)
    decreases |recs|
  {
    if recs == [] then Loaded(t, Success)
    else
      assert recs[0].Dict?;
      var s := NodeOf(recs[0], releaseMap, conf);
      if s.Err? then Loaded(t, Failure(s.error))
      else
        assert Filter.AllRecords(recs[1..]) by {
          forall i | 0 <= i < |recs| - 1 ensures recs[1..][i].Dict? {
            assert recs[1..][i] == recs[i + 1];
          }
        }
        InsertRecords(Put(t, s.value.key, s.value.attrs), recs[1..], releaseMap, conf)
  }

  /** `_nodes_init` (lines 479-516) on inventory `nodesJson`, with the
      release of each cluster looked up in `releaseMap`. */
  function LoadNodes(t: Table, filters: Value, nodesJson: seq<Value>, releaseMap: Value,
                     conf: Value): (r: Loaded)
    requires WFTable(t) && filters.Dict? && Filter.AllRecords(nodesJson) && WFLevel(conf)
    ensures WFTable(r.table)
    ensures Filter.PrepareFilterAttrs(filters).Err? ==>
              r == Loaded(t, Failure(Filter.PrepareFilterAttrs(filters).error))
    ensures var attrs := Filter.PrepareFilterAttrs(filters);
              attrs.Ok? && |nodesJson| > 0
              && (forall i :: 0 <= i < |nodesJson| ==> !Filter.AcceptsAll(filters, nodesJson[i], attrs.value))
              && !Filter.SelectRaises(nodesJson, filters, attrs.value)
              ==> r == Loaded(t, Failure(AllNodesFiltered))
    ensures var attrs := Filter.PrepareFilterAttrs(filters);
              attrs.Ok? && Filter.SelectRaises(nodesJson, filters, attrs.value) ==>
                r == Loaded(t, Failure(TypeError("unhashable")))
  {
    var attrs := Filter.PrepareFilterAttrs(filters);
    if attrs.Err? then Loaded(t, Failure(attrs.error))
    else if Filter.SelectRaises(nodesJson, filters, attrs.value) then Loaded(t, Failure(TypeError("unhashable")))
    else
      Filter.AllFilteredIff(filters, nodesJson);
      var filtered := Filter.Select(nodesJson, filters, attrs.value);
      var check := Filter.CheckFiltrationResults(|nodesJson|, filtered);
      if check.Failure? then Loaded(t, check)
      else InsertRecords(t, filtered, releaseMap, conf)
  }

  /** The fuel master's own node (lines 336-347): id and cluster 0, and
      the ip `conf.fuel_ip`. */
  function FuelAttrs(fuelIp: Value, release: Value, conf: Value): (a: map<string, Value>)
    requires WFLevel(conf)
    ensures GoodAttrs(a)
  {
    Resolve(InitialAttrs(Int(0), Str("fuel"), Str("n/a"), Str("n/a"), Int(0), release,
                         List([Str("fuel")]), Str("centos"), Bool(true), Str("ready"), fuelIp),
            conf, true)
  }

  /** `_fuel_node_init`: a falsy `fuel_ip` ends the program with status 7;
      otherwise the node goes under the key `fuel_ip`. */
  function AddFuel(t: Table, release: Value, conf: Value): (r: Loaded)
    requires WFTable(t) && WFLevel(conf)
    ensures WFTable(r.table)
    ensures r.st.Failure? ==> r.table == t
    ensures HasKey(conf, Str("fuel_ip")) && !Truthy(Get(conf, Str("fuel_ip"))) ==> r.st == Failure(Exit(7))
    ensures r.st.Success? <==>
              HasKey(conf, Str("fuel_ip")) && Truthy(Get(conf, Str("fuel_ip")))
              && Hashable(Get(conf, Str("fuel_ip")))
    ensures r.st.Success? ==>
              var ip := Get(conf, Str("fuel_ip"));
              Lookup(r.table, ip) == Some(FuelAttrs(ip, release, conf))
              && (forall k :: k != ip ==> Lookup(r.table, k) == Lookup(t, k))
  {
    if !HasKey(conf, Str("fuel_ip")) then Loaded(t, Failure(AttributeError("fuel_ip")))
    else
      var ip := Get(conf, Str("fuel_ip"));
      if !Truthy(ip) then Loaded(t, Failure(Exit(7)))
      else if !Hashable(ip) then Loaded(t, Failure(TypeError("unhashable")))
      else
        var a := FuelAttrs(ip, release, conf);
        PutLookup(t, ip, a, ip);
        assert forall k :: k != ip ==> Lookup(Put(t, ip, a), k) == Lookup(t, k) by {
          forall k | k != ip ensures Lookup(Put(t, ip, a), k) == Lookup(t, k) {
            PutLookup(t, ip, a, k);
          }
        }
        Loaded(Put(t, ip, a), Success)
  }

  /** `nodes_reapply_conf` (lines 555-557): every node resolves the
      document again with a clean pass. */
  function ReapplyAll(states: States, conf: Value): (r: States)
    requires AllGood(states) && WFLevel(conf)
    ensures |r| == |states| && AllGood(r)
  {
    seq(|states|, j requires 0 <= j < |states| => Resolve(states[j], conf, true))
  }

  /** The table `NodeManager.__init__` (lines 268-277) fills: the master's
      node when the filters ask for it, then the inventory's nodes. */
  function Fill(conf: Value, filters: Value, nodesJson: seq<Value>, releaseMap: Value,
                fuelRelease: Value): (r: Loaded)
    requires WFLevel(conf) && filters.Dict? && Filter.AllRecords(nodesJson)
    ensures WFTable(r.table)
  {
    var t0 := Table([], []);
    var l1 := if Truthy(Filter.RecordGet(filters, Filter.CheckMaster)) then AddFuel(t0, fuelRelease, conf)
              else Loaded(t0, Success);
    if l1.st.Failure? then l1
    else LoadNodes(l1.table, filters, nodesJson, releaseMap, conf)
  }

  /** What `NodeManager.__init__` (lines 235-280) makes of the table once
      the inventory is known: the filled table, a second clean pass of the
      document over every node, and the `once_...` sections. */
  function Start(conf: Value, filters: Value, nodesJson: seq<Value>, releaseMap: Value,
                 fuelRelease: Value): (r: Loaded)
    requires WFLevel(conf) && WFOnce(conf) && filters.Dict? && Filter.AllRecords(nodesJson)
    ensures WFTable(r.table)
  {
    var l := Fill(conf, filters, nodesJson, releaseMap, fuelRelease);
    if l.st.Failure? then l
    else Loaded(Table(l.table.keys, AssignOnce(ReapplyAll(l.table.states, conf), conf).states), Success)
  }

  /** The attributes of each node of `ns`, in order. */
  ghost function AttrsOf(ns: seq<Node>): (r: States)
    reads ns
    ensures |r| == |ns| && forall j :: 0 <= j < |ns| ==> r[j] == ns[j].attrs
  {
    if ns == [] then [] else [ns[0].attrs] + AttrsOf(ns[1..])
  }

  /** The attributes are `s` when every node's attributes are. */
  lemma AttrsOfIs(ns: seq<Node>, s: States)
    requires |s| == |ns| && forall i :: 0 <= i < |ns| ==> ns[i].attrs == s[i]
    ensures AttrsOf(ns) == s
  {
  }

  /** The attributes when only the `j`-th node may differ from `s`. */
  lemma AttrsOfFrom(ns: seq<Node>, s: States, j: nat)
    requires |s| == |ns| && j < |ns|
    requires forall i :: 0 <= i < |ns| && i != j ==> ns[i].attrs == s[i]
    ensures AttrsOf(ns) == s[j := ns[j].attrs]
  {
  }

  /** The first `j` entries of `cur` are those of `goal`, the rest those of
      `s0`: a loop over the nodes that has done its first `j` turns. */
  predicate Partly(cur: States, s0: States, goal: States, j: nat) {
    |cur| == |s0| == |goal| && j <= |cur|
    && (forall i :: 0 <= i < j ==> cur[i] == goal[i])
    && (forall i :: j <= i < |cur| ==> cur[i] == s0[i])
  }

  lemma PartlyStep(cur: States, s0: States, goal: States, j: nat)
    requires Partly(cur, s0, goal, j) && j < |cur|
    ensures cur[j] == s0[j] && Partly(cur[j := goal[j]], s0, goal, j + 1)
  {
  }

  lemma PartlyDone(cur: States, s0: States, goal: States)
    requires Partly(cur, s0, goal, |cur|)
    ensures cur == goal
  {
  }

  // ---------------------------------------------------------------------
  // The class.

  class NodeManager {
    /** The configuration document every node resolves. */
    const conf: Value
    /** `self.nodes`: its keys, in iteration order, and the node under each. */
    var keys: seq<Value>
    var nodes: seq<Node>

    /** The nodes in the table. */
    ghost var Repr: set<Node>

    ghost predicate Valid()
      reads this, Repr
    {
      WFLevel(conf) && WFOnce(conf)
      && (forall j :: 0 <= j < |nodes| ==> nodes[j] in Repr)
      && |keys| == |nodes| && Distinct(keys) && Distinct(nodes)
      && forall j :: 0 <= j < |nodes| ==> nodes[j].Valid()
    }

    /** The table as values. */
    ghost function Contents(): (t: Table)
      reads this, nodes
      ensures |keys| == |nodes| && Distinct(keys) && (forall j :: 0 <= j < |nodes| ==> nodes[j].Valid())
              ==> WFTable(t)
    {
      Table(keys, AttrsOf(nodes))
    }

    /** An empty table over the document `conf`. */
    constructor (conf: Value)
      requires WFLevel(conf) && WFOnce(conf)
      ensures Valid() && this.conf == conf && keys == [] && nodes == [] && Repr == {}
    {
      this.conf := conf;
      keys := [];
      nodes := [];
      Repr := {};
    }

    /** `self.nodes[key] = node` for a node not yet in the table: a key that
        cannot be hashed makes the assignment raise. */
    method Store(key: Value, node: Node) returns (st: Status)
      requires Valid() && node.Valid() && node !in Repr
      modifies this
      ensures Valid()
      ensures !Hashable(key) ==>
                st == Failure(TypeError("unhashable")) && Contents() == old(Contents()) && Repr == old(Repr)
      ensures Hashable(key) ==>
                st == Success && Contents() == Put(old(Contents()), key, node.attrs) && Repr == old(Repr) + {node}
    {
      if !Hashable(key) {
        return Failure(TypeError("unhashable"));
      }
      if Position(keys, key) < |keys| {
        Replace(key, node);
      } else {
        Append(key, node);
      }
      st := Success;
    }

    /** The assignment for a key already in the table: the new node takes
        the old one's place. */
    method Replace(key: Value, node: Node)
      requires Valid() && node.Valid() && node !in Repr && Position(keys, key) < |keys|
      modifies this
      ensures Valid()
      ensures Contents() == Put(old(Contents()), key, node.attrs)
      ensures Repr == old(Repr) + {node}
    {
      ghost var t := Contents();
      assert WFTable(t);
      var p := Position(keys, key);
      assert node !in nodes;
      PutPresent(t, key, node.attrs);
      DistinctUpdate(nodes, p, node);
      nodes, Repr := nodes[p := node], Repr + {node};
      AttrsOfFrom(nodes, t.states, p);
    }

    /** The assignment for a new key: it goes last. */
    method Append(key: Value, node: Node)
      requires Valid() && node.Valid() && node !in Repr && Position(keys, key) == |keys|
      modifies this
      ensures Valid()
      ensures Contents() == Put(old(Contents()), key, node.attrs)
      ensures Repr == old(Repr) + {node}
    {
      ghost var t := Contents();
      assert WFTable(t);
      assert node !in nodes;
      PutAbsent(t, key, node.attrs);
      DistinctAppend(nodes, node);
      DistinctAppend(keys, key);
      keys, nodes, Repr := keys + [key], nodes + [node], Repr + {node};
      assert forall i :: 0 <= i < |nodes| ==> nodes[i].attrs == (t.states + [node.attrs])[i];
      AttrsOfIs(nodes, t.states + [node.attrs]);
    }

    /** `_fuel_node_init` (lines 329-348), with the master's release given. */
    method FuelNodeInit(release: Value) returns (st: Status)
      requires Valid()
      modifies this
      ensures Valid()
      ensures var l := AddFuel(old(Contents()), release, conf);
        st == l.st && Contents() == l.table
      ensures forall n :: n in Repr ==> n in old(Repr) || fresh(n)
    {
      ghost var t := Contents();
      assert WFTable(t);
      if !HasKey(conf, Str("fuel_ip")) {
        return Failure(AttributeError("fuel_ip"));
      }
      var ip := Get(conf, Str("fuel_ip"));
      if !Truthy(ip) {
        return Failure(Exit(7));
      }
      st := StoreFuel(ip, release);
      if st.Success? {
        assert AddFuel(t, release, conf) == Loaded(Put(t, ip, FuelAttrs(ip, release, conf)), Success);
      }
    }

    /** Lines 336-347: the master's node, stored under `ip`. */
    method StoreFuel(ip: Value, release: Value) returns (st: Status)
      requires Valid()
      modifies this
      ensures Valid()
      ensures forall n :: n in Repr ==> n in old(Repr) || fresh(n)
      ensures !Hashable(ip) ==> st == Failure(TypeError("unhashable")) && Contents() == old(Contents())
      ensures Hashable(ip) ==>
                st == Success && Contents() == Put(old(Contents()), ip, FuelAttrs(ip, release, conf))
    {
      var node := new Node(Int(0), Str("fuel"), Str("n/a"), Str("n/a"), Int(0), release,
                           List([Str("fuel")]), Str("centos"), Bool(true), Str("ready"), ip, conf);
      st := Store(ip, node);
    }
  
    /** `_nodes_init` (lines 479-516) on the inventory `nodesJson`, with the
        filters and the cluster releases given. */
    method NodesInit(filters: Value, nodesJson: seq<Value>, releaseMap: Value) returns (st: Status)
      requires Valid() && filters.Dict? && Filter.AllRecords(nodesJson)
      modifies this
      ensures Valid()
      ensures forall n :: n in Repr ==> n in old(Repr) || fresh(n)
      ensures var l := LoadNodes(old(Contents()), filters, nodesJson, releaseMap, conf);
        st == l.st && Contents() == l.table
    {
      assert WFTable(Contents());
      var filtered := Filter.FilterNodes(filters, nodesJson);
      if filtered.Err? {
        return Failure(filtered.error);
      }
      st := Filter.CheckFiltrationResults(|nodesJson|, filtered.value);
      if st.Failure? {
        return st;
      }
      st := StoreRecords(filtered.value, releaseMap);
    }

    /** `for node_data in filtered_nodes` (lines 486-516). */
    method StoreRecords(recs: seq<Value>, releaseMap: Value) returns (st: Status)
      requires Valid() && Filter.AllRecords(recs)
      modifies this
      ensures Valid()
      ensures forall n :: n in Repr ==> n in old(Repr) || fresh(n)
      ensures var l := InsertRecords(old(Contents()), recs, releaseMap, conf);
        st == l.st && Contents() == l.table
    {
      ghost var goal := InsertRecords(Contents(), recs, releaseMap, conf);
      assert recs[0..] == recs;
      var i := 0;
      while i < |recs|
        invariant 0 <= i <= |recs| && Valid()
        invariant forall n :: n in Repr ==> n in old(Repr) || fresh(n)
        invariant Filter.AllRecords(recs[i..])
        invariant InsertRecords(Contents(), recs[i..], releaseMap, conf) == goal
      {
        st := AddRecordAt(recs, i, releaseMap);
        if st.Failure? {
          return;
        }
        i := i + 1;
      }
      assert recs[i..] == [];
      st := Success;
    }

    /** The `i`-th turn of the record loop. */
    method AddRecordAt(recs: seq<Value>, i: nat, releaseMap: Value) returns (st: Status)
      requires Valid() && Filter.AllRecords(recs) && i < |recs|
      modifies this
      ensures Valid()
      ensures forall n :: n in Repr ==> n in old(Repr) || fresh(n)
      ensures Filter.AllRecords(recs[i..]) && Filter.AllRecords(recs[i + 1..])
      ensures st.Failure? ==> Contents() == old(Contents())
      ensures InsertRecords(old(Contents()), recs[i..], releaseMap, conf)
              == if st.Failure? then Loaded(old(Contents()), st)
                 else InsertRecords(Contents(), recs[i + 1..], releaseMap, conf)
    {
      InsertStep(Contents(), recs, i, releaseMap, conf);
      st := AddRecord(recs[i], releaseMap);
    }

    /** One record: build its node and store it under the node's ip. */
    method AddRecord(rec: Value, releaseMap: Value) returns (st: Status)
      requires Valid() && rec.Dict?
      modifies this
      ensures Valid()
      ensures forall n :: n in Repr ==> n in old(Repr) || fresh(n)
      ensures var s := NodeOf(rec, releaseMap, conf);
        (s.Err? ==> st == Failure(s.error) && Contents() == old(Contents()))
        && (s.Ok? ==> st == Success && Contents() == Put(old(Contents()), s.value.key, s.value.attrs))
    {
      var p := RecordToParams(rec, releaseMap);
      if p.Err? {
        return Failure(p.error);
      }
      st := AddNode(p.value);
    }

    /** `node = Node(**params); self.nodes[node.ip] = node`. */
    method AddNode(prm: NodeParams) returns (st: Status)
      requires Valid()
      modifies this
      ensures Valid()
      ensures forall n :: n in Repr ==> n in old(Repr) || fresh(n)
      ensures var a := NodeAttrs(prm, conf);
        (!Hashable(a["ip"]) ==> st == Failure(TypeError("unhashable")) && Contents() == old(Contents()))
        && (Hashable(a["ip"]) ==> st == Success && Contents() == Put(old(Contents()), a["ip"], a))
    {
      var node := new Node(Int(prm.id), prm.name, prm.fqdn, prm.mac, prm.cluster, prm.release,
                           prm.roles, prm.osPlatform, prm.online, prm.status, prm.ip, conf);
      st := Store(node.attrs["ip"], node);
    }

    /** The part of `__init__` (lines 268-280) that fills and configures
        the table, with the filters, the inventory and the releases given. */
    method Setup(filters: Value, nodesJson: seq<Value>, releaseMap: Value, fuelRelease: Value)
      returns (st: Status)
      requires Valid() && keys == [] && nodes == [] && filters.Dict? && Filter.AllRecords(nodesJson)
      modifies this, Repr
      ensures Valid()
      ensures var l := Start(conf, filters, nodesJson, releaseMap, fuelRelease);
        st == l.st && Contents() == l.table
    {
      st := FillTable(filters, nodesJson, releaseMap, fuelRelease);
      if st.Failure? {
        return;
      }
      ConfigureAll();
    }

    /** Lines 268-277: the master's node, then the inventory's. */
    method FillTable(filters: Value, nodesJson: seq<Value>, releaseMap: Value, fuelRelease: Value)
      returns (st: Status)
      requires Valid() && keys == [] && nodes == [] && filters.Dict? && Filter.AllRecords(nodesJson)
      modifies this
      ensures Valid()
      ensures forall n :: n in Repr ==> n in old(Repr) || fresh(n)
      ensures var l := Fill(conf, filters, nodesJson, releaseMap, fuelRelease);
        st == l.st && Contents() == l.table
    {
      var t0 := Table([], []);
      assert Contents() == t0;
      ghost var l1 := Loaded(t0, Success);
      if Truthy(Filter.RecordGet(filters, Filter.CheckMaster)) {
        st := FuelNodeInit(fuelRelease);
        l1 := AddFuel(t0, fuelRelease, conf);
        if st.Failure? {
          assert Fill(conf, filters, nodesJson, releaseMap, fuelRelease) == l1;
          return;
        }
      }
      assert Contents() == l1.table && l1.st == Success;
      st := NodesInit(filters, nodesJson, releaseMap);
      assert Fill(conf, filters, nodesJson, releaseMap, fuelRelease)
             == LoadNodes(l1.table, filters, nodesJson, releaseMap, conf);
    }

    /** Lines 279-280: the second clean pass, then the `once_...`
        sections. */
    method ConfigureAll()
      requires Valid()
      modifies Repr
      ensures Valid()
      ensures AttrsOf(nodes) == AssignOnce(ReapplyAll(old(AttrsOf(nodes)), conf), conf).states
    {
      ghost var s1 := AttrsOf(nodes);
      NodesReapplyConf();
      ConfAssignOnce();
      assert old(AttrsOf(nodes)) == s1;
    }

    /** `nodes_reapply_conf` (lines 555-557). */
    method NodesReapplyConf()
      requires Valid()
      modifies Repr
      ensures Valid()
      ensures AttrsOf(nodes) == ReapplyAll(old(AttrsOf(nodes)), conf)
    {
      ghost var s0 := AttrsOf(nodes);
      ghost var goal := ReapplyAll(s0, conf);
      ghost var cur := s0;
      var j := 0;
      while j < |nodes|
        invariant 0 <= j <= |nodes| && Valid()
        invariant AttrsOf(nodes) == cur && Partly(cur, s0, goal, j)
      {
        assert nodes[j].attrs == s0[j];
        ApplyAt(j, conf, true);
        PartlyStep(cur, s0, goal, j);
        cur := cur[j := goal[j]];
        j := j + 1;
      }
      PartlyDone(cur, s0, goal);
    }

    /** `nodes[j].apply_conf(doc, clean)`: one node changes, the others
        stay as they were. */
    method ApplyAt(j: nat, doc: Value, clean: bool)
      requires Valid() && j < |nodes| && WFLevel(doc)
      modifies nodes[j]
      ensures Valid()
      ensures nodes[j].attrs == Resolve(old(nodes[j].attrs), doc, clean)
      ensures AttrsOf(nodes) == old(AttrsOf(nodes))[j := nodes[j].attrs]
    {
      ghost var s := AttrsOf(nodes);
      var node := nodes[j];
      node.ApplyConf(doc, clean);
      assert node.attrs == Resolve(s[j], doc, clean);
      assert forall i :: 0 <= i < |nodes| && i != j ==> nodes[i].attrs == s[i];
      AttrsOfFrom(nodes, s, j);
      assert Valid();
    }

    /** `_conf_assign_once` (lines 535-553). */
    method ConfAssignOnce()
      requires Valid()
      modifies Repr
      ensures Valid()
      ensures AttrsOf(nodes) == AssignOnce(old(AttrsOf(nodes)), conf).states
    {
      var ks := OnceKeys(conf);
      ghost var goal := AssignFrom(AttrsOf(nodes), conf, ks);
      assert ks[0..] == ks;
      var i := 0;
      while i < |ks|
        invariant 0 <= i <= |ks| && Valid()
        invariant AssignFrom(AttrsOf(nodes), conf, ks[i..]).states == goal.states
      {
        AssignSectionAt(ks, i);
        i := i + 1;
      }
      assert ks[i..] == [];
    }

    /** The `i`-th turn of the section loop. */
    method AssignSectionAt(ks: seq<string>, i: nat)
      requires Valid() && ks == OnceKeys(conf) && i < |ks|
      modifies Repr
      ensures Valid()
      ensures AssignFrom(old(AttrsOf(nodes)), conf, ks[i..]).states
              == AssignFrom(AttrsOf(nodes), conf, ks[i + 1..]).states
    {
      assert ks[i..][0] == ks[i] && ks[i..][1..] == ks[i + 1..];
      AssignFromUnfold(AttrsOf(nodes), conf, ks[i..]);
      var sec := Get(conf, Str(ks[i]));
      ClaimSection(ks[i], sec, Candidates(sec));
    }

    /** `for ak in assigned` for one section `k`. */
    method ClaimSection(k: string, sec: Value, aks: seq<Value>)
      requires Valid() && WFSection(sec) && forall ak :: ak in aks ==> HasKey(sec, ak)
      modifies Repr
      ensures Valid()
      ensures AttrsOf(nodes) == ClaimEach(old(AttrsOf(nodes)), k, sec, aks).states
    {
      ghost var goal := ClaimEach(AttrsOf(nodes), k, sec, aks);
      var t := 0;
      while t < |aks|
        invariant 0 <= t <= |aks| && Valid()
        invariant ClaimEach(AttrsOf(nodes), k, sec, aks[t..]).states == goal.states
      {
        assert aks[t..][0] == aks[t] && aks[t..][1..] == aks[t + 1..];
        assert aks[t] in aks;
        BranchOf(sec, aks[t]);
        var claimant := OfferValue(OnceAttr(k), aks[t], Get(sec, aks[t]));
        t := t + 1;
      }
    }

    /** `for node in self.nodes.values()` for one candidate value `ak`: the
        first holders get `sub`, until one of them has a truthy id. The
        result is what `assigned[ak]` ends as. */
    method OfferValue(name: string, ak: Value, sub: Value) returns (claimant: Value)
      requires Valid() && WFLevel(sub)
      modifies Repr
      ensures Valid()
      ensures AttrsOf(nodes) == ClaimFrom(old(AttrsOf(nodes)), name, ak, sub, 0).states
    {
      assert WFTable(Contents());
      ghost var goal := ClaimFrom(AttrsOf(nodes), name, ak, sub, 0).states;
      claimant := Null;
      var j := 0;
      while j < |nodes|
        invariant 0 <= j <= |nodes| && Valid() && AllGood(AttrsOf(nodes))
        invariant ClaimFrom(AttrsOf(nodes), name, ak, sub, j).states == goal
      {
        ghost var pre := AttrsOf(nodes);
        ClaimStep(pre, name, ak, sub, j);
        claimant := OfferAt(j, name, ak, sub);
        assert WFTable(Contents());
        if Truthy(claimant) {
          break;
        }
        j := j + 1;
      }
      ClaimEnd(AttrsOf(nodes), name, ak, sub, j);
    }

    /** One turn of the node loop: a node that holds `ak` resolves `sub`
        and reports its id. */
    method OfferAt(j: nat, name: string, ak: Value, sub: Value) returns (claimant: Value)
      requires Valid() && WFLevel(sub) && j < |nodes|
      modifies nodes[j]
      ensures Valid()
      ensures var a := old(nodes[j].attrs);
        if Holds(a, name, ak) then
          AttrsOf(nodes) == old(AttrsOf(nodes))[j := Resolve(a, sub, false)]
          && claimant == Resolve(a, sub, false)["id"]
        else
          AttrsOf(nodes) == old(AttrsOf(nodes)) && claimant == Null
    {
      var node := nodes[j];
      claimant := Null;
      if name in node.attrs {
        var found := Contains(WList(node.attrs[name]), ak);
        if found {
          ApplyAt(j, sub, false);
          claimant := node.attrs["id"];
        }
      }
    }
  }

  /** `for v in attr: if v == ak` (lines 546-547): whether `ak` is among
      the values. */
  method Contains(vals: seq<Value>, ak: Value) returns (found: bool)
    ensures found <==> ak in vals
  {
    found := false;
    var t := 0;
    while t < |vals| && !found
      invariant 0 <= t <= |vals|
      invariant found <==> ak in vals[..t]
    {
      assert vals[..t + 1] == vals[..t] + [vals[t]];
      if vals[t] == ak {
        found := true;
      }
      t := t + 1;
    }
    if !found {
      assert vals[..t] == vals;
    }
  }

  /** One turn of the node loop of the once-assigner. */
  lemma ClaimStep(states: States, name: string, ak: Value, sub: Value, j: nat)
    requires AllGood(states) && WFLevel(sub) && j < |states|
    ensures Holds(states[j], name, ak) ==>
      var a := Resolve(states[j], sub, false);
      ClaimFrom(states, name, ak, sub, j).states
      == if Truthy(a["id"]) then states[j := a] else ClaimFrom(states[j := a], name, ak, sub, j + 1).states
    ensures !Holds(states[j], name, ak) ==>
      ClaimFrom(states, name, ak, sub, j).states == ClaimFrom(states, name, ak, sub, j + 1).states
  {
  }

  lemma ClaimEnd(states: States, name: string, ak: Value, sub: Value, j: nat)
    requires AllGood(states) && WFLevel(sub)
    ensures j >= |states| ==> ClaimFrom(states, name, ak, sub, j).states == states
  {
  }

  /** One turn of the record loop. */
  lemma InsertStep(t: Table, recs: seq<Value>, i: nat, releaseMap: Value, conf: Value)
    requires WFTable(t) && Filter.AllRecords(recs) && WFLevel(conf) && i < |recs|
    ensures recs[i].Dict? && Filter.AllRecords(recs[i..]) && Filter.AllRecords(recs[i + 1..])
    ensures var s := NodeOf(recs[i], releaseMap, conf);
      InsertRecords(t, recs[i..], releaseMap, conf)
      == if s.Err? then Loaded(t, Failure(s.error))
         else InsertRecords(Put(t, s.value.key, s.value.attrs), recs[i + 1..], releaseMap, conf)
  {
    assert recs[i..][0] == recs[i] && recs[i..][1..] == recs[i + 1..];
    var from := recs[i..];
    forall j | 0 <= j < |from| ensures from[j].Dict? {
      assert from[j] == recs[i + j];
    }
    var rest := recs[i + 1..];
    forall j | 0 <= j < |rest| ensures rest[j].Dict? {
      assert rest[j] == recs[i + 1 + j];
    }
  }
}
