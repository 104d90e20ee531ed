/** `NodeFilter` (cudet/nodes.py:572-624) and the empty-result check
    `NodeManager._check_filtration_results` (cudet/nodes.py:518-533): narrow
    the raw inventory records to the hosts a run touches. The filters are a
    dict from record attribute to accepted values. */
module Filter {
  import opened Values

  const CheckMaster: Value := Str("check_master")
  const Online: Value := Str("online")

  /** Every inventory record is a dict (a JSON object). */
  predicate AllRecords(nodes: seq<Value>) {
    forall i :: 0 <= i < |nodes| ==> nodes[i].Dict?
  }

  /** `record.get(attr)`: the record's value, or None. */
  function RecordGet(rec: Value, attr: Value): (r: Value)
    requires rec.Dict?
    ensures HasKey(rec, attr) ==> r == Get(rec, attr)
    ensures !HasKey(rec, attr) ==> r == Null
  {
    if HasKey(rec, attr) then Get(rec, attr) else Null
  }

  /** `_to_set` (lines 615-618): a string or a value that is not iterable
      becomes a one-element set; a list gives its elements and a dict its
      keys. */
  function ToSet(v: Value): (r: set<Value>)
    ensures (v.Str? || !(v.List? || v.Dict?)) ==> r == {v}
    ensures v.List? ==> forall x :: x in r <==> x in v.items
    ensures v.Dict? ==> forall x :: x in r <==> HasKey(v, x)
  {
    match v
    case List(items) => set x | x in items
    case Dict(_) =>
      forall x ensures x in Keys(v) <==> HasKey(v, x) {
        InKeysIffHasKey(v, x);
      }
      set x | x in Keys(v)
    case _ => {v}
  }

  /** `_to_set` raises TypeError when `set(data)` meets an element that
      cannot be hashed: a list or a dict inside a list. A dict's own keys
      are always hashable. */
  predicate ToSetRaises(v: Value) {
    v.List? && exists x :: x in v.items && !Hashable(x)
  }

  /** `len(v) > 0`; a value without a length raises TypeError. */
  function NonEmpty(v: Value): (r: Result<bool>)
    ensures r.Err? <==> !(v.Str? || v.List? || v.Dict?)
    ensures r.Ok? ==> (r.value <==> Truthy(v))
  {
    match v
    case Str(s) => Ok(|s| > 0)
    case List(items) => Ok(|items| > 0)
    case Dict(entries) => Ok(|entries| > 0)
    case _ => Err(TypeError("object has no len()"))
  }

  /** The first comprehension of `_prepare_filter_attrs` (lines 600-601). */
  function PlainAttrs(ks: seq<Value>): (r: seq<Value>)
    ensures forall a :: a in r <==> a in ks && a != CheckMaster && a != Online
  {
    if ks == [] then []
    else (if ks[0] != CheckMaster && ks[0] != Online then [ks[0]] else []) + PlainAttrs(ks[1..])
  }

  /** The second comprehension (lines 603-604): keep the attributes whose
      accepted values are non-empty. */
  function NonEmptyAttrs(filters: Value, ks: seq<Value>): (r: Result<seq<Value>>)
    requires forall k :: k in ks ==> HasKey(filters, k)
    ensures r.Err? <==> exists k :: k in ks && NonEmpty(Get(filters, k)).Err?
    ensures r.Ok? ==> forall a :: a in r.value <==> a in ks && Truthy(Get(filters, a))
  {
    if ks == [] then Ok([])
    else
      assert forall k :: k in ks[1..] ==> k in ks;
      var head := NonEmpty(Get(filters, ks[0]));
      var rest := NonEmptyAttrs(filters, ks[1..]);
      if head.Err? then Err(head.error)
      else if rest.Err? then Err(rest.error)
      else Ok((if head.value then [ks[0]] else []) + rest.value)
  }

  /** `_prepare_filter_attrs` (lines 599-606). */
  function PrepareFilterAttrs(filters: Value): (r: Result<seq<Value>>)
    requires filters.Dict?
    ensures r.Ok? ==> forall a :: a in r.value ==> HasKey(filters, a)
  {
    var ks := PlainAttrs(Keys(filters));
    forall k | k in ks ensures HasKey(filters, k) {
      InKeysIffHasKey(filters, k);
    }
    NonEmptyAttrs(filters, ks)
  }

  /** The attributes `filter_nodes` narrows by: every key of the filters
      other than `check_master` and `online` whose value is non-empty. */
  lemma FilterAttrsAre(filters: Value)
    requires filters.Dict? && PrepareFilterAttrs(filters).Ok?
    ensures forall a :: a in PrepareFilterAttrs(filters).value <==>
              HasKey(filters, a) && a != CheckMaster && a != Online && Truthy(Get(filters, a))
  {
    forall a ensures a in Keys(filters) <==> HasKey(filters, a) {
      InKeysIffHasKey(filters, a);
    }
  }

  /** A record passes the narrowing by `attr` (line 621-623): its value and
      the accepted values share an element. */
  predicate Accepts(filters: Value, rec: Value, attr: Value)
    requires rec.Dict? && HasKey(filters, attr)
  {
    ToSet(RecordGet(rec, attr)) * ToSet(Get(filters, attr)) != {}
  }

  /** The narrowing by `attr` raises at record `rec` (lines 621-623): the
      record's value or the accepted values cannot be made a set. */
  predicate RaisesAt(filters: Value, rec: Value, attr: Value)
    requires rec.Dict? && HasKey(filters, attr)
  {
    ToSetRaises(RecordGet(rec, attr)) || ToSetRaises(Get(filters, attr))
  }

  /** Some record of `nodes` makes the narrowing by `attr` raise. */
  predicate RaisesIn(nodes: seq<Value>, filters: Value, attr: Value)
    requires AllRecords(nodes) && HasKey(filters, attr)
  {
    exists n :: n in nodes && n.Dict? && RaisesAt(filters, n, attr)
  }

  /** `_do_filter` (lines 611-624) when no record raises. */
  function DoFilter(nodes: seq<Value>, filters: Value, attr: Value): (r: seq<Value>)
    requires AllRecords(nodes) && HasKey(filters, attr)
    ensures AllRecords(r) && |r| <= |nodes|
  {
    if nodes == [] then []
    else (if Accepts(filters, nodes[0], attr) then [nodes[0]] else []) + DoFilter(nodes[1..], filters, attr)
  }

  /** `_online_filter` (lines 608-609): the records whose `online` is true. */
  function OnlineFilter(nodes: seq<Value>): (r: seq<Value>)
    requires AllRecords(nodes)
    ensures |r| <= |nodes|
    ensures forall n :: n in r <==> n in nodes && Truthy(RecordGet(n, Online))
  {
    if nodes == [] then []
    else (if Truthy(RecordGet(nodes[0], Online)) then [nodes[0]] else []) + OnlineFilter(nodes[1..])
  }

  /** The reference definition: the records, in order, that pass the
      narrowing by every attribute of `attrs`. */
  predicate AcceptsAll(filters: Value, rec: Value, attrs: seq<Value>)
    requires rec.Dict? && forall a :: a in attrs ==> HasKey(filters, a)
  {
    forall a :: a in attrs ==> Accepts(filters, rec, a)
  }

  function Select(nodes: seq<Value>, filters: Value, attrs: seq<Value>): (r: seq<Value>)
    requires AllRecords(nodes) && forall a :: a in attrs ==> HasKey(filters, a)
    ensures AllRecords(r) && |r| <= |nodes|
  {
    if nodes == [] then []
    else (if AcceptsAll(filters, nodes[0], attrs) then [nodes[0]] else []) + Select(nodes[1..], filters, attrs)
  }

  /** `Select` keeps a record exactly when it passes every attribute. */
  lemma {:induction false} SelectMembers(nodes: seq<Value>, filters: Value, attrs: seq<Value>)
    requires AllRecords(nodes) && forall a :: a in attrs ==> HasKey(filters, a)
    ensures forall n :: n in Select(nodes, filters, attrs) <==> n in nodes && AcceptsAll(filters, n, attrs)
  {
    if nodes != [] {
      SelectMembers(nodes[1..], filters, attrs);
      assert forall n :: n in nodes <==> n == nodes[0] || n in nodes[1..];
    }
  }

  /** Narrowing by one more attribute is selecting by all of them. */
  lemma {:induction false} NarrowStep(nodes: seq<Value>, filters: Value, attrs: seq<Value>, a: Value)
    requires AllRecords(nodes) && HasKey(filters, a) && forall x :: x in attrs ==> HasKey(filters, x)
    ensures DoFilter(Select(nodes, filters, attrs), filters, a) == Select(nodes, filters, attrs + [a])
  {
    if nodes != [] {
      var n := nodes[0];
      var rest := Select(nodes[1..], filters, attrs);
      NarrowStep(nodes[1..], filters, attrs, a);
      assert AcceptsAll(filters, n, attrs + [a]) <==> AcceptsAll(filters, n, attrs) && Accepts(filters, n, a) by {
        assert forall x :: x in attrs + [a] <==> x in attrs || x == a;
      }
      if AcceptsAll(filters, n, attrs) {
        var sel := Select(nodes, filters, attrs);
        assert sel == [n] + rest;
        assert sel[0] == n && sel[1..] == rest;
      } else {
        assert Select(nodes, filters, attrs) == rest;
      }
    }
  }

  /** The narrowing by one of the first `i` attributes raises: some record
      that passed the attributes before `attrs[j]` raises at `attrs[j]`. */
  predicate RaisesBefore(nodes: seq<Value>, filters: Value, attrs: seq<Value>, i: nat)
    requires AllRecords(nodes) && i <= |attrs| && forall a :: a in attrs ==> HasKey(filters, a)
  {
    exists j :: 0 <= j < i && RaisesIn(Select(nodes, filters, attrs[..j]), filters, attrs[j])
  }

  /** The whole narrowing loop raises. */
  predicate SelectRaises(nodes: seq<Value>, filters: Value, attrs: seq<Value>)
    requires AllRecords(nodes) && forall a :: a in attrs ==> HasKey(filters, a)
  {
    RaisesBefore(nodes, filters, attrs, |attrs|)
  }

  lemma RaisesBeforeStep(nodes: seq<Value>, filters: Value, attrs: seq<Value>, i: nat)
    requires AllRecords(nodes) && i < |attrs| && forall a :: a in attrs ==> HasKey(filters, a)
    ensures attrs[i] in attrs
    ensures RaisesBefore(nodes, filters, attrs, i + 1) <==>
      RaisesBefore(nodes, filters, attrs, i) || RaisesIn(Select(nodes, filters, attrs[..i]), filters, attrs[i])
  {
    assert attrs[i] in attrs;
  }

  lemma RaisesBeforeAll(nodes: seq<Value>, filters: Value, attrs: seq<Value>, i: nat)
    requires AllRecords(nodes) && i <= |attrs| && forall a :: a in attrs ==> HasKey(filters, a)
    requires RaisesBefore(nodes, filters, attrs, i)
    ensures SelectRaises(nodes, filters, attrs)
  {
    var j :| 0 <= j < i && RaisesIn(Select(nodes, filters, attrs[..j]), filters, attrs[j]);
  }

  /** One attribute's narrowing raises exactly when some inventory record
      passes the attributes `pre` before it and raises at it. */
  lemma RaisesInSelect(nodes: seq<Value>, filters: Value, pre: seq<Value>, a: Value)
    requires AllRecords(nodes) && HasKey(filters, a) && forall x :: x in pre ==> HasKey(filters, x)
    ensures RaisesIn(Select(nodes, filters, pre), filters, a) <==>
      exists n :: n in nodes && n.Dict? && AcceptsAll(filters, n, pre) && RaisesAt(filters, n, a)
  {
    SelectMembers(nodes, filters, pre);
  }

  /** The narrowing raises exactly when some inventory record passes the
      attributes before some `attrs[i]` and its value or the accepted values
      of `attrs[i]` cannot be made a set. */
  lemma SelectRaisesIff(nodes: seq<Value>, filters: Value, attrs: seq<Value>)
    requires AllRecords(nodes) && forall a :: a in attrs ==> HasKey(filters, a)
    ensures SelectRaises(nodes, filters, attrs) <==>
      exists i, n :: 0 <= i < |attrs| && n in nodes && n.Dict?
        && AcceptsAll(filters, n, attrs[..i]) && RaisesAt(filters, n, attrs[i])
  {
    forall i | 0 <= i < |attrs|
      ensures RaisesIn(Select(nodes, filters, attrs[..i]), filters, attrs[i]) <==>
        exists n :: n in nodes && n.Dict? && AcceptsAll(filters, n, attrs[..i]) && RaisesAt(filters, n, attrs[i])
    {
      assert attrs[i] in attrs;
      RaisesInSelect(nodes, filters, attrs[..i], attrs[i]);
    }
  }

  lemma NarrowPrefix(nodes: seq<Value>, filters: Value, attrs: seq<Value>, i: nat)
    requires AllRecords(nodes) && i < |attrs| && forall x :: x in attrs ==> HasKey(filters, x)
    ensures HasKey(filters, attrs[i])
    ensures DoFilter(Select(nodes, filters, attrs[..i]), filters, attrs[i])
            == Select(nodes, filters, attrs[..i + 1])
  {
    assert attrs[i] in attrs;
    assert attrs[..i + 1] == attrs[..i] + [attrs[i]];
    NarrowStep(nodes, filters, attrs[..i], attrs[i]);
  }

  lemma SelectNone(nodes: seq<Value>, filters: Value)
    requires AllRecords(nodes)
    ensures Select(nodes, filters, []) == nodes
  {
    if nodes != [] {
      SelectNone(nodes[1..], filters);
    }
  }

  /** `filter_nodes` (lines 588-597): narrow by each prepared attribute in
      turn; the online narrowing is computed and its result dropped. */
  method FilterNodes(filters: Value, nodesInfo: seq<Value>) returns (r: Result<seq<Value>>)
    requires filters.Dict? && AllRecords(nodesInfo)
    ensures var p := PrepareFilterAttrs(filters);
      r.Err? <==> p.Err? || SelectRaises(nodesInfo, filters, p.value)
    ensures var p := PrepareFilterAttrs(filters);
      r.Err? ==> r.error == if p.Err? then p.error else TypeError("unhashable")
    ensures r.Ok? ==> r.value == Select(nodesInfo, filters, PrepareFilterAttrs(filters).value)
  {
    var filtered := nodesInfo;
    var prepared := PrepareFilterAttrs(filters);
    if prepared.Err? {
      return Err(prepared.error);
    }
    var attrs := prepared.value;
    SelectNone(nodesInfo, filters);
    var i := 0;
    while i < |attrs|
      invariant 0 <= i <= |attrs|
      invariant AllRecords(filtered)
      invariant filtered == Select(nodesInfo, filters, attrs[..i])
      invariant !RaisesBefore(nodesInfo, filters, attrs, i)
    {
      NarrowPrefix(nodesInfo, filters, attrs, i);
      RaisesBeforeStep(nodesInfo, filters, attrs, i);
      if exists n :: n in filtered && n.Dict? && RaisesAt(filters, n, attrs[i]) {
        RaisesBeforeAll(nodesInfo, filters, attrs, i + 1);
        return Err(TypeError("unhashable"));
      }
      filtered := DoFilter(filtered, filters, attrs[i]);
      i := i + 1;
    }
    assert attrs[..i] == attrs;
    var online := OnlineFilter(filtered);
    r := Ok(filtered);
  }

  /** The records `filter_nodes` returns are exactly the inventory records
      that, for every non-empty filter attribute other than `check_master`
      and `online`, share a value with the accepted values; whether a record
      is online plays no part. */
  lemma FilterKeepsExactlyMatching(filters: Value, nodesInfo: seq<Value>, rec: Value)
    requires filters.Dict? && AllRecords(nodesInfo) && PrepareFilterAttrs(filters).Ok?
    ensures var attrs := PrepareFilterAttrs(filters).value;
      rec in Select(nodesInfo, filters, attrs) <==>
        rec in nodesInfo && rec.Dict?
        && forall a :: HasKey(filters, a) && a != CheckMaster && a != Online && Truthy(Get(filters, a)) ==>
             ToSet(RecordGet(rec, a)) * ToSet(Get(filters, a)) != {}
  {
    FilterAttrsAre(filters);
    SelectMembers(nodesInfo, filters, PrepareFilterAttrs(filters).value);
  }

  // ---------------------------------------------------------------------
  // The `online` entry of the filters has no effect.

  /** The filters with the entries of key `k` removed. */
  function Without(d: Value, k: Value): (r: Value)
    requires d.Dict?
    ensures r.Dict? && |r.entries| <= |d.entries|
  {
    Dict(EntriesWithout(d.entries, k))
  }

  function EntriesWithout(es: seq<Entry>, k: Value): (r: seq<Entry>)
    ensures |r| <= |es|
  {
    if es == [] then []
    else (if es[0].key == k then [] else [es[0]]) + EntriesWithout(es[1..], k)
  }

  /** The value of the first entry with key `a`, if any. */
  function Find(es: seq<Entry>, a: Value): Option<Value> {
    if es == [] then None else if es[0].key == a then Some(es[0].val) else Find(es[1..], a)
  }

  lemma {:induction false} FindIsLookup(d: Value, a: Value)
    requires d.Dict?
    ensures Find(d.entries, a).Some? <==> HasKey(d, a)
    ensures HasKey(d, a) ==> Find(d.entries, a).value == Get(d, a)
    decreases |d.entries|
  {
    if d.entries != [] && d.entries[0].key != a {
      var t := Dict(d.entries[1..]);
      FindIsLookup(t, a);
      assert IndexOf(d.entries, a) == 1 + IndexOf(t.entries, a);
    }
  }

  lemma {:induction false} LookupWithout(es: seq<Entry>, k: Value, a: Value)
    requires a != k
    ensures Find(EntriesWithout(es, k), a) == Find(es, a)
  {
    if es != [] {
      LookupWithout(es[1..], k, a);
      if es[0].key != k {
        assert EntriesWithout(es, k) == [es[0]] + EntriesWithout(es[1..], k);
        assert EntriesWithout(es, k)[1..] == EntriesWithout(es[1..], k);
      } else {
        assert EntriesWithout(es, k) == EntriesWithout(es[1..], k);
        assert Find(es, a) == Find(es[1..], a);
      }
    }
  }

  lemma {:induction false} PlainKeysWithout(es: seq<Entry>)
    ensures PlainAttrs(KeysOf(EntriesWithout(es, Online))) == PlainAttrs(KeysOf(es))
  {
    if es != [] {
      PlainKeysWithout(es[1..]);
      assert KeysOf(es)[1..] == KeysOf(es[1..]);
      if es[0].key == Online {
        assert EntriesWithout(es, Online) == EntriesWithout(es[1..], Online);
      } else {
        var w := EntriesWithout(es, Online);
        assert w == [es[0]] + EntriesWithout(es[1..], Online);
        assert KeysOf(w)[1..] == KeysOf(EntriesWithout(es[1..], Online));
      }
    }
  }

  lemma {:induction false} NonEmptyAttrsAgree(f: Value, g: Value, ks: seq<Value>)
    requires forall k :: k in ks ==> HasKey(f, k) && HasKey(g, k) && Get(f, k) == Get(g, k)
    ensures NonEmptyAttrs(f, ks) == NonEmptyAttrs(g, ks)
  {
    if ks != [] {
      assert forall k :: k in ks[1..] ==> k in ks;
      NonEmptyAttrsAgree(f, g, ks[1..]);
    }
  }

  lemma {:induction false} SelectAgree(nodes: seq<Value>, f: Value, g: Value, attrs: seq<Value>)
    requires AllRecords(nodes)
    requires forall k :: k in attrs ==> HasKey(f, k) && HasKey(g, k) && Get(f, k) == Get(g, k)
    ensures Select(nodes, f, attrs) == Select(nodes, g, attrs)
  {
    if nodes != [] {
      SelectAgree(nodes[1..], f, g, attrs);
      assert AcceptsAll(f, nodes[0], attrs) == AcceptsAll(g, nodes[0], attrs);
    }
  }

  lemma SelectRaisesAgree(nodes: seq<Value>, f: Value, g: Value, attrs: seq<Value>)
    requires AllRecords(nodes)
    requires forall k :: k in attrs ==> HasKey(f, k) && HasKey(g, k) && Get(f, k) == Get(g, k)
    ensures SelectRaises(nodes, f, attrs) <==> SelectRaises(nodes, g, attrs)
  {
    forall i | 0 <= i < |attrs|
      ensures RaisesIn(Select(nodes, f, attrs[..i]), f, attrs[i]) <==> RaisesIn(Select(nodes, g, attrs[..i]), g, attrs[i])
    {
      assert attrs[i] in attrs;
      SelectAgree(nodes, f, g, attrs[..i]);
    }
  }

  /** Removing the `online` entry from the filters changes nothing: the same
      error, or the same records. */
  lemma OnlineFlagIgnored(filters: Value, nodesInfo: seq<Value>)
    requires filters.Dict? && AllRecords(nodesInfo)
    ensures var g := Without(filters, Online);
      PrepareFilterAttrs(g) == PrepareFilterAttrs(filters)
      && (PrepareFilterAttrs(filters).Ok? ==>
            Select(nodesInfo, g, PrepareFilterAttrs(g).value)
            == Select(nodesInfo, filters, PrepareFilterAttrs(filters).value))
      && (PrepareFilterAttrs(filters).Ok? ==>
            (SelectRaises(nodesInfo, g, PrepareFilterAttrs(g).value)
             <==> SelectRaises(nodesInfo, filters, PrepareFilterAttrs(filters).value)))
  {
    var g := Without(filters, Online);
    PlainKeysWithout(filters.entries);
    var ks := PlainAttrs(Keys(filters));
    forall k | k in ks
      ensures HasKey(filters, k) && HasKey(g, k) && Get(filters, k) == Get(g, k)
    {
      InKeysIffHasKey(filters, k);
      LookupWithout(filters.entries, Online, k);
      FindIsLookup(filters, k);
      FindIsLookup(g, k);
    }
    NonEmptyAttrsAgree(filters, g, ks);
    if PrepareFilterAttrs(filters).Ok? {
      SelectAgree(nodesInfo, filters, g, PrepareFilterAttrs(filters).value);
      SelectRaisesAgree(nodesInfo, filters, g, PrepareFilterAttrs(filters).value);
    }
  }

  /** With no filter attribute left to narrow by, every record survives. */
  lemma EmptyFilterKeepsAll(filters: Value, nodesInfo: seq<Value>)
    requires filters.Dict? && AllRecords(nodesInfo) && PrepareFilterAttrs(filters) == Ok([])
    ensures Select(nodesInfo, filters, PrepareFilterAttrs(filters).value) == nodesInfo
  {
    SelectNone(nodesInfo, filters);
  }

  // ---------------------------------------------------------------------
  // `_check_filtration_results`.

  /** Lines 518-533: raise AllNodesFiltered when the inventory had records
      and none survived; otherwise only log. The log branch at line 531
      compares a count with a list, which Python 2 orders as smaller, so it
      never logs and never raises. */
  function CheckFiltrationResults(allNodesNum: nat, filtered: seq<Value>): (st: Status)
    ensures st.Failure? <==> allNodesNum > 0 && |filtered| == 0
    ensures st.Failure? ==> st.error == AllNodesFiltered
  {
    if allNodesNum > 0 && |filtered| == 0 then Failure(AllNodesFiltered) else Success
  }

  /** Filtering then checking fails exactly when the inventory is not empty
      and no record passes every filter attribute. */
  lemma AllFilteredIff(filters: Value, nodesInfo: seq<Value>)
    requires filters.Dict? && AllRecords(nodesInfo) && PrepareFilterAttrs(filters).Ok?
    ensures var attrs := PrepareFilterAttrs(filters).value;
      CheckFiltrationResults(|nodesInfo|, Select(nodesInfo, filters, attrs)).Failure? <==>
        |nodesInfo| > 0 && forall i :: 0 <= i < |nodesInfo| ==> !AcceptsAll(filters, nodesInfo[i], attrs)
  {
    var attrs := PrepareFilterAttrs(filters).value;
    var r := Select(nodesInfo, filters, attrs);
    SelectMembers(nodesInfo, filters, attrs);
    if |r| > 0 {
      assert r[0] in r;
    }
    if exists i :: 0 <= i < |nodesInfo| && AcceptsAll(filters, nodesInfo[i], attrs) {
      var i :| 0 <= i < |nodesInfo| && AcceptsAll(filters, nodesInfo[i], attrs);
      assert nodesInfo[i] in r;
    }
  }
}
