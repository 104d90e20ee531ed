/** What the filling of `NodeManager.nodes` promises: which records make it
    fail and with which error, which keys end up in the table and in what
    order, and that a later record with the same ip replaces an earlier
    one. */
module ManagerProps {
  import opened Values
  import opened Resolver
  import opened Once
  import opened ResolverFrame
  import opened Records
  import opened Manager
  import Filter

  // ---------------------------------------------------------------------
  // The loop over what each record yields.

  /** What `Node(**params)` and the key's hashing yield for each record. */
  function Loads(recs: seq<Value>, releaseMap: Value, conf: Value): (r: seq<Result<Slot>>)
    requires Filter.AllRecords(recs) && WFLevel(conf)
    ensures |r| == |recs| && forall j :: 0 <= j < |recs| ==> r[j] == NodeOf(recs[j], releaseMap, conf)
  {
    seq(|recs|, j requires 0 <= j < |recs| => NodeOf(recs[j], releaseMap, conf))
  }

  predicate GoodSlots(ss: seq<Result<Slot>>) {
    forall j :: 0 <= j < |ss| && ss[j].Ok? ==> GoodAttrs(ss[j].value.attrs)
  }

  /** The loop of lines 486-516 once each record's outcome is known. */
  function InsertSlots(t: Table, ss: seq<Result<Slot>>): (r: Loaded)
    requires WFTable(t) && GoodSlots(ss)
    ensures WFTable(r.table)
    decreases |ss|
  {
    if ss == [] then Loaded(t, Success)
    else if ss[0].Err? then Loaded(t, Failure(ss[0].error))
    else
      assert GoodSlots(ss[1..]) by {
        forall j | 0 <= j < |ss| - 1 && ss[1..][j].Ok? ensures GoodAttrs(ss[1..][j].value.attrs) {
          assert ss[1..][j] == ss[j + 1];
        }
      }
      InsertSlots(Put(t, ss[0].value.key, ss[0].value.attrs), ss[1..])
  }

  lemma LoadsGood(recs: seq<Value>, releaseMap: Value, conf: Value, ss: seq<Result<Slot>>)
    requires Filter.AllRecords(recs) && WFLevel(conf)
    requires |ss| == |recs| && forall j :: 0 <= j < |recs| ==> ss[j] == NodeOf(recs[j], releaseMap, conf)
    ensures GoodSlots(ss)
  {
    forall j | 0 <= j < |ss| && ss[j].Ok? ensures GoodAttrs(ss[j].value.attrs) {
      assert ss[j] == NodeOf(recs[j], releaseMap, conf);
    }
  }

  /** One turn of the loop over outcomes, from position `i`. */
  lemma InsertSlotsStep(t: Table, ss: seq<Result<Slot>>, i: nat)
    requires WFTable(t) && GoodSlots(ss) && i < |ss|
    ensures GoodSlots(ss[i..]) && GoodSlots(ss[i + 1..])
    ensures InsertSlots(t, ss[i..])
            == if ss[i].Err? then Loaded(t, Failure(ss[i].error))
               else InsertSlots(Put(t, ss[i].value.key, ss[i].value.attrs), ss[i + 1..])
  {
    var from := ss[i..];
    var rest := ss[i + 1..];
    assert forall j :: 0 <= j < |from| ==> from[j] == ss[i + j];
    assert forall j :: 0 <= j < |rest| ==> rest[j] == ss[i + 1 + j];
    assert from[1..] == rest;
  }

  lemma {:induction false} InsertRecordsAsSlots(t: Table, recs: seq<Value>, releaseMap: Value, conf: Value,
                                                ss: seq<Result<Slot>>, i: nat)
    requires WFTable(t) && Filter.AllRecords(recs) && WFLevel(conf) && GoodSlots(ss) && i <= |recs|
    requires |ss| == |recs| && forall j :: 0 <= j < |recs| ==> ss[j] == NodeOf(recs[j], releaseMap, conf)
    ensures Filter.AllRecords(recs[i..]) && GoodSlots(ss[i..])
    ensures InsertRecords(t, recs[i..], releaseMap, conf) == InsertSlots(t, ss[i..])
    decreases |recs| - i
  {
    if i == |recs| {
      assert recs[i..] == [] && ss[i..] == [];
    } else {
      InsertStep(t, recs, i, releaseMap, conf);
      InsertSlotsStep(t, ss, i);
      assert ss[i] == NodeOf(recs[i], releaseMap, conf);
      if ss[i].Ok? {
        InsertRecordsAsSlots(Put(t, ss[i].value.key, ss[i].value.attrs), recs, releaseMap, conf, ss, i + 1);
      }
    }
  }

  /** The first failed outcome, or `|ss|` when there is none. */
  function FirstErr(ss: seq<Result<Slot>>): (r: nat)
    ensures r <= |ss| && (r < |ss| ==> ss[r].Err?)
    ensures forall j :: 0 <= j < r ==> ss[j].Ok?
  {
    if ss == [] then 0 else if ss[0].Err? then 0 else 1 + FirstErr(ss[1..])
  }

  /** The loop ends in the first failed outcome's error, or in success. */
  lemma {:induction false} InsertSlotsStatus(t: Table, ss: seq<Result<Slot>>)
    requires WFTable(t) && GoodSlots(ss)
    ensures var r := InsertSlots(t, ss);
      var i := FirstErr(ss);
      (r.st.Success? <==> i == |ss|) && (i < |ss| ==> r.st == Failure(ss[i].error))
    decreases |ss|
  {
    if ss != [] && ss[0].Ok? {
      InsertSlotsStatus(Put(t, ss[0].value.key, ss[0].value.attrs), ss[1..]);
    }
  }

  /** The keys of the stored outcomes. */
  predicate KeyIn(ss: seq<Result<Slot>>, k: Value) {
    exists i :: 0 <= i < |ss| && ss[i].Ok? && ss[i].value.key == k
  }

  lemma PutKeys(t: Table, key: Value, a: map<string, Value>)
    requires WFTable(t) && GoodAttrs(a)
    ensures forall k :: k in Put(t, key, a).keys <==> k in t.keys || k == key
  {
    var r := Put(t, key, a);
    forall k ensures k in r.keys <==> k in t.keys || k == key {
      if k in r.keys && k !in t.keys && k != key {
        PutLookup(t, key, a, k);
      }
      if k == key {
        PutLookup(t, key, a, key);
      }
      if k in t.keys {
        var q :| 0 <= q < |t.keys| && t.keys[q] == k;
        assert r.keys[q] == k;
      }
    }
  }

  /** Keys already in the table keep their places; a complete fill holds
      exactly the earlier keys and the keys of the outcomes. */
  lemma InsertSlotsKeys(t: Table, ss: seq<Result<Slot>>)
    requires WFTable(t) && GoodSlots(ss)
    ensures var r := InsertSlots(t, ss);
      |t.keys| <= |r.table.keys| && (forall j :: 0 <= j < |t.keys| ==> r.table.keys[j] == t.keys[j])
      && (r.st.Success? ==> forall k :: k in r.table.keys <==> k in t.keys || KeyIn(ss, k))
  {
    InsertSlotsPrefix(t, ss);
    InsertSlotsKeySet(t, ss);
  }

  lemma {:induction false} InsertSlotsPrefix(t: Table, ss: seq<Result<Slot>>)
    requires WFTable(t) && GoodSlots(ss)
    ensures var r := InsertSlots(t, ss);
      |t.keys| <= |r.table.keys| && forall j :: 0 <= j < |t.keys| ==> r.table.keys[j] == t.keys[j]
    decreases |ss|
  {
    if ss != [] && ss[0].Ok? {
      InsertSlotsPrefix(Put(t, ss[0].value.key, ss[0].value.attrs), ss[1..]);
    }
  }

  lemma {:induction false} InsertSlotsKeySet(t: Table, ss: seq<Result<Slot>>)
    requires WFTable(t) && GoodSlots(ss)
    ensures var r := InsertSlots(t, ss);
      r.st.Success? ==> forall k :: k in r.table.keys <==> k in t.keys || KeyIn(ss, k)
    decreases |ss|
  {
    if ss != [] && ss[0].Ok? {
      var t' := Put(t, ss[0].value.key, ss[0].value.attrs);
      InsertSlotsKeySet(t', ss[1..]);
      PutKeys(t, ss[0].value.key, ss[0].value.attrs);
      KeyInCons(ss);
    }
  }

  lemma KeyInCons(ss: seq<Result<Slot>>)
    requires ss != [] && ss[0].Ok?
    ensures forall k :: KeyIn(ss, k) <==> k == ss[0].value.key || KeyIn(ss[1..], k)
  {
    var rest := ss[1..];
    forall k ensures KeyIn(ss, k) <==> k == ss[0].value.key || KeyIn(rest, k) {
      if KeyIn(rest, k) {
        var i :| 0 <= i < |rest| && rest[i].Ok? && rest[i].value.key == k;
        assert ss[i + 1] == rest[i];
      }
      if KeyIn(ss, k) && k != ss[0].value.key {
        var i :| 0 <= i < |ss| && ss[i].Ok? && ss[i].value.key == k;
        assert rest[i - 1] == ss[i];
      }
    }
  }

  /** A key no stored outcome carries keeps what it held. */
  lemma {:induction false} InsertSlotsKeepsOthers(t: Table, ss: seq<Result<Slot>>, key: Value)
    requires WFTable(t) && GoodSlots(ss) && !KeyIn(ss, key)
    ensures Lookup(InsertSlots(t, ss).table, key) == Lookup(t, key)
    decreases |ss|
  {
    if ss != [] && ss[0].Ok? {
      var rest := ss[1..];
      forall i | 0 <= i < |rest| && rest[i].Ok? ensures rest[i].value.key != key {
        assert ss[i + 1] == rest[i];
      }
      assert ss[0].value.key != key;
      PutLookup(t, ss[0].value.key, ss[0].value.attrs, key);
      InsertSlotsKeepsOthers(Put(t, ss[0].value.key, ss[0].value.attrs), rest, key);
    }
  }

  /** Dictionary assignment: after a complete fill the key of outcome `i`
      holds outcome `i`'s attributes unless a later outcome has the same key. */
  lemma {:induction false} InsertSlotsLastWins(t: Table, ss: seq<Result<Slot>>, i: nat)
    requires WFTable(t) && GoodSlots(ss) && i < |ss| && FirstErr(ss) == |ss|
    requires !KeyIn(ss[i + 1..], ss[i].value.key)
    ensures Lookup(InsertSlots(t, ss).table, ss[i].value.key) == Some(ss[i].value.attrs)
    decreases |ss|
  {
    var rest := ss[1..];
    var t' := Put(t, ss[0].value.key, ss[0].value.attrs);
    if i == 0 {
      assert rest == ss[1..];
      PutLookup(t, ss[0].value.key, ss[0].value.attrs, ss[0].value.key);
      InsertSlotsKeepsOthers(t', rest, ss[0].value.key);
    } else {
      assert FirstErr(rest) == |rest|;
      assert rest[i - 1] == ss[i] && rest[i..] == ss[i + 1..];
      InsertSlotsLastWins(t', rest, i - 1);
    }
  }

  // ---------------------------------------------------------------------
  // The same, stated on the records.

  /** The loop stores every record or stops at the first record that does
      not build a node with a hashable ip, with that record's error; keys
      already in the table keep their places, and a complete fill holds
      exactly the earlier keys and the records' ips. */
  lemma InsertRecordsOutcome(t: Table, recs: seq<Value>, releaseMap: Value, conf: Value)
    requires WFTable(t) && Filter.AllRecords(recs) && WFLevel(conf)
    ensures var r := InsertRecords(t, recs, releaseMap, conf);
      var ss := Loads(recs, releaseMap, conf);
      var i := FirstErr(ss);
      (r.st.Success? <==> forall j :: 0 <= j < |recs| ==> NodeOf(recs[j], releaseMap, conf).Ok?)
      && (i < |recs| ==> r.st == Failure(NodeOf(recs[i], releaseMap, conf).error))
      && |t.keys| <= |r.table.keys| && (forall j :: 0 <= j < |t.keys| ==> r.table.keys[j] == t.keys[j])
      && (r.st.Success? ==> forall k :: k in r.table.keys <==> k in t.keys || KeyIn(ss, k))
  {
    var ss := Loads(recs, releaseMap, conf);
    LoadsGood(recs, releaseMap, conf, ss);
    InsertRecordsAsSlots(t, recs, releaseMap, conf, ss, 0);
    assert recs[0..] == recs && ss[0..] == ss;
    InsertSlotsStatus(t, ss);
    InsertSlotsKeys(t, ss);
  }

  /** Storing under a key that is already present replaces its node: after
      a complete fill, record `i`'s ip holds record `i`'s node unless a
      later record has the same ip. */
  lemma InsertRecordsLastWins(t: Table, recs: seq<Value>, releaseMap: Value, conf: Value, i: nat)
    requires WFTable(t) && Filter.AllRecords(recs) && WFLevel(conf) && i < |recs|
    requires InsertRecords(t, recs, releaseMap, conf).st.Success?
    requires forall j :: i < j < |recs| ==>
      NodeOf(recs[j], releaseMap, conf).Ok? && NodeOf(recs[i], releaseMap, conf).Ok?
      && NodeOf(recs[j], releaseMap, conf).value.key != NodeOf(recs[i], releaseMap, conf).value.key
    ensures NodeOf(recs[i], releaseMap, conf).Ok?
    ensures var s := NodeOf(recs[i], releaseMap, conf).value;
      Lookup(InsertRecords(t, recs, releaseMap, conf).table, s.key) == Some(s.attrs)
  {
    var ss := Loads(recs, releaseMap, conf);
    LoadsGood(recs, releaseMap, conf, ss);
    InsertRecordsAsSlots(t, recs, releaseMap, conf, ss, 0);
    assert recs[0..] == recs && ss[0..] == ss;
    InsertSlotsStatus(t, ss);
    var tail := ss[i + 1..];
    forall j | 0 <= j < |tail| && tail[j].Ok? ensures tail[j].value.key != ss[i].value.key {
      assert tail[j] == ss[i + 1 + j];
    }
    InsertSlotsLastWins(t, ss, i);
  }

  // ---------------------------------------------------------------------
  // The second pass of `__init__`.

  /** Every node already resolved the document when it was built, so the
      second clean pass of line 279 leaves the id, the attributes the
      document's match keys read and the four per-pass lists as they were:
      the lists are not doubled. */
  lemma ReapplyAllSettles(states: States, conf: Value, R: set<string>)
    requires AllGood(states) && WFLevel(conf)
    requires "id" in R && AssignsNone(conf, R) && MatchesWithin(conf, R)
    ensures var once := ReapplyAll(states, conf);
      forall j :: 0 <= j < |states| ==> Agree(ReapplyAll(once, conf)[j], once[j], Tracked(R))
  {
    var once := ReapplyAll(states, conf);
    forall j | 0 <= j < |states| ensures Agree(ReapplyAll(once, conf)[j], once[j], Tracked(R)) {
      CleanPassIdempotent(states[j], conf, R);
    }
  }
}
