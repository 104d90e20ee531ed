/** The once-assigner `NodeManager._conf_assign_once` (cudet/nodes.py:535-553),
    stated as functions over the nodes' attribute maps, listed in the order in
    which `self.nodes` yields them. The class `NodeManager` in module Manager
    runs the same nested loops and is proved to end in the state computed
    here. */
module Once {
  import opened Values
  import opened Resolver
  import opened ResolverFrame

  /** The attribute maps of the managed nodes, in iteration order. */
  type States = seq<map<string, Value>>

  predicate AllGood(states: States) {
    forall j :: 0 <= j < |states| ==> GoodAttrs(states[j])
  }

  /** `[k for k in ks if k.startswith(p)]`. */
  function WithPrefix(ks: seq<string>, p: string): (r: seq<string>)
    ensures forall k :: k in r <==> k in ks && StartsWith(k, p)
  {
    if ks == [] then []
    else (if StartsWith(ks[0], p) then [ks[0]] else []) + WithPrefix(ks[1..], p)
  }

  /** The document's `once_...` keys (line 539), each taken once. */
  function OnceKeys(conf: Value): (r: seq<string>)
    requires IsStrKeyed(conf)
    ensures forall k :: k in r <==> k in StrKeys(conf) && StartsWith(k, OncePrefix)
    ensures forall k :: k in r ==> HasKey(conf, Str(k))
    ensures forall i, j :: 0 <= i < j < |r| ==> r[i] != r[j]
  {
    Dedup(WithPrefix(StrKeys(conf), OncePrefix))
  }

  /** `attr_name` (line 540): the length of `once_by_` is cut off, although
      the keys are selected by the shorter prefix `once_`. */
  function OnceAttr(k: string): string {
    Drop(k, |OnceMatchPrefix|)
  }

  /** Every `once_...` section is a dict whose values are walkable levels. */
  predicate WFOnce(conf: Value) {
    IsStrKeyed(conf)
    && forall i :: 0 <= i < |conf.entries| && StartsWith(conf.entries[i].key.s, OncePrefix) ==>
         WFSection(conf.entries[i].val)
  }

  lemma OnceSectionOf(conf: Value, k: string)
    requires WFOnce(conf) && k in OnceKeys(conf)
    ensures HasKey(conf, Str(k)) && WFSection(Get(conf, Str(k)))
  {
    var i := IndexOf(conf.entries, Str(k));
    assert conf.entries[i].key.s == k;
  }

  /** Whether a node's attribute `name` holds `ak` among its values
      (lines 543-546). */
  predicate Holds(a: map<string, Value>, name: string, ak: Value) {
    name in a && ak in WList(a[name])
  }

  /** The nodes that received one candidate value's sub-document. */
  datatype Claim = Claim(states: States, nodes: seq<nat>)

  /** The node loop for one candidate value `ak` (lines 542-553), from the
      `i`-th node on: a holder gets `sub` with `clean=False`; the loop stops
      at the first holder whose id is then truthy. */
  function ClaimFrom(states: States, name: string, ak: Value, sub: Value, i: nat): (r: Claim)
    requires AllGood(states) && WFLevel(sub)
    ensures |r.states| == |states| && AllGood(r.states)
    ensures forall j :: 0 <= j < |states| && j !in r.nodes ==> r.states[j] == states[j]
    ensures forall g :: g in r.nodes ==>
              i <= g < |states| && Holds(states[g], name, ak)
              && r.states[g] == Resolve(states[g], sub, false)
    decreases |states| - i
  {
    if i >= |states| then Claim(states, [])
    else if Holds(states[i], name, ak) then
      var a := Resolve(states[i], sub, false);
      if Truthy(a["id"]) then Claim(states[i := a], [i])
      else
        var c := ClaimFrom(states[i := a], name, ak, sub, i + 1);
        Claim(c.states, [i] + c.nodes)
    else ClaimFrom(states, name, ak, sub, i + 1)
  }

  /** Strictly increasing positions. */
  predicate Increasing(s: seq<nat>) {
    forall x, y :: 0 <= x < y < |s| ==> s[x] < s[y]
  }

  lemma IncreasingCons(i: nat, s: seq<nat>)
    requires Increasing(s) && forall g :: g in s ==> i < g
    ensures Increasing([i] + s)
  {
    assert forall y :: 0 <= y < |s| ==> s[y] in s;
  }

  /** The claimants come in node order. */
  lemma {:induction false} ClaimInNodeOrder(states: States, name: string, ak: Value, sub: Value, i: nat)
    requires AllGood(states) && WFLevel(sub)
    ensures Increasing(ClaimFrom(states, name, ak, sub, i).nodes)
    decreases |states| - i
  {
    if i < |states| {
      if Holds(states[i], name, ak) {
        var a := Resolve(states[i], sub, false);
        if !Truthy(a["id"]) {
          var c := ClaimFrom(states[i := a], name, ak, sub, i + 1);
          assert ClaimFrom(states, name, ak, sub, i).nodes == [i] + c.nodes;
          ClaimInNodeOrder(states[i := a], name, ak, sub, i + 1);
          IncreasingCons(i, c.nodes);
        }
      } else {
        ClaimInNodeOrder(states, name, ak, sub, i + 1);
      }
    }
  }

  /** The first node from the `i`-th on that holds `ak`. */
  function FirstHolder(states: States, name: string, ak: Value, i: nat): (r: Option<nat>)
    ensures r.Some? ==> i <= r.value < |states| && Holds(states[r.value], name, ak)
    ensures forall j :: i <= j < |states| && (r.None? || j < r.value) ==> !Holds(states[j], name, ak)
    decreases |states| - i
  {
    if i >= |states| then None
    else if Holds(states[i], name, ak) then Some(i)
    else FirstHolder(states, name, ak, i + 1)
  }

  /** All nodes from the `i`-th on that hold `ak`, in order. */
  function Holders(states: States, name: string, ak: Value, i: nat): (r: seq<nat>)
    ensures forall j :: j in r <==> i <= j < |states| && Holds(states[j], name, ak)
    decreases |states| - i
  {
    if i >= |states| then []
    else (if Holds(states[i], name, ak) then [i] else []) + Holders(states, name, ak, i + 1)
  }

  /** A sub-document that assigns no `id` leaves a node's id as it was. */
  lemma ResolveKeepsId(a: map<string, Value>, sub: Value)
    requires GoodAttrs(a) && WFLevel(sub) && AssignsNone(sub, {"id"})
    ensures Resolve(a, sub, false)["id"] == a["id"]
  {
    WalkFrame(PassState(a, {}), sub, false, {"id"});
    assert "id" in {"id"};
    assert AttrOf(a, "id") == AttrOf(Resolve(a, sub, false), "id");
  }

  /** When every node that holds the value has a truthy id, exactly the
      first holder gets the value's sub-document, and nobody when no node
      holds the value. Nodes that do not hold it, such as the `fuel` node
      with id 0, may have any id. */
  lemma {:induction false} ClaimGoesToFirstHolder(states: States, name: string, ak: Value, sub: Value, i: nat)
    requires AllGood(states) && WFLevel(sub) && AssignsNone(sub, {"id"})
    requires forall j :: i <= j < |states| && Holds(states[j], name, ak) ==> Truthy(states[j]["id"])
    ensures var f := FirstHolder(states, name, ak, i);
      ClaimFrom(states, name, ak, sub, i).nodes == if f.Some? then [f.value] else []
    decreases |states| - i
  {
    if i < |states| {
      if Holds(states[i], name, ak) {
        ResolveKeepsId(states[i], sub);
      } else {
        ClaimGoesToFirstHolder(states, name, ak, sub, i + 1);
      }
    }
  }

  /** When the claimants' ids are falsy (the `fuel` node has id 0), every
      holder gets the value's sub-document: the once guarantee fails. */
  lemma {:induction false} FalsyIdsLetEveryHolderClaim(states: States, name: string, ak: Value, sub: Value, i: nat)
    requires AllGood(states) && WFLevel(sub) && AssignsNone(sub, {"id"})
    requires forall j :: i <= j < |states| ==> !Truthy(states[j]["id"])
    ensures ClaimFrom(states, name, ak, sub, i).nodes == Holders(states, name, ak, i)
    decreases |states| - i
  {
    if i < |states| {
      if Holds(states[i], name, ak) {
        var s' := states[i := Resolve(states[i], sub, false)];
        ResolveKeepsId(states[i], sub);
        FalsyIdsLetEveryHolderClaim(s', name, ak, sub, i + 1);
        FalsyHolderClaims(states, name, ak, sub, i);
      } else {
        FalsyIdsLetEveryHolderClaim(states, name, ak, sub, i + 1);
      }
    }
  }

  /** The step of the induction above for a holder: it claims and the loop
      goes on. */
  lemma FalsyHolderClaims(states: States, name: string, ak: Value, sub: Value, i: nat)
    requires AllGood(states) && WFLevel(sub) && AssignsNone(sub, {"id"})
    requires i < |states| && Holds(states[i], name, ak) && !Truthy(states[i]["id"])
    requires var s' := states[i := Resolve(states[i], sub, false)];
      ClaimFrom(s', name, ak, sub, i + 1).nodes == Holders(s', name, ak, i + 1)
    ensures ClaimFrom(states, name, ak, sub, i).nodes == Holders(states, name, ak, i)
  {
    ResolveKeepsId(states[i], sub);
    HoldersAgree(states[i := Resolve(states[i], sub, false)], states, name, ak, i + 1);
  }

  lemma {:induction false} HoldersAgree(s1: States, s2: States, name: string, ak: Value, i: nat)
    requires |s1| == |s2| && forall j :: i <= j < |s1| ==> s1[j] == s2[j]
    ensures Holders(s1, name, ak, i) == Holders(s2, name, ak, i)
    decreases |s1| - i
  {
    if i < |s1| {
      HoldersAgree(s1, s2, name, ak, i + 1);
    }
  }

  /** A claim keeps every node's id when the sub-document assigns none. */
  lemma {:induction false} ClaimKeepsIds(states: States, name: string, ak: Value, sub: Value, i: nat)
    requires AllGood(states) && WFLevel(sub) && AssignsNone(sub, {"id"})
    ensures var r := ClaimFrom(states, name, ak, sub, i);
      forall j :: 0 <= j < |states| ==> r.states[j]["id"] == states[j]["id"]
    decreases |states| - i
  {
    var r := ClaimFrom(states, name, ak, sub, i);
    forall j | 0 <= j < |states| ensures r.states[j]["id"] == states[j]["id"] {
      if j in r.nodes {
        ResolveKeepsId(states[j], sub);
      }
    }
  }

  // ---------------------------------------------------------------------
  // The loops over candidate values and over `once_...` sections.

  /** One grant: the sub-document of `value` in section `key` went to node
      number `node`. */
  datatype Grant = Grant(key: string, value: Value, node: nat)

  datatype Outcome = Outcome(states: States, grants: seq<Grant>)

  function GrantsTo(k: string, ak: Value, ns: seq<nat>): (r: seq<Grant>)
    ensures |r| == |ns| && forall x :: 0 <= x < |ns| ==> r[x] == Grant(k, ak, ns[x])
  {
    seq(|ns|, x requires 0 <= x < |ns| => Grant(k, ak, ns[x]))
  }

  /** `for ak in assigned` (lines 542-553) over the candidate values `aks` of
      section `k`. */
  function ClaimEach(states: States, k: string, sec: Value, aks: seq<Value>): (r: Outcome)
    requires AllGood(states) && WFSection(sec)
    requires forall ak :: ak in aks ==> HasKey(sec, ak)
    ensures |r.states| == |states| && AllGood(r.states)
    ensures forall g :: g in r.grants ==> g.key == k && g.value in aks && g.node < |states|
    ensures forall j :: 0 <= j < |states| && (forall g :: g in r.grants ==> g.node != j) ==>
              r.states[j] == states[j]
    decreases |aks|
  {
    if aks == [] then Outcome(states, [])
    else
      assert aks[0] in aks;
      BranchOf(sec, aks[0]);
      var c := ClaimFrom(states, OnceAttr(k), aks[0], Get(sec, aks[0]), 0);
      var rest := ClaimEach(c.states, k, sec, aks[1..]);
      var gs := GrantsTo(k, aks[0], c.nodes);
      assert forall g :: g in gs ==> g.key == k && g.value == aks[0] && g.node < |states| by {
        forall g | g in gs ensures g.key == k && g.value == aks[0] && g.node < |states| {
          var x :| 0 <= x < |gs| && gs[x] == g;
          assert c.nodes[x] in c.nodes;
        }
      }
      assert forall v :: v in aks[1..] ==> v in aks;
      Outcome(rest.states, gs + rest.grants)
  }

  /** The candidate values of a section: its keys, each once (line 541). */
  function Candidates(sec: Value): (r: seq<Value>)
    ensures forall ak :: ak in r <==> HasKey(sec, ak)
    ensures forall i, j :: 0 <= i < j < |r| ==> r[i] != r[j]
  {
    var ks := Keys(sec);
    assert forall ak :: ak in ks <==> HasKey(sec, ak) by {
      forall ak ensures ak in ks <==> HasKey(sec, ak) {
        InKeysIffHasKey(sec, ak);
      }
    }
    Dedup(ks)
  }

  /** The loop over the `once_...` keys `ks` (line 539). */
  function AssignFrom(states: States, conf: Value, ks: seq<string>): (r: Outcome)
    requires AllGood(states) && WFOnce(conf)
    requires forall k :: k in ks ==> k in OnceKeys(conf)
    ensures |r.states| == |states| && AllGood(r.states)
    ensures forall g :: g in r.grants ==> g.key in ks && g.node < |states|
    ensures forall j :: 0 <= j < |states| && (forall g :: g in r.grants ==> g.node != j) ==>
              r.states[j] == states[j]
    decreases |ks|
  {
    if ks == [] then Outcome(states, [])
    else
      assert ks[0] in ks;
      OnceSectionOf(conf, ks[0]);
      var sec := Get(conf, Str(ks[0]));
      var e := ClaimEach(states, ks[0], sec, Candidates(sec));
      var rest := AssignFrom(e.states, conf, ks[1..]);
      Outcome(rest.states, e.grants + rest.grants)
  }

  /** `_conf_assign_once` over the nodes' attribute maps. */
  /** One turn of the section loop: the first section's values are claimed,
      then the other sections follow on the new states. */
  lemma AssignFromUnfold(states: States, conf: Value, ks: seq<string>)
    requires AllGood(states) && WFOnce(conf) && ks != []
    requires forall k :: k in ks ==> k in OnceKeys(conf)
    ensures ks[0] in OnceKeys(conf) && WFSection(Get(conf, Str(ks[0])))
    ensures forall k :: k in ks[1..] ==> k in OnceKeys(conf)
    ensures var sec := Get(conf, Str(ks[0]));
      var e := ClaimEach(states, ks[0], sec, Candidates(sec));
      var rest := AssignFrom(e.states, conf, ks[1..]);
      AssignFrom(states, conf, ks) == Outcome(rest.states, e.grants + rest.grants)
  {
    assert ks[0] in ks;
    assert forall k :: k in ks[1..] ==> k in ks;
    OnceSectionOf(conf, ks[0]);
  }

  function AssignOnce(states: States, conf: Value): (r: Outcome)
    requires AllGood(states) && WFOnce(conf)
    ensures |r.states| == |states| && AllGood(r.states)
    ensures forall g :: g in r.grants ==> g.key in OnceKeys(conf) && g.node < |states|
    ensures forall j :: 0 <= j < |states| && (forall g :: g in r.grants ==> g.node != j) ==>
              r.states[j] == states[j]
  {
    AssignFrom(states, conf, OnceKeys(conf))
  }

  // ---------------------------------------------------------------------
  // At most one node per value.

  /** Every node that holds one of the values `aks` in attribute `name`
      has a truthy id. */
  predicate HoldersTruthy(states: States, name: string, aks: seq<Value>)
    requires AllGood(states)
  {
    forall j, ak :: 0 <= j < |states| && ak in aks && Holds(states[j], name, ak) ==> Truthy(states[j]["id"])
  }

  /** Every node that holds a candidate value of one of the sections `ks`
      has a truthy id. */
  ghost predicate SectionHoldersTruthy(states: States, conf: Value, ks: seq<string>)
    requires AllGood(states) && WFOnce(conf)
  {
    forall k :: k in ks && k in OnceKeys(conf) ==>
      HoldersTruthy(states, OnceAttr(k), Candidates(Get(conf, Str(k))))
  }

  /** From `s0` to `s1` every id is kept and a node whose id is falsy is
      left as it was. */
  predicate KeptIds(s0: States, s1: States)
    requires AllGood(s0) && AllGood(s1) && |s0| == |s1|
  {
    forall j :: 0 <= j < |s0| ==> s1[j]["id"] == s0[j]["id"] && (!Truthy(s0[j]["id"]) ==> s1[j] == s0[j])
  }

  lemma KeptIdsTrans(s0: States, s1: States, s2: States)
    requires AllGood(s0) && AllGood(s1) && AllGood(s2) && |s0| == |s1| == |s2|
    requires KeptIds(s0, s1) && KeptIds(s1, s2)
    ensures KeptIds(s0, s2)
  {
  }

  /** No sub-document of a `once_...` section assigns `id`. */
  ghost predicate KeepsIds(conf: Value)
    requires WFOnce(conf)
  {
    forall k :: k in OnceKeys(conf) ==>
      forall ak :: HasKey(Get(conf, Str(k)), ak) ==> AssignsNone(Get(Get(conf, Str(k)), ak), {"id"})
  }

  predicate OncePerValue(gs: seq<Grant>) {
    forall x, y :: 0 <= x < y < |gs| ==> gs[x].key != gs[y].key || gs[x].value != gs[y].value
  }

  /** One section's loop grants each value at most once when every holder
      of a value has a truthy id; it keeps every id and leaves the nodes
      with a falsy id as they were. */
  lemma {:induction false} ClaimEachOnce(states: States, k: string, sec: Value, aks: seq<Value>)
    requires AllGood(states) && WFSection(sec) && HoldersTruthy(states, OnceAttr(k), aks)
    requires forall ak :: ak in aks ==> HasKey(sec, ak) && AssignsNone(Get(sec, ak), {"id"})
    requires forall i, j :: 0 <= i < j < |aks| ==> aks[i] != aks[j]
    ensures var r := ClaimEach(states, k, sec, aks);
      OncePerValue(r.grants) && KeptIds(states, r.states)
    decreases |aks|
  {
    if aks != [] {
      assert aks[0] in aks;
      BranchOf(sec, aks[0]);
      var sub := Get(sec, aks[0]);
      var c := ClaimFrom(states, OnceAttr(k), aks[0], sub, 0);
      ClaimGoesToFirstHolder(states, OnceAttr(k), aks[0], sub, 0);
      ClaimStepKeeps(states, OnceAttr(k), aks, sub);
      assert forall ak :: ak in aks[1..] ==> ak in aks;
      assert aks[0] !in aks[1..];
      ClaimEachOnce(c.states, k, sec, aks[1..]);
      var rest := ClaimEach(c.states, k, sec, aks[1..]);
      KeptIdsTrans(states, c.states, rest.states);
      var gs := GrantsTo(k, aks[0], c.nodes);
      assert OncePerValue(gs);
      assert forall g :: g in rest.grants ==> g.value in aks[1..];
      JoinOnce(gs, rest.grants);
    }
  }

  /** The claim of the first value keeps the ids, touches no node with a
      falsy id, and so leaves the holders of the other values truthy. */
  lemma ClaimStepKeeps(states: States, name: string, aks: seq<Value>, sub: Value)
    requires AllGood(states) && WFLevel(sub) && AssignsNone(sub, {"id"})
    requires aks != [] && HoldersTruthy(states, name, aks)
    ensures var c := ClaimFrom(states, name, aks[0], sub, 0);
      KeptIds(states, c.states) && HoldersTruthy(c.states, name, aks[1..])
  {
    var c := ClaimFrom(states, name, aks[0], sub, 0);
    ClaimKeepsIds(states, name, aks[0], sub, 0);
    assert aks[0] in aks;
    forall j | 0 <= j < |states| && !Truthy(states[j]["id"]) ensures c.states[j] == states[j] {
      assert !Holds(states[j], name, aks[0]);
    }
    forall j, ak | 0 <= j < |states| && ak in aks[1..] && Holds(c.states[j], name, ak)
      ensures Truthy(c.states[j]["id"])
    {
      assert ak in aks;
    }
  }

  lemma JoinOnce(gs1: seq<Grant>, gs2: seq<Grant>)
    requires OncePerValue(gs1) && OncePerValue(gs2)
    requires forall g, h :: g in gs1 && h in gs2 ==> g.key != h.key || g.value != h.value
    ensures OncePerValue(gs1 + gs2)
  {
    var gs := gs1 + gs2;
    forall x, y | 0 <= x < y < |gs| ensures gs[x].key != gs[y].key || gs[x].value != gs[y].value {
      if y >= |gs1| && x < |gs1| {
        assert gs[x] in gs1 && gs[y] in gs2;
      } else if x >= |gs1| {
        assert gs[x] == gs2[x - |gs1|] && gs[y] == gs2[y - |gs1|];
      }
    }
  }

  /** The loop over sections grants each value of each section at most
      once when every holder of a candidate value has a truthy id; it keeps
      every id and leaves the nodes with a falsy id as they were. */
  lemma {:induction false} AssignFromOnce(states: States, conf: Value, ks: seq<string>)
    requires AllGood(states) && WFOnce(conf) && KeepsIds(conf)
    requires forall k :: k in ks ==> k in OnceKeys(conf)
    requires forall i, j :: 0 <= i < j < |ks| ==> ks[i] != ks[j]
    requires SectionHoldersTruthy(states, conf, ks)
    ensures var r := AssignFrom(states, conf, ks);
      OncePerValue(r.grants) && KeptIds(states, r.states)
    decreases |ks|
  {
    if ks != [] {
      AssignFromUnfold(states, conf, ks);
      var sec := Get(conf, Str(ks[0]));
      var aks := Candidates(sec);
      assert ks[0] in ks;
      ClaimEachOnce(states, ks[0], sec, aks);
      var e := ClaimEach(states, ks[0], sec, aks);
      assert ks[0] !in ks[1..];
      SectionHoldersKept(states, e.states, conf, ks);
      AssignFromOnce(e.states, conf, ks[1..]);
      var rest := AssignFrom(e.states, conf, ks[1..]);
      KeptIdsTrans(states, e.states, rest.states);
      assert forall g :: g in rest.grants ==> g.key in ks[1..];
      JoinOnce(e.grants, rest.grants);
    }
  }

  /** Holders stay truthy from one section to the next: a node whose id
      is falsy was left as it was. */
  lemma SectionHoldersKept(s0: States, s1: States, conf: Value, ks: seq<string>)
    requires AllGood(s0) && AllGood(s1) && |s0| == |s1| && WFOnce(conf) && ks != []
    requires SectionHoldersTruthy(s0, conf, ks) && KeptIds(s0, s1)
    ensures SectionHoldersTruthy(s1, conf, ks[1..])
  {
    forall k | k in ks[1..] && k in OnceKeys(conf)
      ensures HoldersTruthy(s1, OnceAttr(k), Candidates(Get(conf, Str(k))))
    {
      assert k in ks;
      var aks := Candidates(Get(conf, Str(k)));
      assert HoldersTruthy(s0, OnceAttr(k), aks);
    }
  }

  /** Lines 539-553 as the design means them: when every node that holds a
      candidate value of a `once_...` section has a truthy id and no once
      sub-document assigns `id`, each candidate value of each section
      reaches at most one node. Nodes that hold no candidate value, such as
      the `fuel` node with id 0, may have any id. */
  lemma AtMostOneNodePerValue(states: States, conf: Value)
    requires AllGood(states) && WFOnce(conf) && KeepsIds(conf)
    requires SectionHoldersTruthy(states, conf, OnceKeys(conf))
    ensures OncePerValue(AssignOnce(states, conf).grants)
  {
    AssignFromOnce(states, conf, OnceKeys(conf));
  }
}
