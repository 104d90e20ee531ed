/** What `Node.apply_conf` (cudet/nodes.py:81-138) guarantees about the
    attributes it sets: the reset of a clean pass, the replace-or-extend rule
    of the appendable lists, the replacing keys of a clean first level and of
    the `by_id` profile, and the gate of a `by_<attr>` section. */
module ResolverProps {
  import opened Values
  import opened Resolver

  // ---------------------------------------------------------------------
  // The reset of a clean pass.

  /** A clean pass starts from the attributes with exactly the command,
      script, file and filelist lists emptied; `logs`, `put` and every other
      attribute are kept as they were. */
  lemma ResetEmptiesFourLists(a: map<string, Value>)
    requires GoodAttrs(a)
    ensures forall k :: k in {"cmds", "scripts", "files", "filelists"} ==>
              k in Reset(a) && Reset(a)[k] == List([])
    ensures forall k :: k in a && k !in {"cmds", "scripts", "files", "filelists"} ==>
              k in Reset(a) && Reset(a)[k] == a[k]
    ensures ("logs" in Reset(a) <==> "logs" in a) && ("put" in Reset(a) <==> "put" in a)
    ensures "logs" in a ==> Reset(a)["logs"] == a["logs"]
    ensures "put" in a ==> Reset(a)["put"] == a["put"]
  {
    ResetKeysAreFourLists();
  }

  // ---------------------------------------------------------------------
  // The contribution rule of `apply` (lines 83-94), over several
  // contributions to one attribute within one pass.

  /** Contributions `vs` to attribute `k`, in order, within one pass. */
  function ContributeAll(s: PassState, k: string, vs: seq<Value>, default: bool): (r: PassState)
    requires GoodAttrs(s.attrs)
    ensures GoodAttrs(r.attrs)
    decreases |vs|
  {
    if vs == [] then s else ContributeAll(Apply(s, k, vs[0], default), k, vs[1..], default)
  }

  /** The values the contributions `vs` put into an appendable list. */
  function Flat(vs: seq<Value>): seq<Value> {
    if vs == [] then [] else WList(vs[0]) + Flat(vs[1..])
  }

  function Last(vs: seq<Value>): Value
    requires vs != []
  {
    vs[|vs| - 1]
  }

  /** One ordinary contribution to a list the pass has already touched extends it. */
  lemma ApplyExtends(s: PassState, k: string, v: Value)
    requires GoodAttrs(s.attrs) && k in Appendable && k in s.attrs
    requires k in KeepDefault || k in s.overridden
    ensures var r := Apply(s, k, v, false);
      r.attrs[k] == List(s.attrs[k].items + WList(v)) && k in r.overridden
  {
  }

  /** One ordinary contribution to an absent list, or to `logs`/`put` not yet
      touched in this pass, replaces it. */
  lemma ApplyFirstReplaces(s: PassState, k: string, v: Value)
    requires GoodAttrs(s.attrs) && k in Appendable
    requires k !in s.attrs || (k !in KeepDefault && k !in s.overridden)
    ensures var r := Apply(s, k, v, false);
      r.attrs[k] == List(WList(v)) && k in r.overridden
  {
  }

  /** A contribution with `default=True`, or to an attribute outside
      `conf_appendable`, replaces; one with `default=True` leaves
      `overridden` alone. */
  lemma ApplyReplaces(s: PassState, k: string, v: Value, default: bool)
    requires GoodAttrs(s.attrs) && (default || k !in Appendable)
    ensures var r := Apply(s, k, v, default);
      r.attrs[k] == Replacement(k, v) && r.overridden == s.overridden
  {
  }

  /** An appendable list that a pass has already touched (one of the four
      keep-default lists, or `logs`/`put` once recorded in `overridden`)
      is extended by each further ordinary contribution. */
  lemma {:induction false} LaterContributionsExtend(s: PassState, k: string, vs: seq<Value>)
    requires GoodAttrs(s.attrs) && k in Appendable && k in s.attrs
    requires k in KeepDefault || k in s.overridden
    ensures var r := ContributeAll(s, k, vs, false);
      k in r.attrs && r.attrs[k] == List(s.attrs[k].items + Flat(vs))
      && ((k in s.overridden || vs != []) ==> k in r.overridden)
    decreases |vs|
  {
    if vs != [] {
      var s1 := Apply(s, k, vs[0], false);
      ApplyExtends(s, k, vs[0]);
      LaterContributionsExtend(s1, k, vs[1..]);
      assert ContributeAll(s, k, vs, false) == ContributeAll(s1, k, vs[1..], false);
      assert Flat(vs) == WList(vs[0]) + Flat(vs[1..]);
      assert s.attrs[k].items + WList(vs[0]) + Flat(vs[1..])
          == s.attrs[k].items + Flat(vs);
    }
  }

  /** The first ordinary contribution to an appendable attribute that is
      absent, or to `logs`/`put` not yet recorded in `overridden`, replaces
      what the attribute held; the ones after it extend. So the attribute
      ends up holding exactly what this pass contributed. */
  lemma {:induction false} FirstContributionReplaces(s: PassState, k: string, vs: seq<Value>)
    requires GoodAttrs(s.attrs) && k in Appendable && vs != []
    requires k !in s.attrs || (k !in KeepDefault && k !in s.overridden)
    ensures var r := ContributeAll(s, k, vs, false);
      k in r.attrs && r.attrs[k] == List(Flat(vs)) && k in r.overridden
  {
    var s1 := Apply(s, k, vs[0], false);
    ApplyFirstReplaces(s, k, vs[0]);
    LaterContributionsExtend(s1, k, vs[1..]);
    assert ContributeAll(s, k, vs, false) == ContributeAll(s1, k, vs[1..], false);
    assert Flat(vs) == WList(vs[0]) + Flat(vs[1..]);
  }

  /** In a pass that starts from `logs`/`put` untouched, ordinary
      contributions replace the old list on the first one and extend after. */
  lemma LogsAndPutReplacedOnFirstContribution(s: PassState, k: string, vs: seq<Value>)
    requires GoodAttrs(s.attrs) && (k == "logs" || k == "put") && s.overridden == {} && vs != []
    ensures var r := ContributeAll(s, k, vs, false);
      k in r.attrs && r.attrs[k] == List(Flat(vs)) && k in r.overridden
  {
    FirstContributionReplaces(s, k, vs);
  }

  /** Replacing contributions (`default=True`, or any contribution to an
      attribute outside `conf_appendable`) leave the last value, wrapped by
      `w_list` for an appendable attribute, and do not touch `overridden`
      when they are replacing by `default`. */
  lemma {:induction false} ReplacingContributionsKeepLast(s: PassState, k: string, vs: seq<Value>, default: bool)
    requires GoodAttrs(s.attrs) && vs != []
    requires default || k !in Appendable
    ensures var r := ContributeAll(s, k, vs, default);
      k in r.attrs && r.attrs[k] == Replacement(k, Last(vs))
      && (default ==> r.overridden == s.overridden)
    decreases |vs|
  {
    var s1 := Apply(s, k, vs[0], default);
    ApplyReplaces(s, k, vs[0], default);
    assert ContributeAll(s, k, vs, default) == ContributeAll(s1, k, vs[1..], default);
    if |vs| > 1 {
      ReplacingContributionsKeepLast(s1, k, vs[1..], default);
      assert Last(vs[1..]) == Last(vs);
    } else {
      assert ContributeAll(s1, k, vs[1..], default) == s1;
    }
  }

  // ---------------------------------------------------------------------
  // Keys applied with `default=True`: the first level of a clean pass
  // (lines 99-100) and the `by_id` profile (lines 124-125).

  /** After a run of replacing contributions, every key of the run holds its
      own value from `d` and every other attribute is as it was. */
  lemma {:induction false} ReplacingKeysSettle(s: PassState, d: Value, ks: seq<string>)
    requires GoodAttrs(s.attrs) && forall k :: k in ks ==> HasKey(d, Str(k))
    ensures var r := ApplyKeys(s, d, ks, true);
      (forall k :: k in ks ==> k in r.attrs && r.attrs[k] == Replacement(k, Get(d, Str(k))))
      && (forall k :: k in s.attrs && k !in ks ==> k in r.attrs && r.attrs[k] == s.attrs[k])
      && r.overridden == s.overridden
    decreases |ks|
  {
    if ks != [] {
      var s1 := Apply(s, ks[0], Get(d, Str(ks[0])), true);
      ApplyReplaces(s, ks[0], Get(d, Str(ks[0])), true);
      assert forall k :: k in ks[1..] ==> k in ks;
      ReplacingKeysSettle(s1, d, ks[1..]);
      assert forall k :: k in ks ==> k == ks[0] || k in ks[1..];
    }
  }

  /** A document made only of plain keys: after a clean pass every key of the
      document holds exactly its value (wrapped into a list for the six
      appendable attributes), whatever the node held before. */
  lemma PlainDocumentResolves(a: map<string, Value>, conf: Value)
    requires GoodAttrs(a) && WFLevel(conf)
    requires forall k :: k in StrKeys(conf) ==> IsGenericKey(k)
    ensures forall k :: k in StrKeys(conf) ==>
              k in Resolve(a, conf, true) && Resolve(a, conf, true)[k] == Replacement(k, Get(conf, Str(k)))
  {
    var s0 := PassState(Reset(a), {});
    KeysPresent(conf);
    assert GenericKeys(conf) == StrKeys(conf) by {
      GenericOnlyKeepsAll(StrKeys(conf));
    }
    var s1 := ApplyKeys(s0, conf, GenericKeys(conf), true);
    ReplacingKeysSettle(s0, conf, GenericKeys(conf));
    NoMatchKeys(conf);
    assert MatchPhase(s1, conf, MatchKeys(conf)) == s1;
    NoPrioritySection(conf);
  }

  lemma {:induction false} GenericOnlyKeepsAll(ks: seq<string>)
    requires forall k :: k in ks ==> IsGenericKey(k)
    ensures GenericOnly(ks) == ks
  {
    if ks != [] {
      assert forall k :: k in ks[1..] ==> k in ks;
      GenericOnlyKeepsAll(ks[1..]);
    }
  }

  lemma NoMatchKeys(conf: Value)
    requires IsStrKeyed(conf) && forall k :: k in StrKeys(conf) ==> IsGenericKey(k)
    ensures MatchKeys(conf) == []
  {
    MatchOnlyOfPlainKeys(StrKeys(conf));
  }

  lemma {:induction false} MatchOnlyOfPlainKeys(ks: seq<string>)
    requires forall k :: k in ks ==> IsGenericKey(k)
    ensures MatchOnly(ks) == []
  {
    if ks != [] {
      assert forall k :: k in ks[1..] ==> k in ks;
      MatchOnlyOfPlainKeys(ks[1..]);
    }
  }

  lemma NoPrioritySection(conf: Value)
    requires IsStrKeyed(conf) && forall k :: k in StrKeys(conf) ==> IsGenericKey(k)
    ensures !HasKey(conf, Str(PrioritySection))
  {
    forall i | 0 <= i < |conf.entries|
      ensures conf.entries[i].key != Str(PrioritySection)
    {
      assert StrKeys(conf)[i] in StrKeys(conf);
    }
  }

  /** The `by_id` profile of the node's id replaces each of its attributes:
      after the priority step every key of the profile other than
      `__default` holds exactly the profile's value, whatever the earlier
      steps of the level contributed. */
  lemma IdProfileReplaces(s: PassState, el: Value)
    requires GoodAttrs(s.attrs) && WFLevel(el)
    requires HasKey(el, Str(PrioritySection))
    requires HasKey(Get(el, Str(PrioritySection)), s.attrs["id"])
    ensures var pconf := Get(Get(el, Str(PrioritySection)), s.attrs["id"]);
      forall k :: k in StrKeys(pconf) && k != DefaultKey ==>
        k in PriorityPhase(s, el).attrs
        && PriorityPhase(s, el).attrs[k] == Replacement(k, Get(pconf, Str(k)))
  {
    var sec := Get(el, Str(PrioritySection));
    ProfilesOf(sec);
    var pconf := Get(sec, s.attrs["id"]);
    ReplacingKeysSettle(ApplyDefaults(s, sec), pconf, NonDefault(StrKeys(pconf)));
  }

  // ---------------------------------------------------------------------
  // The gate of a `by_<attr>` section (lines 104-115).

  /** None of the node's values of the attribute is a branch key: the
      section contributes nothing. */
  lemma {:induction false} UnmatchedValuesAreInert(s: PassState, el: Value, k: string, vs: seq<Value>)
    requires GoodAttrs(s.attrs) && WFLevel(el) && HasKey(el, Str(k)) && IsMatchKey(k)
    requires forall v :: v in vs ==> !HasKey(Get(el, Str(k)), v)
    ensures MatchValues(s, el, k, vs) == s
    decreases |vs|
  {
    if vs != [] {
      assert forall v :: v in vs[1..] ==> v in vs;
      UnmatchedValuesAreInert(s, el, k, vs[1..]);
    }
  }

  /** A `by_<attr>` section contributes nothing to a node that lacks the
      attribute, or none of whose values (after `w_list`) is a key of it. */
  lemma SectionGate(s: PassState, el: Value, k: string)
    requires GoodAttrs(s.attrs) && WFLevel(el) && HasKey(el, Str(k)) && IsMatchKey(k)
    requires var name := Drop(k, |MatchPrefix|);
      name !in s.attrs || forall v :: v in WList(s.attrs[name]) ==> !HasKey(Get(el, Str(k)), v)
    ensures MatchPhase(s, el, [k]) == s
  {
    var name := Drop(k, |MatchPrefix|);
    if name in s.attrs {
      UnmatchedValuesAreInert(s, el, k, WList(s.attrs[name]));
    }
    assert [k][1..] == [];
  }
}
