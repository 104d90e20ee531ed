/** Which attributes a pass of `Node.apply_conf` (cudet/nodes.py:81-138) can
    change, and which attributes its outcome depends on. From these two facts:
    the `by_id` profile has the last word, and a repeated clean pass leaves
    the four reset lists as the first pass left them. */
module ResolverFrame {
  import opened Values
  import opened Resolver
  import ResolverProps

  /** The value of attribute `k`, if the node has one. */
  function AttrOf(a: map<string, Value>, k: string): (r: Option<Value>)
    ensures r.Some? <==> k in a
    ensures r.Some? ==> r.value == a[k]
  {
    if k in a then Some(a[k]) else None
  }

  /** `a` and `b` hold the same attributes of `R`. */
  predicate Agree(a: map<string, Value>, b: map<string, Value>, R: set<string>) {
    forall k :: k in R ==> AttrOf(a, k) == AttrOf(b, k)
  }

  /** No key of the dict `d` names an attribute of `R`. */
  predicate KeysAvoid(d: Value, R: set<string>) {
    d.Dict? && forall j :: 0 <= j < |d.entries| ==> !(d.entries[j].key.Str? && d.entries[j].key.s in R)
  }

  /** No part of the level `el` assigns an attribute of `R`: not its plain
      keys, not the keys of its `__default` entry, not the levels below its
      `by_<attr>` sections and not the profiles of its `by_id` section. */
  predicate AssignsNone(el: Value, R: set<string>)
    decreases el
  {
    el.Dict?
    && forall i :: 0 <= i < |el.entries| && el.entries[i].key.Str? ==>
         (IsGenericKey(el.entries[i].key.s) ==> el.entries[i].key.s !in R)
         && (el.entries[i].key.s == DefaultKey ==> KeysAvoid(el.entries[i].val, R))
         && (IsMatchKey(el.entries[i].key.s) ==>
               el.entries[i].val.Dict?
               && forall j :: 0 <= j < |el.entries[i].val.entries| ==>
                    AssignsNone(el.entries[i].val.entries[j].val, R))
         && (el.entries[i].key.s == PrioritySection ==>
               el.entries[i].val.Dict?
               && forall j :: 0 <= j < |el.entries[i].val.entries| ==>
                    KeysAvoid(el.entries[i].val.entries[j].val, R))
  }

  /** Every `by_<attr>` section at every depth of `el` matches on an
      attribute of `R`. */
  predicate MatchesWithin(el: Value, R: set<string>)
    decreases el
  {
    el.Dict?
    && forall i :: 0 <= i < |el.entries| && el.entries[i].key.Str? && IsMatchKey(el.entries[i].key.s) ==>
         Drop(el.entries[i].key.s, |MatchPrefix|) in R
         && el.entries[i].val.Dict?
         && forall j :: 0 <= j < |el.entries[i].val.entries| ==>
              MatchesWithin(el.entries[i].val.entries[j].val, R)
  }

  // ---------------------------------------------------------------------
  // Reading the two predicates at one level.

  lemma {:induction false} EntryOf(d: Value, k: Value) returns (i: nat)
    requires HasKey(d, k)
    ensures i < |d.entries| && d.entries[i].key == k && Get(d, k) == d.entries[i].val
  {
    i := IndexOf(d.entries, k);
  }

  lemma PlainKeysAvoid(el: Value, R: set<string>)
    requires WFLevel(el) && AssignsNone(el, R)
    ensures forall k :: k in GenericKeys(el) ==> k !in R
  {
    forall k | k in GenericKeys(el) ensures k !in R {
      var i :| 0 <= i < |StrKeys(el)| && StrKeys(el)[i] == k;
    }
  }

  lemma LevelDefaultsAvoid(el: Value, R: set<string>)
    requires WFLevel(el) && AssignsNone(el, R) && HasKey(el, Str(DefaultKey))
    ensures KeysAvoid(Get(el, Str(DefaultKey)), R)
  {
    var i := EntryOf(el, Str(DefaultKey));
  }

  lemma BranchAvoids(el: Value, k: string, v: Value, R: set<string>)
    requires WFLevel(el) && IsMatchKey(k) && HasKey(el, Str(k)) && HasKey(Get(el, Str(k)), v)
    ensures AssignsNone(el, R) ==> AssignsNone(Get(Get(el, Str(k)), v), R)
    ensures MatchesWithin(el, R) ==> MatchesWithin(Get(Get(el, Str(k)), v), R)
  {
    var i := EntryOf(el, Str(k));
    var j := EntryOf(Get(el, Str(k)), v);
  }

  lemma MatchNameIn(el: Value, k: string, R: set<string>)
    requires WFLevel(el) && MatchesWithin(el, R) && IsMatchKey(k) && HasKey(el, Str(k))
    ensures Drop(k, |MatchPrefix|) in R
  {
    var i := EntryOf(el, Str(k));
  }

  lemma PriorityAvoids(el: Value, id: Value, R: set<string>)
    requires WFLevel(el) && AssignsNone(el, R) && HasKey(el, Str(PrioritySection))
    ensures var sec := Get(el, Str(PrioritySection));
      (HasKey(sec, id) ==> KeysAvoid(Get(sec, id), R))
      && (HasKey(sec, Str(DefaultKey)) ==> KeysAvoid(Get(sec, Str(DefaultKey)), R))
  {
    var i := EntryOf(el, Str(PrioritySection));
    var sec := Get(el, Str(PrioritySection));
    if HasKey(sec, id) {
      var j := EntryOf(sec, id);
    }
    if HasKey(sec, Str(DefaultKey)) {
      var j := EntryOf(sec, Str(DefaultKey));
    }
  }

  lemma StrKeysAvoid(d: Value, R: set<string>)
    requires IsStrKeyed(d) && KeysAvoid(d, R)
    ensures forall k :: k in StrKeys(d) ==> k !in R
  {
    forall k | k in StrKeys(d) ensures k !in R {
      var i :| 0 <= i < |StrKeys(d)| && StrKeys(d)[i] == k;
    }
  }

  // ---------------------------------------------------------------------
  // Frame: what a pass cannot change.

  lemma {:induction false} ApplyKeysFrame(s: PassState, d: Value, ks: seq<string>, default: bool, R: set<string>)
    requires GoodAttrs(s.attrs) && forall k :: k in ks ==> HasKey(d, Str(k)) && k !in R
    ensures Agree(s.attrs, ApplyKeys(s, d, ks, default).attrs, R)
    decreases |ks|
  {
    if ks != [] {
      assert ks[0] in ks;
      assert forall k :: k in ks[1..] ==> k in ks;
      ApplyKeysFrame(Apply(s, ks[0], Get(d, Str(ks[0])), default), d, ks[1..], default, R);
    }
  }

  lemma DefaultsFrame(s: PassState, holder: Value, R: set<string>)
    requires GoodAttrs(s.attrs)
    requires HasKey(holder, Str(DefaultKey)) ==>
               IsStrKeyed(Get(holder, Str(DefaultKey))) && KeysAvoid(Get(holder, Str(DefaultKey)), R)
    ensures Agree(s.attrs, ApplyDefaults(s, holder).attrs, R)
  {
    if HasKey(holder, Str(DefaultKey)) {
      var dconf := Get(holder, Str(DefaultKey));
      StrKeysAvoid(dconf, R);
      ApplyKeysFrame(s, dconf, StrKeys(dconf), false, R);
    }
  }

  /** A level that assigns no attribute of `R` leaves those attributes as
      they were, at any depth. */
  lemma {:induction false} WalkFrame(s: PassState, el: Value, top: bool, R: set<string>)
    requires GoodAttrs(s.attrs) && WFLevel(el) && AssignsNone(el, R)
    ensures Agree(s.attrs, Walk(s, el, top).attrs, R)
    decreases el, 3
  {
    KeysPresent(el);
    PlainKeysAvoid(el, R);
    var s1 := ApplyKeys(s, el, GenericKeys(el), top);
    ApplyKeysFrame(s, el, GenericKeys(el), top, R);
    var s2 := MatchPhase(s1, el, MatchKeys(el));
    MatchPhaseFrame(s1, el, MatchKeys(el), R);
    PriorityFrame(s2, el, R);
  }

  lemma {:induction false} MatchPhaseFrame(s: PassState, el: Value, ks: seq<string>, R: set<string>)
    requires GoodAttrs(s.attrs) && WFLevel(el) && AssignsNone(el, R)
    requires forall k :: k in ks ==> HasKey(el, Str(k)) && IsMatchKey(k)
    ensures Agree(s.attrs, MatchPhase(s, el, ks).attrs, R)
    decreases el, 2, |ks|
  {
    if ks != [] {
      assert ks[0] in ks;
      assert forall k :: k in ks[1..] ==> k in ks;
      var attrName := Drop(ks[0], |MatchPrefix|);
      var s1 := if attrName in s.attrs then MatchValues(s, el, ks[0], WList(s.attrs[attrName])) else s;
      if attrName in s.attrs {
        MatchValuesFrame(s, el, ks[0], WList(s.attrs[attrName]), R);
      }
      MatchPhaseFrame(s1, el, ks[1..], R);
    }
  }

  lemma {:induction false} MatchValuesFrame(s: PassState, el: Value, k: string, vs: seq<Value>, R: set<string>)
    requires GoodAttrs(s.attrs) && WFLevel(el) && AssignsNone(el, R)
    requires HasKey(el, Str(k)) && IsMatchKey(k)
    ensures Agree(s.attrs, MatchValues(s, el, k, vs).attrs, R)
    decreases el, 1, |vs|
  {
    if vs != [] {
      SectionOf(el, k);
      var section := Get(el, Str(k));
      var s1 := s;
      if HasKey(section, vs[0]) {
        BranchOf(section, vs[0]);
        BranchAvoids(el, k, vs[0], R);
        if HasKey(el, Str(DefaultKey)) {
          LevelDefaultsAvoid(el, R);
        }
        DefaultsFrame(s, el, R);
        var sd := ApplyDefaults(s, el);
        WalkFrame(sd, Get(section, vs[0]), false, R);
        s1 := Walk(sd, Get(section, vs[0]), false);
      }
      MatchValuesFrame(s1, el, k, vs[1..], R);
    }
  }

  lemma PriorityFrame(s: PassState, el: Value, R: set<string>)
    requires GoodAttrs(s.attrs) && WFLevel(el) && AssignsNone(el, R)
    ensures Agree(s.attrs, PriorityPhase(s, el).attrs, R)
  {
    if HasKey(el, Str(PrioritySection)) {
      var sec := Get(el, Str(PrioritySection));
      var id := s.attrs["id"];
      if HasKey(sec, id) {
        ProfilesOf(sec);
        PriorityAvoids(el, id, R);
        var pconf := Get(sec, id);
        DefaultsFrame(s, sec, R);
        StrKeysAvoid(pconf, R);
        ApplyKeysFrame(ApplyDefaults(s, sec), pconf, NonDefault(StrKeys(pconf)), true, R);
      }
    }
  }

  // ---------------------------------------------------------------------
  // Congruence: two passes over the same document from states that agree on
  // the attributes the document reads end in states that agree on them.

  /** The attributes kept in step: `R` and the four reset lists. */
  function Tracked(R: set<string>): (t: set<string>)
    ensures R <= t && ResetKeys() <= t
  {
    R + ResetKeys()
  }

  lemma ApplySim(s1: PassState, s2: PassState, k: string, v: Value, default: bool, R: set<string>)
    requires GoodAttrs(s1.attrs) && GoodAttrs(s2.attrs) && k !in R
    requires Agree(s1.attrs, s2.attrs, Tracked(R))
    ensures Agree(Apply(s1, k, v, default).attrs, Apply(s2, k, v, default).attrs, Tracked(R))
  {
    if k in ResetKeys() {
      assert k in Appendable && k in KeepDefault;
    }
  }

  lemma {:induction false} ApplyKeysSim(s1: PassState, s2: PassState, d: Value, ks: seq<string>,
                                        default: bool, R: set<string>)
    requires GoodAttrs(s1.attrs) && GoodAttrs(s2.attrs)
    requires forall k :: k in ks ==> HasKey(d, Str(k)) && k !in R
    requires Agree(s1.attrs, s2.attrs, Tracked(R))
    ensures Agree(ApplyKeys(s1, d, ks, default).attrs, ApplyKeys(s2, d, ks, default).attrs, Tracked(R))
    decreases |ks|
  {
    if ks != [] {
      assert ks[0] in ks;
      assert forall k :: k in ks[1..] ==> k in ks;
      var v := Get(d, Str(ks[0]));
      ApplySim(s1, s2, ks[0], v, default, R);
      ApplyKeysSim(Apply(s1, ks[0], v, default), Apply(s2, ks[0], v, default), d, ks[1..], default, R);
    }
  }

  lemma DefaultsSim(s1: PassState, s2: PassState, holder: Value, R: set<string>)
    requires GoodAttrs(s1.attrs) && GoodAttrs(s2.attrs)
    requires HasKey(holder, Str(DefaultKey)) ==>
               IsStrKeyed(Get(holder, Str(DefaultKey))) && KeysAvoid(Get(holder, Str(DefaultKey)), R)
    requires Agree(s1.attrs, s2.attrs, Tracked(R))
    ensures Agree(ApplyDefaults(s1, holder).attrs, ApplyDefaults(s2, holder).attrs, Tracked(R))
  {
    if HasKey(holder, Str(DefaultKey)) {
      var dconf := Get(holder, Str(DefaultKey));
      StrKeysAvoid(dconf, R);
      ApplyKeysSim(s1, s2, dconf, StrKeys(dconf), false, R);
    }
  }

  /** A level that assigns no attribute of `R` and matches only on attributes
      of `R` (with `id` among them) treats two nodes that agree on `R` and on
      the four reset lists alike: afterwards they still agree on them. */
  lemma {:induction false} WalkSim(s1: PassState, s2: PassState, el: Value, top: bool, R: set<string>)
    requires GoodAttrs(s1.attrs) && GoodAttrs(s2.attrs) && WFLevel(el)
    requires "id" in R && AssignsNone(el, R) && MatchesWithin(el, R)
    requires Agree(s1.attrs, s2.attrs, Tracked(R))
    ensures Agree(Walk(s1, el, top).attrs, Walk(s2, el, top).attrs, Tracked(R))
    decreases el, 3
  {
    KeysPresent(el);
    PlainKeysAvoid(el, R);
    ApplyKeysSim(s1, s2, el, GenericKeys(el), top, R);
    var t1 := ApplyKeys(s1, el, GenericKeys(el), top);
    var t2 := ApplyKeys(s2, el, GenericKeys(el), top);
    MatchPhaseSim(t1, t2, el, MatchKeys(el), R);
    PrioritySim(MatchPhase(t1, el, MatchKeys(el)), MatchPhase(t2, el, MatchKeys(el)), el, R);
  }

  lemma {:induction false} MatchPhaseSim(s1: PassState, s2: PassState, el: Value, ks: seq<string>, R: set<string>)
    requires GoodAttrs(s1.attrs) && GoodAttrs(s2.attrs) && WFLevel(el)
    requires "id" in R && AssignsNone(el, R) && MatchesWithin(el, R)
    requires forall k :: k in ks ==> HasKey(el, Str(k)) && IsMatchKey(k)
    requires Agree(s1.attrs, s2.attrs, Tracked(R))
    ensures Agree(MatchPhase(s1, el, ks).attrs, MatchPhase(s2, el, ks).attrs, Tracked(R))
    decreases el, 2, |ks|
  {
    if ks != [] {
      assert ks[0] in ks;
      assert forall k :: k in ks[1..] ==> k in ks;
      var attrName := Drop(ks[0], |MatchPrefix|);
      MatchNameIn(el, ks[0], R);
      assert AttrOf(s1.attrs, attrName) == AttrOf(s2.attrs, attrName);
      var t1 := if attrName in s1.attrs then MatchValues(s1, el, ks[0], WList(s1.attrs[attrName])) else s1;
      var t2 := if attrName in s2.attrs then MatchValues(s2, el, ks[0], WList(s2.attrs[attrName])) else s2;
      if attrName in s1.attrs {
        MatchValuesSim(s1, s2, el, ks[0], WList(s1.attrs[attrName]), R);
      }
      MatchPhaseSim(t1, t2, el, ks[1..], R);
    }
  }

  lemma {:induction false} MatchValuesSim(s1: PassState, s2: PassState, el: Value, k: string, vs: seq<Value>, R: set<string>)
    requires GoodAttrs(s1.attrs) && GoodAttrs(s2.attrs) && WFLevel(el)
    requires "id" in R && AssignsNone(el, R) && MatchesWithin(el, R)
    requires HasKey(el, Str(k)) && IsMatchKey(k)
    requires Agree(s1.attrs, s2.attrs, Tracked(R))
    ensures Agree(MatchValues(s1, el, k, vs).attrs, MatchValues(s2, el, k, vs).attrs, Tracked(R))
    decreases el, 1, |vs|
  {
    if vs != [] {
      SectionOf(el, k);
      var section := Get(el, Str(k));
      var t1 := s1;
      var t2 := s2;
      if HasKey(section, vs[0]) {
        BranchOf(section, vs[0]);
        BranchAvoids(el, k, vs[0], R);
        if HasKey(el, Str(DefaultKey)) {
          LevelDefaultsAvoid(el, R);
        }
        DefaultsSim(s1, s2, el, R);
        WalkSim(ApplyDefaults(s1, el), ApplyDefaults(s2, el), Get(section, vs[0]), false, R);
        t1 := Walk(ApplyDefaults(s1, el), Get(section, vs[0]), false);
        t2 := Walk(ApplyDefaults(s2, el), Get(section, vs[0]), false);
      }
      MatchValuesSim(t1, t2, el, k, vs[1..], R);
    }
  }

  lemma PrioritySim(s1: PassState, s2: PassState, el: Value, R: set<string>)
    requires GoodAttrs(s1.attrs) && GoodAttrs(s2.attrs) && WFLevel(el)
    requires "id" in R && AssignsNone(el, R)
    requires Agree(s1.attrs, s2.attrs, Tracked(R))
    ensures Agree(PriorityPhase(s1, el).attrs, PriorityPhase(s2, el).attrs, Tracked(R))
  {
    assert AttrOf(s1.attrs, "id") == AttrOf(s2.attrs, "id");
    if HasKey(el, Str(PrioritySection)) {
      var sec := Get(el, Str(PrioritySection));
      var id := s1.attrs["id"];
      if HasKey(sec, id) {
        ProfilesOf(sec);
        PriorityAvoids(el, id, R);
        var pconf := Get(sec, id);
        DefaultsSim(s1, s2, sec, R);
        StrKeysAvoid(pconf, R);
        ApplyKeysSim(ApplyDefaults(s1, sec), ApplyDefaults(s2, sec), pconf, NonDefault(StrKeys(pconf)), true, R);
      }
    }
  }

  // ---------------------------------------------------------------------
  // Consequences for `apply_conf`.

  /** The reset keeps every attribute outside the four lists. */
  lemma ResetKeepsOthers(a: map<string, Value>, R: set<string>)
    requires GoodAttrs(a)
    ensures Agree(a, Reset(a), R - ResetKeys())
  {
  }

  /** A document that never assigns `id` leaves `id` in place, so the
      `by_id` profile chosen at the end of the pass is the one of the node's
      id, and each attribute of that profile (other than `__default`) ends up
      holding exactly the profile's value, whatever the rest of the document
      contributed. */
  lemma IdProfileWins(a: map<string, Value>, conf: Value, clean: bool)
    requires GoodAttrs(a) && WFLevel(conf) && AssignsNone(conf, {"id"})
    requires HasKey(conf, Str(PrioritySection)) && HasKey(Get(conf, Str(PrioritySection)), a["id"])
    ensures var pconf := Get(Get(conf, Str(PrioritySection)), a["id"]);
            forall k :: k in StrKeys(pconf) && k != DefaultKey ==>
              k in Resolve(a, conf, clean)
              && Resolve(a, conf, clean)[k] == Replacement(k, Get(pconf, Str(k)))
  {
    var s0 := PassState(if clean then Reset(a) else a, {});
    ResetKeepsOthers(a, {"id"});
    ResetKeysAreFourLists();
    assert s0.attrs["id"] == a["id"];
    KeysPresent(conf);
    PlainKeysAvoid(conf, {"id"});
    var s1 := ApplyKeys(s0, conf, GenericKeys(conf), clean);
    ApplyKeysFrame(s0, conf, GenericKeys(conf), clean, {"id"});
    var s2 := MatchPhase(s1, conf, MatchKeys(conf));
    MatchPhaseFrame(s1, conf, MatchKeys(conf), {"id"});
    assert AttrOf(s2.attrs, "id") == AttrOf(s0.attrs, "id");
    ResolverProps.IdProfileReplaces(s2, conf);
  }

  /** Idempotence of a clean pass on the four reset lists. Applying the same
      document again with `clean=True` (what `reapply_conf` does) yields the
      same command, script, file and filelist lists as the first pass, as
      long as the document never assigns an attribute it matches on, nor
      `id`. All of `R` stays as the first pass left it as well. */
  lemma CleanPassIdempotent(a: map<string, Value>, conf: Value, R: set<string>)
    requires GoodAttrs(a) && WFLevel(conf)
    requires "id" in R && AssignsNone(conf, R) && MatchesWithin(conf, R)
    ensures var b := Resolve(a, conf, true);
            Agree(Resolve(b, conf, true), b, Tracked(R))
  {
    var b := Resolve(a, conf, true);
    var s0 := PassState(Reset(a), {});
    WalkFrame(s0, conf, true, R);
    assert Agree(Reset(a), b, R);
    ResetKeepsOthers(b, R);
    ResetKeepsOthers(a, R);
    assert Agree(Reset(b), Reset(a), Tracked(R));
    WalkSim(PassState(Reset(b), {}), s0, conf, true, R);
  }

  /** The four lists themselves, as the corollary a reader of
      `reapply_conf` wants. */
  lemma ReapplyKeepsLists(a: map<string, Value>, conf: Value, R: set<string>)
    requires GoodAttrs(a) && WFLevel(conf)
    requires "id" in R && AssignsNone(conf, R) && MatchesWithin(conf, R)
    ensures var b := Resolve(a, conf, true);
            forall k :: k in {"cmds", "scripts", "files", "filelists"} ==>
              k in b && k in Resolve(b, conf, true) && Resolve(b, conf, true)[k] == b[k]
  {
    var b := Resolve(a, conf, true);
    CleanPassIdempotent(a, conf, R);
    ResetKeysAreFourLists();
    forall k | k in {"cmds", "scripts", "files", "filelists"}
      ensures k in b && k in Resolve(b, conf, true) && Resolve(b, conf, true)[k] == b[k]
    {
      assert k in Tracked(R);
      assert AttrOf(Resolve(b, conf, true), k) == AttrOf(b, k);
    }
  }
}
