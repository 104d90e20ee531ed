/** The configuration resolver of `Node.apply_conf` (cudet/nodes.py:81-138),
    stated as functions over a node's attribute map. The class `Node` in
    module Nodes runs the same walk imperatively and is proved to end in the
    state these functions compute. */
module Resolver {
  import opened Values

  const MatchPrefix: string := "by_"
  const PrioritySection: string := "by_id"
  const DefaultKey: string := "__default"
  const OncePrefix: string := "once_"
  const OnceMatchPrefix: string := "once_by_"

  /** `Node.conf_appendable`, in the source's order. */
  const Appendable: seq<string> := ["logs", "cmds", "scripts", "files", "filelists", "put"]
  /** `Node.conf_keep_default`, in the source's order. */
  const KeepDefault: seq<string> := ["scripts", "cmds", "files", "filelists"]

  /** The attributes a clean pass empties first: `set(conf_appendable) & set(conf_keep_default)`.
      These are the four command/script/file lists; `logs` and `put` are not among them. */
  function ResetKeys(): set<string> {
    set k | k in Appendable && k in KeepDefault
  }

  /** The reset set is exactly the command, script, file and filelist lists:
      `logs` and `put` are appendable but are never emptied by a clean pass. */
  lemma ResetKeysAreFourLists()
    ensures ResetKeys() == {"cmds", "scripts", "files", "filelists"}
    ensures "logs" !in ResetKeys() && "put" !in ResetKeys()
  {
    assert "cmds" in ResetKeys() && "scripts" in ResetKeys();
    assert "files" in ResetKeys() && "filelists" in ResetKeys();
  }

  // ---------------------------------------------------------------------
  // Shape of the document.

  predicate IsStrKeyed(d: Value) {
    d.Dict? && forall i :: 0 <= i < |d.entries| ==> d.entries[i].key.Str?
  }

  /** A key applied as a plain attribute at its level (line 98). */
  predicate IsGenericKey(k: string) {
    k != PrioritySection && !StartsWith(k, MatchPrefix)
  }

  /** A `by_<attr>` key other than `by_id` (line 104). */
  predicate IsMatchKey(k: string) {
    k != PrioritySection && StartsWith(k, MatchPrefix)
  }

  /** A level of the document that `r_apply` can walk without raising: a dict
      with string keys, whose `by_<attr>` sections are dicts of walkable
      levels, whose `__default` entry is a dict with string keys, and whose
      `by_id` section is a dict of dicts with string keys. */
  predicate WFLevel(el: Value)
    decreases el
  {
    IsStrKeyed(el)
    && (forall i :: 0 <= i < |el.entries| && IsMatchKey(el.entries[i].key.s) ==>
          WFSection(el.entries[i].val))
    && (HasKey(el, Str(DefaultKey)) ==> IsStrKeyed(Get(el, Str(DefaultKey))))
    && (HasKey(el, Str(PrioritySection)) ==> WFPriority(Get(el, Str(PrioritySection))))
  }

  /** A `by_<attr>` section: attribute value -> level. */
  predicate WFSection(sec: Value)
    decreases sec
  {
    sec.Dict? && forall j :: 0 <= j < |sec.entries| ==> WFLevel(sec.entries[j].val)
  }

  /** The `by_id` section: id (or `__default`) -> dict of attributes. */
  predicate WFPriority(sec: Value) {
    sec.Dict? && forall j :: 0 <= j < |sec.entries| ==> IsStrKeyed(sec.entries[j].val)
  }

  lemma SectionOf(el: Value, k: string)
    requires WFLevel(el) && IsMatchKey(k) && HasKey(el, Str(k))
    ensures WFSection(Get(el, Str(k)))
  {
    var i := IndexOf(el.entries, Str(k));
    assert el.entries[i].key.s == k;
  }

  lemma BranchOf(sec: Value, v: Value)
    requires WFSection(sec) && HasKey(sec, v)
    ensures WFLevel(Get(sec, v))
  {
    var i := IndexOf(sec.entries, v);
    assert WFLevel(sec.entries[i].val);
  }

  lemma ProfilesOf(sec: Value)
    requires WFPriority(sec)
    ensures forall id :: HasKey(sec, id) ==> IsStrKeyed(Get(sec, id))
  {
    forall id | HasKey(sec, id) ensures IsStrKeyed(Get(sec, id)) {
      var i := IndexOf(sec.entries, id);
      assert IsStrKeyed(sec.entries[i].val);
    }
  }

  /** The string keys of a dict, in iteration order. */
  function StrKeys(d: Value): (ks: seq<string>)
    requires IsStrKeyed(d)
    ensures |ks| == |d.entries|
    ensures forall i :: 0 <= i < |ks| ==> d.entries[i].key == Str(ks[i])
    ensures forall k :: k in ks ==> HasKey(d, Str(k))
  {
    seq(|d.entries|, i requires 0 <= i < |d.entries| => d.entries[i].key.s)
  }

  /** `[k for k in ks if <generic>]`. */
  function GenericOnly(ks: seq<string>): (r: seq<string>)
    ensures forall x :: x in r <==> x in ks && IsGenericKey(x)
  {
    if ks == [] then []
    else (if IsGenericKey(ks[0]) then [ks[0]] else []) + GenericOnly(ks[1..])
  }

  /** `[k for k in ks if <match key>]`. */
  function MatchOnly(ks: seq<string>): (r: seq<string>)
    ensures forall x :: x in r <==> x in ks && IsMatchKey(x)
  {
    if ks == [] then []
    else (if IsMatchKey(ks[0]) then [ks[0]] else []) + MatchOnly(ks[1..])
  }

  /** `[k for k in ks if k != '__default']`. */
  function NonDefault(ks: seq<string>): (r: seq<string>)
    ensures forall x :: x in r <==> x in ks && x != DefaultKey
  {
    if ks == [] then []
    else (if ks[0] != DefaultKey then [ks[0]] else []) + NonDefault(ks[1..])
  }

  // ---------------------------------------------------------------------
  // The state of one pass.

  /** A node's attributes while a pass runs, and the pass's `overridden` record. */
  datatype PassState = PassState(attrs: map<string, Value>, overridden: set<string>)

  /** An appendable attribute, when present, holds a list (so `.extend` applies). */
  predicate ListOrAbsent(a: map<string, Value>, k: string) {
    k in a ==> a[k].List?
  }

  /** What every node keeps: `id` and the command and script lists, which
      `__init__` sets, stay present, and every appendable attribute that is
      present holds a list. */
  predicate GoodAttrs(a: map<string, Value>) {
    "id" in a && "cmds" in a && "scripts" in a
    && ListOrAbsent(a, "logs") && ListOrAbsent(a, "cmds") && ListOrAbsent(a, "scripts")
    && ListOrAbsent(a, "files") && ListOrAbsent(a, "filelists") && ListOrAbsent(a, "put")
  }

  /** What one contribution makes of an attribute when it replaces: the value
      itself, or for an appendable attribute the value wrapped by `w_list`. */
  function Replacement(k: string, v: Value): Value {
    if k in Appendable then List(WList(v)) else v
  }

  /** The inner `apply` (lines 83-94): one contribution of value `v` to attribute `k`. */
  function Apply(s: PassState, k: string, v: Value, default: bool): (r: PassState)
    requires GoodAttrs(s.attrs)
    ensures GoodAttrs(r.attrs)
    ensures k in r.attrs && r.attrs.Keys == s.attrs.Keys + {k}
    ensures forall j :: j in s.attrs && j != k ==> r.attrs[j] == s.attrs[j]
    ensures r.overridden == if k in Appendable && !default then s.overridden + {k} else s.overridden
  {
    if k in Appendable then
      var replace := default || (k !in KeepDefault && k !in s.overridden) || k !in s.attrs;
      var nv := if replace then List(WList(v)) else List(s.attrs[k].items + WList(v));
      PassState(s.attrs[k := nv], if default then s.overridden else s.overridden + {k})
    else
      PassState(s.attrs[k := v], s.overridden)
  }

  /** `for k in ks: apply(k, d[k], ..., default)`. */
  function ApplyKeys(s: PassState, d: Value, ks: seq<string>, default: bool): (r: PassState)
    requires GoodAttrs(s.attrs)
    requires forall k :: k in ks ==> HasKey(d, Str(k))
    ensures GoodAttrs(r.attrs)
    ensures s.attrs.Keys <= r.attrs.Keys
    decreases |ks|
  {
    if ks == [] then s
    else ApplyKeys(Apply(s, ks[0], Get(d, Str(ks[0])), default), d, ks[1..], default)
  }

  /** The `__default` entries held by `holder`, applied with the ordinary rule
      (lines 111-114 with `holder` the current level, lines 120-123 with
      `holder` the `by_id` section). */
  function ApplyDefaults(s: PassState, holder: Value): (r: PassState)
    requires GoodAttrs(s.attrs)
    requires HasKey(holder, Str(DefaultKey)) ==> IsStrKeyed(Get(holder, Str(DefaultKey)))
    ensures GoodAttrs(r.attrs)
    ensures s.attrs.Keys <= r.attrs.Keys
  {
    if HasKey(holder, Str(DefaultKey)) then
      var dconf := Get(holder, Str(DefaultKey));
      ApplyKeys(s, dconf, StrKeys(dconf), false)
    else s
  }

  function GenericKeys(el: Value): seq<string>
    requires IsStrKeyed(el)
  {
    GenericOnly(StrKeys(el))
  }

  function MatchKeys(el: Value): seq<string>
    requires IsStrKeyed(el)
  {
    MatchOnly(StrKeys(el))
  }

  lemma KeysPresent(el: Value)
    requires IsStrKeyed(el)
    ensures forall k :: k in GenericKeys(el) ==> HasKey(el, Str(k)) && IsGenericKey(k)
    ensures forall k :: k in MatchKeys(el) ==> HasKey(el, Str(k)) && IsMatchKey(k)
  {
    forall k | k in StrKeys(el) ensures HasKey(el, Str(k)) {
      var i :| 0 <= i < |StrKeys(el)| && StrKeys(el)[i] == k;
    }
  }

  /** `r_apply` (lines 96-125): one level of the document. */
  function Walk(s: PassState, el: Value, top: bool): (r: PassState)
    requires GoodAttrs(s.attrs) && WFLevel(el)
    ensures GoodAttrs(r.attrs)
    ensures s.attrs.Keys <= r.attrs.Keys
    decreases el, 3
  {
    KeysPresent(el);
    var s1 := ApplyKeys(s, el, GenericKeys(el), top);
    var s2 := MatchPhase(s1, el, MatchKeys(el));
    PriorityPhase(s2, el)
  }

  /** The loop over `by_<attr>` keys (lines 104-115). */
  function MatchPhase(s: PassState, el: Value, ks: seq<string>): (r: PassState)
    requires GoodAttrs(s.attrs) && WFLevel(el)
    requires forall k :: k in ks ==> HasKey(el, Str(k)) && IsMatchKey(k)
    ensures GoodAttrs(r.attrs)
    ensures s.attrs.Keys <= r.attrs.Keys
    decreases el, 2, |ks|
  {
    if ks == [] then s
    else
      var attrName := Drop(ks[0], |MatchPrefix|);
      var s1 := if attrName in s.attrs then MatchValues(s, el, ks[0], WList(s.attrs[attrName])) else s;
      MatchPhase(s1, el, ks[1..])
  }

  /** The loop over the node's values of one matched attribute (lines 108-115),
      taken as they stood when the section was reached: values that a branch
      appends to the same list are not visited. */
  function MatchValues(s: PassState, el: Value, k: string, vs: seq<Value>): (r: PassState)
    requires GoodAttrs(s.attrs) && WFLevel(el)
    requires HasKey(el, Str(k)) && IsMatchKey(k)
    ensures GoodAttrs(r.attrs)
    ensures s.attrs.Keys <= r.attrs.Keys
    decreases el, 1, |vs|
  {
    if vs == [] then s
    else
      SectionOf(el, k);
      var section := Get(el, Str(k));
      var s1 :=
        if HasKey(section, vs[0]) then
          BranchOf(section, vs[0]);
          Walk(ApplyDefaults(s, el), Get(section, vs[0]), false)
        else s;
      MatchValues(s1, el, k, vs[1..])
  }

  /** The `by_id` section (lines 117-125); an id that cannot be hashed finds
      no profile rather than raising. */
  function PriorityPhase(s: PassState, el: Value): (r: PassState)
    requires GoodAttrs(s.attrs) && WFLevel(el)
    ensures GoodAttrs(r.attrs)
    ensures s.attrs.Keys <= r.attrs.Keys
  {
    if HasKey(el, Str(PrioritySection)) then
      var sec := Get(el, Str(PrioritySection));
      var id := s.attrs["id"];
      if HasKey(sec, id) then
        ProfilesOf(sec);
        var pconf := Get(sec, id);
        ApplyKeys(ApplyDefaults(s, sec), pconf, NonDefault(StrKeys(pconf)), true)
      else s
    else s
  }

  /** `a` with the attributes of `fs` set to the empty list. */
  function Cleared(a: map<string, Value>, fs: set<string>): (r: map<string, Value>)
    ensures r.Keys == a.Keys + fs
    ensures forall k :: k in r ==> r[k] == if k in fs then List([]) else a[k]
  {
    map k | k in a.Keys + fs :: if k in fs then List([]) else a[k]
  }

  lemma ClearedStep(a: map<string, Value>, fs: set<string>, f: string)
    ensures Cleared(a, fs)[f := List([])] == Cleared(a, fs + {f})
  {
  }

  lemma ClearedNone(a: map<string, Value>)
    ensures Cleared(a, {}) == a
  {
  }

  lemma ClearedGood(a: map<string, Value>, fs: set<string>)
    requires GoodAttrs(a) && fs <= ResetKeys()
    ensures GoodAttrs(Cleared(a, fs))
  {
  }

  /** The four lists emptied, every other attribute kept (lines 133-137). */
  function Reset(a: map<string, Value>): (r: map<string, Value>)
    requires GoodAttrs(a)
    ensures GoodAttrs(r)
  {
    ClearedGood(a, ResetKeys());
    Cleared(a, ResetKeys())
  }

  /** `apply_conf(conf, clean)`: the node's attributes after the call. */
  function Resolve(a: map<string, Value>, conf: Value, clean: bool): (r: map<string, Value>)
    requires GoodAttrs(a) && WFLevel(conf)
    ensures GoodAttrs(r)
    ensures a.Keys <= r.Keys && (clean ==> ResetKeys() <= r.Keys)
  {
    Walk(PassState(if clean then Reset(a) else a, {}), conf, clean).attrs
  }
}
