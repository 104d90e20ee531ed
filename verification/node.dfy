/** `Node` (cudet/nodes.py:35-229): one managed host. Its attributes are set
    by name from the configuration document (`setattr`/`getattr`/`hasattr`),
    so the class keeps them in one map. */
module Nodes {
  import opened Values
  import opened Resolver
  import opened Paths
  import opened Exec

  /** The attributes `Node.__init__` sets before it resolves the document
      (lines 55-77); `logs` is not among them. */
  function InitialAttrs(id: Value, name: Value, fqdn: Value, mac: Value, cluster: Value,
                        release: Value, roles: Value, osPlatform: Value, online: Value,
                        status: Value, ip: Value): (a: map<string, Value>)
    ensures GoodAttrs(a) && "logs" !in a
  {
    map["id" := id, "mac" := mac, "cluster" := cluster, "roles" := roles,
        "os_platform" := osPlatform, "online" := online, "status" := status, "ip" := ip,
        "release" := release, "files" := List([]), "filelists" := List([]),
        "cmds" := List([]), "scripts" := List([]), "put" := List([]), "data" := Dict([]),
        "logsize" := Int(0), "mapcmds" := Dict([]), "mapscr" := Dict([]), "name" := name,
        "fqdn" := fqdn, "outputs_timestamp" := Bool(false), "outputs_timestamp_dir" := Null]
  }

  class Node {
    /** The node's instance attributes by name. */
    var attrs: map<string, Value>

    ghost predicate Valid()
      reads this
    {
      GoodAttrs(attrs)
    }

    /** `Node.__init__`: set the identity and the empty action lists, then
        resolve the document with a clean pass. */
    constructor (id: Value, name: Value, fqdn: Value, mac: Value, cluster: Value,
                 release: Value, roles: Value, osPlatform: Value, online: Value,
                 status: Value, ip: Value, conf: Value)
      requires WFLevel(conf)
      ensures Valid()
      ensures attrs == Resolve(InitialAttrs(id, name, fqdn, mac, cluster, release, roles,
                                            osPlatform, online, status, ip), conf, true)
    {
      attrs := InitialAttrs(id, name, fqdn, mac, cluster, release, roles,
                            osPlatform, online, status, ip);
      new;
      ApplyConf(conf, true);
    }

    /** `apply_conf(conf, clean)` (lines 81-138). */
    method ApplyConf(conf: Value, clean: bool)
      requires Valid() && WFLevel(conf)
      modifies this
      ensures Valid()
      ensures attrs == Resolve(old(attrs), conf, clean)
    {
      if clean {
        ClearLists();
      }
      var overridden := RApply(conf, {}, clean);
    }

    /** Lines 133-137: empty the appendable keep-default lists, so that a
        repeated call does not duplicate their content. */
    method ClearLists()
      requires Valid()
      modifies this
      ensures Valid()
      ensures attrs == Reset(old(attrs))
    {
      var fs := ResetKeys();
      ghost var a0 := attrs;
      ghost var done: set<string> := {};
      ClearedNone(a0);
      while fs != {}
        invariant done + fs == ResetKeys() && done !! fs
        invariant attrs == Cleared(a0, done)
        decreases |fs|
      {
        var f :| f in fs;
        ClearedStep(a0, done, f);
        attrs := attrs[f := List([])];
        fs := fs - {f};
        done := done + {f};
      }
      ClearedGood(a0, ResetKeys());
    }

    /** The inner `apply` (lines 83-94). */
    method ApplyOne(k: string, v: Value, o: set<string>, default: bool) returns (o': set<string>)
      requires Valid()
      modifies this
      ensures Valid()
      ensures PassState(attrs, o') == Apply(PassState(old(attrs), o), k, v, default)
    {
      o' := o;
      if k in Appendable {
        if default || (k !in KeepDefault && k !in o) || k !in attrs {
          attrs := attrs[k := List(WList(v))];
        } else {
          attrs := attrs[k := List(attrs[k].items + WList(v))];
        }
        if !default {
          o' := o' + {k};
        }
      } else {
        attrs := attrs[k := v];
      }
    }

    /** `for k in ks: apply(k, d[k], ..., default)`. */
    method ApplyEach(d: Value, ks: seq<string>, o: set<string>, default: bool) returns (o': set<string>)
      requires Valid()
      requires forall k :: k in ks ==> HasKey(d, Str(k))
      modifies this
      ensures Valid()
      ensures PassState(attrs, o') == ApplyKeys(PassState(old(attrs), o), d, ks, default)
    {
      o' := o;
      var i := 0;
      while i < |ks|
        invariant 0 <= i <= |ks|
        invariant Valid()
        invariant ApplyKeys(PassState(attrs, o'), d, ks[i..], default)
                  == ApplyKeys(PassState(old(attrs), o), d, ks, default)
      {
        assert ks[i] in ks;
        assert ks[i..][1..] == ks[i + 1..];
        o' := ApplyOne(ks[i], Get(d, Str(ks[i])), o', default);
        i := i + 1;
      }
    }

    /** `r_apply` (lines 96-125): walk one level of the document; `top` holds
        exactly at the first level of a clean pass. */
    method RApply(el: Value, o: set<string>, top: bool) returns (o': set<string>)
      requires Valid() && WFLevel(el)
      modifies this
      ensures Valid()
      ensures PassState(attrs, o') == Walk(PassState(old(attrs), o), el, top)
      decreases el, 2
    {
      KeysPresent(el);
      // plain attributes
      o' := ApplyEach(el, GenericKeys(el), o, top);
      // match attributes (by_xxx except by_id)
      ghost var s1 := PassState(attrs, o');
      var mks := MatchKeys(el);
      var j := 0;
      while j < |mks|
        invariant 0 <= j <= |mks|
        invariant Valid()
        invariant MatchPhase(PassState(attrs, o'), el, mks[j..]) == MatchPhase(s1, el, mks)
      {
        assert mks[j] in mks;
        assert mks[j..][1..] == mks[j + 1..];
        o' := MatchSection(el, mks[j], o');
        j := j + 1;
      }
      // priority attributes (by_id)
      o' := PriorityStep(el, o');
    }

    /** One `by_<attr>` section (lines 104-115): for each value of the
        node's attribute that is a branch key, the level's `__default`
        entries, then the branch. The values are fixed before the loop. */
    method MatchSection(el: Value, k: string, o: set<string>) returns (o': set<string>)
      requires Valid() && WFLevel(el) && HasKey(el, Str(k)) && IsMatchKey(k)
      modifies this
      ensures Valid()
      ensures var name := Drop(k, |MatchPrefix|);
        PassState(attrs, o') ==
          if name in old(attrs) then MatchValues(PassState(old(attrs), o), el, k, WList(old(attrs)[name]))
          else PassState(old(attrs), o)
      decreases el, 1
    {
      o' := o;
      var attrName := Drop(k, |MatchPrefix|);
      if attrName in attrs {
        var vals := WList(attrs[attrName]);
        ghost var sv := PassState(attrs, o');
        SectionOf(el, k);
        var section := Get(el, Str(k));
        var t := 0;
        while t < |vals|
          invariant 0 <= t <= |vals|
          invariant Valid()
          invariant MatchValues(PassState(attrs, o'), el, k, vals[t..])
                    == MatchValues(sv, el, k, vals)
        {
          assert vals[t..][1..] == vals[t + 1..];
          var v := vals[t];
          if HasKey(section, v) {
            var subconf := Get(section, v);
            BranchOf(section, v);
            if HasKey(el, Str(DefaultKey)) {
              var dconf := Get(el, Str(DefaultKey));
              o' := ApplyEach(dconf, StrKeys(dconf), o', false);
            }
            o' := RApply(subconf, o', false);
          }
          t := t + 1;
        }
      }
    }

    /** The `by_id` section (lines 117-125): the section's `__default`
        entries, then the node's own profile, which replaces. */
    method PriorityStep(el: Value, o: set<string>) returns (o': set<string>)
      requires Valid() && WFLevel(el)
      modifies this
      ensures Valid()
      ensures PassState(attrs, o') == PriorityPhase(PassState(old(attrs), o), el)
    {
      o' := o;
      if HasKey(el, Str(PrioritySection)) {
        var sec := Get(el, Str(PrioritySection));
        if HasKey(sec, attrs["id"]) {
          ProfilesOf(sec);
          var pconf := Get(sec, attrs["id"]);
          if HasKey(sec, Str(DefaultKey)) {
            var dconf := Get(sec, Str(DefaultKey));
            o' := ApplyEach(dconf, StrKeys(dconf), o', false);
          }
          o' := ApplyEach(pconf, NonDefault(StrKeys(pconf)), o', true);
        }
      }
    }

    /** `exec_cmd(fake=True)` (lines 140-206): name the node's directory,
        re-sort `cmds`, then name one output file per command label and
        one per script. The maps are returned; only `cmds` changes. */
    method ExecCmdFake(le: (Value, Value) -> bool) returns (r: Result<Maps>)
      requires Valid()
      modifies this
      ensures Valid()
      ensures r == ExecFake(old(attrs), le)
      ensures attrs == AfterExec(old(attrs), le)
    {
      var dir := DirOf(attrs);
      if dir.Err? {
        return Err(dir.error);
      }
      var n := NamingOf(attrs, dir.value);
      var cmds := SortBy(le, attrs["cmds"].items);
      var scripts := SortBy(le, attrs["scripts"].items);
      var rq := DirAttr(attrs, "rqdir");
      var env := "env_vars" in attrs;
      attrs := attrs["cmds" := List(cmds)];
      var mapcmds := FillCmds(n, cmds);
      if mapcmds.Err? {
        return Err(mapcmds.error);
      }
      var mapscr := FillScripts(n, rq, env, scripts);
      if mapscr.Err? {
        return Err(mapscr.error);
      }
      r := Ok(Maps(mapcmds.value, mapscr.value));
    }

    /** `for c in self.cmds: for cmd in c: mapcmds[cmd] = dfile`. */
    method FillCmds(n: Result<Naming>, cmds: seq<Value>) returns (r: Result<map<Value, string>>)
      ensures r == AddCmds(n, map[], cmds)
    {
      var m: map<Value, string> := map[];
      var i := 0;
      while i < |cmds|
        invariant 0 <= i <= |cmds|
        invariant AddCmds(n, m, cmds[i..]) == AddCmds(n, map[], cmds)
      {
        assert cmds[i..][1..] == cmds[i + 1..];
        var ls := Labels(cmds[i]);
        if ls.Err? {
          return Err(ls.error);
        }
        var m' := FillLabels(n, m, ls.value);
        if m'.Err? {
          return m';
        }
        m := m'.value;
        i := i + 1;
      }
      r := Ok(m);
    }

    /** `for cmd in c`: one entry's labels. */
    method FillLabels(n: Result<Naming>, m0: map<Value, string>, ls: seq<Value>)
      returns (r: Result<map<Value, string>>)
      ensures r == AddLabels(n, m0, ls)
    {
      var m := m0;
      var j := 0;
      while j < |ls|
        invariant 0 <= j <= |ls|
        invariant AddLabels(n, m, ls[j..]) == AddLabels(n, m0, ls)
      {
        assert ls[j..][1..] == ls[j + 1..];
        if n.Err? {
          return Err(n.error);
        }
        if !Hashable(ls[j]) {
          return Err(TypeError("unhashable"));
        }
        m := m[ls[j] := OutFile(n.value, Show(ls[j]))];
        j := j + 1;
      }
      r := Ok(m);
    }

    /** `for scr in scripts: ... mapscr[scr] = dfile`. */
    method FillScripts(n: Result<Naming>, rq: Result<string>, env: bool, scripts: seq<Value>)
      returns (r: Result<map<string, string>>)
      ensures r == AddScripts(n, rq, env, map[], scripts)
    {
      var m: map<string, string> := map[];
      var k := 0;
      while k < |scripts|
        invariant 0 <= k <= |scripts|
        invariant AddScripts(n, rq, env, m, scripts[k..]) == AddScripts(n, rq, env, map[], scripts)
      {
        assert scripts[k..][1..] == scripts[k + 1..];
        var name := ScriptName(env, scripts[k]);
        if name.Err? {
          return Err(name.error);
        }
        var f := ScriptPath(rq, name.value);
        if f.Err? {
          return Err(f.error);
        }
        if n.Err? {
          return Err(n.error);
        }
        m := m[name.value := OutFile(n.value, Basename(f.value))];
        k := k + 1;
      }
      r := Ok(m);
    }
  }
}
