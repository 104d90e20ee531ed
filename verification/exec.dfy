/** What `Node.exec_cmd(fake=True)` (cudet/nodes.py:140-206) computes: the
    `mapcmds` and `mapscr` maps from a command label or a script name to the
    file its output goes to, and the re-sorted `cmds` list. With `fake=True`
    nothing is run remotely and nothing is written. `Node.check_code`
    (lines 223-229) is the warn/no-warn predicate of the non-fake path. */
module Exec {
  import opened Values
  import opened Resolver
  import opened Paths

  // ---------------------------------------------------------------------
  // `sorted()`: an insertion sort by a total order `le` given by the caller.

  ghost predicate Total(le: (Value, Value) -> bool) {
    forall x, y :: le(x, y) || le(y, x)
  }

  predicate SortedBy(le: (Value, Value) -> bool, s: seq<Value>) {
    forall i :: 0 < i < |s| ==> le(s[i - 1], s[i])
  }

  function Insert(le: (Value, Value) -> bool, x: Value, s: seq<Value>): (r: seq<Value>)
    ensures multiset(r) == multiset(s) + multiset{x} && |r| == |s| + 1
    ensures |r| > 0 && (r[0] == x || (s != [] && r[0] == s[0]))
  {
    if s == [] || le(x, s[0]) then [x] + s
    else
      assert s == [s[0]] + s[1..];
      [s[0]] + Insert(le, x, s[1..])
  }

  lemma {:induction false} InsertSorted(le: (Value, Value) -> bool, x: Value, s: seq<Value>)
    requires Total(le) && SortedBy(le, s)
    ensures SortedBy(le, Insert(le, x, s))
  {
    if s != [] && !le(x, s[0]) {
      assert le(s[0], x);
      InsertSorted(le, x, s[1..]);
      var t := Insert(le, x, s[1..]);
      if s[1..] != [] {
        assert le(s[0], s[1]);
      }
      assert le(s[0], t[0]);
      var u := [s[0]] + t;
      forall i | 0 < i < |u| ensures le(u[i - 1], u[i]) {
        if i > 1 {
          assert u[i - 1] == t[i - 2] && u[i] == t[i - 1];
        }
      }
    }
  }

  /** `sorted(s)` for the order `le`. */
  function SortBy(le: (Value, Value) -> bool, s: seq<Value>): (r: seq<Value>)
    ensures multiset(r) == multiset(s) && |r| == |s|
  {
    if s == [] then []
    else
      assert s == s[..|s| - 1] + [s[|s| - 1]];
      Insert(le, s[|s| - 1], SortBy(le, s[..|s| - 1]))
  }

  /** The result of `sorted()` is in order and holds the same elements. */
  lemma {:induction false} SortBySorts(le: (Value, Value) -> bool, s: seq<Value>)
    requires Total(le)
    ensures SortedBy(le, SortBy(le, s)) && multiset(SortBy(le, s)) == multiset(s)
    decreases |s|
  {
    if s != [] {
      SortBySorts(le, s[..|s| - 1]);
      InsertSorted(le, s[|s| - 1], SortBy(le, s[..|s| - 1]));
    }
  }

  // ---------------------------------------------------------------------
  // A dict filled key by key with a value that depends on the key only.

  function MapOver<K(!new)>(f: K -> string, ks: seq<K>): (r: map<K, string>)
  {
    map k | k in ks :: f(k)
  }

  lemma MapOverCons<K(!new)>(f: K -> string, m: map<K, string>, ks: seq<K>)
    requires ks != []
    ensures m[ks[0] := f(ks[0])] + MapOver(f, ks[1..]) == m + MapOver(f, ks)
  {
    assert forall k :: k in ks <==> k == ks[0] || k in ks[1..];
  }

  lemma EmptyUnion<K, V>(m: map<K, V>)
    ensures map[] + m == m
  {
  }

  lemma UnionEmpty<K, V>(m: map<K, V>)
    ensures m + map[] == m
  {
  }

  lemma UnionAssoc<K, V>(a: map<K, V>, b: map<K, V>, c: map<K, V>)
    ensures (a + b) + c == a + (b + c)
  {
  }

  lemma MapOverAppend<K(!new)>(f: K -> string, k1: seq<K>, k2: seq<K>)
    ensures MapOver(f, k1 + k2) == MapOver(f, k1) + MapOver(f, k2)
  {
    assert forall k :: k in k1 + k2 <==> k in k1 || k in k2;
  }

  // ---------------------------------------------------------------------
  // Output names.

  /** The node's output directory `<outdir>/cmds/cluster-<cluster>/node-<id>`
      (lines 141-144). */
  function NodeDir(outdir: string, cluster: Value, id: Value): string {
    PathJoin(PathJoin(PathJoin(outdir, "cmds"), "cluster-" + Show(cluster)), "node-" + Show(id))
  }

  /** `'node-%s-%s-%s' % (id, ip, name)`. */
  function FileName(id: Value, ip: Value, name: string): string {
    "node-" + Show(id) + "-" + Show(ip) + "-" + name
  }

  /** What every output file name is made of. */
  datatype Naming = Naming(ddir: string, id: Value, ip: Value, suffix: string)

  /** The file for a name: `join(ddir, 'node-<id>-<ip>-<name>')` followed by
      the timestamp suffix. */
  function OutFile(n: Naming, name: string): string {
    PathJoin(n.ddir, FileName(n.id, n.ip, name)) + n.suffix
  }

  lemma NodeDirUnder(outdir: string, cluster: Value, id: Value)
    ensures StartsWith(NodeDir(outdir, cluster, id), outdir)
  {
    var d1 := PathJoin(outdir, "cmds");
    var d2 := PathJoin(d1, "cluster-" + Show(cluster));
    assert !IsAbsolute("cluster-" + Show(cluster));
    assert !IsAbsolute("node-" + Show(id));
    StartsWithTrans(d2, d1, outdir);
    StartsWithTrans(PathJoin(d2, "node-" + Show(id)), d2, outdir);
  }

  lemma JoinedFile(ddir: string, fname: string, suffix: string)
    requires !IsAbsolute(fname)
    ensures StartsWith(PathJoin(ddir, fname) + suffix, ddir)
    ensures Sep !in fname + suffix ==> Basename(PathJoin(ddir, fname) + suffix) == fname + suffix
  {
    var j := PathJoin(ddir, fname);
    StartsWithAppend(j, suffix, ddir);
    if Sep !in fname + suffix {
      assert Sep !in suffix && Sep !in fname by {
        assert forall c :: c in fname ==> c in fname + suffix;
        assert forall c :: c in suffix ==> c in fname + suffix;
      }
      BasenameExtend(j, suffix);
      BasenameOfJoin(ddir, fname);
      BasenameOfAppend([], fname);
      assert [] + fname == fname;
    }
  }

  /** Every output file lies under `<outdir>/cmds/cluster-<cluster>/node-<id>`
      and is named after the node, its address and the given name. */
  lemma OutFileNamed(outdir: string, cluster: Value, id: Value, ip: Value, suffix: string, name: string)
    ensures var n := Naming(NodeDir(outdir, cluster, id), id, ip, suffix);
      StartsWith(OutFile(n, name), n.ddir)
      && StartsWith(n.ddir, outdir)
      && (Sep !in FileName(id, ip, name) + suffix ==> Basename(OutFile(n, name)) == FileName(id, ip, name) + suffix)
  {
    NodeDirUnder(outdir, cluster, id);
    assert FileName(id, ip, name)[0] == 'n';
    JoinedFile(NodeDir(outdir, cluster, id), FileName(id, ip, name), suffix);
  }

  // ---------------------------------------------------------------------
  // `mapcmds` (lines 147-171).

  /** `for cmd in c`: the keys of a dict, the items of a list, the
      characters of a string; anything else is not iterable. */
  function Labels(c: Value): (r: Result<seq<Value>>)
    ensures r.Ok? <==> c.Dict? || c.List? || c.Str?
    ensures c.Dict? ==> r == Ok(Keys(c))
    ensures c.List? ==> r == Ok(c.items)
    ensures c.Str? ==> r.Ok? && |r.value| == |c.s| && forall i :: 0 <= i < |c.s| ==> r.value[i] == Str([c.s[i]])
  {
    match c
    case Dict(_) => Ok(Keys(c))
    case List(items) => Ok(items)
    case Str(s) => Ok(seq(|s|, i requires 0 <= i < |s| => Str([s[i]])))
    case _ => Err(TypeError("not iterable"))
  }

  /** The inner loop over one entry's labels: each label's file is computed
      (reading the naming, which may raise) and stored under the label. */
  function AddLabels(n: Result<Naming>, m: map<Value, string>, ls: seq<Value>): (r: Result<map<Value, string>>)
    decreases |ls|
  {
    if ls == [] then Ok(m)
    else if n.Err? then Err(n.error)
    else if !Hashable(ls[0]) then Err(TypeError("unhashable"))
    else AddLabels(n, m[ls[0] := OutFile(n.value, Show(ls[0]))], ls[1..])
  }

  /** The outer loop over the sorted `cmds`. */
  function AddCmds(n: Result<Naming>, m: map<Value, string>, cmds: seq<Value>): (r: Result<map<Value, string>>)
    decreases |cmds|
  {
    if cmds == [] then Ok(m)
    else
      var ls := Labels(cmds[0]);
      if ls.Err? then Err(ls.error)
      else
        var m' := AddLabels(n, m, ls.value);
        if m'.Err? then m' else AddCmds(n, m'.value, cmds[1..])
  }

  /** The labels of an entry, none when it is not iterable. */
  function LabelsOf(c: Value): seq<Value> {
    var ls := Labels(c);
    if ls.Ok? then ls.value else []
  }

  /** Every label of every entry, in order. */
  function AllLabels(cmds: seq<Value>): seq<Value> {
    if cmds == [] then [] else LabelsOf(cmds[0]) + AllLabels(cmds[1..])
  }

  /** A label is a label of some entry. */
  lemma {:induction false} AllLabelsMembers(cmds: seq<Value>)
    ensures forall l :: l in AllLabels(cmds) <==> exists c :: c in cmds && l in LabelsOf(c)
  {
    if cmds != [] {
      AllLabelsMembers(cmds[1..]);
      assert forall c :: c in cmds <==> c == cmds[0] || c in cmds[1..];
    }
  }

  predicate AllIterable(cmds: seq<Value>) {
    forall c :: c in cmds ==> Labels(c).Ok?
  }

  predicate AllHashable(ls: seq<Value>) {
    forall l :: l in ls ==> Hashable(l)
  }

  /** The file of a command label. */
  function LabelFile(n: Naming): Value -> string {
    (l: Value) => OutFile(n, Show(l))
  }

  /** The file of a script name. */
  function ScriptFile(n: Naming): string -> string {
    (x: string) => OutFile(n, Basename(x))
  }

  function LabelFiles(n: Naming, ls: seq<Value>): map<Value, string> {
    MapOver(LabelFile(n), ls)
  }

  lemma LabelFilesAppend(n: Naming, l1: seq<Value>, l2: seq<Value>)
    ensures LabelFiles(n, l1 + l2) == LabelFiles(n, l1) + LabelFiles(n, l2)
  {
    MapOverAppend(LabelFile(n), l1, l2);
  }

  lemma {:induction false} AddLabelsOk(n: Naming, m: map<Value, string>, ls: seq<Value>)
    requires AllHashable(ls)
    ensures AddLabels(Ok(n), m, ls) == Ok(m + LabelFiles(n, ls))
    decreases |ls|
  {
    if ls != [] {
      assert ls[0] in ls;
      assert forall l :: l in ls[1..] ==> l in ls;
      var f := LabelFile(n);
      assert f(ls[0]) == OutFile(n, Show(ls[0]));
      var m' := m[ls[0] := OutFile(n, Show(ls[0]))];
      assert AddLabels(Ok(n), m, ls) == AddLabels(Ok(n), m', ls[1..]);
      AddLabelsOk(n, m', ls[1..]);
      assert AddLabels(Ok(n), m', ls[1..]) == Ok(m' + LabelFiles(n, ls[1..]));
      MapOverCons(f, m, ls);
    } else {
      assert LabelFiles(n, ls) == map[];
      UnionEmpty(m);
    }
  }

  lemma {:induction false} AddLabelsOkIff(n: Result<Naming>, m: map<Value, string>, ls: seq<Value>)
    ensures AddLabels(n, m, ls).Ok? <==> AllHashable(ls) && (ls == [] || n.Ok?)
    decreases |ls|
  {
    if ls != [] {
      assert ls[0] in ls;
      assert forall l :: l in ls <==> l == ls[0] || l in ls[1..];
      if n.Ok? && Hashable(ls[0]) {
        AddLabelsOkIff(n, m[ls[0] := OutFile(n.value, Show(ls[0]))], ls[1..]);
      }
    }
  }

  /** `mapcmds` when every entry is iterable and every label hashable: the
      labels, each mapped to its file. */
  lemma {:induction false} AddCmdsOk(n: Naming, m: map<Value, string>, cmds: seq<Value>)
    requires AllIterable(cmds) && AllHashable(AllLabels(cmds))
    ensures AddCmds(Ok(n), m, cmds) == Ok(m + LabelFiles(n, AllLabels(cmds)))
    decreases |cmds|
  {
    if cmds != [] {
      assert cmds[0] in cmds;
      var l0 := LabelsOf(cmds[0]);
      var rest := AllLabels(cmds[1..]);
      assert AllLabels(cmds) == l0 + rest;
      assert forall l :: l in l0 + rest <==> l in l0 || l in rest;
      assert forall c :: c in cmds[1..] ==> c in cmds;
      assert forall l :: l in l0 ==> l in AllLabels(cmds);
      assert forall l :: l in rest ==> l in AllLabels(cmds);
      assert Labels(cmds[0]) == Ok(l0);
      AddLabelsOk(n, m, l0);
      var m1 := m + LabelFiles(n, l0);
      assert AddCmds(Ok(n), m, cmds) == AddCmds(Ok(n), m1, cmds[1..]);
      AddCmdsOk(n, m1, cmds[1..]);
      LabelFilesAppend(n, l0, rest);
      UnionAssoc(m, LabelFiles(n, l0), LabelFiles(n, rest));
    } else {
      assert LabelFiles(n, AllLabels(cmds)) == map[];
      UnionEmpty(m);
    }
  }

  /** Without labels, `mapcmds` stays as it was, whatever the naming. */
  lemma {:induction false} AddCmdsNoLabels(n: Result<Naming>, m: map<Value, string>, cmds: seq<Value>)
    requires AllIterable(cmds) && AllLabels(cmds) == []
    ensures AddCmds(n, m, cmds) == Ok(m)
    decreases |cmds|
  {
    if cmds != [] {
      assert cmds[0] in cmds;
      assert forall c :: c in cmds[1..] ==> c in cmds;
      assert AllLabels(cmds) == LabelsOf(cmds[0]) + AllLabels(cmds[1..]);
      AddCmdsNoLabels(n, m, cmds[1..]);
    }
  }

  /** When `mapcmds` can be built: every entry iterable, every label
      hashable, and the naming readable once there is a label. */
  lemma {:induction false} AddCmdsOkIff(n: Result<Naming>, m: map<Value, string>, cmds: seq<Value>)
    ensures AddCmds(n, m, cmds).Ok? <==>
              AllIterable(cmds) && AllHashable(AllLabels(cmds)) && (AllLabels(cmds) == [] || n.Ok?)
    decreases |cmds|
  {
    if cmds != [] {
      assert cmds[0] in cmds;
      assert forall c :: c in cmds <==> c == cmds[0] || c in cmds[1..];
      var l0 := LabelsOf(cmds[0]);
      var rest := AllLabels(cmds[1..]);
      assert AllLabels(cmds) == l0 + rest;
      assert forall l :: l in l0 + rest <==> l in l0 || l in rest;
      if Labels(cmds[0]).Ok? {
        AddLabelsOkIff(n, m, l0);
        var m' := AddLabels(n, m, l0);
        if m'.Ok? {
          AddCmdsOkIff(n, m'.value, cmds[1..]);
        }
      }
    }
  }

  /** `mapcmds` in closed form: it can be built exactly when every entry is
      iterable, every label hashable and the naming readable if there is a
      label; it then maps exactly the labels, each to its file. */
  lemma AddCmdsResult(n: Result<Naming>, m: map<Value, string>, cmds: seq<Value>)
    ensures var r := AddCmds(n, m, cmds);
      (r.Ok? <==> AllIterable(cmds) && AllHashable(AllLabels(cmds)) && (AllLabels(cmds) == [] || n.Ok?))
      && (r.Ok? ==> r.value == if AllLabels(cmds) == [] then m else m + LabelFiles(n.value, AllLabels(cmds)))
  {
    AddCmdsOkIff(n, m, cmds);
    if AddCmds(n, m, cmds).Ok? {
      if AllLabels(cmds) == [] {
        AddCmdsNoLabels(n, m, cmds);
      } else {
        AddCmdsOk(n.value, m, cmds);
      }
    }
  }

  // ---------------------------------------------------------------------
  // `mapscr` (lines 172-205).

  /** The script's name (lines 176-184). A dict entry stands for its first
      key, its first value being the script's environment; an empty dict
      raises IndexError. Any other script reads the node's `env_vars`
      first, which raises AttributeError when `env` is false (the node has
      none). A string then names itself; a list reaches `posixpath`, which
      raises AttributeError on it; any other value fails the separator
      test with TypeError. */
  function ScriptName(env: bool, scr: Value): (r: Result<string>)
    ensures r.Ok? <==> (scr.Str? && env) || (scr.Dict? && scr.entries != [] && scr.entries[0].key.Str?)
    ensures r.Ok? ==> r.value == if scr.Str? then scr.s else scr.entries[0].key.s
    ensures !scr.Dict? && !env ==> r == Err(AttributeError("env_vars"))
  {
    match scr
    case Dict(es) =>
      if es == [] then Err(IndexError)
      else if es[0].key.Str? then Ok(es[0].key.s)
      else Err(TypeError("script name"))
    case Str(name) => if env then Ok(name) else Err(AttributeError("env_vars"))
    case List(_) => if env then Err(AttributeError("script name")) else Err(AttributeError("env_vars"))
    case _ => if env then Err(TypeError("script name")) else Err(AttributeError("env_vars"))
  }

  /** The script's path: taken as it is when it holds a separator, otherwise
      looked up under `<rqdir>/scripts`. */
  function ScriptPath(rqdir: Result<string>, name: string): (r: Result<string>)
    ensures Sep in name ==> r == Ok(name)
    ensures Sep !in name ==> (r.Ok? <==> rqdir.Ok?)
    ensures r.Ok? ==> Basename(r.value) == Basename(name)
  {
    if Sep in name then Ok(name)
    else if rqdir.Err? then Err(rqdir.error)
    else
      BasenameOfJoin(PathJoin(rqdir.value, "scripts"), name);
      Ok(PathJoin(PathJoin(rqdir.value, "scripts"), name))
  }

  /** The loop over the sorted scripts. */
  function AddScripts(n: Result<Naming>, rqdir: Result<string>, env: bool, m: map<string, string>,
                      scripts: seq<Value>): (r: Result<map<string, string>>)
    decreases |scripts|
  {
    if scripts == [] then Ok(m)
    else
      var name := ScriptName(env, scripts[0]);
      if name.Err? then Err(name.error)
      else
        var f := ScriptPath(rqdir, name.value);
        if f.Err? then Err(f.error)
        else if n.Err? then Err(n.error)
        else AddScripts(n, rqdir, env, m[name.value := OutFile(n.value, Basename(f.value))], scripts[1..])
  }

  /** The names of the scripts that have one, in order. */
  function Names(env: bool, scripts: seq<Value>): seq<string> {
    if scripts == [] then []
    else (if ScriptName(env, scripts[0]).Ok? then [ScriptName(env, scripts[0]).value] else []) + Names(env, scripts[1..])
  }

  /** A name is the name of some script. */
  lemma {:induction false} NamesMembers(env: bool, scripts: seq<Value>)
    ensures forall x :: x in Names(env, scripts) <==> exists s :: s in scripts && ScriptName(env, s) == Ok(x)
  {
    if scripts != [] {
      NamesMembers(env, scripts[1..]);
      assert forall s :: s in scripts <==> s == scripts[0] || s in scripts[1..];
    }
  }

  /** Every script has a name and a path. */
  predicate AllScriptsResolve(rqdir: Result<string>, env: bool, scripts: seq<Value>) {
    forall s :: s in scripts ==> ScriptName(env, s).Ok? && ScriptPath(rqdir, ScriptName(env, s).value).Ok?
  }

  /** Every script name mapped to its output file. The file depends on the
      name only through the basename of the script's path, which is the
      basename of the name itself. */
  function ScriptFiles(n: Naming, names: seq<string>): map<string, string> {
    MapOver(ScriptFile(n), names)
  }

  /** One pass of the loop, with the output file as the loop computes it. */
  lemma AddScriptsUnfold(n: Naming, rqdir: Result<string>, env: bool, m: map<string, string>, scripts: seq<Value>)
    requires scripts != [] && ScriptName(env, scripts[0]).Ok?
    requires ScriptPath(rqdir, ScriptName(env, scripts[0]).value).Ok?
    ensures var name := ScriptName(env, scripts[0]).value;
      AddScripts(Ok(n), rqdir, env, m, scripts)
      == AddScripts(Ok(n), rqdir, env, m[name := OutFile(n, Basename(ScriptPath(rqdir, name).value))], scripts[1..])
  {
  }

  lemma AddScriptsStep(n: Naming, rqdir: Result<string>, env: bool, m: map<string, string>, scripts: seq<Value>)
    requires scripts != [] && ScriptName(env, scripts[0]).Ok?
    requires ScriptPath(rqdir, ScriptName(env, scripts[0]).value).Ok?
    ensures var name := ScriptName(env, scripts[0]).value;
      AddScripts(Ok(n), rqdir, env, m, scripts)
      == AddScripts(Ok(n), rqdir, env, m[name := ScriptFile(n)(name)], scripts[1..])
  {
    var name := ScriptName(env, scripts[0]).value;
    AddScriptsUnfold(n, rqdir, env, m, scripts);
    assert Basename(ScriptPath(rqdir, name).value) == Basename(name);
  }

  lemma {:induction false} AddScriptsOk(n: Naming, rqdir: Result<string>, env: bool, m: map<string, string>,
                                        scripts: seq<Value>)
    requires AllScriptsResolve(rqdir, env, scripts)
    ensures AddScripts(Ok(n), rqdir, env, m, scripts) == Ok(m + ScriptFiles(n, Names(env, scripts)))
    decreases |scripts|
  {
    if scripts != [] {
      var rest := scripts[1..];
      assert scripts[0] in scripts;
      assert AllScriptsResolve(rqdir, env, rest) by {
        forall s | s in rest ensures s in scripts { }
      }
      var name := ScriptName(env, scripts[0]).value;
      var g := ScriptFile(n);
      var m1 := m[name := g(name)];
      AddScriptsStep(n, rqdir, env, m, scripts);
      AddScriptsOk(n, rqdir, env, m1, rest);
      var tl := Names(env, rest);
      var ns := Names(env, scripts);
      assert ns == [name] + tl;
      assert ns[0] == name && ns[1..] == tl;
      assert ScriptFiles(n, tl) == MapOver(g, tl);
      MapOverCons(g, m, ns);
    } else {
      AddScriptsNil(n, rqdir, env, m);
    }
  }

  lemma AddScriptsNil(n: Naming, rqdir: Result<string>, env: bool, m: map<string, string>)
    ensures AddScripts(Ok(n), rqdir, env, m, []) == Ok(m + ScriptFiles(n, Names(env, [])))
  {
    assert ScriptFiles(n, []) == map[];
    UnionEmpty(m);
  }

  lemma {:induction false} AddScriptsOkIff(n: Result<Naming>, rqdir: Result<string>, env: bool, m: map<string, string>,
                                           scripts: seq<Value>)
    ensures AddScripts(n, rqdir, env, m, scripts).Ok? <==> AllScriptsResolve(rqdir, env, scripts) && (scripts == [] || n.Ok?)
    decreases |scripts|
  {
    if scripts != [] {
      var name := ScriptName(env, scripts[0]);
      if name.Ok? && ScriptPath(rqdir, name.value).Ok? && n.Ok? {
        var f := ScriptPath(rqdir, name.value).value;
        AddScriptsOkIff(n, rqdir, env, m[name.value := OutFile(n.value, Basename(f))], scripts[1..]);
      }
      AddScriptsOkStep(n, rqdir, env, m, scripts);
    }
  }

  /** The first script is stored and the rest of the list decides. */
  lemma AddScriptsOkStep(n: Result<Naming>, rqdir: Result<string>, env: bool, m: map<string, string>, scripts: seq<Value>)
    requires scripts != []
    requires var name := ScriptName(env, scripts[0]);
      name.Ok? && ScriptPath(rqdir, name.value).Ok? && n.Ok? ==>
        var f := ScriptPath(rqdir, name.value).value;
        (AddScripts(n, rqdir, env, m[name.value := OutFile(n.value, Basename(f))], scripts[1..]).Ok?
         <==> AllScriptsResolve(rqdir, env, scripts[1..]))
    ensures AddScripts(n, rqdir, env, m, scripts).Ok? <==> AllScriptsResolve(rqdir, env, scripts) && n.Ok?
  {
    AllScriptsResolveCons(rqdir, env, scripts);
  }

  lemma AllScriptsResolveCons(rqdir: Result<string>, env: bool, scripts: seq<Value>)
    requires scripts != []
    ensures AllScriptsResolve(rqdir, env, scripts) <==>
      ScriptName(env, scripts[0]).Ok? && ScriptPath(rqdir, ScriptName(env, scripts[0]).value).Ok?
      && AllScriptsResolve(rqdir, env, scripts[1..])
  {
    assert scripts[0] in scripts;
    assert forall s :: s in scripts <==> s == scripts[0] || s in scripts[1..];
  }

  /** `mapscr` in closed form: it can be built exactly when every script
      has a name (which needs `env_vars` for a script that is not a dict)
      and a path and the naming is readable if there is a
      script; it then maps exactly the names, each to its file. */
  lemma AddScriptsResult(n: Result<Naming>, rqdir: Result<string>, env: bool, m: map<string, string>, scripts: seq<Value>)
    ensures var r := AddScripts(n, rqdir, env, m, scripts);
      (r.Ok? <==> AllScriptsResolve(rqdir, env, scripts) && (scripts == [] || n.Ok?))
      && (r.Ok? ==> r.value == if scripts == [] then m else m + ScriptFiles(n.value, Names(env, scripts)))
  {
    AddScriptsOkIff(n, rqdir, env, m, scripts);
    if AddScripts(n, rqdir, env, m, scripts).Ok? && scripts != [] {
      AddScriptsOk(n.value, rqdir, env, m, scripts);
    }
  }

  // ---------------------------------------------------------------------
  // The whole fake run.

  /** The two maps `exec_cmd` returns. */
  datatype Maps = Maps(cmds: map<Value, string>, scripts: map<string, string>)

  /** A directory attribute, `self.outdir` (lines 143-144) or `self.rqdir`
      (line 184), as the first argument of `posixpath.join`: AttributeError
      when the node has none, and AttributeError for `endswith` when it is
      not a string, since the next part (`cmds` or `scripts`) is relative. */
  function DirAttr(a: map<string, Value>, name: string): (r: Result<string>)
    ensures r.Ok? <==> name in a && a[name].Str?
    ensures r.Ok? ==> r.value == a[name].s
    ensures name !in a ==> r == Err(AttributeError(name))
    ensures name in a && !a[name].Str? ==> r == Err(AttributeError("endswith"))
  {
    if name !in a then Err(AttributeError(name))
    else if !a[name].Str? then Err(AttributeError("endswith"))
    else Ok(a[name].s)
  }

  /** The timestamp suffix: `outputs_timestamp_str` when `outputs_timestamp`
      is truthy, nothing otherwise (lines 153-154 and 188-189). */
  function SuffixOf(a: map<string, Value>): (r: Result<string>)
    ensures r.Ok? && "outputs_timestamp" in a && !Truthy(a["outputs_timestamp"]) ==> r.value == ""
    ensures "outputs_timestamp" in a && Truthy(a["outputs_timestamp"]) ==>
              (r.Ok? <==> "outputs_timestamp_str" in a && a["outputs_timestamp_str"].Str?)
              && (r.Ok? ==> r.value == a["outputs_timestamp_str"].s)
  {
    if "outputs_timestamp" !in a then Err(AttributeError("outputs_timestamp"))
    else if !Truthy(a["outputs_timestamp"]) then Ok("")
    else if "outputs_timestamp_str" !in a then Err(AttributeError("outputs_timestamp_str"))
    else if !a["outputs_timestamp_str"].Str? then Err(TypeError("outputs_timestamp_str"))
    else Ok(a["outputs_timestamp_str"].s)
  }

  /** The naming of the node's files, given its directory; reading `ip` and
      the suffix may raise, which happens at the first file named. */
  function NamingOf(a: map<string, Value>, ddir: string): (r: Result<Naming>)
    requires "id" in a
    ensures r.Ok? <==> "ip" in a && SuffixOf(a).Ok?
    ensures r.Ok? ==> r.value == Naming(ddir, a["id"], a["ip"], SuffixOf(a).value)
  {
    if "ip" !in a then Err(AttributeError("ip"))
    else
      var sfx := SuffixOf(a);
      if sfx.Err? then Err(sfx.error)
      else Ok(Naming(ddir, a["id"], a["ip"], sfx.value))
  }

  /** The node directory, when `cluster` and `outdir` can be read. */
  function DirOf(a: map<string, Value>): (r: Result<string>)
    requires "id" in a
    ensures r.Ok? <==> "cluster" in a && DirAttr(a, "outdir").Ok?
    ensures r.Ok? ==> r.value == NodeDir(DirAttr(a, "outdir").value, a["cluster"], a["id"])
  {
    if "cluster" !in a then Err(AttributeError("cluster"))
    else
      var od := DirAttr(a, "outdir");
      if od.Err? then Err(od.error)
      else Ok(NodeDir(od.value, a["cluster"], a["id"]))
  }

  /** `exec_cmd(fake=True)` on a node with attributes `a`, sorting by `le`. */
  function ExecFake(a: map<string, Value>, le: (Value, Value) -> bool): (r: Result<Maps>)
    requires GoodAttrs(a)
    ensures r.Ok? ==> DirOf(a).Ok?
  {
    var dir := DirOf(a);
    if dir.Err? then Err(dir.error)
    else
      var n := NamingOf(a, dir.value);
      var mc := AddCmds(n, map[], SortBy(le, a["cmds"].items));
      if mc.Err? then Err(mc.error)
      else
        var ms := AddScripts(n, DirAttr(a, "rqdir"), "env_vars" in a, map[], SortBy(le, a["scripts"].items));
        if ms.Err? then Err(ms.error)
        else Ok(Maps(mc.value, ms.value))
  }

  /** The node's attributes after the fake run: `cmds` is re-sorted once the
      directory has been formed. */
  function AfterExec(a: map<string, Value>, le: (Value, Value) -> bool): (r: map<string, Value>)
    requires GoodAttrs(a)
    ensures GoodAttrs(r) && r.Keys == a.Keys
    ensures forall k :: k in a && k != "cmds" ==> r[k] == a[k]
    ensures DirOf(a).Ok? ==> multiset(r["cmds"].items) == multiset(a["cmds"].items)
    ensures DirOf(a).Err? ==> r == a
  {
    if DirOf(a).Ok? then a["cmds" := List(SortBy(le, a["cmds"].items))] else a
  }

  lemma MapOverSameMembers<K(!new)>(f: K -> string, k1: seq<K>, k2: seq<K>)
    requires forall k :: k in k1 <==> k in k2
    ensures MapOver(f, k1) == MapOver(f, k2)
  {
  }

  lemma SameMembers(c1: seq<Value>, c2: seq<Value>)
    requires multiset(c1) == multiset(c2)
    ensures forall c :: c in c1 <==> c in c2
  {
    forall c ensures c in c1 <==> c in c2 {
      assert c in c1 <==> c in multiset(c1);
      assert c in c2 <==> c in multiset(c2);
    }
  }

  lemma SameLabels(c1: seq<Value>, c2: seq<Value>)
    requires forall c :: c in c1 <==> c in c2
    ensures AllIterable(c1) <==> AllIterable(c2)
    ensures forall l :: l in AllLabels(c1) <==> l in AllLabels(c2)
    ensures (AllLabels(c1) == []) <==> (AllLabels(c2) == [])
  {
    AllLabelsMembers(c1);
    AllLabelsMembers(c2);
    forall l | l in AllLabels(c1) ensures l in AllLabels(c2) {
      var c :| c in c1 && l in LabelsOf(c);
      assert c in c2;
    }
    forall l | l in AllLabels(c2) ensures l in AllLabels(c1) {
      var c :| c in c2 && l in LabelsOf(c);
      assert c in c1;
    }
    if AllLabels(c1) != [] {
      assert AllLabels(c1)[0] in AllLabels(c2);
    }
    if AllLabels(c2) != [] {
      assert AllLabels(c2)[0] in AllLabels(c1);
    }
  }

  lemma SameNames(rqdir: Result<string>, env: bool, s1: seq<Value>, s2: seq<Value>)
    requires forall s :: s in s1 <==> s in s2
    ensures AllScriptsResolve(rqdir, env, s1) <==> AllScriptsResolve(rqdir, env, s2)
    ensures forall x :: x in Names(env, s1) <==> x in Names(env, s2)
    ensures (s1 == []) <==> (s2 == [])
  {
    NamesMembers(env, s1);
    NamesMembers(env, s2);
    forall x | x in Names(env, s1) ensures x in Names(env, s2) {
      var s :| s in s1 && ScriptName(env, s) == Ok(x);
      assert s in s2;
    }
    forall x | x in Names(env, s2) ensures x in Names(env, s1) {
      var s :| s in s2 && ScriptName(env, s) == Ok(x);
      assert s in s1;
    }
    if s1 != [] {
      assert s1[0] in s2;
    }
    if s2 != [] {
      assert s2[0] in s1;
    }
  }

  /** `mapcmds` depends on the entries of `cmds`, not on their order. */
  lemma CmdsIgnoreOrder(n: Result<Naming>, c1: seq<Value>, c2: seq<Value>)
    requires multiset(c1) == multiset(c2)
    ensures AddCmds(n, map[], c1).Ok? <==> AddCmds(n, map[], c2).Ok?
    ensures AddCmds(n, map[], c1).Ok? ==> AddCmds(n, map[], c1) == AddCmds(n, map[], c2)
  {
    SameMembers(c1, c2);
    SameLabels(c1, c2);
    AddCmdsResult(n, map[], c1);
    AddCmdsResult(n, map[], c2);
    if AllLabels(c1) != [] && n.Ok? {
      MapOverSameMembers(LabelFile(n.value), AllLabels(c1), AllLabels(c2));
    }
  }

  /** `mapscr` depends on the entries of `scripts`, not on their order. */
  lemma ScriptsIgnoreOrder(n: Result<Naming>, rqdir: Result<string>, env: bool, s1: seq<Value>, s2: seq<Value>)
    requires multiset(s1) == multiset(s2)
    ensures AddScripts(n, rqdir, env, map[], s1).Ok? <==> AddScripts(n, rqdir, env, map[], s2).Ok?
    ensures AddScripts(n, rqdir, env, map[], s1).Ok? ==> AddScripts(n, rqdir, env, map[], s1) == AddScripts(n, rqdir, env, map[], s2)
  {
    SameMembers(s1, s2);
    SameNames(rqdir, env, s1, s2);
    AddScriptsResult(n, rqdir, env, map[], s1);
    AddScriptsResult(n, rqdir, env, map[], s2);
    if s1 != [] && n.Ok? {
      MapOverSameMembers(ScriptFile(n.value), Names(env, s1), Names(env, s2));
    }
  }

  /** The maps do not depend on the order `sorted()` puts the lists in:
      any two orders give the same outcome, up to which error is raised
      first. */
  lemma MapsIgnoreSortOrder(a: map<string, Value>, le1: (Value, Value) -> bool, le2: (Value, Value) -> bool)
    requires GoodAttrs(a)
    ensures ExecFake(a, le1).Ok? <==> ExecFake(a, le2).Ok?
    ensures ExecFake(a, le1).Ok? ==> ExecFake(a, le1) == ExecFake(a, le2)
  {
    if DirOf(a).Ok? {
      var n := NamingOf(a, DirOf(a).value);
      CmdsIgnoreOrder(n, SortBy(le1, a["cmds"].items), SortBy(le2, a["cmds"].items));
      ScriptsIgnoreOrder(n, DirAttr(a, "rqdir"), "env_vars" in a, SortBy(le1, a["scripts"].items), SortBy(le2, a["scripts"].items));
    }
  }

  /** `mapcmds` has one entry per command label, mapped to
      `<outdir>/cmds/cluster-<cluster>/node-<id>/node-<id>-<ip>-<label>` plus
      the suffix; `mapscr` one per script name, mapped to the same directory
      and the basename of the name. */
  lemma ExecFakeMaps(a: map<string, Value>, le: (Value, Value) -> bool)
    requires GoodAttrs(a)
    ensures var r := ExecFake(a, le);
      r.Ok? ==>
        var n := NamingOf(a, DirOf(a).value);
        (forall l :: l in r.value.cmds <==> exists c :: c in a["cmds"].items && l in LabelsOf(c))
        && (forall l :: l in r.value.cmds ==> n.Ok? && r.value.cmds[l] == OutFile(n.value, Show(l)))
        && (forall x :: x in r.value.scripts <==> exists s :: s in a["scripts"].items && ScriptName("env_vars" in a, s) == Ok(x))
        && (forall x :: x in r.value.scripts ==> n.Ok? && r.value.scripts[x] == OutFile(n.value, Basename(x)))
        && (forall s :: s in a["scripts"].items && !s.Dict? ==> "env_vars" in a)
  {
    var r := ExecFake(a, le);
    if r.Ok? {
      var n := NamingOf(a, DirOf(a).value);
      var cs := SortBy(le, a["cmds"].items);
      var ss := SortBy(le, a["scripts"].items);
      CmdsMaps(n, cs, a["cmds"].items);
      ScriptsMaps(n, DirAttr(a, "rqdir"), "env_vars" in a, ss, a["scripts"].items);
    }
  }

  lemma CmdsMaps(n: Result<Naming>, cs: seq<Value>, orig: seq<Value>)
    requires multiset(cs) == multiset(orig) && AddCmds(n, map[], cs).Ok?
    ensures var mc := AddCmds(n, map[], cs).value;
      (forall l :: l in mc <==> exists c :: c in orig && l in LabelsOf(c))
      && (forall l :: l in mc ==> n.Ok? && mc[l] == OutFile(n.value, Show(l)))
  {
    AddCmdsResult(n, map[], cs);
    SameMembers(cs, orig);
    SameLabels(cs, orig);
    AllLabelsMembers(orig);
    var mc := AddCmds(n, map[], cs).value;
    assert forall l :: l in mc <==> l in AllLabels(cs);
    if AllLabels(cs) != [] {
      var lf := LabelFiles(n.value, AllLabels(cs));
      EmptyUnion(lf);
      assert mc == lf;
      forall l | l in mc ensures mc[l] == OutFile(n.value, Show(l)) {
        assert mc[l] == LabelFile(n.value)(l);
      }
    }
  }

  lemma ScriptsMaps(n: Result<Naming>, rqdir: Result<string>, env: bool, ss: seq<Value>, orig: seq<Value>)
    requires multiset(ss) == multiset(orig) && AddScripts(n, rqdir, env, map[], ss).Ok?
    ensures var ms := AddScripts(n, rqdir, env, map[], ss).value;
      (forall x :: x in ms <==> exists s :: s in orig && ScriptName(env, s) == Ok(x))
      && (forall x :: x in ms ==> n.Ok? && ms[x] == OutFile(n.value, Basename(x)))
      && AllScriptsResolve(rqdir, env, orig)
  {
    AddScriptsResult(n, rqdir, env, map[], ss);
    SameMembers(ss, orig);
    SameNames(rqdir, env, ss, orig);
    NamesMembers(env, orig);
    var ms := AddScripts(n, rqdir, env, map[], ss).value;
    if ss != [] {
      var sf := ScriptFiles(n.value, Names(env, ss));
      EmptyUnion(sf);
      assert ms == sf;
      forall x | x in ms ensures ms[x] == OutFile(n.value, Basename(x)) {
        assert ms[x] == ScriptFile(n.value)(x);
      }
    } else {
      assert Names(env, ss) == [];
    }
  }

  // ---------------------------------------------------------------------
  // `check_code` (lines 223-229).

  /** Whether a command's exit code draws a warning: a non-zero code warns
      unless `ok_codes` is a non-empty list that holds it. */
  predicate Warns(code: int, okCodes: Option<seq<int>>) {
    code != 0 && (okCodes.None? || okCodes.value == [] || code !in okCodes.value)
  }

  /** A code is accepted exactly when it is zero or listed; the test for an
      empty list adds nothing to the membership test. */
  lemma WarnsIff(code: int, okCodes: Option<seq<int>>)
    ensures !Warns(code, okCodes) <==> code == 0 || (okCodes.Some? && code in okCodes.value)
  {
  }
}
