/** The mapping from one inventory record to the arguments of `Node(...)`
    in `NodeManager._nodes_init` (cudet/nodes.py:486-516). The release map,
    which the source fetches from the Fuel master, is an input. */
module Records {
  import opened Values

  const RolesSep: string := ", "
  const UnknownRelease: Value := Str("n/a")

  // ---------------------------------------------------------------------
  // `str.split` and its inverse.

  /** `s.split(sep)` for a non-empty separator: cut at each occurrence of
      `sep`, scanning from the left, without overlaps. */
  function Split(s: string, sep: string): (r: seq<string>)
    requires |sep| > 0
    ensures |r| >= 1
    decreases |s|
  {
    if |s| < |sep| then [s]
    else if s[..|sep|] == sep then [""] + Split(s[|sep|..], sep)
    else
      var rest := Split(s[1..], sep);
      [[s[0]] + rest[0]] + rest[1..]
  }

  /** `sep.join(parts)`. */
  function Join(parts: seq<string>, sep: string): string {
    if parts == [] then ""
    else if |parts| == 1 then parts[0]
    else parts[0] + sep + Join(parts[1..], sep)
  }

  lemma JoinHead(c: char, parts: seq<string>, sep: string)
    requires parts != []
    ensures Join([[c] + parts[0]] + parts[1..], sep) == [c] + Join(parts, sep)
  {
    var q := [[c] + parts[0]] + parts[1..];
    assert q[1..] == parts[1..];
  }

  /** Splitting and joining back with the same separator gives the string
      again: the role string is cut into pieces and nothing is lost. */
  lemma {:induction false} JoinSplit(s: string, sep: string)
    requires |sep| > 0
    ensures Join(Split(s, sep), sep) == s
    decreases |s|
  {
    if |s| < |sep| {
    } else if s[..|sep|] == sep {
      var rest := Split(s[|sep|..], sep);
      JoinSplit(s[|sep|..], sep);
      assert ([""] + rest)[1..] == rest;
      assert s == sep + s[|sep|..];
    } else {
      var rest := Split(s[1..], sep);
      JoinSplit(s[1..], sep);
      JoinHead(s[0], rest, sep);
      assert s == [s[0]] + s[1..];
    }
  }

  // ---------------------------------------------------------------------
  // `int()`.

  predicate IsSpace(c: char) {
    c == ' ' || c == '\t' || c == '\n' || c == '\r' || c == '\U{B}' || c == '\U{C}'
  }

  /** `s.strip()`. */
  function Strip(s: string): (r: string)
    ensures |r| <= |s|
    ensures r != [] ==> !IsSpace(r[0]) && !IsSpace(r[|r| - 1])
    decreases |s|
  {
    if s == [] then s
    else if IsSpace(s[0]) then Strip(s[1..])
    else if IsSpace(s[|s| - 1]) then Strip(s[..|s| - 1])
    else s
  }

  /** `int(v)` for the values a JSON record holds: an int is kept, a bool
      gives 0 or 1, a string is parsed after surrounding white space is
      removed; anything else raises. */
  function PyInt(v: Value): (r: Result<int>)
    ensures v.Int? ==> r == Ok(v.i)
    ensures v.Bool? ==> r == Ok(if v.b then 1 else 0)
    ensures (v.Null? || v.List? || v.Dict?) ==> r.Err? && r.error.TypeError?
  {
    match v
    case Int(i) => Ok(i)
    case Bool(b) => Ok(if b then 1 else 0)
    case Str(s) =>
      var p := ParseInt(Strip(s));
      if p.Some? then Ok(p.value) else Err(ValueError("invalid literal for int()"))
    case _ => Err(TypeError("int() argument must be a string or a number"))
  }

  /** `int(str(i)) == i`. */
  lemma PyIntOfDecimal(i: int)
    ensures PyInt(Str(IntToString(i))) == Ok(i)
  {
    var s := IntToString(i);
    ParseIntOfIntToString(i);
    assert s != [] && !IsSpace(s[0]) && !IsSpace(s[|s| - 1]) by {
      if i < 0 {
        assert s[1..] == NatToString(-i);
        assert s[|s| - 1] == NatToString(-i)[|NatToString(-i)| - 1];
      }
    }
  }

  // ---------------------------------------------------------------------
  // The record.

  /** `node_data.get(k)`. */
  function RecordGet(rec: Value, k: string): (r: Value)
    requires rec.Dict?
    ensures HasKey(rec, Str(k)) ==> r == Get(rec, Str(k))
    ensures !HasKey(rec, Str(k)) ==> r == Null
  {
    if HasKey(rec, Str(k)) then Get(rec, Str(k)) else Null
  }

  /** Lines 488-495: no roles (or empty roles) become `['None']`, a list is
      kept, anything else is rendered with `str()` and cut at `', '`. */
  function NormalizeRoles(nodeRoles: Value): (roles: Value)
    ensures roles.List? && |roles.items| >= 1
    ensures !Truthy(nodeRoles) ==> roles == List([Str("None")])
    ensures Truthy(nodeRoles) && nodeRoles.List? ==> roles == nodeRoles
  {
    if !Truthy(nodeRoles) then List([Str("None")])
    else if nodeRoles.List? then nodeRoles
    else List(StrList(Split(Show(nodeRoles), RolesSep)))
  }

  function StrList(ss: seq<string>): (r: seq<Value>)
    ensures |r| == |ss|
    ensures forall i :: 0 <= i < |ss| ==> r[i] == Str(ss[i])
  {
    if ss == [] then [] else [Str(ss[0])] + StrList(ss[1..])
  }

  function Strings(vs: seq<Value>): (r: seq<string>)
    requires forall i :: 0 <= i < |vs| ==> vs[i].Str?
    ensures |r| == |vs|
  {
    if vs == [] then [] else [vs[0].s] + Strings(vs[1..])
  }

  lemma {:induction false} StringsOfStrList(ss: seq<string>)
    ensures Strings(StrList(ss)) == ss
  {
    if ss != [] {
      StringsOfStrList(ss[1..]);
      assert StrList(ss)[1..] == StrList(ss[1..]);
    }
  }

  /** A role string such as `'controller, mongo'` becomes one role per
      piece, and joining the pieces with `', '` gives the string back. */
  lemma RoleStringRoundTrip(nodeRoles: Value)
    requires Truthy(nodeRoles) && !nodeRoles.List?
    ensures var roles := NormalizeRoles(nodeRoles).items;
      (forall i :: 0 <= i < |roles| ==> roles[i].Str?)
      && Join(Strings(roles), RolesSep) == Show(nodeRoles)
  {
    var pieces := Split(Show(nodeRoles), RolesSep);
    StringsOfStrList(pieces);
    JoinSplit(Show(nodeRoles), RolesSep);
  }

  /** Lines 499-500: a falsy cluster becomes None. */
  function ClusterId(cluster: Value): (r: Value)
    ensures Truthy(cluster) ==> r == cluster
    ensures !Truthy(cluster) ==> r == Null
  {
    if Truthy(cluster) then cluster else Null
  }

  /** Line 502: `release_map.get(cluster_id, 'n/a')`. The map is None when
      the release lookup failed, and `.get` on None raises; a cluster id
      that cannot be hashed, such as a list, raises TypeError. */
  function ReleaseOf(releaseMap: Value, clusterId: Value): (r: Result<Value>)
    ensures r.Err? <==> !releaseMap.Dict? || !Hashable(clusterId)
    ensures !releaseMap.Dict? ==> r == Err(AttributeError("get"))
    ensures releaseMap.Dict? && !Hashable(clusterId) ==> r == Err(TypeError("unhashable"))
    ensures r.Ok? && HasKey(releaseMap, clusterId) ==> r.value == Get(releaseMap, clusterId)
    ensures r.Ok? && !HasKey(releaseMap, clusterId) ==> r.value == UnknownRelease
  {
    if !releaseMap.Dict? then Err(AttributeError("get"))
    else if !Hashable(clusterId) then Err(TypeError("unhashable"))
    else if HasKey(releaseMap, clusterId) then Ok(Get(releaseMap, clusterId))
    else Ok(UnknownRelease)
  }

  /** The keyword arguments of `Node(**params)` other than `conf`. */
  datatype NodeParams = NodeParams(
    id: int, name: Value, fqdn: Value, mac: Value, cluster: Value, release: Value,
    roles: Value, osPlatform: Value, online: Value, status: Value, ip: Value)

  /** The record fields copied verbatim, in the order of line 497. */
  const CopiedKeys: seq<string> := ["fqdn", "name", "mac", "os_platform", "status", "online", "ip"]

  /** The first of `ks` missing from the record, if any. */
  function FirstMissing(rec: Value, ks: seq<string>): (r: Option<string>)
    requires rec.Dict?
    ensures r.None? <==> forall k :: k in ks ==> HasKey(rec, Str(k))
    ensures r.Some? ==> r.value in ks && !HasKey(rec, Str(r.value))
  {
    if ks == [] then None
    else if !HasKey(rec, Str(ks[0])) then Some(ks[0])
    else FirstMissing(rec, ks[1..])
  }

  /** The record has every field of `CopiedKeys`. */
  predicate HasCopied(rec: Value) {
    HasKey(rec, Str("fqdn")) && HasKey(rec, Str("name")) && HasKey(rec, Str("mac"))
    && HasKey(rec, Str("os_platform")) && HasKey(rec, Str("status"))
    && HasKey(rec, Str("online")) && HasKey(rec, Str("ip"))
  }

  lemma CopiedPresent(rec: Value)
    requires rec.Dict?
    ensures FirstMissing(rec, CopiedKeys).None? <==> HasCopied(rec)
  {
    if HasCopied(rec) {
      CopiedAllPresent(rec);
    } else {
      CopiedOneMissing(rec);
    }
  }

  lemma CopiedAllPresent(rec: Value)
    requires rec.Dict? && HasCopied(rec)
    ensures forall k :: k in CopiedKeys ==> HasKey(rec, Str(k))
  {
    forall k | k in CopiedKeys
      ensures HasKey(rec, Str(k))
    {
      assert k == "fqdn" || k == "name" || k == "mac" || k == "os_platform"
        || k == "status" || k == "online" || k == "ip";
    }
  }

  lemma CopiedOneMissing(rec: Value)
    requires rec.Dict? && !HasCopied(rec)
    ensures exists k :: k in CopiedKeys && !HasKey(rec, Str(k))
  {
    var ks := CopiedKeys;
    assert ks[0] == "fqdn" && ks[1] == "name" && ks[2] == "mac" && ks[3] == "os_platform";
    assert ks[4] == "status" && ks[5] == "online" && ks[6] == "ip" && |ks| == 7;
    var i: int;
    if !HasKey(rec, Str("fqdn")) { i := 0; }
    else if !HasKey(rec, Str("name")) { i := 1; }
    else if !HasKey(rec, Str("mac")) { i := 2; }
    else if !HasKey(rec, Str("os_platform")) { i := 3; }
    else if !HasKey(rec, Str("status")) { i := 4; }
    else if !HasKey(rec, Str("online")) { i := 5; }
    else { i := 6; }
    assert ks[i] in ks && !HasKey(rec, Str(ks[i]));
  }

  /** Lines 487-513 for one record: raise as Python does on the first
      missing key or bad id, otherwise build the parameters. */
  function RecordToParams(rec: Value, releaseMap: Value): (r: Result<NodeParams>)
    requires rec.Dict?
    ensures !HasKey(rec, Str("id")) ==> r == Err(KeyError(Str("id")))
    ensures r.Ok? <==>
      HasKey(rec, Str("id")) && PyInt(Get(rec, Str("id"))).Ok?
      && HasKey(rec, Str("cluster")) && releaseMap.Dict?
      && Hashable(ClusterId(Get(rec, Str("cluster")))) && HasCopied(rec)
    ensures HasKey(rec, Str("id")) && PyInt(Get(rec, Str("id"))).Ok? && HasKey(rec, Str("cluster"))
            && releaseMap.Dict? && !Hashable(ClusterId(Get(rec, Str("cluster")))) ==>
              r == Err(TypeError("unhashable"))
    ensures r.Ok? ==>
      r.value.id == PyInt(Get(rec, Str("id"))).value
      && r.value.roles == NormalizeRoles(RecordGet(rec, "roles"))
      && r.value.cluster == ClusterId(Get(rec, Str("cluster")))
      && Ok(r.value.release) == ReleaseOf(releaseMap, r.value.cluster)
      && r.value.fqdn == Get(rec, Str("fqdn")) && r.value.name == Get(rec, Str("name"))
      && r.value.mac == Get(rec, Str("mac")) && r.value.osPlatform == Get(rec, Str("os_platform"))
      && r.value.status == Get(rec, Str("status")) && r.value.online == Get(rec, Str("online"))
      && r.value.ip == Get(rec, Str("ip"))
  {
    if !HasKey(rec, Str("id")) then Err(KeyError(Str("id")))
    else
      var id := PyInt(Get(rec, Str("id")));
      if id.Err? then Err(id.error)
      else
        var roles := NormalizeRoles(RecordGet(rec, "roles"));
        if !HasKey(rec, Str("cluster")) then Err(KeyError(Str("cluster")))
        else
          var clusterId := ClusterId(Get(rec, Str("cluster")));
          var release := ReleaseOf(releaseMap, clusterId);
          if release.Err? then Err(release.error)
          else
            var missing := FirstMissing(rec, CopiedKeys);
            CopiedPresent(rec);
            if missing.Some? then Err(KeyError(Str(missing.value)))
            else
              Ok(NodeParams(id.value, Get(rec, Str("name")), Get(rec, Str("fqdn")), Get(rec, Str("mac")),
                            clusterId, release.value, roles, Get(rec, Str("os_platform")),
                            Get(rec, Str("online")), Get(rec, Str("status")), Get(rec, Str("ip"))))
  }

  /** Every node built from a record has at least one role, and a release:
      the cluster's from the map, or `'n/a'` when the map does not know the
      cluster. */
  lemma ParamsRolesAndRelease(rec: Value, releaseMap: Value)
    requires rec.Dict? && RecordToParams(rec, releaseMap).Ok?
    ensures var p := RecordToParams(rec, releaseMap).value;
      p.roles.List? && |p.roles.items| >= 1
      && (HasKey(releaseMap, p.cluster) ==> p.release == Get(releaseMap, p.cluster))
      && (!HasKey(releaseMap, p.cluster) ==> p.release == UnknownRelease)
  {
  }
}
