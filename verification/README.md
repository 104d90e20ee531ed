# cudet node model

A Dafny model of the node logic of cudet (`cudet/nodes.py`). This is the part of the
diagnostic collector that decides, for each Fuel-managed host, what to collect and
where to put the results:

- `Node.apply_conf` resolves the layered configuration document into a node's
  attributes. Generic keys apply first, then `by_<attr>` match sections, then the
  `by_id` profile. The six action lists are replaced or extended by a fixed rule.
- `NodeManager._conf_assign_once` hands each value of a `once_by_<attr>` section to
  the first node that holds it.
- `NodeFilter` narrows the inventory records by the configured filters.
  `_check_filtration_results` then refuses a non-empty inventory that the filters
  emptied.
- `_nodes_init` turns each surviving record into the arguments of `Node(...)` and
  stores the node under its ip. `_fuel_node_init` adds the master's own node first
  when the filters ask for it.
- `NodeManager.__init__` then resolves the document over every node a second time
  and runs the once-assigner.
- `Node.exec_cmd(fake=True)` re-sorts the node's commands and names one output file
  per command label and per script.

## Layout

- `values.dfy`: Python values (`None`, bool, int, str, list, dict as an ordered
  entry list), truthiness, `str()`, `int()`, `w_list`, and the exceptions raised on
  the modelled paths.
- `resolver.dfy`, `resolver_props.dfy`, `resolver_frame.dfy`: `apply_conf` as
  functions over an attribute map.
  - The contribution rule.
  - Resolving a whole document.
  - Which attributes a pass can touch.
  - Why a second clean pass does not double the action lists.
- `node.dfy`: the class `Node`. Its `attrs` map is updated in place by `ApplyConf`
  and its helpers. Each is proved to end in the state `Resolver.Resolve` computes.
  `ExecCmdFake` is proved equal to `Exec.ExecFake`.
- `paths.dfy`, `exec.dfy`: `os.path.join`, `os.path.basename` and the fake run of
  `exec_cmd`.
- `once.dfy`: the once-assigner over the nodes' attribute maps.
- `records.dfy`: from an inventory record to the parameters of `Node(...)`.
- `filter.dfy`: `NodeFilter` and the empty-result check.
- `manager.dfy`: the class `NodeManager`.
  - It holds the table `self.nodes` as its keys and its nodes, in iteration order.
  - Its methods fill the table and configure the nodes.
  - Each method is proved to end in the state the functions `Fill`, `Start`,
    `ReapplyAll` and `Once.AssignOnce` compute.
- `manager_props.dfy`: what the record loop promises, namely:
  - its error;
  - the keys it stores and their order;
  - that a later record with the same ip replaces an earlier one.

## Model

| member | source | states |
|---|---|---|
| Values.Dedup | cudet/nodes.py:541 | the keys of `dict((k, None) for k in s)`: exactly the elements of `s`, each once |
| Resolver.ResetKeysAreFourLists | cudet/nodes.py:136 | `set(conf_appendable) & set(conf_keep_default)` is exactly cmds, scripts, files and filelists; logs and put are not in it |
| Resolver.Apply | cudet/nodes.py:83-94 | one contribution sets only attribute `k`, keeps every other attribute, and adds `k` to `overridden` exactly when `k` is appendable and the call is not `default` |
| Resolver.ApplyKeys | cudet/nodes.py:98-102 | applying one level's keys keeps the attribute map well formed and removes no attribute |
| Resolver.ApplyDefaults | cudet/nodes.py:110-123 | applying a `__default` block keeps the attribute map well formed and removes no attribute |
| Resolver.MatchValues | cudet/nodes.py:108-115 | the loop over the node's values of one matched attribute removes no attribute |
| Resolver.Reset | cudet/nodes.py:133-137 | emptying the four lists keeps the attribute map well formed |
| Resolver.Walk | cudet/nodes.py:96-125 | one level of `r_apply` never removes an attribute |
| Resolver.MatchPhase | cudet/nodes.py:104-115 | the `by_<attr>` loop never removes an attribute |
| Resolver.PriorityPhase | cudet/nodes.py:117-125 | the `by_id` step never removes an attribute |
| Resolver.Resolve | cudet/nodes.py:81-138 | `apply_conf` keeps every attribute the node had; after a clean call the four lists exist |
| ResolverProps.ResetEmptiesFourLists | cudet/nodes.py:133-137 | a clean call first sets exactly cmds, scripts, files and filelists to `[]` and leaves logs, put and every other attribute as they were |
| ResolverProps.ApplyExtends | cudet/nodes.py:83-92 | an ordinary contribution to a keep-default list, or to one already overridden in this pass, extends it by `w_list(v)` |
| ResolverProps.ApplyFirstReplaces | cudet/nodes.py:83-92 | an ordinary contribution to an absent list, or to logs/put not yet overridden in this pass, replaces it by `w_list(v)` and marks it overridden |
| ResolverProps.ApplyReplaces | cudet/nodes.py:83-94 | a `default` contribution, or one to a non-appendable key, replaces the value and leaves `overridden` alone |
| ResolverProps.LaterContributionsExtend | cudet/nodes.py:83-92 | a run of ordinary contributions to a list that extends appends all of them, in order |
| ResolverProps.FirstContributionReplaces | cudet/nodes.py:83-92 | a run that starts by replacing leaves the list holding exactly what the run contributed |
| ResolverProps.LogsAndPutReplacedOnFirstContribution | cudet/nodes.py:83-92 | in a fresh pass, logs and put are replaced on their first ordinary contribution and extended after it |
| ResolverProps.ReplacingContributionsKeepLast | cudet/nodes.py:83-94 | replacing contributions leave the last value |
| ResolverProps.ReplacingKeysSettle | cudet/nodes.py:98-102 | after the top level of a clean pass, each generic key holds its own value from the document and every other attribute is unchanged |
| ResolverProps.PlainDocumentResolves | cudet/nodes.py:96-102 | a document of generic keys only resolves, on a clean call, to each key's value, whatever the node held before |
| ResolverProps.IdProfileReplaces | cudet/nodes.py:117-125 | when the node's id is a key of `by_id`, each non-default key of its profile ends up holding the profile's value |
| ResolverProps.UnmatchedValuesAreInert | cudet/nodes.py:108-115 | values that are not branch keys contribute nothing, not even the level's `__default` |
| ResolverProps.SectionGate | cudet/nodes.py:104-115 | a `by_<attr>` section does nothing to a node that lacks the attribute or has none of its branch values |
| ResolverFrame.WalkFrame | cudet/nodes.py:96-125 | a document that assigns no attribute of R leaves R as it was, at any depth |
| ResolverFrame.WalkSim | cudet/nodes.py:96-125 | two nodes that agree on R and the four lists still agree on them after the same walk |
| ResolverFrame.ResetKeepsOthers | cudet/nodes.py:133-137 | the reset keeps every attribute outside the four lists |
| ResolverFrame.IdProfileWins | cudet/nodes.py:117-125 | the `by_id` profile wins over everything else at the top level of the document |
| ResolverFrame.CleanPassIdempotent | cudet/nodes.py:133-138 | a second clean call leaves the id, the attributes the match keys read, and the four lists as the first call left them |
| ResolverFrame.ReapplyKeepsLists | cudet/nodes.py:134-135 | calling `apply_conf` again does not duplicate the content of cmds, scripts, files or filelists |
| Nodes.InitialAttrs | cudet/nodes.py:55-77 | the attributes set before the document is resolved form a well-formed map without `logs` |
| Nodes.Node.constructor | cudet/nodes.py:53-78 | the new node's attributes are the document resolved, with a clean pass, over the initial attributes |
| Nodes.Node.ApplyConf | cudet/nodes.py:81-138 | the in-place walk ends in `Resolve(old attrs, conf, clean)` |
| Nodes.Node.ClearLists | cudet/nodes.py:133-137 | the loop over the four lists ends in `Reset(old attrs)` |
| Nodes.Node.ApplyOne | cudet/nodes.py:83-94 | the in-place `setattr`/`extend` ends in `Apply` |
| Nodes.Node.ApplyEach | cudet/nodes.py:98-102 | the loop over one level's keys ends in `ApplyKeys` |
| Nodes.Node.RApply | cudet/nodes.py:96-125 | the recursive walk ends in `Walk` |
| Nodes.Node.MatchSection | cudet/nodes.py:104-115 | one `by_<attr>` section ends in `MatchValues` over the node's values, or changes nothing when the node lacks the attribute |
| Nodes.Node.PriorityStep | cudet/nodes.py:117-125 | the `by_id` step ends in `PriorityPhase` |
| Nodes.Node.ExecCmdFake | cudet/nodes.py:140-206 | the fake run returns `ExecFake` of the old attributes and only re-sorts `cmds` |
| Nodes.Node.FillCmds | cudet/nodes.py:148-156 | the loop over the sorted commands builds the map `AddCmds` defines |
| Nodes.Node.FillLabels | cudet/nodes.py:150-156 | the loop over one entry's labels builds the map `AddLabels` defines |
| Nodes.Node.FillScripts | cudet/nodes.py:173-191 | the loop over the sorted scripts builds the map `AddScripts` defines, reading `env_vars` for every script that is not a dict |
| Paths.PathJoin | cudet/nodes.py:144 | joining a relative name keeps the directory as a prefix and the name as a suffix |
| Paths.BasenameIsLastPart | cudet/nodes.py:187 | the basename holds no separator and is what follows the last one |
| Paths.BasenameOfJoin | cudet/nodes.py:184-187 | the basename of a script found under `rqdir/scripts` is the basename of its name |
| Exec.SortBySorts | cudet/nodes.py:147 | `sorted()` returns its input in order and as a permutation |
| Exec.OutFileNamed | cudet/nodes.py:141-154 | every output file lies under `outdir/cmds/cluster-<cluster>/node-<id>` and its basename is `node-<id>-<ip>-<name>` plus the suffix |
| Exec.AddCmdsResult | cudet/nodes.py:148-156 | `mapcmds` is built exactly when every entry is iterable, every label hashable and the naming readable once there is a label; it maps exactly the labels, each to its file |
| Exec.ScriptPath | cudet/nodes.py:181-184 | a name with a separator is its own path; any other name needs `rqdir`; either way the basename is kept |
| Exec.AddScriptsResult | cudet/nodes.py:173-191 | `mapscr` is built exactly when every script has a name (a non-dict script needing `env_vars`) and a path and the naming is readable; it maps exactly the names, each to the file of its basename |
| Exec.CmdsIgnoreOrder | cudet/nodes.py:147-156 | `mapcmds` depends on the entries of `cmds`, not on their order |
| Exec.ScriptsIgnoreOrder | cudet/nodes.py:173-191 | `mapscr` depends on the entries of `scripts`, not on their order |
| Exec.AfterExec | cudet/nodes.py:147 | only `cmds` changes, and it is a permutation of the old list |
| Exec.ExecFake | cudet/nodes.py:140-206 | the fake run succeeds only when the node directory can be formed |
| Exec.MapsIgnoreSortOrder | cudet/nodes.py:147-191 | the returned maps do not depend on the sort order |
| Exec.ExecFakeMaps | cudet/nodes.py:141-191 | `mapcmds` has one entry per command label, at its named file; `mapscr` has one entry per script name, at the file of its basename; a successful run with a script that is not a dict had `env_vars` to read |
| Exec.DirAttr | cudet/nodes.py:143-144 | reading `outdir` or `rqdir` succeeds exactly for a string, which is returned; a missing attribute raises AttributeError, and a value that is not a string raises AttributeError for `endswith` inside `posixpath.join` |
| Exec.WarnsIff | cudet/nodes.py:223-229 | a code is accepted exactly when it is zero or listed in `ok_codes` |
| Once.OnceKeys | cudet/nodes.py:539 | the `once_` keys of the document, each once |
| Once.Candidates | cudet/nodes.py:541 | a section's candidate values are exactly its keys, each once |
| Once.FirstHolder | cudet/nodes.py:543-547 | the first node from a position on whose attribute holds the value |
| Once.ClaimFrom | cudet/nodes.py:543-553 | only holders of the value get its sub-document, resolved without clean; every other node is unchanged |
| Once.ClaimInNodeOrder | cudet/nodes.py:542-553 | the nodes that receive a value's sub-document are visited in table order, each at most once |
| Once.ClaimGoesToFirstHolder | cudet/nodes.py:543-553 | when every node holding the value has a truthy id, exactly the first holder gets the sub-document; other nodes may have any id |
| Once.FalsyIdsLetEveryHolderClaim | cudet/nodes.py:550-552 | when the claimants' ids are falsy (id 0, as the master node has), every holder gets it |
| Once.ClaimKeepsIds | cudet/nodes.py:549-550 | a sub-document that assigns no `id` keeps every node's id |
| Once.ClaimEach | cudet/nodes.py:541-553 | every grant of a section is for one of its values and a valid node; nodes without a grant are unchanged |
| Once.AssignFrom | cudet/nodes.py:539-553 | every grant names one of the given `once_` keys and a node; nodes without a grant are unchanged |
| Once.ResolveKeepsId | cudet/nodes.py:549-550 | a sub-document that assigns no `id` leaves the claimant's id as it was |
| Once.AssignOnce | cudet/nodes.py:535-553 | every grant names a `once_` key and a node; nodes without a grant are unchanged |
| Once.ClaimEachOnce | cudet/nodes.py:541-553 | when every holder of a section's values has a truthy id, each value is granted at most once, ids are kept and nodes with a falsy id are left as they were |
| Once.AssignFromOnce | cudet/nodes.py:539-553 | when every holder of a candidate value of each section has a truthy id, each value of each section is granted at most once, ids are kept and nodes with a falsy id are left as they were |
| Once.AtMostOneNodePerValue | cudet/nodes.py:535-553 | when every node holding a candidate value has a truthy id and no sub-document assigns `id`, no value reaches two nodes; the master (id 0) is covered when it holds no candidate value |
| Records.PyIntOfDecimal | cudet/nodes.py:487 | `int(str(i)) == i` |
| Records.JoinSplit | cudet/nodes.py:495 | `', '.join(s.split(', ')) == s` |
| Records.NormalizeRoles | cudet/nodes.py:488-495 | no roles become `['None']`, a list is kept, anything else is split at `', '`; the result is a non-empty list |
| Records.RoleStringRoundTrip | cudet/nodes.py:494-495 | the roles cut from a role string join back to `str()` of it |
| Records.CopiedPresent | cudet/nodes.py:512-513 | the first missing copied field is found exactly when one is missing |
| Records.RecordToParams | cudet/nodes.py:486-513 | a record yields parameters exactly when `id` converts, `cluster` and every copied field are present, the release map is a dict and a truthy cluster is hashable; a missing `id` raises KeyError('id') and an unhashable cluster TypeError; the parameters are the record's fields with the looked-up release |
| Records.ParamsRolesAndRelease | cudet/nodes.py:488-508 | the built roles are a non-empty list and the release is the cluster's or `'n/a'` |
| Filter.NonEmpty | cudet/nodes.py:604 | `len(v) > 0` is truthiness on values with a length and raises on the others |
| Filter.PlainAttrs | cudet/nodes.py:600-601 | the filter keys other than `check_master` and `online` |
| Filter.NonEmptyAttrs | cudet/nodes.py:603-604 | the attributes whose accepted values are non-empty, or the error of a value without a length |
| Filter.FilterAttrsAre | cudet/nodes.py:599-606 | the attributes narrowed by are exactly the non-empty filter keys other than `check_master` and `online` |
| Filter.OnlineFilter | cudet/nodes.py:608-609 | the online records |
| Filter.SelectMembers | cudet/nodes.py:593-594 | the narrowed records are exactly those that pass every attribute |
| Filter.NarrowStep | cudet/nodes.py:611-624 | narrowing by one more attribute is selecting by all of them |
| Filter.FilterNodes | cudet/nodes.py:588-597 | `filter_nodes` fails with the preparation's error, or with TypeError exactly when `SelectRaises` holds, and otherwise returns the records selected by all attributes |
| Filter.SelectRaisesIff | cudet/nodes.py:593-594 | narrowing raises exactly when some record passes the attributes before some `attrs[i]` and its value, or the accepted values of `attrs[i]`, holds a list or dict inside a list |
| Filter.FilterKeepsExactlyMatching | cudet/nodes.py:588-624 | a record survives exactly when, for every non-empty filter key other than `check_master` and `online`, its value and the accepted values share an element |
| Filter.OnlineFlagIgnored | cudet/nodes.py:596 | removing `online` from the filters changes neither the error, nor whether narrowing raises, nor the records |
| Filter.EmptyFilterKeepsAll | cudet/nodes.py:593-597 | with no attribute to narrow by, every record survives |
| Filter.AllFilteredIff | cudet/nodes.py:518-526 | filtering then checking fails exactly when the inventory is non-empty and no record passes every attribute |
| Manager.Position | cudet/nodes.py:516 | the place of a key among the table's keys, or the table's length |
| Manager.Lookup | cudet/nodes.py:516 | a lookup finds something exactly for a key of the table |
| Manager.Put | cudet/nodes.py:516 | `self.nodes[key] = node` keeps keys distinct and in place, appends a new key last, and changes no other key's node |
| Manager.PutLookup | cudet/nodes.py:516 | after the assignment the key finds the new node and every other key what it found before |
| Manager.NodeAttrs | cudet/nodes.py:515 | a record's node has an ip |
| Manager.AddFuel | cudet/nodes.py:329-348 | the master's node: exit status 7 for a falsy `fuel_ip` and the table unchanged; stored exactly when `fuel_ip` is truthy and hashable, under `fuel_ip`, with every other key finding what it found before |
| Manager.LoadNodes | cudet/nodes.py:479-516 | an error preparing the filters, or the TypeError of an unhashable filter value, is returned with the table unchanged; a non-empty inventory in which no record passes every filter attribute fails with AllNodesFiltered and the table unchanged |
| Manager.ReapplyAll | cudet/nodes.py:555-557 | every node is resolved again, and the table keeps its length |
| ManagerProps.InsertRecordsOutcome | cudet/nodes.py:486-516 | the loop stores every record exactly when every record yields a node; otherwise it fails with the first failing record's error; earlier keys keep their places; a complete fill holds exactly the earlier keys and the records' ips |
| ManagerProps.InsertRecordsLastWins | cudet/nodes.py:515-516 | after a complete fill, a record's ip holds that record's node unless a later record has the same ip |
| ManagerProps.InsertSlotsStatus | cudet/nodes.py:486-516 | the loop ends in the first failure's error, or in success when there is none |
| ManagerProps.InsertSlotsKeys | cudet/nodes.py:486-516 | every earlier key keeps its index, and a complete loop stores exactly the earlier keys and the outcomes' keys |
| ManagerProps.InsertSlotsLastWins | cudet/nodes.py:516 | the last outcome with a key is what the key holds |
| ManagerProps.ReapplyAllSettles | cudet/nodes.py:555-557 | the second pass over nodes that already resolved the document leaves their ids, matched attributes and four lists as they were |
| Manager.NodeManager.constructor | cudet/nodes.py:236-257 | the table starts empty |
| Manager.NodeManager.Store | cudet/nodes.py:516 | the dict assignment: TypeError with the table unchanged for an unhashable key, otherwise success and the table as `Put` leaves it |
| Manager.NodeManager.Replace | cudet/nodes.py:516 | assigning to a key already present: the table as `Put` leaves it, the key keeping its place |
| Manager.NodeManager.Append | cudet/nodes.py:516 | assigning to a new key: the table as `Put` leaves it, the key added last |
| Manager.NodeManager.StoreFuel | cudet/nodes.py:336-348 | the master node, built from `fuel_ip`, the master's release and fixed attributes, is stored under `fuel_ip`, or TypeError when `fuel_ip` is unhashable |
| Manager.NodeManager.FuelNodeInit | cudet/nodes.py:329-348 | the method ends in the status and the table `AddFuel` computes |
| Manager.NodeManager.NodesInit | cudet/nodes.py:479-516 | the method ends in the status and the table `LoadNodes` computes |
| Manager.NodeManager.StoreRecords | cudet/nodes.py:486-516 | the loop ends in the status and the table `InsertRecords` computes |
| Manager.NodeManager.AddRecord | cudet/nodes.py:487-516 | one record: the error with the table unchanged, or the table after `Put` |
| Manager.NodeManager.AddNode | cudet/nodes.py:515-516 | a new node is resolved and stored under its ip, or TypeError for an unhashable ip |
| Manager.NodeManager.FillTable | cudet/nodes.py:268-277 | the table and status `Fill` computes |
| Manager.NodeManager.Setup | cudet/nodes.py:268-280 | the table and status `Start` computes |
| Manager.NodeManager.ConfigureAll | cudet/nodes.py:279-280 | the nodes end in the second pass followed by the once-assigner |
| Manager.NodeManager.NodesReapplyConf | cudet/nodes.py:555-557 | every node ends resolved again, as `ReapplyAll` computes |
| Manager.NodeManager.ConfAssignOnce | cudet/nodes.py:535-553 | the nested loops end in the states `AssignOnce` computes |
| Manager.NodeManager.ClaimSection | cudet/nodes.py:541-553 | the loop over one section's values ends in `ClaimEach` |
| Manager.NodeManager.OfferValue | cudet/nodes.py:543-553 | the node loop for one value, which stops at the first claimant with a truthy id, ends in `ClaimFrom` |
| Manager.NodeManager.OfferAt | cudet/nodes.py:544-551 | one node of the loop: a node holding the value is resolved with the value's sub-document and its new id returned; any other node is left unchanged |
| Manager.Contains | cudet/nodes.py:546-547 | the membership test of the candidate value among a node's values |

## Left out

- Remote execution, file writes, directory creation, `shutil.rmtree`, logging and
  `sys.exit(1)`/`sys.exit(4)` are not modelled. This covers `exec_cmd` without
  `fake`, `exec_simple_cmd` and `run_commands` with its thread pool. `check_code`
  is kept only as the predicate `Exec.Warns`.
- Inventory and release discovery (`get_nodes`, the Fuel client and CLI calls,
  `get_master_release`, `get_slave_nodes_release`) and `load_json_file` are
  replaced by inputs: the records, the release map and the master's release.
- The clock is not modelled. The timestamp string is read from the node's
  attributes.
- `_import_rq` (its inner `r_sub` and `sub_is_match`) is not modelled. It merges a
  request file read from disk into the configuration by writing into nested dicts
  that it shares with the file's contents. The model takes the merged
  configuration document as its input.
- `NodeFilter.check_master` and `_get_filters` read the global configuration. The
  model takes the filters dict as an input.
- Python 2 dict iteration order is modelled as insertion order. This applies to
  `self.nodes.values()` and to the order of `assigned`.
- Python 2 `sorted()` over mixed values is not modelled: the sort order is a
  parameter `le`. `Exec.MapsIgnoreSortOrder` shows the returned maps do not depend
  on it.
- Values are immutable, so `copy.deepcopy` is the identity.
- The instance attributes that the configuration document sets on a node through
  `setattr`, such as `outdir`, `rqdir`, `ssh_opts`, `timeout` and `env_vars`, are
  ordinary entries of the node's attribute map.
- Resolver.Resolve: requires a well-formed document (`WFLevel`). Every level is a
  dict with string keys, every `by_` section a dict of dicts, and `by_id` a dict.
  A malformed part that a node reaches makes the source raise part-way through;
  that crash is not modelled. The requirement also excludes documents the source
  accepts, whose malformed parts no node reaches: a `by_roles` branch that is not
  a dict when no node has that role, say.
- Manager.NodeManager.Setup: requires well-formed `once_` sections (`WFOnce`), a
  dict of filters and inventory records that are dicts, for the same reason. This
  too excludes documents the source accepts, such as a `once_` section whose
  malformed values no node holds.
- Values.Hashable: lists and dicts are the unhashable values. Python's equality of
  `1` and `True` is not modelled: not as dict keys, not in the `v == ak` test of
  `_conf_assign_once` (line 547), and not in the `set` intersection of
  `_do_filter` (line 623). In the source a node whose attribute holds `True`
  claims a `once_` value `1`, and a filter `[1]` keeps a record whose attribute is
  `True`; in the model neither matches.
- Once.ClaimFrom: `hasattr(node, attr_name)` and `getattr(node, attr_name)`
  (lines 544-545) also see the class attributes and methods of `Node` (lines
  36-50: `header`, `ckey`, `skey`, `conf_appendable`, ...). The model's attribute
  map holds only instance attributes. With `{once_by_header: {'ip': {cmds:
  ['uptime']}}}` over inventory nodes with truthy ids, the source gives
  `{cmds: ['uptime']}` to the first node, because `'ip'` is in `Node.header`, and
  `once_by_ckey: {'cmds': ...}` behaves the same; the model finds no holder and
  changes nothing. `Once.FirstHolder`, `Once.Holds` and
  `Manager.NodeManager.OfferAt` share this difference.
- Values.Repr: strings are quoted without escaping. This affects only `str()` of
  a non-list role value and of command labels that are not strings.
- Manager.NodeManager.Store: the frame of `NodeManager` is a ghost set of its nodes,
  so the aliasing of one node under two keys is ruled out by `Distinct(nodes)`
  rather than modelled.
- Once.AtMostOneNodePerValue: states the once guarantee only when every node
  that holds a candidate value has a truthy id. A holder with a falsy id, such as
  the master node with id 0, does not stop the loop, and
  `Once.FalsyIdsLetEveryHolderClaim` shows that when all holders have falsy ids
  every one of them claims the value.
- Resolver.MatchValues: `v in el[k]` (line 109) raises TypeError when a value of
  the node's attribute is a list or a dict. The model looks the value up as a
  key, finds nothing and goes on, so `Walk` and `Resolve` return where the source
  raises. Making resolution fallible would thread an error through every caller
  of `Resolve`.
- Resolver.MatchValues: the loop runs over the attribute's values as they stood
  when the `by_<attr>` section was reached (`MatchPhase` passes them as a fixed
  sequence). When the attribute is a list, the source iterates that list object
  itself (lines 107-108), and an extending contribution from a branch to the same
  attribute (line 90) appends to it, so the source also visits the appended
  values. With a clean pass over `{scripts: ['a.sh'], by_scripts: {'a.sh':
  {scripts: ['b.sh']}, 'b.sh': {scripts: ['c.sh']}}}` the source ends with
  `scripts == ['a.sh', 'b.sh', 'c.sh']` and the model with `['a.sh', 'b.sh']`.
  The same holds for `by_files` and `by_filelists`, and for `by_logs` and
  `by_put` once their first contribution has replaced the list. A branch that
  appends its own key, such as `{by_scripts: {'a.sh': {scripts: ['a.sh']}}}`,
  makes the source loop forever; the model's snapshot always terminates. Python
  list identity is not modelled: a replacing contribution rebinds the attribute
  while the loop goes on over the old list. `Walk`, `Resolve`, `Nodes.Node.RApply`
  and `Nodes.Node.ApplyConf` inherit this difference.
- Nodes.Node.MatchSection: the same TypeError of line 109 is not raised, and the
  loop runs over `vals`, the values fixed before it starts, so values that a
  branch appends to the node's list are not visited. The method follows
  `Resolver.MatchValues`.
- Resolver.MatchPhase: `hasattr(self, attr_name)` (line 106) also sees the class
  attributes and methods of `Node` (`header`, `ckey`, `conf_appendable`,
  `apply_conf`, ...). The model's attribute map holds only instance attributes,
  so a section such as `by_header` or `by_ckey` matches in the source, when the
  node has no instance attribute of that name, but never in the model.
- Resolver.PriorityPhase: `self.id in el[p_s]` (line 118) raises TypeError when
  the node's id is a list or a dict, which a document can set through a generic
  `id` key (`{id: [1], by_id: {...}}`). The model finds no profile and goes on,
  so `Walk` and `Resolve` return where the source raises, for the same reason as
  the line-109 TypeError.
- Nodes.Node.PriorityStep: the same TypeError of line 118 is not raised; the
  method follows `Resolver.PriorityPhase`.
- The informational logging in `_check_filtration_results` (lines 528-533),
  including the comparison of an int with a list at line 531, only logs and is
  not modelled.
