/** The agents that clients register through the D-Bus proxy: one exported object on the source bus
    per registry entry, and the calls that come back routed to the entry's owner. */
module AgentRegistry {

  import opened Environment
  import opened ProxyRegistry

  datatype Rule = Rule(
    busName: string,
    managerPath: Path,
    managerInterface: Interface,
    registerMethod: string,
    unregisterMethod: string,
    useObjectPathOnUnregister: bool,
    objectPathCustomisable: bool,
    clientObjectPath: Path,
    clientInterface: Interface,
    clientMethods: seq<string>)

  const NM_METHODS := ["GetSecrets", "CancelGetSecrets", "SaveSecrets", "DeleteSecrets"]

  const BLUEZ_METHODS := [
    "RequestPinCode", "DisplayPinCode", "RequestPasskey", "DisplayPasskey",
    "RequestConfirmation", "RequestAuthorization", "AuthorizeService", "Cancel"]

  const OBEX_METHODS := ["CreateSession", "RemoveSession"]

  function NmRule(registerMethod: string): Rule {
    Rule("org.freedesktop.NetworkManager", "/org/freedesktop/NetworkManager/AgentManager",
      "org.freedesktop.NetworkManager.AgentManager", registerMethod, "Unregister", false, false,
      "/org/freedesktop/NetworkManager/SecretAgent", "org.freedesktop.NetworkManager.SecretAgent",
      NM_METHODS)
  }

  function Rules(): seq<Rule> {
    [
      NmRule("Register"),
      NmRule("RegisterWithCapabilities"),
      Rule("org.bluez", "/org/bluez", "org.bluez.AgentManager1", "RegisterAgent",
        "UnregisterAgent", true, false, "/org/bluez/agent", "org.bluez.Agent1", BLUEZ_METHODS),
      Rule("org.bluez.obex", "/org/bluez/obex", "org.bluez.obex.AgentManager1", "RegisterAgent",
        "UnregisterAgent", false, false, "/org/bluez/obex", "org.bluez.obex.Agent",
        OBEX_METHODS)
    ]
  }

  /** All rules for one bus name export agents under one interface. */
  ghost predicate Uniform(rules: seq<Rule>, busName: string) {
    forall i, j :: 0 <= i < j < |rules| && rules[i].busName == rules[j].busName == busName ==>
      rules[i].clientInterface == rules[j].clientInterface
  }

  lemma RulesUniform(busName: string)
    ensures Uniform(Rules(), busName)
  {
    var rules := Rules();
    assert |rules[0].busName| == |rules[1].busName| == 30;
    assert |rules[2].busName| == 9 && |rules[3].busName| == 14;
  }

  predicate Matches(rule: Rule, busName: string, iface: Interface, name: string) {
    && rule.busName == busName && rule.managerInterface == iface
    && (rule.registerMethod == name || rule.unregisterMethod == name)
  }

  /** The first of the rules from `from` on that matches. */
  function FindRule(rules: seq<Rule>, busName: string, iface: Interface, name: string): (r: Option<Rule>)
    ensures r.Some? ==>
      && r.value in rules && r.value.busName == busName && r.value.managerInterface == iface
      && name in {r.value.registerMethod, r.value.unregisterMethod}
    ensures r.None? ==>
      forall rule <- rules | rule.busName == busName && rule.managerInterface == iface ::
        name !in {rule.registerMethod, rule.unregisterMethod}
  {
    if rules == [] then None
    else if Matches(rules[0], busName, iface, name) then Some(rules[0])
    else FindRule(rules[1..], busName, iface, name)
  }

  method GetCallbackRule(rules: seq<Rule>, busName: string, iface: Interface, name: string)
    returns (rule: Option<Rule>)
    ensures rule == FindRule(rules, busName, iface, name)
  {
    for i := 0 to |rules|
      invariant FindRule(rules, busName, iface, name)
        == FindRule(rules[i..], busName, iface, name)
    {
      if Matches(rules[i], busName, iface, name) {
        return Some(rules[i]);
      }
      assert rules[i..][1..] == rules[i + 1..];
    }
    return None;
  }

  datatype Agent = Agent(
    owner: string, objectPath: Path, uniquePath: Path, rule: Rule, regId: Id)

  /** g_strdelimit: dots and colons become underscores. */
  function Delimited(s: string): (r: string)
    ensures |r| == |s| && ':' !in r && '.' !in r
    ensures forall i :: 0 <= i < |s| ==> r[i] == if s[i] == '.' || s[i] == ':' then '_' else s[i]
  {
    if s == [] then []
    else Delimited(s[..|s| - 1]) + [if s[|s| - 1] in {'.', ':'} then '_' else s[|s| - 1]]
  }

  function UniquePath(rule: Rule, agentPath: Path, sender: string): Path {
    if rule.objectPathCustomisable then Delimited(agentPath + "/" + sender) else agentPath
  }

  /** No rule of the table customises paths, so agents are known by the path they gave. */
  lemma TableKeepsPaths(rule: Rule, agentPath: Path, sender: string)
    requires rule in Rules()
    ensures UniquePath(rule, agentPath, sender) == agentPath
  {
  }

  /** Where the first entry with this unique path is; -1 if there is none. */
  function IndexOf(registry: seq<Agent>, path: Path): (i: int)
    ensures -1 <= i < |registry|
    ensures i >= 0 ==> registry[i].uniquePath == path
    ensures forall j :: 0 <= j < (if i >= 0 then i else |registry|) ==>
      registry[j].uniquePath != path
  {
    if registry == [] then -1
    else if registry[0].uniquePath == path then 0
    else
      var i := IndexOf(registry[1..], path);
      if i == -1 then -1 else i + 1
  }

  function OwnerAt(registry: seq<Agent>, path: Path): Option<string> {
    var i := IndexOf(registry, path);
    if i == -1 then None else Some(registry[i].owner)
  }

  function RemoveAt(registry: seq<Agent>, i: nat): seq<Agent>
    requires i < |registry|
  {
    registry[..i] + registry[i + 1..]
  }

  ghost predicate DistinctPaths(registry: seq<Agent>) {
    forall i, j :: 0 <= i < j < |registry| ==> registry[i].uniquePath != registry[j].uniquePath
  }

  ghost predicate Exported(agent: Agent, exported: Exports) {
    && agent.regId != 0 && agent.regId in exported
    && exported[agent.regId] == Export(agent.uniquePath, agent.rule.clientInterface)
  }

  ghost predicate Listed(registry: seq<Agent>, id: Id) {
    exists i :: 0 <= i < |registry| && registry[i].regId == id
  }

  /** The entries are the exported agent objects, one to one, under distinct paths. */
  ghost predicate Consistent(registry: seq<Agent>, exported: Exports) {
    && DistinctPaths(registry)
    && (forall i :: 0 <= i < |registry| ==> Exported(registry[i], exported))
    && (forall id :: id in exported ==> Listed(registry, id))
  }

  ghost predicate Ruled(registry: seq<Agent>, rules: seq<Rule>, busName: string) {
    forall i :: 0 <= i < |registry| ==>
      registry[i].rule in rules && registry[i].rule.busName == busName
  }

  lemma AppendKeepsConsistent(registry: seq<Agent>, exported: Exports, agent: Agent)
    requires Consistent(registry, exported)
    requires agent.regId != 0 && agent.regId !in exported
    requires IndexOf(registry, agent.uniquePath) == -1
    ensures Consistent(registry + [agent],
      exported[agent.regId := Export(agent.uniquePath, agent.rule.clientInterface)])
  {
    var exported' := exported[agent.regId := Export(agent.uniquePath, agent.rule.clientInterface)];
    forall id | id in exported' ensures Listed(registry + [agent], id) {
      if id in exported {
        var i :| 0 <= i < |registry| && registry[i].regId == id;
        assert (registry + [agent])[i] == registry[i];
      } else {
        assert (registry + [agent])[|registry|] == agent;
      }
    }
  }

  lemma IdsDistinct(registry: seq<Agent>, exported: Exports, i: nat, j: nat)
    requires Consistent(registry, exported) && i < |registry| && j < |registry|
    requires i != j
    ensures registry[i].regId != registry[j].regId
  {
    assert Exported(registry[i], exported) && Exported(registry[j], exported);
    assert registry[i].uniquePath != registry[j].uniquePath;
  }

  function Without(k: nat, i: nat): nat {
    if k < i then k else k + 1
  }

  lemma RemainingExported(registry: seq<Agent>, exported: Exports, i: nat, k: nat)
    requires Consistent(registry, exported) && i < |registry| && k < |registry| - 1
    ensures RemoveAt(registry, i)[k] == registry[Without(k, i)]
    ensures Exported(RemoveAt(registry, i)[k], exported - {registry[i].regId})
  {
    IdsDistinct(registry, exported, i, Without(k, i));
    assert Exported(registry[Without(k, i)], exported);
  }

  lemma RemainingListed(registry: seq<Agent>, exported: Exports, i: nat, id: Id)
    requires Consistent(registry, exported) && i < |registry|
    requires id in exported && id != registry[i].regId
    ensures Listed(RemoveAt(registry, i), id)
  {
    assert Listed(registry, id);
    var j :| 0 <= j < |registry| && registry[j].regId == id;
    assert RemoveAt(registry, i)[if j < i then j else j - 1] == registry[j];
  }

  lemma RemoveKeepsConsistent(registry: seq<Agent>, exported: Exports, i: nat)
    requires Consistent(registry, exported) && i < |registry|
    ensures Consistent(RemoveAt(registry, i), exported - {registry[i].regId})
  {
    var rest, exported' := RemoveAt(registry, i), exported - {registry[i].regId};
    forall k | 0 <= k < |rest|
      ensures Exported(rest[k], exported') && rest[k] == registry[Without(k, i)]
    {
      RemainingExported(registry, exported, i, k);
    }
    forall id | id in exported' ensures Listed(rest, id) {
      RemainingListed(registry, exported, i, id);
    }
  }

  /** An agent object that is exported somewhere else under the same path belongs to the entry at
      that path, as all rules of the bus use one client interface. */
  lemma ExportedExactlyIfTaken(registry: seq<Agent>, exported: Exports, rules: seq<Rule>,
      busName: string, rule: Rule, path: Path)
    requires Consistent(registry, exported) && Ruled(registry, rules, busName)
    requires Uniform(rules, busName) && rule in rules && rule.busName == busName
    ensures IsExported(exported, path, rule.clientInterface) <==> IndexOf(registry, path) >= 0
  {
    var i := IndexOf(registry, path);
    if i >= 0 {
      assert Exported(registry[i], exported);
      SameClientInterface(rules, busName, rule, registry[i].rule);
      assert IsExported(exported, path, rule.clientInterface) by {
        var id := registry[i].regId;
        assert id in exported && exported[id] == Export(path, rule.clientInterface);
      }
    }
  }

  lemma SameClientInterface(rules: seq<Rule>, busName: string, r: Rule, s: Rule)
    requires Uniform(rules, busName) && r in rules && s in rules
    requires r.busName == s.busName == busName
    ensures r.clientInterface == s.clientInterface
  {
    var i :| 0 <= i < |rules| && rules[i] == r;
    var j :| 0 <= j < |rules| && rules[j] == s;
    assert i <= j || j <= i;
  }

  /** The first parameter of a call, as far as it matters: an object path alone, one followed by a
      string, or anything else; of the last, the object path if it starts with one. */
  datatype Params =
    | PathOnly(path: Path)
    | PathAndString(path: Path, text: string)
    | Other(first: Option<Path>)

  function FirstPath(params: Params): Option<Path> {
    match params
    case PathOnly(path) => Some(path)
    case PathAndString(path, _) => Some(path)
    case Other(first) => first
  }

  /** replace_first_with_unique_agent_path. */
  function WithPath(params: Params, path: Path): Option<Params> {
    match params
    case PathOnly(_) => Some(PathOnly(path))
    case PathAndString(_, text) => Some(PathAndString(path, text))
    case Other(_) => None
  }

  /** What becomes of a Register or Unregister call: passed on as it came, refused, answered
      without asking the server, or sent to the server with new parameters. */
  datatype Reply = NotHandled | Refused | Answered | Sent(params: Params)

  /** A call of a server's unregister method. */
  datatype ServerCall = ServerCall(path: Path, iface: Interface, name: string, arg: Option<Path>)

  /** An entry that an unregister call of `sender` can be about. */
  predicate Unregisters(agent: Agent, sender: string, path: Path, iface: Interface, name: string) {
    && agent.owner == sender && agent.rule.managerPath == path
    && agent.rule.managerInterface == iface && agent.rule.unregisterMethod == name
  }

  function FirstToUnregister(registry: seq<Agent>, sender: string, path: Path, iface: Interface,
      name: string): (i: int)
    ensures -1 <= i < |registry|
    ensures i >= 0 ==> Unregisters(registry[i], sender, path, iface, name)
    ensures i >= 0 ==>
      var agent := registry[i];
      && agent.owner == sender && agent.rule.managerPath == path
      && agent.rule.managerInterface == iface && agent.rule.unregisterMethod == name
    ensures i == -1 ==>
      forall agent <- registry | agent.owner == sender && agent.rule.managerPath == path ::
        agent.rule.managerInterface == iface ==> agent.rule.unregisterMethod != name
    ensures forall j :: 0 <= j < (if i >= 0 then i else |registry|) ==>
      !Unregisters(registry[j], sender, path, iface, name)
  {
    if registry == [] then -1
    else if Unregisters(registry[0], sender, path, iface, name) then 0
    else
      var i := FirstToUnregister(registry[1..], sender, path, iface, name);
      if i == -1 then -1 else i + 1
  }

  /** The registry after an unregister call. */
  function AfterUnregister(registry: seq<Agent>, sender: string, path: Path, iface: Interface,
      name: string, params: Params): (r: seq<Agent>)
    ensures forall agent :: agent in r ==> agent in registry
  {
    var i := FirstToUnregister(registry, sender, path, iface, name);
    if i >= 0 && !params.Other? then RemoveAt(registry, i) else registry
  }

  /** The entries of other owners, in their order. */
  function Others(registry: seq<Agent>, owner: string): (r: seq<Agent>)
    ensures |r| <= |registry|
  {
    if registry == [] then []
    else
      var last := registry[|registry| - 1];
      Others(registry[..|registry| - 1], owner) + if last.owner == owner then [] else [last]
  }

  /** The calls that tell the server about the entries of `owner`, in their order. */
  function Farewells(registry: seq<Agent>, owner: string): seq<ServerCall> {
    if registry == [] then []
    else
      var last := registry[|registry| - 1];
      Farewells(registry[..|registry| - 1], owner)
      + if last.owner == owner then [Farewell(last)] else []
  }

  function Farewell(agent: Agent): ServerCall {
    ServerCall(agent.rule.managerPath, agent.rule.managerInterface, agent.rule.unregisterMethod,
      if agent.rule.useObjectPathOnUnregister then Some(agent.uniquePath) else None)
  }

  /** A farewell is an unregister call about that very agent; it names the agent exactly if the
      server wants its path. */
  lemma FarewellUnregisters(agent: Agent)
    ensures
      var call := Farewell(agent);
      && Unregisters(agent, agent.owner, call.path, call.iface, call.name)
      && (agent.rule.useObjectPathOnUnregister ==> call.arg == Some(agent.uniquePath))
      && (!agent.rule.useObjectPathOnUnregister ==> call.arg == None)
  {
  }

  /** Of the parameters of a call only the path is rewritten. */
  lemma OnlyPathRewritten(params: Params, path: Path)
    ensures WithPath(params, path).None? <==> params.Other?
    ensures params.Other? ==> FirstPath(params) == params.first
    ensures WithPath(params, path).Some? ==>
      var sent := WithPath(params, path).value;
      && FirstPath(sent) == Some(path)
      && (params.PathAndString? ==> sent.PathAndString? && sent.text == params.text)
      && (params.PathOnly? ==> sent.PathOnly?)
      && WithPath(sent, FirstPath(params).value) == Some(params)
  {
  }

  lemma {:induction false} OthersAreOthers(registry: seq<Agent>, owner: string)
    ensures forall i :: 0 <= i < |Others(registry, owner)| ==>
      Others(registry, owner)[i].owner != owner && Others(registry, owner)[i] in registry
    ensures forall agent :: agent in registry && agent.owner != owner ==>
      agent in Others(registry, owner)
  {
    if registry == [] {
    } else {
      OthersAreOthers(registry[..|registry| - 1], owner);
    }
  }

  /** Every live subscription runs the handler for the same departure; once is enough. */
  lemma {:induction false} OthersIdempotent(registry: seq<Agent>, owner: string)
    ensures Others(Others(registry, owner), owner) == Others(registry, owner)
    ensures Farewells(Others(registry, owner), owner) == []
  {
    if registry == [] {
    } else {
      var n := |registry| - 1;
      var init := Others(registry[..n], owner);
      OthersIdempotent(registry[..n], owner);
      if registry[n].owner == owner {
        assert Others(registry, owner) == init;
      } else {
        assert (init + [registry[n]])[..|init|] == init;
        assert Others(registry, owner) == init + [registry[n]];
      }
    }
  }

  /** A departure ends the routing to the one who left and changes nobody else's. */
  lemma DepartureKeepsRouting(registry: seq<Agent>, owner: string, path: Path)
    requires DistinctPaths(registry)
    ensures OwnerAt(Others(registry, owner), path)
      == if OwnerAt(registry, path) == Some(owner) then None else OwnerAt(registry, path)
  {
    OthersAreOthers(registry, owner);
    var i, j := IndexOf(registry, path), IndexOf(Others(registry, owner), path);
    if j >= 0 {
      var k :| 0 <= k < |registry| && registry[k] == Others(registry, owner)[j];
      assert k == i;
    }
  }

  /** Part-way through `all`, the registry is the other owners' entries seen so far and the rest. */
  ghost predicate Purging(registry: seq<Agent>, all: seq<Agent>, seen: nat, owner: string,
      i: nat, calls: seq<ServerCall>)
  {
    && seen <= |all|
    && i == |Others(all[..seen], owner)|
    && registry == Others(all[..seen], owner) + all[seen..]
    && calls == Farewells(all[..seen], owner)
  }

  lemma PurgeStep(registry: seq<Agent>, all: seq<Agent>, seen: nat, owner: string, i: nat,
      calls: seq<ServerCall>)
    requires Purging(registry, all, seen, owner, i, calls) && i < |registry|
    ensures seen < |all| && i < |all| && registry[i] == all[seen]
    ensures registry[i].owner == owner ==>
      Purging(RemoveAt(registry, i), all, seen + 1, owner, i, calls + [Farewell(registry[i])])
    ensures registry[i].owner != owner ==>
      Purging(registry, all, seen + 1, owner, i + 1, calls)
  {
    var kept := Others(all[..seen], owner);
    assert all[..seen + 1][..seen] == all[..seen];
    assert all[seen..] == [all[seen]] + all[seen + 1..];
    if registry[i].owner == owner {
      assert kept + [] == kept;
      assert RemoveAt(registry, i) == kept + all[seen + 1..];
    } else {
      assert registry == (kept + [all[seen]]) + all[seen + 1..];
    }
  }

  lemma PurgeBegins(all: seq<Agent>, owner: string)
    ensures Purging(all, all, 0, owner, 0, [])
  {
    assert all[..0] == [] && all[0..] == all;
  }

  lemma PurgeEnds(registry: seq<Agent>, all: seq<Agent>, seen: nat, owner: string, i: nat,
      calls: seq<ServerCall>)
    requires Purging(registry, all, seen, owner, i, calls) && i >= |registry|
    ensures registry == Others(all, owner) && calls == Farewells(all, owner)
  {
    assert seen == |all| && all[..seen] == all && all[seen..] == [];
  }

  /** i-- and i++ on an unsigned integer. */
  function Previous(i: u32): (p: u32)
    ensures Next(p) == i
  {
    (i + U32_MODULUS - 1) % U32_MODULUS
  }

  function Next(i: u32): u32 {
    (i + 1) % U32_MODULUS
  }

  /** With distinct paths, which unregister calls take the sender's entry at index `k` off the
      registry: those the server can be told about, if no earlier entry fits. */
  lemma WhoIsUnregistered(registry: seq<Agent>, k: nat, sender: string, path: Path,
      iface: Interface, name: string, params: Params)
    requires DistinctPaths(registry) && k < |registry|
    requires Unregisters(registry[k], sender, path, iface, name)
    ensures
      var first := forall j :: 0 <= j < k ==> !Unregisters(registry[j], sender, path, iface, name);
      var gone := registry[k] !in AfterUnregister(registry, sender, path, iface, name, params);
      gone <==> first && !params.Other?
  {
    var i := FirstToUnregister(registry, sender, path, iface, name);
    var rest := AfterUnregister(registry, sender, path, iface, name, params);
    if i == k && !params.Other? {
      assert rest == RemoveAt(registry, i);
      assert forall j | 0 <= j < |rest| :: rest[j] == registry[Without(j, i)];
    } else if !params.Other? {
      assert rest[k - 1] == registry[k];
    }
  }

  /** What a client means by an unregister call that names `named`: that its entry at that path
      goes. It does exactly if the parameters can be rewritten for the server and the sender's
      first entry for this server is the one at that path. */
  lemma NamedEntryGoes(registry: seq<Agent>, sender: string, path: Path, iface: Interface,
      name: string, params: Params, named: Path)
    requires DistinctPaths(registry) && FirstPath(params) == Some(named)
    requires
      var k := IndexOf(registry, named);
      k >= 0 && Unregisters(registry[k], sender, path, iface, name)
    ensures
      var after := AfterUnregister(registry, sender, path, iface, name, params);
      var first := registry[FirstToUnregister(registry, sender, path, iface, name)];
      OwnerAt(after, named) == None <==> first.uniquePath == named && !params.Other?
  {
    var k := IndexOf(registry, named);
    var after := AfterUnregister(registry, sender, path, iface, name, params);
    WhoIsUnregistered(registry, k, sender, path, iface, name, params);
    OnlyOneAt(registry, after, k);
    var i := FirstToUnregister(registry, sender, path, iface, name);
    assert i == k <==> registry[i].uniquePath == named;
  }

  /** A path has an owner in part of a registry exactly if its one entry is in that part. */
  lemma OnlyOneAt(registry: seq<Agent>, part: seq<Agent>, k: nat)
    requires DistinctPaths(registry) && k < |registry|
    requires forall agent :: agent in part ==> agent in registry
    ensures OwnerAt(part, registry[k].uniquePath).Some? <==> registry[k] in part
  {
    var i := IndexOf(part, registry[k].uniquePath);
    if i >= 0 {
      assert part[i] in part;
      var j :| 0 <= j < |registry| && registry[j] == part[i];
      assert j == k;
    }
  }

  /** What happens to the registry. */
  datatype Happening =
    | Register(sender: string, iface: Interface, name: string, params: Params, grant: Grant)
    | Unregister(sender: string, path: Path, iface: Interface, name: string, params: Params)
    | NameOwnerChanged(oldOwner: string, newOwner: string)

  /** A Register call that can have made this entry. */
  ghost predicate Makes(h: Happening, agent: Agent) {
    && h.Register? && h.sender == agent.owner && FirstPath(h.params).Some?
    && agent.uniquePath == UniquePath(agent.rule, FirstPath(h.params).value, h.sender)
  }

  predicate Departs(h: Happening, owner: string) {
    h.NameOwnerChanged? && h.oldOwner == owner != "" && h.newOwner == ""
  }

  /** From happening `k` on up to `n`, the owner has not left the bus. */
  ghost predicate StaysFrom(happenings: seq<Happening>, k: nat, n: nat, owner: string)
    requires n <= |happenings|
  {
    forall j :: k <= j < n ==> !Departs(happenings[j], owner)
  }

  /** The entry was there at the start or was registered since, and its owner has not left after
      that. */
  ghost predicate Entitled(agent: Agent, start: seq<Agent>, happenings: seq<Happening>, n: nat)
    requires n <= |happenings|
  {
    || (agent in start && StaysFrom(happenings, 0, n, agent.owner))
    || exists k :: 0 <= k < n && Makes(happenings[k], agent)
         && StaysFrom(happenings, k + 1, n, agent.owner)
  }

  ghost predicate AllEntitled(registry: seq<Agent>, start: seq<Agent>,
      happenings: seq<Happening>, n: nat)
    requires n <= |happenings|
  {
    forall agent :: agent in registry ==> Entitled(agent, start, happenings, n)
  }

  lemma StillEntitled(agent: Agent, start: seq<Agent>, happenings: seq<Happening>, n: nat)
    requires n < |happenings| && Entitled(agent, start, happenings, n)
    requires !Departs(happenings[n], agent.owner)
    ensures Entitled(agent, start, happenings, n + 1)
  {
    if !(agent in start && StaysFrom(happenings, 0, n, agent.owner)) {
      var k :| 0 <= k < n && Makes(happenings[k], agent)
        && StaysFrom(happenings, k + 1, n, agent.owner);
      assert StaysFrom(happenings, k + 1, n + 1, agent.owner);
    }
  }

  lemma NewlyEntitled(agent: Agent, start: seq<Agent>, happenings: seq<Happening>, n: nat)
    requires n < |happenings| && Makes(happenings[n], agent)
    ensures Entitled(agent, start, happenings, n + 1)
  {
    assert StaysFrom(happenings, n + 1, n + 1, agent.owner);
  }

  /** One happening keeps everybody entitled if it adds only what it makes and drops whoever it
      says has left. */
  lemma EntitlementGoesOn(was: seq<Agent>, registry: seq<Agent>, start: seq<Agent>,
      happenings: seq<Happening>, n: nat)
    requires n < |happenings| && AllEntitled(was, start, happenings, n)
    requires forall agent :: agent in registry ==>
      (agent in was && !Departs(happenings[n], agent.owner)) || Makes(happenings[n], agent)
    ensures AllEntitled(registry, start, happenings, n + 1)
  {
    forall agent | agent in registry ensures Entitled(agent, start, happenings, n + 1) {
      if agent in was && !Departs(happenings[n], agent.owner) {
        StillEntitled(agent, start, happenings, n);
      } else {
        NewlyEntitled(agent, start, happenings, n);
      }
    }
  }

  class AgentRegistry {
    const rules: seq<Rule>
    const busName: string
    const sourceBus: Bus
    var registry: seq<Agent>

    ghost predicate Valid()
      reads this, sourceBus
    {
      && Uniform(rules, busName) && Ruled(registry, rules, busName)
      && Consistent(registry, sourceBus.exported)
    }

    constructor (busName: string, sourceBus: Bus)
      requires sourceBus.exported == map[]
      ensures Valid() && registry == [] && this.busName == busName && rules == Rules()
      ensures this.sourceBus == sourceBus
    {
      this.rules, this.busName, this.sourceBus := Rules(), busName, sourceBus;
      registry := [];
      RulesUniform(busName);
    }

    /** Removes one entry and the object it exported. */
    method Remove(i: nat)
      requires Valid() && i < |registry|
      modifies `registry, sourceBus
      ensures Valid() && registry == RemoveAt(old(registry), i)
      ensures sourceBus.exported == old(sourceBus.exported) - {old(registry[i].regId)}
    {
      RemoveKeepsConsistent(registry, sourceBus.exported, i);
      if registry[i].regId != 0 {
        var _ := sourceBus.UnregisterObject(registry[i].regId);
      }
      registry := registry[..i] + registry[i + 1..];
    }

    /** A Register call. It takes a rule, an object path and a free unique path; a path that is
        taken stays with its owner, whoever asks. */
    method HandleAgentRegisterCall(sender: string, iface: Interface, name: string,
        params: Params, grant: Grant) returns (reply: Reply)
      requires Valid()
      modifies `registry, sourceBus
      ensures Valid()
      ensures
        var rule := FindRule(rules, busName, iface, name);
        if rule.None? || FirstPath(params).None? then
          reply == NotHandled && registry == old(registry)
        else
          var path := UniquePath(rule.value, FirstPath(params).value, sender);
          var owner := OwnerAt(old(registry), path);
          if owner == Some(sender) then reply == Refused && registry == old(registry)
          else if owner.Some? || !grant.ok || ':' in path then
            reply == NotHandled && registry == old(registry)
          else
            && reply == (if params.Other? then Answered else Sent(WithPath(params, path).value))
            && |registry| == |old(registry)| + 1
            && var added := registry[|old(registry)|];
               registry == old(registry) + [added] && added.regId !in old(sourceBus.exported)
               && added == Agent(sender, rule.value.clientObjectPath, path, rule.value, added.regId)
    {
      var rule := GetCallbackRule(rules, busName, iface, name);
      if rule.None? || FirstPath(params).None? {
        return NotHandled;
      }
      var path := UniquePath(rule.value, FirstPath(params).value, sender);
      var registered := IndexOf(registry, path);
      if registered >= 0 && registry[registered].owner == sender {
        return Refused;
      }
      ExportedExactlyIfTaken(registry, sourceBus.exported, rules, busName, rule.value, path);
      ghost var exported := sourceBus.exported;
      var id := sourceBus.RegisterObject(path, rule.value.clientInterface, grant);
      if id == 0 {
        return NotHandled;
      }
      var agent := Agent(sender, rule.value.clientObjectPath, path, rule.value, id);
      AppendKeepsConsistent(registry, exported, agent);
      registry := registry + [agent];
      var sent := WithPath(params, path);
      return if sent.None? then Answered else Sent(sent.value);
    }

    /** An Unregister call takes off the sender's first entry for that server, and tells the server
        of that entry's path; if that cannot be put into the parameters, nothing happens. */
    method HandleAgentUnregisterCall(sender: string, path: Path, iface: Interface, name: string,
        params: Params) returns (reply: Reply)
      requires Valid()
      modifies `registry, sourceBus
      ensures Valid()
      ensures registry == AfterUnregister(old(registry), sender, path, iface, name, params)
      ensures
        var i := FirstToUnregister(old(registry), sender, path, iface, name);
        reply == if i >= 0 && !params.Other?
          then Sent(WithPath(params, old(registry)[i].uniquePath).value) else Answered
    {
      for i := 0 to |registry|
        invariant registry == old(registry) && Valid()
        invariant forall j :: 0 <= j < i ==> !Unregisters(registry[j], sender, path, iface, name)
      {
        if Unregisters(registry[i], sender, path, iface, name) {
          assert FirstToUnregister(registry, sender, path, iface, name) == i;
          var sent := WithPath(params, registry[i].uniquePath);
          if sent.None? {
            return Answered;
          }
          Remove(i);
          return Sent(sent.value);
        }
      }
      return Answered;
    }

    /** A client leaves the bus: exactly its entries go, the rest stays in order, and the server
        is told of each. The unsigned index steps back past zero and comes round again. */
    method OnNameOwnerChanged(oldOwner: string, newOwner: string) returns (calls: seq<ServerCall>)
      requires Valid() && |registry| < U32_MODULUS
      modifies `registry, sourceBus
      ensures Valid()
      ensures oldOwner == "" || newOwner != "" ==> registry == old(registry) && calls == []
      ensures oldOwner != "" && newOwner == "" ==>
        registry == Others(old(registry), oldOwner) && calls == Farewells(old(registry), oldOwner)
    {
      calls := [];
      if oldOwner == "" || newOwner != "" {
        return;
      }
      ghost var all, seen := registry, 0;
      PurgeBegins(all, oldOwner);
      var i: u32 := 0;
      while i < |registry|
        invariant Valid() && |all| < U32_MODULUS
        invariant Purging(registry, all, seen, oldOwner, i, calls)
        decreases |all| - seen
      {
        PurgeStep(registry, all, seen, oldOwner, i, calls);
        var data := registry[i];
        if data.owner == oldOwner {
          if data.regId != 0 {
            calls := calls + [Farewell(data)];
          }
          Remove(i);
          i := Previous(i);
        }
        i := Next(i);
        seen := seen + 1;
      }
      PurgeEnds(registry, all, seen, oldOwner, i, calls);
    }

    /** Whom a call from the source bus goes to: the owner of the one entry at the path it came
        in on, unless that entry's agent interface has no such method. */
    method GetAgentName(path: Path, iface: Interface, name: string) returns (owner: Option<string>)
      requires Valid()
      ensures owner.Some? <==>
        exists agent :: agent in registry && agent.uniquePath == path
          && (agent.rule.clientInterface != iface || name in agent.rule.clientMethods)
      ensures owner.Some? ==> forall agent :: agent in registry && agent.uniquePath == path ==>
        agent.owner == owner.value
    {
      var found := IndexOf(registry, path);
      if found == -1 || !Answers(registry[found], iface, name) {
        return None;
      }
      return Some(registry[found].owner);
    }

    /** Calls on the agent interface need a method of it; calls on others are let through. */
    predicate Answers(agent: Agent, iface: Interface, name: string) {
      agent.rule.clientInterface == iface ==> name in agent.rule.clientMethods
    }

    /** Frees every entry, and with it every exported agent object. */
    method UnregisterAllAgentRegistrations()
      requires Valid()
      modifies `registry, sourceBus
      ensures Valid() && registry == []
      ensures forall id :: id !in sourceBus.exported
    {
      while |registry| > 0
        invariant Valid()
        decreases |registry|
      {
        Remove(0);
      }
      assert forall id :: id in sourceBus.exported ==> Listed(registry, id);
    }

    method Handle(h: Happening)
      requires Valid() && |registry| < U32_MODULUS
      modifies `registry, sourceBus
      ensures Valid() && |registry| <= |old(registry)| + 1
      ensures forall agent :: agent in registry ==>
        (agent in old(registry) && !Departs(h, agent.owner)) || Makes(h, agent)
    {
      match h
      case Register(sender, iface, name, params, grant) =>
        var _ := HandleAgentRegisterCall(sender, iface, name, params, grant);
      case Unregister(sender, path, iface, name, params) =>
        var _ := HandleAgentUnregisterCall(sender, path, iface, name, params);
      case NameOwnerChanged(oldOwner, newOwner) =>
        OthersAreOthers(registry, oldOwner);
        var _ := OnNameOwnerChanged(oldOwner, newOwner);
    }

    /** Any happenings, from any valid state: after whatever came last the entries are the exported
        agent objects one to one, and each belongs to a client that registered it and has not left
        since, so calls are routed to nobody else. */
    method Serve(happenings: seq<Happening>)
      requires Valid() && |registry| + |happenings| < U32_MODULUS
      modifies `registry, sourceBus
      ensures Valid() && AllEntitled(registry, old(registry), happenings, |happenings|)
    {
      for n := 0 to |happenings|
        invariant Valid() && |registry| <= |old(registry)| + n
        invariant AllEntitled(registry, old(registry), happenings, n)
      {
        ghost var was := registry;
        Handle(happenings[n]);
        EntitlementGoesOn(was, registry, old(registry), happenings, n);
      }
    }

    /** A whole life ends with nothing exported. */
    method Run(happenings: seq<Happening>)
      requires Valid() && |registry| + |happenings| < U32_MODULUS
      modifies `registry, sourceBus
      ensures Valid() && registry == []
      ensures forall id :: id !in sourceBus.exported
    {
      Serve(happenings);
      UnregisterAllAgentRegistrations();
    }
  }

  lemma BluezRule()
    ensures FindRule(Rules(), "org.bluez", "org.bluez.AgentManager1", "RegisterAgent")
      == Some(Rules()[2])
  {
    var rules := Rules();
    assert |rules[0].busName| == |rules[1].busName| == 30 && |"org.bluez"| == 9;
    assert rules[1..][0] == rules[1] && rules[1..][1..][0] == rules[2];
  }

  /** From an empty registry: a client of BlueZ that registers two agents and then unregisters the
      second loses the first, and the server is told to drop the first. */
  method UnregisterTakesTheFirst(sourceBus: Bus, sender: string, first: Path, second: Path)
    returns (agents: AgentRegistry, reply: Reply)
    requires sourceBus.exported == map[] && first != second && ':' !in first && ':' !in second
    modifies sourceBus
    ensures fresh(agents) && |agents.registry| == 1
    ensures agents.registry[0].uniquePath == second && agents.registry[0].owner == sender
    ensures reply == Sent(PathOnly(first))
  {
    agents := new AgentRegistry("org.bluez", sourceBus);
    BluezRule();
    var iface := "org.bluez.AgentManager1";
    var grant := Grant(true, 1);
    var _ := agents.HandleAgentRegisterCall(sender, iface, "RegisterAgent", PathOnly(first), grant);
    var _ := agents.HandleAgentRegisterCall(sender, iface, "RegisterAgent", PathOnly(second), grant);
    reply := agents.HandleAgentUnregisterCall(
      sender, "/org/bluez", iface, "UnregisterAgent", PathOnly(second));
  }
}
