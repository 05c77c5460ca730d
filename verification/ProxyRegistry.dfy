/** The tables of the D-Bus proxy: which interfaces of which objects it re-exports on the target
    bus, kept three times over and in agreement with the bus itself. */
module ProxyRegistry {

  import opened Environment

  type Path = string
  type Interface = string
  type Id = int
  type Ids = map<Interface, Id>

  /** What is exported on a bus. */
  datatype Export = Export(path: Path, iface: Interface)
  type Exports = map<Id, Export>

  const STANDARD_INTERFACES: set<Interface> := {
    "org.freedesktop.DBus.Introspectable",
    "org.freedesktop.DBus.Peer",
    "org.freedesktop.DBus.Properties"
  }

  const OBJECT_MANAGER: Interface := "org.freedesktop.DBus.ObjectManager"

  predicate IsExported(exported: Exports, path: Path, iface: Interface) {
    exists id :: id in exported && exported[id] == Export(path, iface)
  }

  /** What the environment decides about one registration: whether the bus lets it through, and
      which number it would like to give it. */
  datatype Grant = Grant(ok: bool, hint: nat)

  /** The connection to the target bus. Zero is never the id of an export; it says there is none.
      No object path contains a colon. */
  class Bus {
    var exported: Exports

    constructor ()
      ensures exported == map[]
    {
      exported := map[];
    }

    method RegisterObject(path: Path, iface: Interface, grant: Grant) returns (id: Id)
      modifies this
      ensures id == 0 <==> ':' in path || !grant.ok || IsExported(old(exported), path, iface)
      ensures id == 0 ==> exported == old(exported)
      ensures id != 0 ==> id !in old(exported) && exported == old(exported)[id := Export(path, iface)]
    {
      if ':' in path || !grant.ok || IsExported(exported, path, iface) {
        return 0;
      }
      id := Unused(exported.Keys + {0}, grant.hint);
      exported := exported[id := Export(path, iface)];
    }

    method UnregisterObject(id: Id) returns (success: bool)
      modifies this
      ensures success == (id in old(exported)) && exported == old(exported) - {id}
    {
      success := id in exported;
      exported := exported - {id};
    }
  }

  /** The key of a registration in the string-keyed tables. */
  function Key(path: Path, iface: Interface): string {
    path + ":" + iface
  }

  lemma KeyOfShorterDiffers(p: Path, i: Interface, q: Path, j: Interface)
    requires |p| < |q| && ':' !in q
    ensures Key(p, i) != Key(q, j)
  {
    assert Key(p, i)[|p|] == ':' && Key(q, j)[|p|] == q[|p|];
    assert q[|p|] in q;
  }

  /** Keys of different registrations differ, as paths contain no colon. */
  lemma KeyInjective(p: Path, i: Interface, q: Path, j: Interface)
    requires ':' !in p && ':' !in q && Key(p, i) == Key(q, j)
    ensures p == q && i == j
  {
    if |p| < |q| {
      KeyOfShorterDiffers(p, i, q, j);
    } else if |q| < |p| {
      KeyOfShorterDiffers(q, j, p, i);
    } else {
      assert p == Key(p, i)[..|p|] == Key(q, j)[..|q|] == q;
      assert i == Key(p, i)[|p| + 1..] == Key(q, j)[|q| + 1..] == j;
    }
  }

  /** One registration id of one tracked object. */
  ghost predicate Tracks(proxied: map<Path, Ids>, path: Path, iface: Interface, id: Id) {
    path in proxied && iface in proxied[path] && proxied[path][iface] == id
  }

  /** What is tracked per object is what is exported, and registered_objects names it by id. */
  ghost predicate Agree(proxied: map<Path, Ids>, registered: map<Id, string>, exported: Exports) {
    && registered.Keys == exported.Keys
    && (forall id :: id in exported ==> Recorded(proxied, registered, exported, id))
    && (forall path, iface :: path in proxied && iface in proxied[path] ==>
          proxied[path][iface] in exported && exported[proxied[path][iface]] == Export(path, iface))
  }

  ghost predicate Recorded(
      proxied: map<Path, Ids>, registered: map<Id, string>, exported: Exports, id: Id)
    requires id in exported
  {
    var Export(path, iface) := exported[id];
    && id != 0 && ':' !in path
    && id in registered && registered[id] == Key(path, iface)
    && Tracks(proxied, path, iface, id)
  }

  /** In agreement, registered_objects is the exact inverse of all the per-object tables. */
  lemma TablesAreInverse(proxied: map<Path, Ids>, registered: map<Id, string>,
      exported: Exports, path: Path, iface: Interface, id: Id)
    requires Agree(proxied, registered, exported) && ':' !in path
    ensures Tracks(proxied, path, iface, id)
      <==> id in registered && registered[id] == Key(path, iface)
    ensures Tracks(proxied, path, iface, id)
      <==> id in exported && exported[id] == Export(path, iface)
  {
    if id in registered {
      assert Recorded(proxied, registered, exported, id);
      if registered[id] == Key(path, iface) {
        KeyInjective(exported[id].path, exported[id].iface, path, iface);
      }
    }
  }

  ghost predicate NoneEmpty(proxied: map<Path, Ids>) {
    forall path :: path in proxied ==> proxied[path] != map[]
  }

  ghost predicate NoneEmptyBut(proxied: map<Path, Ids>, but: Path) {
    forall path :: path in proxied && path != but ==> proxied[path] != map[]
  }

  /** Cached node infos belong to live registrations. */
  ghost predicate CacheLive(cache: set<string>, exported: Exports) {
    forall key :: key in cache ==> HasKey(exported, key)
  }

  ghost predicate HasKey(exported: Exports, key: string) {
    exists id :: id in exported && Key(exported[id].path, exported[id].iface) == key
  }

  ghost predicate Grows(before: Exports, after: Exports) {
    forall id :: id in before ==> id in after && after[id] == before[id]
  }

  /** Nothing exported before is gone or changed, and whatever is new is at `path`. */
  ghost predicate Extends(before: Exports, after: Exports, path: Path) {
    && Grows(before, after)
    && (forall id :: id in after && id !in before ==> after[id].path == path)
  }

  /** The interface is among the offers and the bus lets that offer through. */
  predicate Offered(offers: seq<Offer>, iface: Interface) {
    exists k :: 0 <= k < |offers| && offers[k].iface == iface && offers[k].grant.ok
  }

  /** Everything new was offered and let through, and is none of the standard interfaces. */
  ghost predicate OnlyFrom(before: Exports, after: Exports, offers: seq<Offer>) {
    forall id :: id in after && id !in before ==>
      after[id].iface !in STANDARD_INTERFACES && Offered(offers, after[id].iface)
  }

  ghost predicate NoneStandard(exported: Exports) {
    forall id :: id in exported ==> exported[id].iface !in STANDARD_INTERFACES
  }

  /** Of the first `n` interfaces all that the bus lets through are exported at `path`. */
  ghost predicate AllOf(exported: Exports, path: Path, offers: seq<Offer>, n: nat)
    requires n <= |offers|
  {
    forall k :: 0 <= k < n ==> Done(exported, path, offers[k].iface, offers[k].grant)
  }

  predicate Done(exported: Exports, path: Path, iface: Interface, grant: Grant) {
    iface !in STANDARD_INTERFACES && grant.ok && ':' !in path ==> IsExported(exported, path, iface)
  }

  lemma ExportKeepsAllOf(exported: Exports, id: Id, e: Export, path: Path,
      offers: seq<Offer>, n: nat)
    requires n <= |offers| && id !in exported
    requires AllOf(exported, path, offers, n)
    ensures AllOf(exported[id := e], path, offers, n)
  {
    forall k | 0 <= k < n ensures Done(exported[id := e], path, offers[k].iface, offers[k].grant) {
      assert Done(exported, path, offers[k].iface, offers[k].grant);
      if IsExported(exported, path, offers[k].iface) {
        var i :| i in exported && exported[i] == Export(path, offers[k].iface);
        assert i in exported[id := e] && exported[id := e][i] == exported[i];
      }
    }
  }

  /** Half-way through exporting an object that is not in the table yet. */
  ghost predicate Progress(before: Exports, proxied: map<Path, Ids>, ids: Ids,
      registered: map<Id, string>, exported: Exports, cache: set<string>, path: Path,
      offers: seq<Offer>, k: nat)
    requires k <= |offers|
  {
    && Agree(proxied[path := ids], registered, exported) && CacheLive(cache, exported)
    && Extends(before, exported, path) && OnlyFrom(before, exported, offers)
    && AllOf(exported, path, offers, k)
  }

  lemma OneMoreExported(before: Exports, proxied: map<Path, Ids>, ids: Ids,
      registered: map<Id, string>, exported: Exports, cache: set<string>, path: Path,
      offers: seq<Offer>, k: nat, id: Id)
    requires k < |offers|
    requires Progress(before, proxied, ids, registered, exported, cache, path, offers, k)
    requires id != 0 && id !in exported && ':' !in path
    requires offers[k].iface !in STANDARD_INTERFACES && offers[k].grant.ok
    requires !IsExported(exported, path, offers[k].iface)
    ensures Progress(before, proxied, ids[offers[k].iface := id],
      registered[id := Key(path, offers[k].iface)], exported[id := Export(path, offers[k].iface)],
      cache, path, offers, k + 1)
  {
    var iface := offers[k].iface;
    var exported' := exported[id := Export(path, iface)];
    ExportKeepsAgreement(proxied[path := ids], registered, exported, path, iface, id);
    assert proxied[path := ids][path := ids[iface := id]] == proxied[path := ids[iface := id]];
    ExportKeepsCache(cache, exported, id, path, iface);
    ExportKeepsAllOf(exported, id, Export(path, iface), path, offers, k);
    assert Offered(offers, iface);
    assert IsExported(exported', path, iface) by {
      assert id in exported' && exported'[id] == Export(path, iface);
    }
  }

  lemma ExportKeepsAgreement(proxied: map<Path, Ids>, registered: map<Id, string>,
      exported: Exports, path: Path, iface: Interface, id: Id)
    requires Agree(proxied, registered, exported)
    requires path in proxied && ':' !in path && id != 0 && id !in exported
    requires !IsExported(exported, path, iface)
    ensures iface !in proxied[path]
    ensures Agree(proxied[path := proxied[path][iface := id]],
      registered[id := Key(path, iface)], exported[id := Export(path, iface)])
  {
    if iface in proxied[path] {
      var i := proxied[path][iface];
      assert i in exported && exported[i] == Export(path, iface);
      assert IsExported(exported, path, iface);
    }
  }

  lemma UnexportKeepsAgreement(proxied: map<Path, Ids>, registered: map<Id, string>,
      exported: Exports, path: Path, iface: Interface)
    requires Agree(proxied, registered, exported)
    requires path in proxied && iface in proxied[path]
    ensures var id := proxied[path][iface];
      Agree(proxied[path := proxied[path] - {iface}], registered - {id}, exported - {id})
  {
  }

  lemma TrackedObjectIsSound(proxied: map<Path, Ids>, registered: map<Id, string>,
      exported: Exports, path: Path, iface: Interface)
    requires Agree(proxied, registered, exported)
    requires path in proxied && proxied[path] != map[] && iface !in proxied[path]
    ensures ':' !in path && !IsExported(exported, path, iface)
  {
    var i :| i in proxied[path];
    assert Recorded(proxied, registered, exported, proxied[path][i]);
  }

  /** Objects without interfaces do not matter to the agreement. */
  lemma EmptyObjectIsNothing(proxied: map<Path, Ids>, registered: map<Id, string>,
      exported: Exports, path: Path)
    ensures path !in proxied ==>
      Agree(proxied, registered, exported) == Agree(proxied[path := map[]], registered, exported)
    ensures path in proxied && proxied[path] == map[] && Agree(proxied, registered, exported) ==>
      Agree(proxied - {path}, registered, exported)
  {
    if path !in proxied {
      assert forall p, i, id :: Tracks(proxied, p, i, id) == Tracks(proxied[path := map[]], p, i, id);
      forall id | id in exported
        ensures Recorded(proxied, registered, exported, id)
          == Recorded(proxied[path := map[]], registered, exported, id)
      {
      }
      forall p, i ensures (p in proxied && i in proxied[p])
        == (p in proxied[path := map[]] && i in proxied[path := map[]][p])
      {
      }
    }
  }

  lemma ExportKeepsCache(cache: set<string>, exported: Exports, id: Id,
      path: Path, iface: Interface)
    requires CacheLive(cache, exported) && id !in exported
    ensures CacheLive(cache + {Key(path, iface)}, exported[id := Export(path, iface)])
    ensures CacheLive(cache, exported[id := Export(path, iface)])
  {
    var exported' := exported[id := Export(path, iface)];
    forall key | key in cache + {Key(path, iface)} ensures HasKey(exported', key) {
      if key in cache {
        var i :| i in exported && Key(exported[i].path, exported[i].iface) == key;
        assert i in exported' && exported'[i] == exported[i];
      } else {
        assert id in exported' && Key(exported'[id].path, exported'[id].iface) == key;
      }
    }
  }

  /** Removing an export and its cache key leaves the other keys live. */
  lemma UnexportKeepsCache(cache: set<string>, exported: Exports, id: Id)
    requires CacheLive(cache, exported) && id in exported
    ensures CacheLive(cache - {Key(exported[id].path, exported[id].iface)}, exported - {id})
  {
    var exported' := exported - {id};
    forall key | key in cache && key != Key(exported[id].path, exported[id].iface)
      ensures HasKey(exported', key)
    {
      assert HasKey(exported, key);
      var i :| i in exported && Key(exported[i].path, exported[i].iface) == key;
      assert i in exported' && exported'[i] == exported[i];
    }
  }

  /** What discovery meets below a path: no such object, a reply that does not parse, or an object
      with its child nodes; a child may be unnamed. */
  datatype Remote =
    | Absent
    | Garbled
    | Node(offers: seq<Offer>, children: seq<Child>)

  datatype Child = Child(name: string, remote: Remote)

  /** An interface that introspection shows and the bus's answer should it be registered. */
  datatype Offer = Offer(iface: Interface, grant: Grant)

  /** A signalled interface, what introspection shows of the object then, and the bus's answer. */
  datatype Added = Added(iface: Interface, shown: Option<set<Interface>>, grant: Grant)

  /** What GetManagedObjects lists, with what introspection then shows of each, if anything. */
  datatype Managed = Managed(path: Path, shown: Option<seq<Offer>>)

  /** The source service shows this interface of this object, at `path` or below it. */
  ghost predicate Shows(path: Path, remote: Remote, e: Export)
    decreases remote
  {
    && remote.Node?
    && (|| (e.path == path && Offered(remote.offers, e.iface))
        || exists k :: 0 <= k < |remote.children| && remote.children[k].name != ""
             && Shows(ChildPath(path, remote.children[k].name), remote.children[k].remote, e))
  }

  /** An object manager lists this object, and introspection then shows this interface of it. */
  ghost predicate Lists(managed: seq<Managed>, e: Export) {
    exists k :: 0 <= k < |managed| && managed[k].shown.Some?
      && e.path == managed[k].path && Offered(managed[k].shown.value, e.iface)
  }

  /** What discovery from `base` can come upon: the tree below it, or an object manager at `base`
      with the objects it lists. */
  ghost predicate ComesUpon(base: Path, remote: Remote, findManager: bool,
      managed: Option<seq<Managed>>, e: Export)
  {
    if findManager && remote.Node? && IsManager(remote.offers) then
      || (e.path == base && Offered(remote.offers, e.iface))
      || (managed.Some? && Lists(managed.value, e))
    else Shows(base, remote, e)
  }

  /** The signal names the interface, introspection shows it, and the bus lets it through. */
  predicate Asked(added: seq<Added>, iface: Interface) {
    exists k :: 0 <= k < |added| && added[k].iface == iface && CanBeHad(added[k])
  }

  predicate CanBeHad(added: Added) {
    added.grant.ok && added.shown.Some? && added.iface in added.shown.value
  }

  /** Every new export was shown at or below `path`. */
  ghost predicate NewShown(before: Exports, after: Exports, path: Path, remote: Remote) {
    forall id :: id in after && id !in before ==> Shows(path, remote, after[id])
  }

  ghost predicate NewListed(before: Exports, after: Exports, managed: seq<Managed>) {
    forall id :: id in after && id !in before ==> Lists(managed, after[id])
  }

  ghost predicate NewAsked(before: Exports, after: Exports, added: seq<Added>) {
    forall id :: id in after && id !in before ==> Asked(added, after[id].iface)
  }

  /** Every new export is one that discovery came upon. */
  ghost predicate NewFound(before: Exports, after: Exports, base: Path, remote: Remote,
      findManager: bool, managed: Option<seq<Managed>>)
  {
    forall id :: id in after && id !in before ==>
      ComesUpon(base, remote, findManager, managed, after[id])
  }

  lemma OneMoreAsked(before: Exports, was: Exports, after: Exports, path: Path, added: seq<Added>,
      k: nat)
    requires k < |added| && NewAsked(before, was, added)
    requires after == was || (Adds(was, after, Export(path, added[k].iface)) && CanBeHad(added[k]))
    ensures NewAsked(before, after, added)
  {
  }

  /** Part-way through the children of an object that has been proxied. */
  ghost predicate Walked(before: Exports, after: Exports, keys: set<Path>, base: Path,
      remote: Remote, k: nat)
    requires remote.Node? && k <= |remote.children|
  {
    && Grows(before, after) && NewShown(before, after, base, remote)
    && (Acceptable(base, remote.offers) ==> base in keys)
    && ChildrenCovered(keys, base, remote.children, k)
  }

  lemma WalkBegins(before: Exports, after: Exports, keys: set<Path>, base: Path, remote: Remote)
    requires remote.Node? && Extends(before, after, base)
    requires OnlyFrom(before, after, remote.offers)
    requires Acceptable(base, remote.offers) ==> base in keys
    ensures Walked(before, after, keys, base, remote, 0)
  {
  }

  lemma WalkSkips(before: Exports, after: Exports, keys: set<Path>, base: Path, remote: Remote,
      k: nat)
    requires remote.Node? && k < |remote.children| && remote.children[k].name == ""
    requires Walked(before, after, keys, base, remote, k)
    ensures Walked(before, after, keys, base, remote, k + 1)
  {
  }

  lemma WalkGoesOn(before: Exports, was: Exports, after: Exports, keys: set<Path>,
      more: set<Path>, base: Path, remote: Remote, k: nat)
    requires remote.Node? && k < |remote.children| && remote.children[k].name != ""
    requires Walked(before, was, keys, base, remote, k) && keys <= more && Grows(was, after)
    requires
      var path, child := ChildPath(base, remote.children[k].name), remote.children[k].remote;
      NewShown(was, after, path, child) && Covers(more, path, child)
    ensures Walked(before, after, more, base, remote, k + 1)
  {
    ChildrenCoveredGrows(keys, more, base, remote.children, k);
    forall id | id in after && id !in before ensures Shows(base, remote, after[id]) {
      if id in was {
        assert after[id] == was[id];
      }
    }
  }

  lemma WalkEnds(before: Exports, after: Exports, keys: set<Path>, base: Path, remote: Remote,
      findManager: bool, managed: Option<seq<Managed>>)
    requires remote.Node? && Walked(before, after, keys, base, remote, |remote.children|)
    requires !(findManager && IsManager(remote.offers))
    ensures NewFound(before, after, base, remote, findManager, managed)
    ensures Covers(keys, base, remote)
  {
  }

  /** The object at the base has been proxied, and then what its object manager lists. */
  lemma ManagerWalked(before: Exports, was: Exports, after: Exports, base: Path, remote: Remote,
      managed: Option<seq<Managed>>)
    requires remote.Node? && IsManager(remote.offers)
    requires Extends(before, was, base) && OnlyFrom(before, was, remote.offers)
    requires if managed.Some? then Grows(was, after) && NewListed(was, after, managed.value)
      else after == was
    ensures Grows(before, after) && NewFound(before, after, base, remote, true, managed)
  {
    forall id | id in after && id !in before
      ensures ComesUpon(base, remote, true, managed, after[id])
    {
      if id in was {
        assert after[id] == was[id];
      }
    }
  }

  /** What an event lets the proxy export. */
  ghost predicate Reveals(event: Event, e: Export) {
    match event
    case InterfacesAdded(path, added, remote) =>
      Shows(path, remote, e) || (e.path == path && Asked(added, e.iface))
    case InterfacesRemoved(_, _) => false
  }

  /** Every export was there before, or the start or one of the first `n` events revealed it. */
  ghost predicate Explained(before: Exports, after: Exports, root: Remote,
      managed: Option<seq<Managed>>, events: seq<Event>, n: nat)
    requires n <= |events|
  {
    forall id :: id in after ==>
      || (id in before && before[id] == after[id])
      || ComesUpon("/", root, true, managed, after[id])
      || exists k :: 0 <= k < n && Reveals(events[k], after[id])
  }

  lemma ExplainedGrows(before: Exports, was: Exports, after: Exports, root: Remote,
      managed: Option<seq<Managed>>, events: seq<Event>, n: nat)
    requires n < |events| && Explained(before, was, root, managed, events, n)
    requires forall id :: id in after && !(id in was && was[id] == after[id]) ==>
      Reveals(events[n], after[id])
    ensures Explained(before, after, root, managed, events, n + 1)
  {
  }

  /** An offer that ends in an export unless the object is proxied already. */
  predicate Acceptable(path: Path, offers: seq<Offer>) {
    exists k :: 0 <= k < |offers| && offers[k].iface !in STANDARD_INTERFACES
      && offers[k].grant.ok && ':' !in path
  }

  function ChildPath(base: Path, name: string): Path {
    if base != "" && base[|base| - 1] == '/' then base + name else base + "/" + name
  }

  /** An object path of D-Bus: the root, or elements that are not empty, each after a slash. */
  predicate IsObjectPath(p: Path) {
    || p == "/"
    || (&& |p| > 1 && p[0] == '/' && p[|p| - 1] != '/'
        && forall i :: 0 <= i < |p| - 1 && p[i] == '/' ==> p[i + 1] != '/')
  }

  /** The child of an object path is an object path, one element longer. */
  lemma ChildIsObjectPath(base: Path, name: string)
    requires IsObjectPath(base) && name != "" && '/' !in name
    ensures
      var child := ChildPath(base, name);
      && IsObjectPath(child)
      && child == (if base == "/" then "/" else base + "/") + name
      && (':' !in base && ':' !in name ==> ':' !in child)
  {
    var child := ChildPath(base, name);
    var stem := if base == "/" then "/" else base + "/";
    assert child == stem + name;
    assert name[0] in name && name[|name| - 1] in name;
    assert child[|child| - 1] == name[|name| - 1] && child[0] == '/';
    forall i | 0 <= i < |child| - 1 && child[i] == '/' ensures child[i + 1] != '/' {
      assert forall j | 0 <= j < |name| :: name[j] in name && child[|stem| + j] == name[j];
      if i == |stem| - 1 {
        assert child[i + 1] == name[0];
      } else {
        assert child[i] == base[i];
        assert i + 1 < |base| ==> child[i + 1] == base[i + 1];
      }
    }
  }

  predicate IsManager(offers: seq<Offer>) {
    exists k :: 0 <= k < |offers| && offers[k].iface == OBJECT_MANAGER
  }

  /** Every object of the tree below `path` that can be proxied is among `keys`. */
  ghost predicate Covers(keys: set<Path>, path: Path, remote: Remote)
    decreases remote
  {
    remote.Node? ==>
      && (Acceptable(path, remote.offers) ==> path in keys)
      && forall k :: 0 <= k < |remote.children| && remote.children[k].name != "" ==>
           Covers(keys, ChildPath(path, remote.children[k].name), remote.children[k].remote)
  }

  lemma {:induction false} CoversGrows(keys: set<Path>, more: set<Path>, path: Path, remote: Remote)
    requires keys <= more && Covers(keys, path, remote)
    ensures Covers(more, path, remote)
    decreases remote
  {
    if !remote.Node? {
    } else {
      forall k | 0 <= k < |remote.children| && remote.children[k].name != ""
        ensures Covers(more, ChildPath(path, remote.children[k].name), remote.children[k].remote)
      {
        CoversGrows(keys, more, ChildPath(path, remote.children[k].name), remote.children[k].remote);
      }
    }
  }

  /** Of the first `n` children with their trees. */
  ghost predicate ChildrenCovered(keys: set<Path>, path: Path, children: seq<Child>, n: nat)
    requires n <= |children|
  {
    forall k :: 0 <= k < n && children[k].name != "" ==>
      Covers(keys, ChildPath(path, children[k].name), children[k].remote)
  }

  lemma ChildrenCoveredGrows(keys: set<Path>, more: set<Path>, path: Path, children: seq<Child>,
      n: nat)
    requires n <= |children| && keys <= more && ChildrenCovered(keys, path, children, n)
    ensures ChildrenCovered(more, path, children, n)
  {
    forall k | 0 <= k < n && children[k].name != ""
      ensures Covers(more, ChildPath(path, children[k].name), children[k].remote)
    {
      CoversGrows(keys, more, ChildPath(path, children[k].name), children[k].remote);
    }
  }

  /** Of the first `n` listed objects those that can be proxied. */
  ghost predicate ManagedCovered(keys: set<Path>, managed: seq<Managed>, n: nat)
    requires n <= |managed|
  {
    forall k :: 0 <= k < n ==> Covered(keys, managed[k])
  }

  predicate Covered(keys: set<Path>, m: Managed) {
    m.shown.Some? && Acceptable(m.path, m.shown.value) ==> m.path in keys
  }

  /** How far the walk over what an object manager lists has come. */
  ghost predicate ListWalked(before: Exports, after: Exports, keys: set<Path>,
      managed: seq<Managed>, n: nat)
    requires n <= |managed|
  {
    Grows(before, after) && NewListed(before, after, managed) && ManagedCovered(keys, managed, n)
  }

  lemma ListSkips(before: Exports, after: Exports, keys: set<Path>, managed: seq<Managed>, k: nat)
    requires k < |managed| && ListWalked(before, after, keys, managed, k) && managed[k].shown.None?
    ensures ListWalked(before, after, keys, managed, k + 1)
  {
  }

  lemma ListGoesOn(before: Exports, was: Exports, after: Exports, keys: set<Path>,
      keys': set<Path>, managed: seq<Managed>, k: nat)
    requires k < |managed| && ListWalked(before, was, keys, managed, k) && keys <= keys'
    requires managed[k].shown.Some?
    requires Extends(was, after, managed[k].path) && OnlyFrom(was, after, managed[k].shown.value)
    requires Covered(keys', managed[k])
    ensures ListWalked(before, after, keys', managed, k + 1)
  {
    forall id | id in after && id !in before ensures Lists(managed, after[id]) {
      if id !in was {
        assert Offered(managed[k].shown.value, after[id].iface);
      }
    }
    forall j | 0 <= j < k + 1 ensures Covered(keys', managed[j]) {
      assert j < k ==> Covered(keys, managed[j]);
    }
  }

  /** A signal of the proxied service that has the right signature. */
  datatype Event =
    | InterfacesAdded(path: Path, added: seq<Added>, remote: Remote)
    | InterfacesRemoved(path: Path, ifaces: seq<Interface>)

  /** What comes out of taking `ifaces` off the object at `path`. */
  ghost predicate Withdrawn(before: Exports, after: Exports, path: Path, ifaces: seq<Interface>) {
    && (forall id :: id in after ==> id in before && after[id] == before[id])
    && (forall id :: id in before ==>
          (id in after <==> !(before[id].path == path && before[id].iface in ifaces)))
  }

  /** Half-way through taking interfaces off an object, which may be left without any. */
  ghost predicate Withdrawing(before: Exports, proxied: map<Path, Ids>,
      registered: map<Id, string>, exported: Exports, cache: set<string>, path: Path,
      ifaces: seq<Interface>, k: nat)
    requires k <= |ifaces|
  {
    && Agree(proxied, registered, exported) && CacheLive(cache, exported)
    && NoneEmptyBut(proxied, path) && Withdrawn(before, exported, path, ifaces[..k])
  }

  lemma OneMoreWithdrawn(before: Exports, proxied: map<Path, Ids>,
      registered: map<Id, string>, exported: Exports, cache: set<string>, path: Path,
      ifaces: seq<Interface>, k: nat)
    requires k < |ifaces| && path in proxied
    requires Withdrawing(before, proxied, registered, exported, cache, path, ifaces, k)
    ensures ifaces[k] !in proxied[path] ==>
      Withdrawing(before, proxied, registered, exported, cache, path, ifaces, k + 1)
    ensures ifaces[k] in proxied[path] ==>
      var id := proxied[path][ifaces[k]];
      Withdrawing(before, proxied[path := proxied[path] - {ifaces[k]}], registered - {id},
        exported - {id}, cache - {Key(path, ifaces[k])}, path, ifaces, k + 1)
  {
    var iface := ifaces[k];
    assert ifaces[..k + 1] == ifaces[..k] + [iface];
    if iface in proxied[path] {
      UnexportKeepsAgreement(proxied, registered, exported, path, iface);
      UnexportKeepsCache(cache, exported, proxied[path][iface]);
      OneGone(proxied, registered, exported, path, iface);
    } else {
      forall id | id in exported ensures exported[id] != Export(path, iface) {
        assert Recorded(proxied, registered, exported, id);
      }
    }
  }

  /** Only one export is that of a given interface of a given object. */
  lemma OneGone(proxied: map<Path, Ids>, registered: map<Id, string>, exported: Exports,
      path: Path, iface: Interface)
    requires Agree(proxied, registered, exported) && path in proxied && iface in proxied[path]
    ensures forall id | id in exported ::
      exported[id] == Export(path, iface) <==> id == proxied[path][iface]
  {
    forall id | id in exported
      ensures exported[id] == Export(path, iface) <==> id == proxied[path][iface]
    {
      assert Recorded(proxied, registered, exported, id);
    }
  }

  lemma SomeOf<T>(s: set<T>) returns (t: T)
    requires s != {}
    ensures t in s
  {
    t :| t in s;
  }

  /** The invariant of the tables. */
  ghost predicate Sound(proxied: map<Path, Ids>, registered: map<Id, string>, exported: Exports,
      cache: set<string>)
  {
    && Agree(proxied, registered, exported) && NoneEmpty(proxied)
    && CacheLive(cache, exported) && NoneStandard(exported)
  }

  lemma OneMoreCached(proxied: map<Path, Ids>, registered: map<Id, string>, exported: Exports,
      cache: set<string>, path: Path, iface: Interface, id: Id)
    requires Sound(proxied, registered, exported, cache)
    requires path in proxied && iface !in proxied[path] && iface !in STANDARD_INTERFACES
    requires id != 0 && id !in exported
    ensures Sound(proxied[path := proxied[path][iface := id]], registered[id := Key(path, iface)],
      exported[id := Export(path, iface)], cache + {Key(path, iface)})
    ensures IsExported(exported[id := Export(path, iface)], path, iface)
    ensures Extends(exported, exported[id := Export(path, iface)], path)
  {
    TrackedObjectIsSound(proxied, registered, exported, path, iface);
    ExportKeepsAgreement(proxied, registered, exported, path, iface, id);
    ExportKeepsCache(cache, exported, id, path, iface);
    var exported' := exported[id := Export(path, iface)];
    assert id in exported' && exported'[id] == Export(path, iface);
  }

  /** One new export and no other change. */
  ghost predicate Adds(before: Exports, after: Exports, e: Export) {
    exists id :: id in after && id !in before && after == before[id := e]
  }

  /** What can be had of a signalled interface is had. */
  predicate Delivered(exported: Exports, path: Path, added: Added) {
    added.iface !in STANDARD_INTERFACES && CanBeHad(added) ==> IsExported(exported, path, added.iface)
  }

  lemma GrowthKeepsExport(before: Exports, after: Exports, path: Path, iface: Interface)
    requires Grows(before, after) && IsExported(before, path, iface)
    ensures IsExported(after, path, iface)
  {
    var id :| id in before && before[id] == Export(path, iface);
    assert id in after && after[id] == before[id];
  }

  lemma TrackedIsExported(proxied: map<Path, Ids>, registered: map<Id, string>,
      exported: Exports, path: Path, iface: Interface)
    requires Agree(proxied, registered, exported) && path in proxied && iface in proxied[path]
    ensures IsExported(exported, path, iface)
  {
    var id := proxied[path][iface];
    assert id in exported && exported[id] == Export(path, iface);
  }

  predicate AllDelivered(exported: Exports, path: Path, added: seq<Added>, n: nat)
    requires n <= |added|
  {
    forall k :: 0 <= k < n ==> Delivered(exported, path, added[k])
  }

  lemma OneMoreDelivered(before: Exports, after: Exports, path: Path, added: seq<Added>, k: nat)
    requires k < |added| && Grows(before, after)
    requires AllDelivered(before, path, added, k) && Delivered(after, path, added[k])
    ensures AllDelivered(after, path, added, k + 1)
  {
    forall j | 0 <= j < k ensures Delivered(after, path, added[j]) {
      assert Delivered(before, path, added[j]);
      if IsExported(before, path, added[j].iface) {
        GrowthKeepsExport(before, after, path, added[j].iface);
      }
    }
  }

  lemma AcceptableIsExported(exported: Exports, path: Path, offers: seq<Offer>)
    requires AllOf(exported, path, offers, |offers|)
    ensures Acceptable(path, offers) ==> exists id :: id in exported && exported[id].path == path
  {
    if Acceptable(path, offers) {
      var k :| 0 <= k < |offers| && offers[k].iface !in STANDARD_INTERFACES
        && offers[k].grant.ok && ':' !in path;
      assert Done(exported, path, offers[k].iface, offers[k].grant);
      var id :| id in exported && exported[id] == Export(path, offers[k].iface);
      assert exported[id].path == path;
    }
  }

  class ProxyState {
    const targetBus: Bus
    var registeredObjects: map<Id, string>
    var proxiedObjects: map<Path, Ids>
    var nodeInfoCache: set<string>

    ghost predicate Valid()
      reads this, targetBus
    {
      Sound(proxiedObjects, registeredObjects, targetBus.exported, nodeInfoCache)
    }

    constructor (targetBus: Bus)
      requires targetBus.exported == map[]
      ensures Valid() && this.targetBus == targetBus
    {
      this.targetBus := targetBus;
      registeredObjects, proxiedObjects, nodeInfoCache := map[], map[], {};
    }

    /** Re-exports the interfaces of one object that are not standard ones. An object that is
        already proxied is left alone; otherwise exactly what the bus lets through is exported. */
    method ProxySingleObject(path: Path, offers: seq<Offer>)
      requires Valid()
      modifies this, targetBus
      ensures Valid()
      ensures path in old(proxiedObjects) ==>
        proxiedObjects == old(proxiedObjects) && targetBus.exported == old(targetBus.exported)
      ensures Extends(old(targetBus.exported), targetBus.exported, path)
      ensures OnlyFrom(old(targetBus.exported), targetBus.exported, offers)
      ensures old(proxiedObjects.Keys) <= proxiedObjects.Keys
      ensures Acceptable(path, offers) ==> path in proxiedObjects
      ensures path !in old(proxiedObjects) ==>
        AllOf(targetBus.exported, path, offers, |offers|)
    {
      if forall k | 0 <= k < |offers| :: offers[k].iface in STANDARD_INTERFACES {
        return;
      }
      if path in proxiedObjects {
        return;
      }
      ghost var before := targetBus.exported;
      var registrationIds: Ids := map[];
      EmptyObjectIsNothing(proxiedObjects, registeredObjects, targetBus.exported, path);
      for k := 0 to |offers|
        invariant proxiedObjects == old(proxiedObjects)
        invariant Progress(before, proxiedObjects, registrationIds, registeredObjects,
          targetBus.exported, nodeInfoCache, path, offers, k)
      {
        var iface := offers[k].iface;
        if iface in STANDARD_INTERFACES {
          continue;
        }
        ghost var exported := targetBus.exported;
        var id := targetBus.RegisterObject(path, iface, offers[k].grant);
        if id == 0 {
          continue;
        }
        OneMoreExported(before, proxiedObjects, registrationIds, registeredObjects, exported,
          nodeInfoCache, path, offers, k, id);
        registrationIds := registrationIds[iface := id];
        registeredObjects := registeredObjects[id := Key(path, iface)];
      }
      AcceptableIsExported(targetBus.exported, path, offers);
      if registrationIds != map[] {
        proxiedObjects := proxiedObjects[path := registrationIds];
      } else {
        EmptyObjectIsNothing(proxiedObjects, registeredObjects, targetBus.exported, path);
      }
    }

    /** Registers one more interface of an object that is already proxied. */
    method RegisterSingleInterface(path: Path, added: Added) returns (ok: bool)
      requires Valid() && path in proxiedObjects && added.iface !in proxiedObjects[path]
      modifies this, targetBus
      ensures Valid() && path in proxiedObjects
      ensures Extends(old(targetBus.exported), targetBus.exported, path)
      ensures ok == (added.iface in STANDARD_INTERFACES || CanBeHad(added))
      ensures ok && added.iface !in STANDARD_INTERFACES ==>
        && Adds(old(targetBus.exported), targetBus.exported, Export(path, added.iface))
        && Key(path, added.iface) in nodeInfoCache
      ensures !ok || added.iface in STANDARD_INTERFACES ==>
        targetBus.exported == old(targetBus.exported)
    {
      var iface := added.iface;
      if iface in STANDARD_INTERFACES {
        return true;
      }
      if added.shown.None? || iface !in added.shown.value {
        return false;
      }
      ghost var exported := targetBus.exported;
      TrackedObjectIsSound(proxiedObjects, registeredObjects, exported, path, iface);
      var id := targetBus.RegisterObject(path, iface, added.grant);
      if id == 0 {
        return false;
      }
      OneMoreCached(proxiedObjects, registeredObjects, exported, nodeInfoCache, path, iface, id);
      nodeInfoCache := nodeInfoCache + {Key(path, iface)};
      proxiedObjects := proxiedObjects[path := proxiedObjects[path][iface := id]];
      registeredObjects := registeredObjects[id := Key(path, iface)];
      return true;
    }

    /** Everything the base path leads to that can be introspected is proxied. The tree is
        walked from the root but for an object manager met at the base, which lists its objects. */
    method DiscoverAndProxyObjectTree(base: Path, remote: Remote, findManager: bool,
        managed: Option<seq<Managed>>) returns (success: bool)
      requires Valid()
      modifies this, targetBus
      ensures Valid() && Grows(old(targetBus.exported), targetBus.exported)
      ensures NewFound(old(targetBus.exported), targetBus.exported, base, remote, findManager, managed)
      ensures remote.Absent? ==> success && targetBus.exported == old(targetBus.exported)
      ensures remote.Garbled? ==> !success && targetBus.exported == old(targetBus.exported)
      ensures old(proxiedObjects.Keys) <= proxiedObjects.Keys
      ensures !findManager || !remote.Node? || !IsManager(remote.offers) ==>
        Covers(proxiedObjects.Keys, base, remote)
      ensures findManager && remote.Node? && IsManager(remote.offers) ==>
        && (Acceptable(base, remote.offers) ==> base in proxiedObjects)
        && (managed.Some? ==> ManagedCovered(proxiedObjects.Keys, managed.value, |managed.value|))
      decreases remote
    {
      if remote.Absent? {
        return true;
      }
      if remote.Garbled? {
        return false;
      }
      ghost var before := targetBus.exported;
      ProxySingleObject(base, remote.offers);
      WalkBegins(before, targetBus.exported, proxiedObjects.Keys, base, remote);
      var isManager :=
        exists k :: 0 <= k < |remote.offers| && remote.offers[k].iface == OBJECT_MANAGER;
      if findManager && isManager {
        ghost var was := targetBus.exported;
        success := ProxyObjectManagerObjects(managed);
        ManagerWalked(before, was, targetBus.exported, base, remote, managed);
        return;
      }
      for k := 0 to |remote.children|
        invariant Valid() && old(proxiedObjects.Keys) <= proxiedObjects.Keys
        invariant Walked(before, targetBus.exported, proxiedObjects.Keys, base, remote, k)
      {
        var child := remote.children[k];
        if child.name == "" {
          WalkSkips(before, targetBus.exported, proxiedObjects.Keys, base, remote, k);
          continue;
        }
        ghost var was, keys := targetBus.exported, proxiedObjects.Keys;
        var _ := DiscoverAndProxyObjectTree(ChildPath(base, child.name), child.remote, false, None);
        WalkGoesOn(before, was, targetBus.exported, keys, proxiedObjects.Keys, base, remote, k);
      }
      WalkEnds(before, targetBus.exported, proxiedObjects.Keys, base, remote, findManager, managed);
      return true;
    }

    /** Every listed object that introspection shows is proxied, and nothing but those. */
    method ProxyObjectManagerObjects(managed: Option<seq<Managed>>) returns (success: bool)
      requires Valid()
      modifies this, targetBus
      ensures Valid() && Grows(old(targetBus.exported), targetBus.exported)
      ensures success == managed.Some?
      ensures old(proxiedObjects.Keys) <= proxiedObjects.Keys
      ensures managed.Some? ==> ManagedCovered(proxiedObjects.Keys, managed.value, |managed.value|)
      ensures managed.Some? ==> NewListed(old(targetBus.exported), targetBus.exported, managed.value)
      ensures managed.None? ==> targetBus.exported == old(targetBus.exported)
    {
      if managed.None? {
        return false;
      }
      ghost var before := targetBus.exported;
      for k := 0 to |managed.value|
        invariant Valid() && old(proxiedObjects.Keys) <= proxiedObjects.Keys
        invariant ListWalked(before, targetBus.exported, proxiedObjects.Keys, managed.value, k)
      {
        ghost var was, keys := targetBus.exported, proxiedObjects.Keys;
        if managed.value[k].shown.None? {
          ListSkips(before, was, keys, managed.value, k);
          continue;
        }
        ProxySingleObject(managed.value[k].path, managed.value[k].shown.value);
        ListGoesOn(before, was, targetBus.exported, keys, proxiedObjects.Keys, managed.value, k);
      }
      return true;
    }

    method AddInterface(path: Path, added: Added)
      requires Valid() && path in proxiedObjects
      modifies this, targetBus
      ensures Valid() && path in proxiedObjects
      ensures Extends(old(targetBus.exported), targetBus.exported, path)
      ensures Delivered(targetBus.exported, path, added)
      ensures targetBus.exported == old(targetBus.exported) || (CanBeHad(added)
        && Adds(old(targetBus.exported), targetBus.exported, Export(path, added.iface)))
    {
      if added.iface !in proxiedObjects[path] {
        var _ := RegisterSingleInterface(path, added);
      } else {
        TrackedIsExported(proxiedObjects, registeredObjects, targetBus.exported, path, added.iface);
      }
    }

    /** InterfacesAdded: an unknown object is discovered; a known one gets what it lacks. */
    method UpdateObjectWithNewInterfaces(path: Path, added: seq<Added>, remote: Remote)
      requires Valid()
      modifies this, targetBus
      ensures Valid() && Grows(old(targetBus.exported), targetBus.exported)
      ensures path in old(proxiedObjects) ==>
        Extends(old(targetBus.exported), targetBus.exported, path)
        && AllDelivered(targetBus.exported, path, added, |added|)
      ensures path in old(proxiedObjects) ==>
        NewAsked(old(targetBus.exported), targetBus.exported, added)
      ensures path !in old(proxiedObjects) ==> Covers(proxiedObjects.Keys, path, remote)
      ensures path !in old(proxiedObjects) ==>
        NewShown(old(targetBus.exported), targetBus.exported, path, remote)
    {
      if path !in proxiedObjects {
        var _ := DiscoverAndProxyObjectTree(path, remote, false, None);
        return;
      }
      for k := 0 to |added|
        invariant Valid() && path in proxiedObjects
        invariant Extends(old(targetBus.exported), targetBus.exported, path)
        invariant AllDelivered(targetBus.exported, path, added, k)
        invariant NewAsked(old(targetBus.exported), targetBus.exported, added)
      {
        ghost var exported := targetBus.exported;
        AddInterface(path, added[k]);
        OneMoreDelivered(exported, targetBus.exported, path, added, k);
        OneMoreAsked(old(targetBus.exported), exported, targetBus.exported, path, added, k);
      }
    }

    /** InterfacesRemoved: exactly the named interfaces of the object are withdrawn. */
    method OnInterfacesRemoved(path: Path, ifaces: seq<Interface>)
      requires Valid()
      modifies this, targetBus
      ensures Valid()
      ensures Withdrawn(old(targetBus.exported), targetBus.exported, path, ifaces)
    {
      ghost var before := targetBus.exported;
      if path !in proxiedObjects {
        return;
      }
      for k := 0 to |ifaces|
        invariant path in proxiedObjects
        invariant Withdrawing(before, proxiedObjects, registeredObjects, targetBus.exported,
          nodeInfoCache, path, ifaces, k)
      {
        var iface := ifaces[k];
        OneMoreWithdrawn(before, proxiedObjects, registeredObjects, targetBus.exported,
          nodeInfoCache, path, ifaces, k);
        if iface !in proxiedObjects[path] {
          continue;
        }
        var id := proxiedObjects[path][iface];
        var success := targetBus.UnregisterObject(id);
        nodeInfoCache := nodeInfoCache - {Key(path, iface)};
        registeredObjects := registeredObjects - {id};
        proxiedObjects := proxiedObjects[path := proxiedObjects[path] - {iface}];
      }
      assert ifaces[..|ifaces|] == ifaces;
      if proxiedObjects[path] == map[] {
        EmptyObjectIsNothing(proxiedObjects, registeredObjects, targetBus.exported, path);
        proxiedObjects := proxiedObjects - {path};
      }
    }

    /** Withdraws everything that is recorded, which is everything that is exported. */
    method Cleanup()
      requires Valid()
      modifies this, targetBus
      ensures targetBus.exported == map[] && Valid()
    {
      var remaining := registeredObjects.Keys;
      while remaining != {}
        invariant remaining == targetBus.exported.Keys
        decreases remaining
      {
        ghost var one := SomeOf(remaining);
        var id :| id in remaining;
        var _ := targetBus.UnregisterObject(id);
        remaining := remaining - {id};
      }
      registeredObjects, proxiedObjects, nodeInfoCache := map[], map[], {};
    }

    /** Start-up and any events, from any sound state: the tables are sound after whatever came
        last, and nothing is exported that was not there or shown by the source service. */
    method Serve(root: Remote, managed: Option<seq<Managed>>, events: seq<Event>)
      requires Valid()
      modifies this, targetBus
      ensures Valid()
      ensures Explained(old(targetBus.exported), targetBus.exported, root, managed, events, |events|)
    {
      ghost var before := targetBus.exported;
      var _ := DiscoverAndProxyObjectTree("/", root, true, managed);
      for k := 0 to |events|
        invariant Valid()
        invariant Explained(before, targetBus.exported, root, managed, events, k)
      {
        ghost var was := targetBus.exported;
        match events[k] {
          case InterfacesAdded(path, added, remote) =>
            UpdateObjectWithNewInterfaces(path, added, remote);
          case InterfacesRemoved(path, ifaces) =>
            OnInterfacesRemoved(path, ifaces);
        }
        ExplainedGrows(before, was, targetBus.exported, root, managed, events, k);
      }
    }

    /** A whole life ends with nothing exported. */
    method Run(root: Remote, managed: Option<seq<Managed>>, events: seq<Event>)
      requires Valid()
      modifies this, targetBus
      ensures targetBus.exported == map[] && Valid()
    {
      Serve(root, managed, events);
      Cleanup();
    }
  }
}
