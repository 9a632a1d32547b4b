/**
 Full discovery of the Rust SDK: the service root gives a map of names to URIs, every service is
 fetched in whatever order the hash map yields, and its own links are merged in.
 */
module Discovery {
  import opened Wrappers

  /** A JSON value as far as discovery looks at it: an object with an @odata.id text, or anything else. */
  datatype Value = Link(uri: string) | Other

  /** A response body: a JSON object, another JSON value, or none (no JSON, or the GET failed). */
  datatype Body = Object(fields: map<string, Value>) | NotAnObject | NoBody

  type Server = string -> Body

  type Services = map<string, string>

  /** Services in the order in which the hash map yields them. */
  type Order = seq<(string, string)>

  /** For every URI, the field names of the body behind it in the order in which its map yields them. */
  type FieldOrder = string -> seq<string>

  // ----- The root -----

  predicate RootLink(fields: map<string, Value>, key: string) {
    key in fields && fields[key].Link? && !(key != "" && (key[0] == '@' || key[0] == '_'))
  }

  /** What discovery returns; the names of the services come in no particular order. */
  datatype DiscoveryResult = DiscoveryResult(services: Services, capabilities: set<string>, raw: Body)

  function RootServices(root: Body): Services {
    if root.Object? then map key | key in root.fields && RootLink(root.fields, key) :: root.fields[key].uri else map[]
  }

  /** The loop over the fields of the root, in whatever order its map yields them. */
  method ParseRoot(root: Body) returns (result: DiscoveryResult)
    ensures result == DiscoveryResult(RootServices(root), RootServices(root).Keys, root)
    ensures forall key :: key in result.services <==>
              root.Object? && key in root.fields && root.fields[key].Link? && (key == "" || (key[0] != '@' && key[0] != '_'))
    ensures forall key | key in result.services :: root.fields[key] == Link(result.services[key])
  {
    var services: Services := map[];
    if root.Object? {
      var left := root.fields.Keys;
      while left != {}
        invariant left <= root.fields.Keys
        invariant forall key :: key in services <==> key in root.fields.Keys - left && RootLink(root.fields, key)
        invariant forall key | key in services :: key in root.fields && root.fields[key] == Link(services[key])
        decreases left
      {
        var key :| key in left;
        left := left - {key};
        if key != "" && (key[0] == '@' || key[0] == '_') { continue; }
        if root.fields[key].Link? {
          services := services[key := root.fields[key].uri];
        }
      }
    }
    return DiscoveryResult(services, services.Keys, root);
  }

  // ----- One service -----

  predicate SubLink(body: Body, key: string) {
    && body.Object? && key in body.fields && body.fields[key].Link?
    && !(key != "" && key[0] == '@')
  }

  function SubName(name: string, key: string): string {
    name + "/" + key
  }

  /** entry(..).or_insert(..): what is there stays. */
  function OrInsert(services: Services, name: string, uri: string): Services {
    if name in services then services else services[name := uri]
  }

  /** Merging the links of a service, key by key. */
  function Merge(services: Services, name: string, body: Body, keys: seq<string>): Services {
    if keys == [] then services
    else
      var before := Merge(services, name, body, keys[..|keys| - 1]);
      var key := keys[|keys| - 1];
      if SubLink(body, key) then OrInsert(before, SubName(name, key), body.fields[key].uri) else before
  }

  /** An enumeration of the fields of a body. */
  ghost predicate Lists(keys: seq<string>, body: Body) {
    && (forall key :: key in keys <==> body.Object? && key in body.fields)
    && (forall j, k | 0 <= j < k < |keys| :: keys[j] != keys[k])
  }

  /** The services, in the order the hash map yields them. */
  function MergeAll(services: Services, server: Server, order: Order, keysOf: FieldOrder): Services {
    if order == [] then services
    else
      var before := MergeAll(services, server, order[..|order| - 1], keysOf);
      var (name, uri) := order[|order| - 1];
      Merge(before, name, server(uri), keysOf(uri))
  }

  method GetOne(services: Services, server: Server, name: string, uri: string, keys: seq<string>) returns (merged: Services)
    requires Lists(keys, server(uri))
    ensures merged == Merge(services, name, server(uri), keys)
    ensures forall full | full in services :: full in merged && merged[full] == services[full]
    ensures forall full | full in merged && full !in services ::
              exists key :: full == name + "/" + key && server(uri).Object? && key in server(uri).fields
                            && (key == "" || key[0] != '@') && server(uri).fields[key] == Link(merged[full])
    ensures forall key | server(uri).Object? && key in server(uri).fields && server(uri).fields[key].Link?
                         && (key == "" || key[0] != '@') :: name + "/" + key in merged
  {
    merged := services;
    var body := server(uri);
    for n := 0 to |keys|
      invariant merged == Merge(services, name, body, keys[..n])
    {
      var key := keys[n];
      assert keys[..n + 1][..n] == keys[..n];
      assert key in keys;
      if key != "" && key[0] == '@' { continue; }
      if body.fields[key].Link? {
        var subName := SubName(name, key);
        if subName !in merged {
          merged := merged[subName := body.fields[key].uri];
        }
      }
    }
    assert keys[..|keys|] == keys;
    MergedFields(services, name, body, keys);
  }

  /** Every service once, in any order. */
  ghost predicate IsOrder(order: Order, services: Services) {
    && (forall name, uri :: (name, uri) in order <==> name in services && services[name] == uri)
    && (forall j, k | 0 <= j < k < |order| :: order[j] != order[k])
  }

  class ServiceDiscovery {
    const server: Server
    const basePath: string
    var shared: Services        // the map behind the mutex
    var poisoned: bool          // a thread has panicked while it held the mutex

    constructor (server: Server, basePath: string)
      ensures this.server == server && this.basePath == basePath && shared == map[] && !poisoned
    {
      this.server, this.basePath, shared, poisoned := server, basePath, map[], false;
    }

    /** The shared map takes over what was found, unless its lock is poisoned. */
    method UpdateMap(found: Services)
      modifies this`shared
      ensures shared == if poisoned then old(shared) else old(shared) + found
    {
      if poisoned { return; }
      var left := found.Keys;
      while left != {}
        invariant left <= found.Keys
        invariant shared.Keys == old(shared).Keys + (found.Keys - left)
        invariant forall name | name in shared ::
                    shared[name] == if name in found.Keys - left then found[name] else old(shared)[name]
        decreases left
      {
        var name :| name in left;
        left := left - {name};
        shared := shared[name := found[name]];
      }
    }

    method Full(order: Order, keysOf: FieldOrder) returns (result: Option<DiscoveryResult>)
      requires IsOrder(order, RootServices(server(basePath)))
      requires forall uri :: Lists(keysOf(uri), server(uri))
      modifies this`shared
      ensures result.None? <==> server(basePath).NoBody?
      ensures result.None? ==> shared == old(shared)
      ensures result.Some? ==>
                var root, found := RootServices(server(basePath)), result.value.services;
                && found == MergeAll(root, server, order, keysOf)
                && result.value.capabilities == root.Keys
                && result.value.raw == server(basePath)
                && shared == if poisoned then old(shared) else old(shared) + found
    {
      hide Merge, Lists, RootServices, IsOrder;
      if server(basePath).NoBody? { return None; }
      var found := ParseRoot(server(basePath));
      ghost var root := found.services;
      var services := found.services;
      for n := 0 to |order|
        invariant services == MergeAll(root, server, order[..n], keysOf)
        invariant shared == old(shared)
      {
        assert order[..n + 1][..n] == order[..n];
        services := GetOne(services, server, order[n].0, order[n].1, keysOf(order[n].1));
      }
      assert order[..|order|] == order;
      UpdateMap(services);
      return Some(found.(services := services));
    }
  }

  // ----- What the merge amounts to -----

  function Lookup(services: Services, full: string): Option<string> {
    if full in services then Some(services[full]) else None
  }

  /** The URI that a service's body gives for a full name, if it gives one. */
  function Brings(body: Body, name: string, full: string): Option<string> {
    if |name| < |full| && full[..|name|] == name && full[|name|] == '/' && SubLink(body, full[|name| + 1..])
    then Some(body.fields[full[|name| + 1..]].uri) else None
  }

  /** The first service in the order that brings a name. */
  function FirstBrought(server: Server, order: Order, full: string): Option<string> {
    if order == [] then None
    else
      var before := FirstBrought(server, order[..|order| - 1], full);
      var (name, uri) := order[|order| - 1];
      if before.Some? then before else Brings(server(uri), name, full)
  }

  lemma SubNameParts(name: string, key: string, full: string)
    ensures |name| < |full| && full[..|name|] == name && full[|name|] == '/' && full[|name| + 1..] == key
       <==> full == SubName(name, key)
  {
    if |name| < |full| && full[..|name|] == name && full[|name|] == '/' {
      assert full == full[..|name|] + [full[|name|]] + full[|name| + 1..];
    }
  }

  lemma {:induction false} MergeLookup(services: Services, name: string, body: Body, keys: seq<string>, full: string)
    ensures full in services ==> Lookup(Merge(services, name, body, keys), full) == Some(services[full])
    ensures full !in services ==>
              (Lookup(Merge(services, name, body, keys), full)
               == if |name| < |full| && full[|name| + 1..] in keys then Brings(body, name, full) else None)
  {
    if keys != [] {
      var init, key := keys[..|keys| - 1], keys[|keys| - 1];
      MergeLookup(services, name, body, init, full);
      SubNameParts(name, key, full);
      assert keys == init + [key];
    }
  }

  /** The merged map: what the root says, and otherwise what the first service to bring the name says. */
  lemma {:induction false} MergeAllLookup(root: Services, server: Server, order: Order, keysOf: FieldOrder, full: string)
    requires forall uri :: Lists(keysOf(uri), server(uri))
    ensures Lookup(MergeAll(root, server, order, keysOf), full)
         == if full in root then Some(root[full]) else FirstBrought(server, order, full)
  {
    if order != [] {
      var init, name, uri := order[..|order| - 1], order[|order| - 1].0, order[|order| - 1].1;
      MergeAllLookup(root, server, init, keysOf, full);
      MergeLookup(MergeAll(root, server, init, keysOf), name, server(uri), keysOf(uri), full);
      assert Lists(keysOf(uri), server(uri));
    }
  }

  /** What merging one service does, in terms of its body. */
  lemma {:induction false} MergedFields(services: Services, name: string, body: Body, keys: seq<string>)
    ensures forall full | full in services ::
              full in Merge(services, name, body, keys) && Merge(services, name, body, keys)[full] == services[full]
    ensures forall full | full in Merge(services, name, body, keys) && full !in services ::
              exists key :: full == name + "/" + key && body.Object? && key in body.fields
                            && (key == "" || key[0] != '@') && body.fields[key] == Link(Merge(services, name, body, keys)[full])
    ensures forall key | key in keys && body.Object? && key in body.fields && body.fields[key].Link?
                         && (key == "" || key[0] != '@') :: name + "/" + key in Merge(services, name, body, keys)
  {
    if keys != [] {
      var init, key := keys[..|keys| - 1], keys[|keys| - 1];
      MergedFields(services, name, body, init);
      assert keys == init + [key];
      SubNameMeaning(name, key);
    }
  }

  lemma SubNameMeaning(name: string, key: string)
    ensures SubName(name, key) == name + "/" + key
  {
  }

  /** What a service of the root brings is its own links, fetched from its own URI. */
  lemma BringsMeaning(body: Body, name: string, key: string, uri: string)
    ensures Brings(body, name, name + "/" + key) == Some(uri)
       <==> body.Object? && key in body.fields && body.fields[key] == Link(uri) && (key == "" || key[0] != '@')
  {
    var full := name + "/" + key;
    assert full[..|name|] == name && full[|name| + 1..] == key;
  }

  /**
   The names of a full discovery are those of the root and, behind a slash, those of the links of
   the services of the root; each has the URI of one of these.
   */
  lemma DiscoveredExactly(root: Services, server: Server, order: Order, keysOf: FieldOrder, full: string)
    requires forall uri :: Lists(keysOf(uri), server(uri))
    requires IsOrder(order, root)
    ensures var found := Lookup(MergeAll(root, server, order, keysOf), full);
            && (full in root ==> found == Some(root[full]))
            && (full !in root && found.Some? ==>
                  exists name :: name in root && Brings(server(root[name]), name, full) == found)
            && (full !in root && found.None? ==>
                  forall name | name in root :: Brings(server(root[name]), name, full).None?)
  {
    hide Brings, MergeAll, Lists, FirstBrought;
    MergeAllLookup(root, server, order, keysOf, full);
    FirstBroughtMeaning(server, order, full);
    if full !in root {
      if FirstBrought(server, order, full).Some? {
        var j :| 0 <= j < |order| && Brings(server(order[j].1), order[j].0, full) == FirstBrought(server, order, full);
        assert (order[j].0, order[j].1) in order;
      } else {
        forall name | name in root ensures Brings(server(root[name]), name, full).None? {
          assert (name, root[name]) in order;
        }
      }
    }
  }

  /** A URI found in the root is never overwritten, whatever the services bring. */
  lemma RootKept(root: Services, server: Server, order: Order, keysOf: FieldOrder, name: string)
    requires forall uri :: Lists(keysOf(uri), server(uri))
    requires name in root
    ensures Lookup(MergeAll(root, server, order, keysOf), name) == Some(root[name])
  {
    MergeAllLookup(root, server, order, keysOf, name);
  }

  // ----- When the order does not matter -----

  /** Two services that bring one name, which the root does not have, bring the same URI. */
  ghost predicate NoConflict(root: Services, server: Server) {
    forall n1, n2, full | n1 in root && n2 in root && full !in root ::
      var b1, b2 := Brings(server(root[n1]), n1, full), Brings(server(root[n2]), n2, full);
      b1.Some? && b2.Some? ==> b1 == b2
  }

  lemma {:induction false} FirstBroughtMeaning(server: Server, order: Order, full: string)
    ensures FirstBrought(server, order, full).Some? ==>
              exists j | 0 <= j < |order| :: Brings(server(order[j].1), order[j].0, full) == FirstBrought(server, order, full)
    ensures FirstBrought(server, order, full).None? ==>
              forall j | 0 <= j < |order| :: Brings(server(order[j].1), order[j].0, full).None?
  {
    if order != [] {
      var init := order[..|order| - 1];
      FirstBroughtMeaning(server, init, full);
      assert forall j | 0 <= j < |init| :: order[j] == init[j];
      if FirstBrought(server, init, full).Some? {
        var j :| 0 <= j < |init| && Brings(server(init[j].1), init[j].0, full) == FirstBrought(server, init, full);
        assert Brings(server(order[j].1), order[j].0, full) == FirstBrought(server, order, full);
      }
    }
  }

  lemma {:induction false} FrontWins(server: Server, first: (string, string), rest: Order, full: string)
    requires Brings(server(first.1), first.0, full).Some?
    ensures FirstBrought(server, [first] + rest, full) == Brings(server(first.1), first.0, full)
  {
    var order := [first] + rest;
    if rest == [] {
      assert order[..0] == [];
    } else {
      assert order[..|order| - 1] == [first] + rest[..|rest| - 1];
      FrontWins(server, first, rest[..|rest| - 1], full);
    }
  }

  lemma SameBrought(root: Services, server: Server, order: Order, order': Order, full: string)
    requires IsOrder(order, root) && IsOrder(order', root) && NoConflict(root, server) && full !in root
    requires FirstBrought(server, order, full).Some?
    ensures FirstBrought(server, order', full) == FirstBrought(server, order, full)
  {
    FirstBroughtMeaning(server, order, full);
    FirstBroughtMeaning(server, order', full);
    var j :| 0 <= j < |order| && Brings(server(order[j].1), order[j].0, full) == FirstBrought(server, order, full);
    assert (order[j].0, order[j].1) in order;
    assert (order[j].0, order[j].1) in order';
    var k :| 0 <= k < |order'| && order'[k] == order[j];
    assert Brings(server(order'[k].1), order'[k].0, full).Some?;
    var i :| 0 <= i < |order'| && Brings(server(order'[i].1), order'[i].0, full) == FirstBrought(server, order', full);
    assert (order'[i].0, order'[i].1) in order';
  }

  /** Without a conflict, every order of the services ends in the same map, whichever fetches fail. */
  lemma OrderIrrelevant(root: Services, server: Server, order: Order, order': Order, keysOf: FieldOrder, keysOf': FieldOrder)
    requires forall uri :: Lists(keysOf(uri), server(uri)) && Lists(keysOf'(uri), server(uri))
    requires IsOrder(order, root) && IsOrder(order', root) && NoConflict(root, server)
    ensures MergeAll(root, server, order, keysOf) == MergeAll(root, server, order', keysOf')
  {
    var m, m' := MergeAll(root, server, order, keysOf), MergeAll(root, server, order', keysOf');
    forall full
      ensures Lookup(m, full) == Lookup(m', full)
    {
      MergeAllLookup(root, server, order, keysOf, full);
      MergeAllLookup(root, server, order', keysOf', full);
      if full !in root {
        if FirstBrought(server, order, full).Some? {
          SameBrought(root, server, order, order', full);
        } else if FirstBrought(server, order', full).Some? {
          SameBrought(root, server, order', order, full);
        }
      }
    }
    SameMaps(m, m');
  }

  lemma SameMaps(m: Services, m': Services)
    requires forall full :: Lookup(m, full) == Lookup(m', full)
    ensures m == m'
  {
    assert forall full :: full in m ==> Lookup(m', full) == Some(m[full]);
    assert forall full :: full in m' ==> Lookup(m, full) == Some(m'[full]);
  }

  /** With one, two orders can be given that end in different maps: the condition is exact. */
  lemma ConflictShows(root: Services, server: Server, order: Order, keysOf: FieldOrder)
      returns (order1: Order, order2: Order)
    requires forall uri :: Lists(keysOf(uri), server(uri))
    requires IsOrder(order, root) && !NoConflict(root, server)
    ensures IsOrder(order1, root) && IsOrder(order2, root)
    ensures MergeAll(root, server, order1, keysOf) != MergeAll(root, server, order2, keysOf)
  {
    hide Brings, MergeAll, FirstBrought, Lists, IsOrder;
    var n1, n2, full :| n1 in root && n2 in root && full !in root
      && Brings(server(root[n1]), n1, full).Some? && Brings(server(root[n2]), n2, full).Some?
      && Brings(server(root[n1]), n1, full) != Brings(server(root[n2]), n2, full);
    order1 := ToFront(root, order, n1);
    order2 := ToFront(root, order, n2);
    FrontWins(server, order1[0], order1[1..], full);
    FrontWins(server, order2[0], order2[1..], full);
    assert order1 == [order1[0]] + order1[1..] && order2 == [order2[0]] + order2[1..];
    MergeAllLookup(root, server, order1, keysOf, full);
    MergeAllLookup(root, server, order2, keysOf, full);
  }

  lemma MovedToFront<T>(s: seq<T>, k: nat)
    requires k < |s|
    ensures var moved := [s[k]] + (s[..k] + s[k + 1..]);
            && (forall x :: x in moved <==> x in s)
            && ((forall i, j | 0 <= i < j < |s| :: s[i] != s[j]) ==>
                  forall i, j | 0 <= i < j < |moved| :: moved[i] != moved[j])
  {
    var moved := [s[k]] + (s[..k] + s[k + 1..]);
    assert forall i | 0 < i < |moved| :: moved[i] == s[if i <= k then i - 1 else i];
    assert forall i | 0 <= i < |s| :: s[i] == moved[if i < k then i + 1 else if i == k then 0 else i];
  }

  lemma ToFront(root: Services, order: Order, name: string) returns (moved: Order)
    requires IsOrder(order, root) && name in root
    ensures IsOrder(moved, root) && |moved| > 0 && moved[0] == (name, root[name])
  {
    assert (name, root[name]) in order;
    var k :| 0 <= k < |order| && order[k] == (name, root[name]);
    moved := [order[k]] + (order[..k] + order[k + 1..]);
    MovedToFront(order, k);
  }

  /** Top-level names without a slash cannot conflict: the name can be read off what is built from it. */
  lemma SimpleNamesNoConflict(root: Services, server: Server)
    requires forall name | name in root :: '/' !in name
    ensures NoConflict(root, server)
  {
    forall n1, n2, full | n1 in root && n2 in root && full !in root
      && Brings(server(root[n1]), n1, full).Some? && Brings(server(root[n2]), n2, full).Some?
      ensures n1 == n2
    {
      SameStem(n1, n2, full);
    }
  }

  lemma SameStem(n1: string, n2: string, full: string)
    requires '/' !in n1 && '/' !in n2
    requires |n1| < |full| && full[..|n1|] == n1 && full[|n1|] == '/'
    requires |n2| < |full| && full[..|n2|] == n2 && full[|n2|] == '/'
    ensures n1 == n2
  {
    assert forall i | 0 <= i < |n1| :: n1[i] == full[i] && n1[i] in n1;
    assert forall i | 0 <= i < |n2| :: n2[i] == full[i] && n2[i] in n2;
  }

  function SlashServer(uri: string): Body {
    if uri == "u" then Object(map["B/C" := Link("x")])
    else if uri == "v" then Object(map["C" := Link("y")])
    else NoBody
  }

  /** A root with the names "A" and "A/B" shows that slashes can make the order matter. */
  lemma SlashCanConflict()
    ensures !NoConflict(map["A" := "u", "A/B" := "v"], SlashServer)
  {
    var root, full := map["A" := "u", "A/B" := "v"], "A/B/C";
    assert full[..1] == "A" && full[2..] == "B/C";
    assert full[..3] == "A/B" && full[4..] == "C";
    var server: Server := SlashServer;
    assert server("u") == SlashServer("u") && server("v") == SlashServer("v");
    assert Brings(server(root["A"]), "A", full) == Some("x");
    assert Brings(server(root["A/B"]), "A/B", full) == Some("y");
    assert full !in root;
  }
}
