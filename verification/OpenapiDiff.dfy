/** Comparing two API documents: which named schemas requests and responses reach, and which changes break a client. */
module OpenapiDiff {
  import opened Wrappers
  import opened Schemas

  type Named = map<string, Json>

  datatype Operation = Operation(capability: Option<string>, scope: Option<string>, body: Json, responses: Json)

  datatype Api = Api(operations: map<(string, string), Operation>, schemas: Named, version: Option<string>)

  // ------------------------------------------------------------------ references

  function OwnRef(node: Json): set<string> {
    if node.Obj? then
      set i | 0 <= i < |node.members| && node.members[i].name == "$ref" && node.members[i].value.Str?
              && LOCAL <= node.members[i].value.s :: AfterLastSlash(node.members[i].value.s)
    else {}
  }

  /** Every schema named anywhere inside a node. */
  function RefsIn(node: Json): set<string> {
    match node
    case Obj(members) => OwnRef(node) + set i, r | 0 <= i < |members| && r in RefsIn(members[i].value) :: r
    case Arr(items) => set i, r | 0 <= i < |items| && r in RefsIn(items[i]) :: r
    case _ => {}
  }

  /** The recursion that adds to the set it is given. */
  method AddRefs(node: Json, out: set<string>) returns (r: set<string>)
    ensures r == out + RefsIn(node)
    decreases node
  {
    hide RefsIn, OwnRef;
    r := out;
    match node {
      case Obj(members) =>
        MembersRefs(members);
        r := r + OwnRef(node);
        for k := 0 to |members|
          invariant forall n :: n in r <==> n in out || n in OwnRef(node) || exists i :: 0 <= i < k && n in RefsIn(members[i].value)
        {
          r := AddRefs(members[k].value, r);
        }
      case Arr(items) =>
        ItemsRefs(items);
        for k := 0 to |items|
          invariant forall n :: n in r <==> n in out || exists i :: 0 <= i < k && n in RefsIn(items[i])
        {
          r := AddRefs(items[k], r);
        }
      case _ =>
        NoRefs(node);
    }
  }

  lemma MembersRefs(members: seq<Member>)
    ensures forall n :: n in RefsIn(Obj(members)) <==>
              n in OwnRef(Obj(members)) || exists i :: 0 <= i < |members| && n in RefsIn(members[i].value)
  {
  }

  lemma ItemsRefs(items: seq<Json>)
    ensures forall n :: n in RefsIn(Arr(items)) <==> exists i :: 0 <= i < |items| && n in RefsIn(items[i])
  {
  }

  lemma NoRefs(node: Json)
    requires !node.Obj? && !node.Arr?
    ensures RefsIn(node) == {}
  {
  }

  function Children(schemas: Named, name: string): set<string> {
    if name in schemas then RefsIn(schemas[name]) else {}
  }

  // ------------------------------------------------------------------ what counts as a reference

  /** What stands in the document at the end of a path of positions. */
  function NodeAt(node: Json, path: seq<nat>): Option<Json>
    decreases |path|
  {
    if path == [] then Some(node)
    else
      match node
      case Obj(members) => if path[0] < |members| then NodeAt(members[path[0]].value, path[1..]) else None
      case Arr(items) => if path[0] < |items| then NodeAt(items[path[0]], path[1..]) else None
      case _ => None
  }

  /** The object names the schema: its "$ref" is text that begins with the common prefix and ends in a slash and the name. */
  ghost predicate NamesSchema(node: Json, name: string) {
    && node.Obj? && '/' !in name
    && exists i, front ::
         && 0 <= i < |node.members| && node.members[i] == Member("$ref", Str(front + "/" + name))
         && "#/components/schemas/" <= front + "/" + name
  }

  ghost predicate NamesInside(node: Json, name: string) {
    exists path :: NamesAt(node, path, name)
  }

  ghost predicate NamesAt(node: Json, path: seq<nat>, name: string) {
    NodeAt(node, path).Some? && NamesSchema(NodeAt(node, path).value, name)
  }

  lemma {:induction false} TailIff(s: string, name: string)
    requires '/' in s
    ensures AfterLastSlash(s) == name <==> '/' !in name && exists front :: s == front + "/" + name
  {
    var n := |s| - 1;
    if s[n] == '/' {
      assert s == s[..n] + "/" + "";
      if front :| '/' !in name && s == front + "/" + name {
        OneTail(s[..n], "", front, name);
      }
    } else {
      TailIff(s[..n], AfterLastSlash(s[..n]));
      var tail := AfterLastSlash(s[..n]);
      var front :| s[..n] == front + "/" + tail;
      assert s == front + "/" + (tail + [s[n]]);
      if f :| '/' !in name && s == f + "/" + name {
        OneTail(front, tail + [s[n]], f, name);
      }
    }
  }

  lemma SlashIsLast(front: string, tail: string)
    requires '/' !in tail
    ensures var s := front + "/" + tail;
      s[|front|] == '/' && (forall j :: |front| < j < |s| ==> s[j] != '/') && s[|front| + 1..] == tail
  {
    var s := front + "/" + tail;
    assert forall j :: |front| < j < |s| ==> s[j] == tail[j - |front| - 1] && tail[j - |front| - 1] in tail;
  }

  lemma OneTail(f: string, a: string, g: string, b: string)
    requires f + "/" + a == g + "/" + b && '/' !in a && '/' !in b
    ensures a == b
  {
    SlashIsLast(f, a);
    SlashIsLast(g, b);
    assert |f| == |g|;
  }

  lemma PrefixHasSlash(s: string)
    requires LOCAL <= s
    ensures '/' in s
  {
    assert s[1] == LOCAL[1] == '/';
  }

  lemma OwnRefIff(node: Json, name: string)
    ensures name in OwnRef(node) <==> NamesSchema(node, name)
  {
    if name in OwnRef(node) {
      var i :| 0 <= i < |node.members| && node.members[i].name == "$ref" && node.members[i].value.Str?
               && LOCAL <= node.members[i].value.s && name == AfterLastSlash(node.members[i].value.s);
      PrefixHasSlash(node.members[i].value.s);
      TailIff(node.members[i].value.s, name);
      var front :| node.members[i].value.s == front + "/" + name;
      assert node.members[i] == Member("$ref", Str(front + "/" + name));
    }
    if NamesSchema(node, name) {
      var i, front :| 0 <= i < |node.members| && node.members[i] == Member("$ref", Str(front + "/" + name))
                      && "#/components/schemas/" <= front + "/" + name;
      PrefixHasSlash(front + "/" + name);
      TailIff(front + "/" + name, name);
    }
  }

  /** A reference is collected exactly if some object inside the node names the schema, however deep. */
  lemma {:induction false} RefsInIff(node: Json, name: string)
    ensures name in RefsIn(node) <==> NamesInside(node, name)
    decreases node
  {
    OwnRefIff(node, name);
    match node {
      case Obj(members) =>
        MembersRefs(members);
        forall i | 0 <= i < |members| ensures name in RefsIn(members[i].value) <==> NamesInside(members[i].value, name) {
          RefsInIff(members[i].value, name);
        }
        hide RefsIn, OwnRef, NamesSchema;
        InsideMembers(members, name);
      case Arr(items) =>
        ItemsRefs(items);
        forall i | 0 <= i < |items| ensures name in RefsIn(items[i]) <==> NamesInside(items[i], name) {
          RefsInIff(items[i], name);
        }
        hide RefsIn, OwnRef, NamesSchema;
        InsideItems(items, name);
      case _ =>
        NoRefs(node);
        forall path ensures !NamesAt(node, path, name) { }
    }
  }

  lemma InsideMembers(members: seq<Member>, name: string)
    ensures NamesInside(Obj(members), name) <==>
      NamesSchema(Obj(members), name) || exists i :: 0 <= i < |members| && NamesInside(members[i].value, name)
  {
    hide NamesSchema;
    if path :| NamesAt(Obj(members), path, name) {
      if path != [] { assert NamesAt(members[path[0]].value, path[1..], name); }
    }
    if NamesSchema(Obj(members), name) { assert NamesAt(Obj(members), [], name); }
    if i :| 0 <= i < |members| && NamesInside(members[i].value, name) {
      var path :| NamesAt(members[i].value, path, name);
      assert ([i] + path)[1..] == path;
      assert NamesAt(Obj(members), [i] + path, name);
    }
  }

  lemma InsideItems(items: seq<Json>, name: string)
    ensures NamesInside(Arr(items), name) <==> exists i :: 0 <= i < |items| && NamesInside(items[i], name)
  {
    if path :| NamesAt(Arr(items), path, name) {
      assert path != [];
      assert NamesAt(items[path[0]], path[1..], name);
    }
    hide NamesSchema;
    if i :| 0 <= i < |items| && NamesInside(items[i], name) {
      var path :| NamesAt(items[i], path, name);
      assert ([i] + path)[1..] == path;
      assert NamesAt(Arr(items), [i] + path, name);
    }
  }

  // ------------------------------------------------------------------ the closure

  ghost predicate IsRefPath(schemas: Named, seed: set<string>, path: seq<string>) {
    && path != [] && path[0] in seed
    && forall i :: 0 <= i < |path| - 1 ==> path[i + 1] in Children(schemas, path[i])
  }

  /** Some chain of references leads from the seed to the schema. */
  ghost predicate Reached(schemas: Named, seed: set<string>, name: string) {
    exists path: seq<string> :: IsRefPath(schemas, seed, path) && path[|path| - 1] == name
  }

  ghost predicate ClosedUnder(schemas: Named, names: set<string>) {
    forall n :: n in names ==> Children(schemas, n) <= names
  }

  /** The least set that holds the seed and is closed under references. */
  ghost predicate IsClosure(schemas: Named, seed: set<string>, names: set<string>) {
    && seed <= names && ClosedUnder(schemas, names)
    && forall other: set<string> :: seed <= other && ClosedUnder(schemas, other) ==> names <= other
  }

  function Mentioned(schemas: Named): set<string> {
    set n, r | n in schemas && r in RefsIn(schemas[n]) :: r
  }

  /** The worklist: it ends, since a name is queued once and only so many are mentioned. */
  method Close(schemas: Named, seed: set<string>) returns (seen: set<string>)
    ensures IsClosure(schemas, seed, seen)
    ensures forall n :: n in seen <==> Reached(schemas, seed, n)
  {
    seen := seed;
    var queue := SeqOf(seed);
    SeedIsReached(schemas, seed);
    hide Reached, IsClosure, RefsIn, Mentioned;
    ghost var universe := seed + Mentioned(schemas);
    while queue != []
      invariant seed <= seen <= universe
      invariant forall n :: n in queue ==> n in seen
      invariant forall n :: n in seen && n !in queue ==> Children(schemas, n) <= seen
      invariant forall n :: n in seen ==> Reached(schemas, seed, n)
      decreases universe - seen, |queue|
    {
      var name := queue[|queue| - 1];
      var others := queue[..|queue| - 1];
      assert forall n :: n in queue ==> n == name || n in others;
      var children := if name in schemas then RefsIn(schemas[name]) else {};
      ChildrenAreReached(schemas, seed, name);
      ghost var was := seen;
      seen, queue := Enqueue(children, seen, others);
      assert seen != was ==> universe - seen < universe - was by {
        assert universe - seen <= universe - was;
      }
    }
    ReachedIsClosure(schemas, seed, seen);
  }

  lemma SeedIsReached(schemas: Named, seed: set<string>)
    ensures forall n :: n in seed ==> Reached(schemas, seed, n)
  {
    assert forall n :: n in seed ==> IsRefPath(schemas, seed, [n]);
  }

  lemma ChildrenAreReached(schemas: Named, seed: set<string>, name: string)
    requires Reached(schemas, seed, name)
    ensures Children(schemas, name) <= Mentioned(schemas)
    ensures forall n :: n in Children(schemas, name) ==> Reached(schemas, seed, n)
  {
    hide Reached;
    forall n | n in Children(schemas, name) ensures Reached(schemas, seed, n) {
      ReachedExtends(schemas, seed, name, n);
    }
  }

  lemma ReachedIsClosure(schemas: Named, seed: set<string>, names: set<string>)
    requires seed <= names && ClosedUnder(schemas, names) && forall n :: n in names ==> Reached(schemas, seed, n)
    ensures IsClosure(schemas, seed, names)
    ensures forall n :: n in names <==> Reached(schemas, seed, n)
  {
    hide Reached;
    forall n | Reached(schemas, seed, n) ensures n in names {
      ReachedIsInClosed(schemas, seed, n, names);
    }
    forall other: set<string> | seed <= other && ClosedUnder(schemas, other) ensures names <= other {
      forall n | n in names ensures n in other {
        ReachedIsInClosed(schemas, seed, n, other);
      }
    }
  }

  /** Queue the children not seen before. */
  method Enqueue(children: set<string>, seen: set<string>, queue: seq<string>) returns (seen': set<string>, queue': seq<string>)
    ensures seen' == seen + children
    ensures forall n :: n in queue' <==> n in queue || n in children - seen
    ensures children <= seen ==> queue' == queue
  {
    seen', queue' := seen, queue;
    var todo := children;
    while todo != {}
      invariant todo <= children
      invariant seen' == seen + (children - todo)
      invariant forall n :: n in queue' <==> n in queue || n in children - todo - seen
      invariant children <= seen ==> queue' == queue
    {
      var child :| child in todo;
      todo := todo - {child};
      if child !in seen' {
        seen' := seen' + {child};
        queue' := queue' + [child];
      }
    }
  }

  method SeqOf(s: set<string>) returns (q: seq<string>)
    ensures forall n :: n in q <==> n in s
  {
    q := [];
    var todo := s;
    while todo != {}
      invariant todo <= s && forall n :: n in q <==> n in s - todo
    {
      var n :| n in todo;
      todo := todo - {n};
      q := q + [n];
    }
  }

  lemma ReachedExtends(schemas: Named, seed: set<string>, name: string, child: string)
    requires Reached(schemas, seed, name) && child in Children(schemas, name)
    ensures Reached(schemas, seed, child)
  {
    var path: seq<string> :| IsRefPath(schemas, seed, path) && path[|path| - 1] == name;
    assert IsRefPath(schemas, seed, path + [child]);
  }

  lemma {:induction false} ReachedIsInClosed(schemas: Named, seed: set<string>, name: string, names: set<string>)
    requires Reached(schemas, seed, name) && seed <= names && ClosedUnder(schemas, names)
    ensures name in names
  {
    var path: seq<string> :| IsRefPath(schemas, seed, path) && path[|path| - 1] == name;
    PathStaysIn(schemas, seed, path, names, |path| - 1);
  }

  lemma {:induction false} PathStaysIn(schemas: Named, seed: set<string>, path: seq<string>, names: set<string>, k: nat)
    requires IsRefPath(schemas, seed, path) && seed <= names && ClosedUnder(schemas, names) && k < |path|
    ensures path[k] in names
  {
    if k > 0 {
      PathStaysIn(schemas, seed, path, names, k - 1);
    }
  }

  // ------------------------------------------------------------------ roles

  function RequestSeed(api: Api): set<string> {
    set k, r | k in api.operations && r in RefsIn(api.operations[k].body) :: r
  }

  function ResponseSeed(api: Api): set<string> {
    set k, r | k in api.operations && r in RefsIn(api.operations[k].responses) :: r
  }

  ghost predicate IsRequest(api: Api, name: string) {
    Reached(api.schemas, RequestSeed(api), name)
  }

  ghost predicate IsResponse(api: Api, name: string) {
    Reached(api.schemas, ResponseSeed(api), name)
  }

  /** Sent by the server and never by a caller. */
  ghost predicate ResponseOnly(api: Api, name: string) {
    IsResponse(api, name) && !IsRequest(api, name)
  }

  method SchemaRoles(api: Api) returns (req: set<string>, resp: set<string>)
    ensures forall n :: n in req <==> IsRequest(api, n)
    ensures forall n :: n in resp <==> IsResponse(api, n)
  {
    req, resp := {}, {};
    var todo := api.operations.Keys;
    while todo != {}
      invariant todo <= api.operations.Keys
      invariant forall n :: n in req <==>
                  exists k :: k in api.operations.Keys - todo && n in RefsIn(api.operations[k].body)
      invariant forall n :: n in resp <==>
                  exists k :: k in api.operations.Keys - todo && n in RefsIn(api.operations[k].responses)
    {
      var k :| k in todo;
      todo := todo - {k};
      req := AddRefs(api.operations[k].body, req);
      resp := AddRefs(api.operations[k].responses, resp);
    }
    assert todo == {} && api.operations.Keys - todo == api.operations.Keys;
    assert req == RequestSeed(api) && resp == ResponseSeed(api);
    req := Close(api.schemas, req);
    resp := Close(api.schemas, resp);
  }

  // ------------------------------------------------------------------ what changed

  /** The value of a key; a later duplicate wins. */
  function Lookup(members: seq<Member>, key: string): Option<Json> {
    if members == [] then None
    else
      var last := members[|members| - 1];
      if last.name == key then Some(last.value) else Lookup(members[..|members| - 1], key)
  }

  function Get(node: Json, key: string): Option<Json> {
    if node.Obj? then Lookup(node.members, key) else None
  }

  function RequiredOf(schema: Json): set<string> {
    match Get(schema, "required")
    case Some(Arr(items)) => set i | 0 <= i < |items| && items[i].Str? :: items[i].s
    case _ => {}
  }

  function PropertiesOf(schema: Json): set<string> {
    match Get(schema, "properties")
    case Some(Obj(members)) => set i | 0 <= i < |members| :: members[i].name
    case _ => {}
  }

  /** An object's value under a key, the last of several. */
  ghost predicate Gives(node: Json, key: string, value: Json) {
    && node.Obj?
    && exists i :: 0 <= i < |node.members| && node.members[i] == Member(key, value) && LastOfItsName(node.members, i)
  }

  predicate LastOfItsName(members: seq<Member>, i: nat)
    requires i < |members|
  {
    forall j :: i < j < |members| ==> members[j].name != members[i].name
  }

  lemma {:induction false} LookupIff(members: seq<Member>, key: string, value: Json)
    ensures Lookup(members, key) == Some(value) <==> Gives(Obj(members), key, value)
  {
    if members != [] {
      var n := |members| - 1;
      LookupIff(members[..n], key, value);
      if members[n].name == key {
        assert LastOfItsName(members, n);
        if Lookup(members, key) == Some(value) { assert members[n] == Member(key, value); }
      } else {
        if Gives(Obj(members[..n]), key, value) {
          var i :| 0 <= i < n && members[..n][i] == Member(key, value) && LastOfItsName(members[..n], i);
          assert members[i] == Member(key, value) && LastOfItsName(members, i);
        }
        if Gives(Obj(members), key, value) {
          var i :| 0 <= i < |members| && members[i] == Member(key, value) && LastOfItsName(members, i);
          assert members[..n][i] == Member(key, value) && LastOfItsName(members[..n], i);
        }
      }
    }
  }

  /** A schema demands a field, or declares it, exactly if its list or its table says so. */
  lemma FieldsIff(schema: Json, field: string)
    ensures field in RequiredOf(schema) <==> exists items :: Gives(schema, "required", Arr(items)) && Str(field) in items
    ensures field in PropertiesOf(schema) <==> exists members :: Gives(schema, "properties", Obj(members)) && HasMember(members, field)
  {
    if schema.Obj? {
      forall key: string, value ensures Get(schema, key) == Some(value) <==> Gives(schema, key, value) {
        LookupIff(schema.members, key, value);
      }
    }
    hide Gives, Get;
    match Get(schema, "required") {
      case Some(Arr(items)) =>
        assert field in RequiredOf(schema) <==> Str(field) in items;
      case _ =>
    }
    match Get(schema, "properties") {
      case Some(Obj(members)) =>
        assert field in PropertiesOf(schema) <==> HasMember(members, field);
      case _ =>
    }
  }

  predicate HasMember(members: seq<Member>, name: string) {
    exists i :: 0 <= i < |members| && members[i].name == name
  }

  type Route = (string, string)

  datatype Change =
    | RouteRemoved(route: Route) | RouteAdded(route: Route)
    | CapabilityChanged(route: Route) | ScopeChanged(route: Route)
    | NowRequires(name: string, fields: set<string>) | AlwaysSends(name: string, fields: set<string>)
    | PropertiesLost(name: string, fields: set<string>) | PropertiesGained(name: string, fields: set<string>)
    | SchemaRemoved(name: string) | SchemaAdded(name: string)
    | VersionUnchanged

  function GainedRequired(before: Api, after: Api, name: string): set<string>
    requires name in before.schemas && name in after.schemas
  {
    RequiredOf(after.schemas[name]) - RequiredOf(before.schemas[name])
  }

  /** The change is there and breaks a client that was right before it. */
  ghost predicate Breaks(before: Api, after: Api, c: Change) {
    match c
    case RouteRemoved(k) => k in before.operations && k !in after.operations
    case CapabilityChanged(k) =>
      && k in before.operations && k in after.operations
      && before.operations[k].capability != after.operations[k].capability
    case ScopeChanged(k) =>
      && k in before.operations && k in after.operations
      && before.operations[k].scope != after.operations[k].scope && before.operations[k].scope.Some?
    case NowRequires(n, fields) =>
      && n in before.schemas && n in after.schemas
      && fields == GainedRequired(before, after, n) && fields != {} && !ResponseOnly(after, n)
    case PropertiesLost(n, fields) =>
      && n in before.schemas && n in after.schemas
      && fields == PropertiesOf(before.schemas[n]) - PropertiesOf(after.schemas[n]) && fields != {}
    case SchemaRemoved(n) => n in before.schemas && n !in after.schemas
    case _ => false
  }

  ghost predicate Adds(before: Api, after: Api, c: Change) {
    match c
    case RouteAdded(k) => k !in before.operations && k in after.operations
    case AlwaysSends(n, fields) =>
      && n in before.schemas && n in after.schemas
      && fields == GainedRequired(before, after, n) && fields != {} && ResponseOnly(after, n)
    case PropertiesGained(n, fields) =>
      && n in before.schemas && n in after.schemas
      && fields == PropertiesOf(after.schemas[n]) - PropertiesOf(before.schemas[n]) && fields != {}
    case SchemaAdded(n) => n !in before.schemas && n in after.schemas
    case _ => false
  }

  ghost predicate Compatible(before: Api, after: Api) {
    forall c :: !Breaks(before, after, c)
  }

  predicate AboutRoute(c: Change, k: Route) {
    (c.RouteRemoved? || c.RouteAdded? || c.CapabilityChanged? || c.ScopeChanged?) && c.route == k
  }

  predicate AboutSchema(c: Change, n: string) {
    || ((c.NowRequires? || c.AlwaysSends? || c.PropertiesLost? || c.PropertiesGained?) && c.name == n)
    || ((c.SchemaRemoved? || c.SchemaAdded?) && c.name == n)
  }

  method CompareRoute(before: Api, after: Api, k: Route) returns (breaking: seq<Change>, additive: seq<Change>)
    requires k in before.operations || k in after.operations
    ensures forall c :: c in breaking <==> AboutRoute(c, k) && Breaks(before, after, c)
    ensures forall c :: c in additive <==> AboutRoute(c, k) && Adds(before, after, c)
  {
    breaking, additive := [], [];
    if k !in after.operations {
      breaking := [RouteRemoved(k)];
    } else if k !in before.operations {
      additive := [RouteAdded(k)];
    } else {
      var o, n := before.operations[k], after.operations[k];
      if o.capability != n.capability {
        breaking := breaking + [CapabilityChanged(k)];
      }
      if o.scope != n.scope && o.scope.Some? {
        breaking := breaking + [ScopeChanged(k)];
      }
    }
  }

  method CompareSchema(before: Api, after: Api, name: string, req: set<string>, resp: set<string>)
    returns (breaking: seq<Change>, additive: seq<Change>)
    requires name in before.schemas || name in after.schemas
    requires name in req <==> IsRequest(after, name)
    requires name in resp <==> IsResponse(after, name)
    ensures forall c :: c in breaking <==> AboutSchema(c, name) && Breaks(before, after, c)
    ensures forall c :: c in additive <==> AboutSchema(c, name) && Adds(before, after, c)
  {
    hide IsRequest, IsResponse, RequiredOf, PropertiesOf;
    breaking, additive := [], [];
    if name !in after.schemas {
      breaking := [SchemaRemoved(name)];
    } else if name !in before.schemas {
      additive := [SchemaAdded(name)];
    } else {
      var o, n := before.schemas[name], after.schemas[name];
      var gainedRequired := RequiredOf(n) - RequiredOf(o);
      if gainedRequired != {} {
        if name in req || name !in resp {
          breaking := breaking + [NowRequires(name, gainedRequired)];
        } else {
          additive := additive + [AlwaysSends(name, gainedRequired)];
        }
      }
      var lost := PropertiesOf(o) - PropertiesOf(n);
      if lost != {} {
        breaking := breaking + [PropertiesLost(name, lost)];
      }
      var gained := PropertiesOf(n) - PropertiesOf(o);
      if gained != {} {
        additive := additive + [PropertiesGained(name, gained)];
      }
    }
  }

  /** The two lists hold every change there is; an unchanged version is breaking on top of a breaking change. */
  method Compare(before: Api, after: Api) returns (breaking: seq<Change>, additive: seq<Change>, exit: nat)
    ensures forall c :: c in breaking <==>
              Breaks(before, after, c) || (c.VersionUnchanged? && !Compatible(before, after) && before.version == after.version)
    ensures forall c :: c in additive <==> Adds(before, after, c)
    ensures exit == if Compatible(before, after) then 0 else 1
  {
    hide Breaks, Adds;
    breaking, additive := [], [];
    var routes := before.operations.Keys + after.operations.Keys;
    var todo := routes;
    while todo != {}
      invariant todo <= routes
      invariant forall c :: c in breaking <==> (exists k :: k in routes - todo && AboutRoute(c, k)) && Breaks(before, after, c)
      invariant forall c :: c in additive <==> (exists k :: k in routes - todo && AboutRoute(c, k)) && Adds(before, after, c)
    {
      var k :| k in todo;
      todo := todo - {k};
      var b, a := CompareRoute(before, after, k);
      breaking, additive := breaking + b, additive + a;
    }
    var req, resp := SchemaRoles(after);
    var names := before.schemas.Keys + after.schemas.Keys;
    var rest := names;
    while rest != {}
      invariant rest <= names
      invariant forall c :: c in breaking <==>
                  ((exists k :: k in routes && AboutRoute(c, k)) || (exists n :: n in names - rest && AboutSchema(c, n)))
                  && Breaks(before, after, c)
      invariant forall c :: c in additive <==>
                  ((exists k :: k in routes && AboutRoute(c, k)) || (exists n :: n in names - rest && AboutSchema(c, n)))
                  && Adds(before, after, c)
    {
      var name :| name in rest;
      rest := rest - {name};
      var b, a := CompareSchema(before, after, name, req, resp);
      breaking, additive := breaking + b, additive + a;
    }
    forall c | Breaks(before, after, c) ensures c in breaking {
      ChangeIsSomewhere(before, after, c);
    }
    forall c | Adds(before, after, c) ensures c in additive {
      ChangeIsSomewhere(before, after, c);
    }
    assert breaking != [] ==> Breaks(before, after, breaking[0]);
    if breaking != [] && before.version == after.version {
      VersionIsNoBreak(before, after);
      breaking := breaking + [VersionUnchanged];
    }
    exit := if breaking != [] then 1 else 0;
  }

  lemma VersionIsNoBreak(before: Api, after: Api)
    ensures !Breaks(before, after, VersionUnchanged)
  {
  }

  lemma ChangeIsSomewhere(before: Api, after: Api, c: Change)
    requires Breaks(before, after, c) || Adds(before, after, c)
    ensures || (exists k :: k in before.operations.Keys + after.operations.Keys && AboutRoute(c, k))
            || (exists n :: n in before.schemas.Keys + after.schemas.Keys && AboutSchema(c, n))
  {
    hide ResponseOnly;
    if c.RouteRemoved? || c.RouteAdded? || c.CapabilityChanged? || c.ScopeChanged? {
      assert AboutRoute(c, c.route);
    } else {
      assert AboutSchema(c, c.name);
    }
  }

  // ------------------------------------------------------------------ the compatibility relation

  /** What a client written against the old document may go on relying on. */
  ghost predicate Keeps(before: Api, after: Api) {
    && (forall k :: k in before.operations ==>
          && k in after.operations && before.operations[k].capability == after.operations[k].capability
          && (before.operations[k].scope.None? || before.operations[k].scope == after.operations[k].scope))
    && (forall n :: n in before.schemas ==>
          && n in after.schemas && PropertiesOf(before.schemas[n]) <= PropertiesOf(after.schemas[n])
          && (RequiredOf(after.schemas[n]) <= RequiredOf(before.schemas[n]) || ResponseOnly(after, n)))
  }

  lemma NoDifference(s: set<string>, t: set<string>)
    ensures s - t == {} <==> s <= t
  {
    if s - t == {} {
      forall x | x in s ensures x in t {
        assert x !in s - t;
      }
    }
  }

  lemma CompatibleIsKeeping(before: Api, after: Api)
    ensures Compatible(before, after) <==> Keeps(before, after)
  {
    hide ResponseOnly, RequiredOf, PropertiesOf;
    if Compatible(before, after) {
      forall k | k in before.operations
        ensures k in after.operations && before.operations[k].capability == after.operations[k].capability
        ensures before.operations[k].scope.None? || before.operations[k].scope == after.operations[k].scope
      {
        assert !Breaks(before, after, RouteRemoved(k));
        assert !Breaks(before, after, CapabilityChanged(k));
        assert !Breaks(before, after, ScopeChanged(k));
      }
      forall n | n in before.schemas
        ensures n in after.schemas && PropertiesOf(before.schemas[n]) <= PropertiesOf(after.schemas[n])
        ensures RequiredOf(after.schemas[n]) <= RequiredOf(before.schemas[n]) || ResponseOnly(after, n)
      {
        assert !Breaks(before, after, SchemaRemoved(n));
        var lost := PropertiesOf(before.schemas[n]) - PropertiesOf(after.schemas[n]);
        assert !Breaks(before, after, PropertiesLost(n, lost));
        NoDifference(PropertiesOf(before.schemas[n]), PropertiesOf(after.schemas[n]));
        var gained := GainedRequired(before, after, n);
        assert !Breaks(before, after, NowRequires(n, gained));
        NoDifference(RequiredOf(after.schemas[n]), RequiredOf(before.schemas[n]));
      }
    }
  }

  /** A document is compatible with itself. */
  lemma CompatibleWithItself(api: Api)
    ensures Compatible(api, api)
  {
    CompatibleIsKeeping(api, api);
  }

  /** The first step made the schema ask for a field, and the second left it so. */
  predicate Tightened(a: Api, b: Api, c: Api, n: string) {
    && n in a.schemas && n in b.schemas && n in c.schemas
    && GainedRequired(a, b, n) * RequiredOf(c.schemas[n]) != {}
  }

  /**
   Two compatible steps make a compatible whole exactly when no schema that the first step made stricter, and
   the second left so, is sent by callers in the last document.
   */
  lemma CompatibleInTwoStepsIff(a: Api, b: Api, c: Api)
    requires Compatible(a, b) && Compatible(b, c)
    ensures Compatible(a, c) <==>
            forall n :: Tightened(a, b, c, n) ==> ResponseOnly(c, n)
  {
    CompatibleIsKeeping(a, b);
    CompatibleIsKeeping(b, c);
    CompatibleIsKeeping(a, c);
    hide ResponseOnly, RequiredOf, PropertiesOf, Compatible;
    if Keeps(a, c) {
      forall n | Tightened(a, b, c, n)
        ensures ResponseOnly(c, n)
      {
        var f :| f in GainedRequired(a, b, n) * RequiredOf(c.schemas[n]);
        assert f in RequiredOf(c.schemas[n]) && f !in RequiredOf(a.schemas[n]);
      }
    } else {
      var n :| n in a.schemas && !(RequiredOf(c.schemas[n]) <= RequiredOf(a.schemas[n])) && !ResponseOnly(c, n);
      var f :| f in RequiredOf(c.schemas[n]) && f !in RequiredOf(a.schemas[n]);
      assert f in GainedRequired(a, b, n) * RequiredOf(c.schemas[n]);
      assert Tightened(a, b, c, n);
    }
  }

  /** So it is transitive while schemas that only the server sends stay so. */
  lemma CompatibleWhileRolesStay(a: Api, b: Api, c: Api)
    requires Compatible(a, b) && Compatible(b, c)
    requires forall n :: ResponseOnly(b, n) ==> ResponseOnly(c, n)
    ensures Compatible(a, c)
  {
    hide ResponseOnly, RequiredOf, PropertiesOf;
    CompatibleInTwoStepsIff(a, b, c);
    CompatibleIsKeeping(a, b);
    forall n | Tightened(a, b, c, n)
      ensures ResponseOnly(c, n)
    {
      var f :| f in GainedRequired(a, b, n) * RequiredOf(c.schemas[n]);
      assert !(RequiredOf(b.schemas[n]) <= RequiredOf(a.schemas[n])) by { assert f in RequiredOf(b.schemas[n]); }
    }
  }

  /** A payload that had every field its schema asked for still has, if callers send the schema. */
  lemma OldPayloadsStillServe(before: Api, after: Api, n: string, payload: set<string>)
    requires Compatible(before, after) && n in before.schemas && IsRequest(after, n)
    requires RequiredOf(before.schemas[n]) <= payload
    ensures n in after.schemas && RequiredOf(after.schemas[n]) <= payload
  {
    hide IsRequest, IsResponse, RequiredOf, PropertiesOf;
    CompatibleIsKeeping(before, after);
  }

  // ------------------------------------------------------------------ what the comparison does not promise

  function Ref(name: string): Json {
    Obj([Member("$ref", Str(LOCAL + name))])
  }

  function Requiring(field: string): Json {
    Obj([Member("required", Arr([Str(field)]))])
  }

  lemma {:induction false} SlashlessTail(prefix: string, name: string)
    requires '/' !in name && prefix != "" && prefix[|prefix| - 1] == '/'
    ensures AfterLastSlash(prefix + name) == name
  {
    var s := prefix + name;
    if name != "" {
      assert s[..|s| - 1] == prefix + name[..|name| - 1];
      SlashlessTail(prefix, name[..|name| - 1]);
      assert s[|s| - 1] == name[|name| - 1];
    }
  }

  lemma RefsInRef(name: string)
    requires '/' !in name
    ensures RefsIn(Ref(name)) == {name}
  {
    SlashlessTail(LOCAL, name);
    var node := Ref(name);
    assert RefsIn(Str(LOCAL + name)) == {};
    assert OwnRef(node) == {name} by {
      assert node.members[0].name == "$ref" && LOCAL <= node.members[0].value.s;
    }
  }

  lemma OnlyOneSide(schemas: Named, name: string)
    ensures !Reached(schemas, {}, name)
    ensures Reached(schemas, {name}, name)
  {
    assert IsRefPath(schemas, {name}, [name]);
  }

  function OneRoute(body: Json, schema: Json): Api {
    Api(map[("/zones", "post") := Operation(None, None, body, Ref("Zone"))], map["Zone" := schema], None)
  }

  lemma RolesOfOneRoute(body: Json, schema: Json)
    requires body == Null || body == Ref("Zone")
    ensures ResponseOnly(OneRoute(body, schema), "Zone") <==> body == Null
  {
    var api := OneRoute(body, schema);
    RefsInRef("Zone");
    var route := ("/zones", "post");
    assert api.operations.Keys == {route};
    assert ResponseSeed(api) == {"Zone"} by { assert api.operations[route].responses == Ref("Zone"); }
    assert RequestSeed(api) == if body == Null then {} else {"Zone"} by { assert api.operations[route].body == body; }
    OnlyOneSide(api.schemas, "Zone");
  }

  lemma OneRouteCompatible(body: Json, schema: Json, body': Json, schema': Json)
    requires body' == Null || body' == Ref("Zone")
    ensures Compatible(OneRoute(body, schema), OneRoute(body', schema')) <==>
            PropertiesOf(schema) <= PropertiesOf(schema') && (RequiredOf(schema') <= RequiredOf(schema) || body' == Null)
  {
    hide ResponseOnly, RequiredOf, PropertiesOf, Compatible, Ref;
    var a, b := OneRoute(body, schema), OneRoute(body', schema');
    RolesOfOneRoute(body', schema');
    CompatibleIsKeeping(a, b);
    assert a.schemas["Zone"] == schema && b.schemas["Zone"] == schema';
  }

  /** A promise made to readers becomes a demand on callers once they send the schema: two quiet steps, one break. */
  lemma CompatibleIsNotTransitive()
    ensures var a := OneRoute(Null, Obj([]));
            var b := OneRoute(Null, Requiring("label"));
            var c := OneRoute(Ref("Zone"), Requiring("label"));
            Compatible(a, b) && Compatible(b, c) && !Compatible(a, c)
  {
    assert RequiredOf(Obj([])) == {} && PropertiesOf(Obj([])) == {};
    RequiredOfRequiring("label");
    hide *;
    OneRouteCompatible(Null, Obj([]), Null, Requiring("label"));
    OneRouteCompatible(Null, Requiring("label"), Ref("Zone"), Requiring("label"));
    OneRouteCompatible(Null, Obj([]), Ref("Zone"), Requiring("label"));
    RefIsNoNull("Zone");
  }

  lemma RefIsNoNull(name: string)
    ensures Ref(name) != Null
  {
  }

  lemma RequiredOfRequiring(field: string)
    ensures RequiredOf(Requiring(field)) == {field} && PropertiesOf(Requiring(field)) == {}
  {
    var members := [Member("required", Arr([Str(field)]))];
    assert members[..0] == [];
    assert Lookup(members, "required") == Some(Arr([Str(field)]));
    assert Lookup(members, "properties") == None;
    var items := [Str(field)];
    assert items[0].s == field;
  }

  /** Only keys are looked up: replacing the value of another one is not seen. */
  lemma {:induction false} LookupElsewhere(members: seq<Member>, i: nat, value: Json, key: string)
    requires i < |members| && members[i].name != key
    ensures Lookup(members[i := Member(members[i].name, value)], key) == Lookup(members, key)
  {
    var n := |members| - 1;
    var members' := members[i := Member(members[i].name, value)];
    if i < n {
      assert members'[..n] == members[..n][i := Member(members[i].name, value)];
      if members[n].name != key {
        LookupElsewhere(members[..n], i, value, key);
      }
    } else {
      assert members'[..n] == members[..n];
    }
  }

  /** In any document, a schema whose enumeration alone changed, in whatever way, is compatible in both directions. */
  lemma LostEnumValueIsMissed(api: Api, name: string, i: nat, values: Json)
    requires name in api.schemas && api.schemas[name].Obj?
    requires i < |api.schemas[name].members| && api.schemas[name].members[i].name == "enum"
    ensures var other := api.(schemas := api.schemas[name := Obj(api.schemas[name].members[i := Member("enum", values)])]);
            Compatible(api, other) && Compatible(other, api) && forall c :: !Adds(api, other, c)
  {
    var members := api.schemas[name].members;
    var changed := Obj(members[i := Member("enum", values)]);
    var other := api.(schemas := api.schemas[name := changed]);
    LookupElsewhere(members, i, values, "required");
    LookupElsewhere(members, i, values, "properties");
    assert RequiredOf(changed) == RequiredOf(api.schemas[name]) && PropertiesOf(changed) == PropertiesOf(api.schemas[name]);
    hide RequiredOf, PropertiesOf, ResponseOnly;
    CompatibleIsKeeping(api, other);
    CompatibleIsKeeping(other, api);
  }
}
