// The tree of command processors and the three walks over it: the executor's lookup, the permissions the auth
// gate asks for, and the MCP tools.
module CommandTree {
  import opened Text

  datatype Processor = Processor(id: nat, command: string, requiredPermissions: seq<string>, allowUnlistedCommands: bool,
                                 parameters: seq<string>, takesValue: bool, processors: seq<Processor>)

  predicate SameCommand(p: Processor, name: string) {
    Lower(p.command) == Lower(name)
  }

  // The first processor of that name, whatever its case.
  function Find(ps: seq<Processor>, name: string): (r: Option<Processor>)
    ensures r.Some? ==> r.value in ps && SameCommand(r.value, name)
    ensures r.None? ==> forall p | p in ps :: !SameCommand(p, name)
  {
    if ps == [] then None
    else if SameCommand(ps[0], name) then Some(ps[0])
    else Find(ps[1..], name)
  }

  // --------------------------------------------------------------- the registry

  function Registered(ps: seq<Processor>, p: Processor): (r: seq<Processor>)
  {
    if ps == [] then [p]
    else if SameCommand(ps[0], p.command) then [p] + ps[1..]
    else [ps[0]] + Registered(ps[1..], p)
  }

  ghost predicate DistinctNames(ps: seq<Processor>) {
    forall i, j | 0 <= i < j < |ps| :: Lower(ps[i].command) != Lower(ps[j].command)
  }

  // -------------------------------------------------------------- the request

  // The chain of a request, of whatever type it comes: missing (or anything without a length), a string, a list
  // whose entries may be no strings, or an object that has a length and cannot be iterated.
  datatype Chain = Absent | Text(text: string) | List(items: seq<Option<string>>) | Sized

  // Lookups find a processor or none, or fail on an entry that is no string.
  datatype Resolution = Found(processor: Processor) | Unknown | Fails

  function Named(names: seq<string>): (r: seq<Option<string>>)
    ensures |r| == |names| && forall i | 0 <= i < |r| :: r[i] == Some(names[i])
  {
    seq(|names|, i requires 0 <= i < |names| => Some(names[i]))
  }

  // What iterating a chain gives: a string gives its characters.
  function Items(chain: Chain): seq<Option<string>> {
    match chain
    case Text(text) => seq(|text|, i requires 0 <= i < |text| => Some([text[i]]))
    case List(items) => items
    case _ => []
  }

  // The child an entry names. An entry that is no string names none, and fails when it is compared.
  function Child(p: Processor, item: Option<string>): (r: Option<Processor>)
    ensures r.Some? ==> item.Some? && r.value in p.processors && SameCommand(r.value, item.value)
  {
    if item.None? then None else Find(p.processors, item.value)
  }

  // The processor a chain leads to; one that allows unlisted commands takes the rest of the chain.
  function ResolveChain(p: Processor, items: seq<Option<string>>): Resolution
    decreases |items|
  {
    if items == [] then Found(p)
    else if items[0].None? && p.processors != [] then Fails
    else match Child(p, items[0])
      case Some(child) => ResolveChain(child, items[1..])
      case None => if p.allowUnlistedCommands then Found(p) else Unknown
  }

  function Lookup(ps: seq<Processor>, command: Option<string>, chain: Chain): Resolution {
    if command.None? then Fails
    else match Find(ps, command.value)
      case None => Unknown
      case Some(root) => if chain.Sized? then Fails else ResolveChain(root, Items(chain))
  }

  lemma {:induction false} RegisteredNames(ps: seq<Processor>, p: Processor)
    requires DistinctNames(ps)
    ensures DistinctNames(Registered(ps, p))
    ensures forall q | q in Registered(ps, p) :: q == p || q in ps
    ensures forall name :: Find(Registered(ps, p), name) == if SameCommand(p, name) then Some(p) else Find(ps, name)
  {
    if ps != [] {
      if SameCommand(ps[0], p.command) {
        forall name ensures Find([p] + ps[1..], name) == if SameCommand(p, name) then Some(p) else Find(ps, name) {
          assert ([p] + ps[1..])[1..] == ps[1..];
        }
      } else {
        RegisteredNames(ps[1..], p);
        var rest := Registered(ps[1..], p);
        forall q | q in rest ensures Lower(ps[0].command) != Lower(q.command) {
          if q != p {
            var k :| 0 < k < |ps| && ps[k] == q;
          }
        }
        forall name ensures Find([ps[0]] + rest, name) == if SameCommand(p, name) then Some(p) else Find(ps, name) {
          assert ([ps[0]] + rest)[1..] == rest;
        }
      }
    }
  }

  // A command registered again takes the place of the old one; a new one comes last.
  lemma {:induction false} RegisteredInPlace(ps: seq<Processor>, p: Processor)
    requires DistinctNames(ps)
    ensures if exists q | q in ps :: Lower(q.command) == Lower(p.command)
            then |Registered(ps, p)| == |ps|
                 && forall k | 0 <= k < |ps| :: Registered(ps, p)[k] == if Lower(ps[k].command) == Lower(p.command) then p else ps[k]
            else Registered(ps, p) == ps + [p]
  {
    if ps != [] {
      if SameCommand(ps[0], p.command) {
        assert ps[0] in ps;
      } else {
        RegisteredInPlace(ps[1..], p);
        assert forall q :: q in ps <==> q == ps[0] || q in ps[1..];
        forall k | 0 < k < |ps| ensures ps[k] == ps[1..][k - 1] {
        }
      }
    }
  }

  class CliCommandRegistry {
    var processors: seq<Processor>

    ghost predicate Valid()
      reads this
    {
      DistinctNames(processors)
    }

    constructor ()
      ensures Valid() && processors == []
    {
      processors := [];
    }

    // A command registered again is replaced, in its place.
    method Register(p: Processor)
      requires Valid()
      modifies this
      ensures Valid() && processors == Registered(old(processors), p)
      ensures forall name :: Find(processors, name) == if SameCommand(p, name) then Some(p) else Find(old(processors), name)
    {
      RegisteredNames(processors, p);
      processors := Registered(processors, p);
    }

    method FindProcessor(command: Option<string>, chain: Chain) returns (r: Resolution)
      ensures r == Lookup(processors, command, chain)
    {
      if command.None? {
        return Fails;
      }
      var root := Find(processors, command.value);
      if root.None? {
        return Unknown;
      }
      if chain.Sized? {
        return Fails;
      }
      var items := Items(chain);
      var current := root.value;
      for i := 0 to |items|
        invariant ResolveChain(current, items[i..]) == ResolveChain(root.value, items)
      {
        assert items[i..][1..] == items[i + 1..];
        if items[i].None? && current.processors != [] {
          return Fails;
        }
        var child := Child(current, items[i]);
        if child.None? {
          return if current.allowUnlistedCommands then Found(current) else Unknown;
        }
        current := child.value;
      }
      return Found(current);
    }
  }

  // --------------------------------------------------------------- the auth gate

  function PermissionsOf(nodes: seq<Processor>): seq<string> {
    if nodes == [] then [] else nodes[0].requiredPermissions + PermissionsOf(nodes[1..])
  }

  // The processors a chain passes through, as far as it names any.
  function Along(p: Processor, items: seq<Option<string>>): (r: seq<Processor>)
    ensures |r| >= 1 && r[0] == p && |r| <= |items| + 1
    decreases |items|
  {
    if items == [] then [p]
    else match Child(p, items[0])
      case Some(child) => [p] + Along(child, items[1..])
      case None => [p]
  }

  const COMMANDS_EXECUTE := "commands:execute"

  // The gate walks lists only.
  function GateItems(chain: Chain): seq<Option<string>> {
    if chain.List? then chain.items else []
  }

  function GatePermissions(ps: seq<Processor>, command: Option<string>, chain: Chain): seq<string> {
    if command.None? || Find(ps, command.value).None? then []
    else PermissionsOf(Along(Find(ps, command.value).value, GateItems(chain)))
  }

  // What the processors below p require on the way of the items.
  function PermissionsBelow(p: Processor, items: seq<Option<string>>): seq<string>
    decreases |items|
  {
    if items == [] then []
    else match Child(p, items[0])
      case Some(child) => child.requiredPermissions + PermissionsBelow(child, items[1..])
      case None => []
  }

  lemma {:induction false} PermissionsAlong(p: Processor, items: seq<Option<string>>)
    ensures PermissionsOf(Along(p, items)) == p.requiredPermissions + PermissionsBelow(p, items)
    decreases |items|
  {
    var nodes := Along(p, items);
    if items != [] && Child(p, items[0]).Some? {
      assert nodes[1..] == Along(Child(p, items[0]).value, items[1..]);
      PermissionsAlong(Child(p, items[0]).value, items[1..]);
    } else {
      assert nodes[1..] == [];
    }
  }

  method ProcessorPermissions(ps: seq<Processor>, command: Option<string>, chain: Chain) returns (out: seq<string>)
    ensures out == GatePermissions(ps, command, chain)
  {
    if command.None? {
      return [];
    }
    var root := Find(ps, command.value);
    if root.None? {
      return [];
    }
    out := root.value.requiredPermissions;
    var current := root.value;
    var items := GateItems(chain);
    PermissionsAlong(current, items);
    for i := 0 to |items|
      invariant out + PermissionsBelow(current, items[i..]) == PermissionsOf(Along(root.value, items))
    {
      assert items[i..][1..] == items[i + 1..];
      var child := Child(current, items[i]);
      if child.None? {
        break;
      }
      ConcatAssociative(out, child.value.requiredPermissions, PermissionsBelow(child.value, items[i + 1..]));
      out := out + child.value.requiredPermissions;
      current := child.value;
    }
    assert out + [] == out;
  }

  // What the gate asks for to execute a command.
  function RequiredToExecute(ps: seq<Processor>, command: Option<string>, chain: Chain): seq<string> {
    [COMMANDS_EXECUTE] + GatePermissions(ps, command, chain)
  }

  method RequiredServerPermissions(ps: seq<Processor>, command: Option<string>, chain: Chain) returns (required: seq<string>)
    ensures required == RequiredToExecute(ps, command, chain)
  {
    var out := ProcessorPermissions(ps, command, chain);
    required := [COMMANDS_EXECUTE] + out;
  }

  // ---------------------------------------------------- the gate and the executor

  // A way down the tree, from a registered processor.
  ghost predicate IsWay(ps: seq<Processor>, nodes: seq<Processor>) {
    nodes != [] && nodes[0] in ps && forall i | 0 < i < |nodes| :: nodes[i] in nodes[i - 1].processors
  }

  // The way the executor goes.
  function WayOf(ps: seq<Processor>, command: string, chain: Chain): seq<Processor> {
    match Find(ps, command)
    case None => []
    case Some(root) => Along(root, Items(chain))
  }

  predicate NamesIt(item: Option<string>, p: Processor) {
    item.Some? && SameCommand(p, item.value)
  }

  // The entries name the nodes below the first.
  ghost predicate NamesBelow(nodes: seq<Processor>, items: seq<Option<string>>) {
    |nodes| <= |items| + 1 && forall i | 0 < i < |nodes| :: NamesIt(items[i - 1], nodes[i])
  }

  lemma {:induction false} AlongIsWay(p: Processor, items: seq<Option<string>>)
    ensures IsWay([p], Along(p, items)) && NamesBelow(Along(p, items), items)
    decreases |items|
  {
    if items != [] && Child(p, items[0]).Some? {
      var child := Child(p, items[0]).value;
      AlongIsWay(child, items[1..]);
      var nodes := Along(p, items);
      assert nodes[1..] == Along(child, items[1..]);
      forall i | 0 < i < |nodes| ensures nodes[i] in nodes[i - 1].processors {
        if i > 1 {
          assert nodes[1..][i - 1] == nodes[i] && nodes[1..][i - 2] == nodes[i - 1];
        }
      }
      forall i | 0 < i < |nodes| ensures NamesIt(items[i - 1], nodes[i]) {
        if i > 1 {
          assert nodes[1..][i - 1] == nodes[i] && items[1..][i - 2] == items[i - 1];
        }
      }
    }
  }

  predicate IsChild(p: Processor, item: Option<string>, child: Processor) {
    item.Some? && Find(p.processors, item.value) == Some(child)
  }

  // The way goes to the first child of each name, as far as there is one.
  lemma {:induction false} AlongIsFirst(p: Processor, items: seq<Option<string>>)
    ensures var nodes := Along(p, items);
            && |nodes| <= |items| + 1 && (forall i | 0 < i < |nodes| :: IsChild(nodes[i - 1], items[i - 1], nodes[i]))
            && (|nodes| <= |items| ==> Child(nodes[|nodes| - 1], items[|nodes| - 1]) == None)
    decreases |items|
  {
    if items != [] && Child(p, items[0]).Some? {
      AlongIsFirst(Child(p, items[0]).value, items[1..]);
      var nodes := Along(p, items);
      var rest := nodes[1..];
      assert rest == Along(Child(p, items[0]).value, items[1..]);
      forall i | 0 < i < |nodes| ensures IsChild(nodes[i - 1], items[i - 1], nodes[i]) {
        if i > 1 {
          assert rest[i - 1] == nodes[i] && rest[i - 2] == nodes[i - 1] && items[1..][i - 2] == items[i - 1];
        }
      }
    }
  }

  // A request gets the end of its way when the way uses up the chain, or when the end takes unlisted commands; a name
  // missing elsewhere makes it unknown, and an entry that is no string fails where there are children to compare it to.
  lemma {:induction false} ResolvesExactly(p: Processor, items: seq<Option<string>>)
    ensures var nodes := Along(p, items);
            var end := nodes[|nodes| - 1];
            ResolveChain(p, items) == if |nodes| == |items| + 1 then Found(end)
                                      else if items[|nodes| - 1].None? && end.processors != [] then Fails
                                      else if end.allowUnlistedCommands then Found(end)
                                      else Unknown
    decreases |items|
  {
    if items != [] && Child(p, items[0]).Some? {
      ResolvesExactly(Child(p, items[0]).value, items[1..]);
      assert Along(p, items)[1..] == Along(Child(p, items[0]).value, items[1..]);
    }
  }

  lemma {:induction false} ResolvesToEnd(p: Processor, items: seq<Option<string>>)
    requires ResolveChain(p, items).Found?
    ensures var nodes, target := Along(p, items), ResolveChain(p, items).processor;
            nodes[|nodes| - 1] == target && (|nodes| == |items| + 1 || target.allowUnlistedCommands)
    decreases |items|
  {
    if items != [] && Child(p, items[0]).Some? {
      ResolvesToEnd(Child(p, items[0]).value, items[1..]);
    }
  }

  // What the executor resolves is the end of a way from a root, named by the request.
  lemma ResolvesAlongWay(ps: seq<Processor>, command: string, chain: Chain)
    requires Lookup(ps, Some(command), chain).Found?
    ensures var nodes, target := WayOf(ps, command, chain), Lookup(ps, Some(command), chain).processor;
            && IsWay(ps, nodes) && SameCommand(nodes[0], command) && NamesBelow(nodes, Items(chain))
            && nodes[|nodes| - 1] == target
            && (|nodes| == |Items(chain)| + 1 || target.allowUnlistedCommands)
  {
    var root := Find(ps, command).value;
    AlongIsWay(root, Items(chain));
    ResolvesToEnd(root, Items(chain));
  }

  // Whenever the executor resolves a request, the gate asks for exactly what the processors on the way from the
  // root to the resolved one require, unless the chain is a string, which the executor takes apart and the gate
  // passes over: then only when the processors below the root require nothing.
  lemma GateGuardsWhatRuns(ps: seq<Processor>, command: string, chain: Chain)
    requires Lookup(ps, Some(command), chain).Found?
    ensures var nodes := WayOf(ps, command, chain);
            RequiredToExecute(ps, Some(command), chain) == [COMMANDS_EXECUTE] + PermissionsOf(nodes)
            <==> (chain.Text? ==> PermissionsOf(nodes[1..]) == [])
  {
    var root := Find(ps, command).value;
    var nodes := WayOf(ps, command, chain);
    var own, below := root.requiredPermissions, PermissionsOf(nodes[1..]);
    assert PermissionsOf(nodes) == own + below;
    SamePrefix(COMMANDS_EXECUTE, GatePermissions(ps, Some(command), chain), own + below);
    if chain.Text? {
      assert PermissionsOf([root]) == own + [] == own;
      NothingAdded(own, below);
    }
  }

  lemma SamePrefix(first: string, a: seq<string>, b: seq<string>)
    ensures [first] + a == [first] + b <==> a == b
  {
    assert ([first] + a)[1..] == a && ([first] + b)[1..] == b;
  }

  lemma NothingAdded(own: seq<string>, below: seq<string>)
    ensures own == own + below <==> below == []
  {
    assert |own + below| == |own| + |below|;
    assert below == [] ==> own + below == own;
  }

  // A string as chain does reach a child whose permission the gate does not ask for.
  lemma StringChainIsNotGuarded(name: string, c: char, permission: string)
    ensures var child := Processor(1, [c], [permission], false, [], false, []);
            var root := Processor(0, name, [], false, [], false, [child]);
            && Lookup([root], Some(name), Text([c])) == Found(child)
            && RequiredToExecute([root], Some(name), Text([c])) == [COMMANDS_EXECUTE]
            && RequiredToExecute([root], Some(name), List([Some([c])])) == [COMMANDS_EXECUTE, permission]
  {
    var child := Processor(1, [c], [permission], false, [], false, []);
    var root := Processor(0, name, [], false, [], false, [child]);
    assert Items(Text([c])) == [Some([c])];
    assert Child(root, Some([c])) == Some(child) && Find([root], name) == Some(root);
    assert [Some([c])][1..] == [];
    assert Along(root, [Some([c])]) == [root, child] && [root, child][1..] == [child] && [child][1..] == [];
    assert PermissionsOf([child]) == [permission] + [] == [permission];
    assert PermissionsOf([root, child]) == [] + [permission] == [permission];
    assert PermissionsOf([root]) == [];
    assert ResolveChain(root, [Some([c])]) == ResolveChain(child, []) == Found(child);
    assert [COMMANDS_EXECUTE] + [permission] == [COMMANDS_EXECUTE, permission] && [COMMANDS_EXECUTE] + [] == [COMMANDS_EXECUTE];
  }

  // ------------------------------------------------------------------ MCP tools

  datatype Tool = Tool(name: string, processor: Processor, path: seq<string>, permissions: seq<string>)

  const TOOL_NAME_MAX_LENGTH := 64

  predicate IsToolChar(c: char) {
    'a' <= c <= 'z' || '0' <= c <= '9' || c == '_' || c == '-'
  }

  // The path in lower case, joined by underscores, a hyphen for every other character, cut to length.
  function ToolName(path: seq<string>): (r: string)
    ensures var joined := Lower(JoinWith(path, "_"));
            && |r| == (if |joined| < TOOL_NAME_MAX_LENGTH then |joined| else TOOL_NAME_MAX_LENGTH)
            && forall i | 0 <= i < |r| :: IsToolChar(r[i]) && (r[i] != joined[i] ==> r[i] == '-' && !IsToolChar(joined[i]))
  {
    var joined := Lower(JoinWith(path, "_"));
    var name := seq(|joined|, i requires 0 <= i < |joined| => if IsToolChar(joined[i]) then joined[i] else '-');
    if |name| > TOOL_NAME_MAX_LENGTH then name[..TOOL_NAME_MAX_LENGTH] else name
  }

  lemma ToolNameNotEmpty(path: seq<string>)
    requires path != [] && path[0] != ""
    ensures ToolName(path) != ""
  {
    assert |JoinWith(path, "_")| >= |path[0]|;
  }

  // A tool for every command that runs by itself.
  predicate IsTool(p: Processor) {
    p.processors == [] || p.parameters != [] || p.takesValue
  }

  function ToolsOf(p: Processor, path: seq<string>, permissions: seq<string>): seq<Tool>
    decreases p, 1
  {
    var all := permissions + p.requiredPermissions;
    (if IsTool(p) && ToolName(path) != "" then [Tool(ToolName(path), p, path, [COMMANDS_EXECUTE] + all)] else [])
    + ToolsOfAll(p.processors, path, all)
  }

  function ToolsOfAll(ps: seq<Processor>, path: seq<string>, permissions: seq<string>): seq<Tool>
    decreases ps, 0
  {
    if ps == [] then []
    else
      ToolsOfAll(ps[..|ps| - 1], path, permissions)
      + if ps[|ps| - 1].command != "" then ToolsOf(ps[|ps| - 1], path + [ps[|ps| - 1].command], permissions) else []
  }

  class CommandsMcpToolProvider {
    const registry: CliCommandRegistry
    var tools: seq<Tool>

    constructor (registry: CliCommandRegistry)
      ensures this.registry == registry && tools == []
    {
      this.registry := registry;
      tools := [];
    }

    method GetTools()
      modifies this
      ensures tools == ToolsOfAll(registry.processors, [], [])
    {
      tools := [];
      WalkAll(registry.processors, [], []);
    }

    method WalkAll(ps: seq<Processor>, path: seq<string>, permissions: seq<string>)
      modifies this
      ensures tools == old(tools) + ToolsOfAll(ps, path, permissions)
      decreases ps, 0
    {
      for i := 0 to |ps|
        invariant tools == old(tools) + ToolsOfAll(ps[..i], path, permissions)
      {
        assert ps[..i + 1][..i] == ps[..i];
        ghost var before := ToolsOfAll(ps[..i], path, permissions);
        if ps[i].command != "" {
          Walk(ps[i], path + [ps[i].command], permissions);
          ConcatAssociative(old(tools), before, ToolsOf(ps[i], path + [ps[i].command], permissions));
        } else {
          assert before + [] == before;
        }
      }
      assert ps[..|ps|] == ps;
    }

    method Walk(p: Processor, path: seq<string>, permissions: seq<string>)
      modifies this
      ensures tools == old(tools) + ToolsOf(p, path, permissions)
      decreases p, 1
    {
      var all := permissions + p.requiredPermissions;
      if IsTool(p) && ToolName(path) != "" {
        tools := tools + [Tool(ToolName(path), p, path, [COMMANDS_EXECUTE] + all)];
      }
      WalkAll(p.processors, path, all);
    }
  }

  // Everywhere in the tree, siblings have different names.
  ghost predicate TreeDistinct(p: Processor)
    decreases p
  {
    DistinctNames(p.processors) && forall c | c in p.processors :: TreeDistinct(c)
  }

  lemma {:induction false} FindNamed(ps: seq<Processor>, p: Processor)
    requires DistinctNames(ps) && p in ps
    ensures Find(ps, p.command) == Some(p)
  {
    if ps[0] != p {
      FindNamed(ps[1..], p);
    }
  }

  lemma {:induction false} ToolInAll(ps: seq<Processor>, path: seq<string>, permissions: seq<string>, tool: Tool) returns (c: Processor)
    requires tool in ToolsOfAll(ps, path, permissions)
    ensures c in ps && c.command != "" && tool in ToolsOf(c, path + [c.command], permissions)
  {
    var init, last := ps[..|ps| - 1], ps[|ps| - 1];
    if tool in ToolsOfAll(init, path, permissions) {
      c := ToolInAll(init, path, permissions, tool);
    } else {
      c := last;
    }
  }

  // Only commands that run by themselves are listed, each under the name of its path.
  lemma {:induction false} OnlySuchTools(p: Processor, path: seq<string>, permissions: seq<string>, tool: Tool)
    requires tool in ToolsOf(p, path, permissions)
    ensures tool.processor.processors == [] || tool.processor.parameters != [] || tool.processor.takesValue
    ensures tool.name == ToolName(tool.path) && tool.name != ""
    decreases p
  {
    var all := permissions + p.requiredPermissions;
    if tool in ToolsOfAll(p.processors, path, all) {
      var c := ToolInAll(p.processors, path, all, tool);
      OnlySuchTools(c, path + [c.command], all, tool);
    }
  }

  lemma ChainStep(p: Processor, c: Processor, rest: seq<string>)
    requires Find(p.processors, c.command) == Some(c)
    ensures ResolveChain(p, Named([c.command] + rest)) == ResolveChain(c, Named(rest))
    ensures PermissionsOf(Along(p, Named([c.command] + rest))) == p.requiredPermissions + PermissionsOf(Along(c, Named(rest)))
  {
    assert Named([c.command] + rest)[1..] == Named(rest);
    assert Along(p, Named([c.command] + rest))[1..] == Along(c, Named(rest));
  }

  // A tool found below a processor leads, by its path, to its own processor, with the permissions on the way.
  lemma {:induction false} ToolLeadsHome(p: Processor, path: seq<string>, permissions: seq<string>, tool: Tool) returns (chain: seq<string>)
    requires TreeDistinct(p) && tool in ToolsOf(p, path, permissions)
    ensures tool.path == path + chain && ResolveChain(p, Named(chain)) == Found(tool.processor)
    ensures tool.permissions == [COMMANDS_EXECUTE] + (permissions + PermissionsOf(Along(p, Named(chain))))
    decreases p
  {
    var all := permissions + p.requiredPermissions;
    if tool in ToolsOfAll(p.processors, path, all) {
      var c := ToolInAll(p.processors, path, all, tool);
      FindNamed(p.processors, c);
      var rest := ToolLeadsHome(c, path + [c.command], all, tool);
      chain := [c.command] + rest;
      ChainStep(p, c, rest);
      ConcatAssociative(path, [c.command], rest);
      ConcatAssociative(permissions, p.requiredPermissions, PermissionsOf(Along(c, Named(rest))));
    } else {
      chain := [];
      assert path + chain == path && Named([]) == [];
      assert PermissionsOf([p]) == p.requiredPermissions + [] == p.requiredPermissions;
    }
  }

  // With sibling names that differ, calling a tool runs the processor it was listed for, and the tool asks for
  // what the gate would: no tool reaches further than its permissions say.
  lemma ToolsMatchGateAndExecutor(ps: seq<Processor>, tool: Tool)
    requires DistinctNames(ps) && (forall p | p in ps :: TreeDistinct(p)) && tool in ToolsOfAll(ps, [], [])
    ensures tool.path != []
    ensures Lookup(ps, Some(tool.path[0]), List(Named(tool.path[1..]))) == Found(tool.processor)
    ensures tool.permissions == RequiredToExecute(ps, Some(tool.path[0]), List(Named(tool.path[1..])))
  {
    var root := ToolInAll(ps, [], [], tool);
    FindNamed(ps, root);
    var chain := ToolLeadsHome(root, [] + [root.command], [], tool);
    assert tool.path[0] == root.command && tool.path[1..] == chain;
    assert [] + PermissionsOf(Along(root, Named(chain))) == PermissionsOf(Along(root, Named(chain)));
  }

  function CommandsOf(nodes: seq<Processor>): (r: seq<string>)
    ensures |r| == |nodes|
  {
    if nodes == [] then [] else [nodes[0].command] + CommandsOf(nodes[1..])
  }

  lemma {:induction false} AllHasTool(ps: seq<Processor>, c: Processor, path: seq<string>, permissions: seq<string>, tool: Tool)
    requires c in ps && c.command != "" && tool in ToolsOf(c, path + [c.command], permissions)
    ensures tool in ToolsOfAll(ps, path, permissions)
  {
    var init, last := ps[..|ps| - 1], ps[|ps| - 1];
    assert ps == init + [last];
    if c in init {
      AllHasTool(init, c, path, permissions, tool);
    }
  }

  lemma WayBelow(p: Processor, nodes: seq<Processor>)
    requires IsWay([p], nodes) && |nodes| > 1 && forall i | 0 < i < |nodes| :: nodes[i].command != ""
    ensures nodes[0] == p && nodes[1] in p.processors && nodes[1].command != ""
    ensures IsWay([nodes[1]], nodes[1..]) && forall i | 0 < i < |nodes[1..]| :: nodes[1..][i].command != ""
    ensures nodes[1..][|nodes| - 2] == nodes[|nodes| - 1]
  {
    var rest := nodes[1..];
    forall i | 0 < i < |rest| ensures rest[i] in rest[i - 1].processors && rest[i].command != "" {
      assert rest[i] == nodes[i + 1] && rest[i - 1] == nodes[i];
    }
  }

  // Every command that runs by itself, under names that are not empty, has its tool.
  lemma {:induction false} EveryCommandHasTool(p: Processor, path: seq<string>, permissions: seq<string>, nodes: seq<Processor>) returns (tool: Tool)
    requires IsWay([p], nodes) && IsTool(nodes[|nodes| - 1]) && path != [] && path[0] != ""
    requires forall i | 0 < i < |nodes| :: nodes[i].command != ""
    ensures tool in ToolsOf(p, path, permissions)
    ensures tool.processor == nodes[|nodes| - 1] && tool.path == path + CommandsOf(nodes[1..])
    decreases |nodes|
  {
    var all := permissions + p.requiredPermissions;
    if |nodes| == 1 {
      ToolNameNotEmpty(path);
      tool := Tool(ToolName(path), p, path, [COMMANDS_EXECUTE] + all);
      assert path + CommandsOf([]) == path;
    } else {
      var c, rest := nodes[1], nodes[1..];
      WayBelow(p, nodes);
      tool := EveryCommandHasTool(c, path + [c.command], all, rest);
      AllHasTool(p.processors, c, path, all, tool);
      ConcatAssociative(path, [c.command], CommandsOf(rest[1..]));
    }
  }

  // A sibling whose name an earlier one has, whatever the case, is out of reach: its tool would run the other.
  lemma {:induction false} ReachableSibling(ps: seq<Processor>, i: nat)
    requires i < |ps| && forall j | 0 <= j < |ps| && j != i :: ps[j] != ps[i]
    ensures Find(ps, ps[i].command) == Some(ps[i]) <==> forall j | 0 <= j < i :: Lower(ps[j].command) != Lower(ps[i].command)
  {
    if i > 0 {
      if SameCommand(ps[0], ps[i].command) {
        assert Find(ps, ps[i].command) == Some(ps[0]);
      } else {
        ReachableSibling(ps[1..], i - 1);
        assert forall j | 0 <= j < i - 1 :: ps[1..][j] == ps[j + 1];
      }
    }
  }
}
