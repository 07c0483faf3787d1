/** The discovery tools, which answer from the lists they captured while being registered. */
module Discovery {
  import opened Core
  import opened Ordering
  import opened Registry

  function NewCapability(name: string, description: string, effect: SideEffect, input: Json, output: Json)
    : (r: Capability)
    ensures r.name == name
  {
    Capability(name, description, input, output, effect,
               CapabilityLimits(5000, 1048576, 1048576, 16, None), NoApproval, true)
  }

  // ----- Schemas ------------------------------------------------------------------

  function OfType(name: string): Json {
    JObj(map["type" := JStr(name)])
  }

  function NoArgs(): Json {
    JObj(map["type" := JStr("array"), "maxItems" := JNum(0.0)])
  }

  function OneString(name: string): Json {
    JObj(map["type" := JStr("array"),
             "prefixItems" := JArr([JObj(map["type" := JStr("string"), "description" := JStr(name)])]),
             "minItems" := JNum(1.0),
             "maxItems" := JNum(1.0)])
  }

  function PathAndText(): Json {
    JObj(map["type" := JStr("array"),
             "prefixItems" := JArr([
               JObj(map["type" := JStr("string"), "description" := JStr("Authorized virtual path.")]),
               JObj(map["type" := JStr("string"), "description" := JStr("UTF-8 text content.")])]),
             "minItems" := JNum(2.0),
             "maxItems" := JNum(2.0)])
  }

  function Written(): Json {
    JObj(map["type" := JStr("object"),
             "properties" := JObj(map["path" := OfType("string"),
                                      "bytes" := JObj(map["type" := JStr("integer"), "minimum" := JNum(0.0)])]),
             "required" := JArr([JStr("path"), JStr("bytes")])])
  }

  function ArrayOf(items: Json): Json {
    JObj(map["type" := JStr("array"), "items" := items])
  }

  function CapabilitySchema(): Json {
    JObj(map["type" := JStr("object"),
             "properties" := JObj(map["name" := OfType("string"), "description" := OfType("string"),
                                      "input_schema" := OfType("object"), "output_schema" := OfType("object"),
                                      "side_effect" := OfType("string")]),
             "required" := JArr([JStr("name"), JStr("description"), JStr("input_schema"), JStr("output_schema"),
                                 JStr("side_effect")])])
  }

  // ----- Registration ---------------------------------------------------------------

  const LIST := NewCapability("list_tools", "List capabilities registered in this session.", NoEffect,
                              NoArgs(), ArrayOf(CapabilitySchema()))
  const DESCRIBE := NewCapability("describe_tool", "Describe one registered capability by name.", NoEffect,
                                  OneString("name"), CapabilitySchema())
  const POLICY := NewCapability("current_policy", "Return the current sandbox policy summary.", NoEffect,
                                NoArgs(), OfType("object"))

  /** Three registrations; each list is captured before its own tool is registered. */
  method RegisterDiscoveryTools(registry: ToolRegistry) returns (r: Result<()>)
    requires registry.Valid()
    modifies registry
    ensures registry.Valid() && r.Ok?
    ensures registry.tools == WithDiscovery(old(registry.tools))
  {
    hide WithList, WithDescribe, WithPolicy;
    r := RegisterListTools(registry);
    r := RegisterDescribeTool(registry);
    r := RegisterCurrentPolicy(registry);
  }

  /** Captures what is registered so far, and all three discovery tools. */
  method RegisterListTools(registry: ToolRegistry) returns (r: Result<()>)
    requires registry.Valid()
    modifies registry
    ensures registry.Valid() && r.Ok?
    ensures registry.tools == WithList(old(registry.tools))
  {
    hide NewCapability, NoArgs, OneString, OfType, ArrayOf, CapabilitySchema, Capabilities;
    var names := SortedKeys(registry.tools.Keys);
    var list := CapabilityList(registry, names);
    list := list + [LIST];
    list := list + [DESCRIBE];
    list := list + [POLICY];
    assert list == Capabilities(registry.tools) + [LIST, DESCRIBE, POLICY];
    assert LIST.name[0] == 'l' && IsPythonIdentifier(LIST.name);
    r := registry.Register(Tool(LIST, false, ListTools(list)));
  }

  /** Captures what is registered so far, and itself and the next one. */
  method RegisterDescribeTool(registry: ToolRegistry) returns (r: Result<()>)
    requires registry.Valid()
    modifies registry
    ensures registry.Valid() && r.Ok?
    ensures registry.tools == WithDescribe(old(registry.tools))
  {
    hide NewCapability, NoArgs, OneString, OfType, ArrayOf, CapabilitySchema, Capabilities;
    var names := SortedKeys(registry.tools.Keys);
    var list := CapabilityList(registry, names);
    list := list + [DESCRIBE];
    list := list + [POLICY];
    assert list == Capabilities(registry.tools) + [DESCRIBE, POLICY];
    assert DESCRIBE.name[0] == 'd' && IsPythonIdentifier(DESCRIBE.name);
    r := registry.Register(Tool(DESCRIBE, false, DescribeTool(list)));
  }

  /** Captures what is registered so far, and itself. */
  method RegisterCurrentPolicy(registry: ToolRegistry) returns (r: Result<()>)
    requires registry.Valid()
    modifies registry
    ensures registry.Valid() && r.Ok?
    ensures registry.tools == WithPolicy(old(registry.tools))
  {
    hide NewCapability, NoArgs, OneString, OfType, ArrayOf, CapabilitySchema, Capabilities;
    var names := SortedKeys(registry.tools.Keys);
    var list := CapabilityList(registry, names);
    list := list + [POLICY];
    assert list == Capabilities(registry.tools) + [POLICY];
    assert POLICY.name[0] == 'c' && IsPythonIdentifier(POLICY.name);
    r := registry.Register(Tool(POLICY, false, CurrentPolicy(list)));
  }

  /** The registry's capabilities, in the order of its names. */
  method CapabilityList(registry: ToolRegistry, names: seq<string>) returns (r: seq<Capability>)
    requires Lists(names, registry.tools.Keys)
    ensures r == Capabilities(registry.tools)
  {
    ListingIsUnique(names, Names(registry.tools), registry.tools.Keys);
    r := [];
    for i := 0 to |names|
      invariant r == Capabilities(registry.tools)[..i]
    {
      assert names[i] in names;
      r := r + [registry.tools[names[i]].capability];
    }
  }

  ghost function WithList(tools: map<string, Tool>): map<string, Tool> {
    tools[LIST.name := Tool(LIST, false, ListTools(Capabilities(tools) + [LIST, DESCRIBE, POLICY]))]
  }

  ghost function WithDescribe(tools: map<string, Tool>): map<string, Tool> {
    tools[DESCRIBE.name := Tool(DESCRIBE, false, DescribeTool(Capabilities(tools) + [DESCRIBE, POLICY]))]
  }

  ghost function WithPolicy(tools: map<string, Tool>): map<string, Tool> {
    tools[POLICY.name := Tool(POLICY, false, CurrentPolicy(Capabilities(tools) + [POLICY]))]
  }

  ghost function WithDiscovery(tools: map<string, Tool>): map<string, Tool> {
    WithPolicy(WithDescribe(WithList(tools)))
  }

  const READ_TEXT := NewCapability("read_text", "Read UTF-8 text from an authorized virtual path.", ReadEffect,
                                   OneString("path"), OfType("string"))
  const WRITE_TEXT := NewCapability("write_text", "Write UTF-8 text to an authorized writable virtual path.",
                                    WriteEffect, PathAndText(), Written())
  const LIST_DIR := NewCapability("list_dir", "List direct children of an authorized virtual directory.", ReadEffect,
                                  OneString("path"), ArrayOf(OfType("string")))
  const FETCH_TEXT := NewCapability("fetch_text", "Fetch text from an allowlisted HTTP(S) URL.", NetworkEffect,
                                    OneString("url"), OfType("string"))
  const FETCH_JSON := NewCapability("fetch_json", "Fetch JSON from an allowlisted HTTP(S) URL.", NetworkEffect,
                                    OneString("url"), JObj(map[]))

  function Builtins(mounts: bool, hosts: bool): seq<Tool> {
    (if mounts then [Tool(READ_TEXT, false, HostHandler), Tool(WRITE_TEXT, false, HostHandler),
                     Tool(LIST_DIR, false, HostHandler)] else [])
    + (if hosts then [Tool(FETCH_TEXT, true, HostHandler), Tool(FETCH_JSON, true, HostHandler)] else [])
  }

  function RegisteredIn(tools: map<string, Tool>, added: seq<Tool>): map<string, Tool> {
    if added == [] then tools
    else Registered(RegisteredIn(tools, added[..|added|-1]), added[|added|-1])
  }

  /** File tools if there are mounts, HTTP tools if hosts are allowed, then the discovery tools. */
  method RegisterBuiltinTools(registry: ToolRegistry, mounts: bool, hosts: bool) returns (r: Result<()>)
    requires registry.Valid()
    modifies registry
    ensures registry.Valid() && r.Ok?
    ensures registry.tools == WithDiscovery(RegisteredIn(old(registry.tools), Builtins(mounts, hosts)))
  {
    BuiltinNames(mounts, hosts);
    r := RegisterEach(registry, Builtins(mounts, hosts));
    if r.Err? { return; }
    r := RegisterDiscoveryTools(registry);
  }

  lemma BuiltinNames(mounts: bool, hosts: bool)
    ensures forall t :: t in Builtins(mounts, hosts) ==> IsPythonIdentifier(t.capability.name)
  {
    hide NewCapability, NoArgs, OneString, OfType, ArrayOf, CapabilitySchema, PathAndText, Written;
  }

  method RegisterEach(registry: ToolRegistry, tools: seq<Tool>) returns (r: Result<()>)
    requires registry.Valid()
    modifies registry
    ensures registry.Valid()
    ensures (forall t :: t in tools ==> IsPythonIdentifier(t.capability.name)) ==>
      r.Ok? && registry.tools == RegisteredIn(old(registry.tools), tools)
  {
    r := Ok(());
    for i := 0 to |tools|
      invariant r.Ok? && registry.Valid() && registry.tools == RegisteredIn(old(registry.tools), tools[..i])
    {
      assert tools[..i+1][..i] == tools[..i];
      assert tools[i] in tools;
      r := registry.Register(tools[i]);
      if r.Err? { return; }
    }
    assert tools[..|tools|] == tools;
  }

  /** After the built-in tools are registered over a registry that holds none of the three
      discovery names, every discovery tool agrees with the final registry. */
  lemma BuiltinsAgree(tools: map<string, Tool>, mounts: bool, hosts: bool)
    requires WellKeyed(tools)
    requires LIST.name !in tools && DESCRIBE.name !in tools && POLICY.name !in tools
    ensures var final := WithDiscovery(RegisteredIn(tools, Builtins(mounts, hosts)));
      && AgreesWith(Listed(final, LIST.name), final)
      && AgreesWith(Listed(final, POLICY.name), final)
      && (forall n :: Describe(Listed(final, DESCRIBE.name), n) == RegisteredCapability(final, n))
      && tools.Keys <= final.Keys
  {
    hide NewCapability, NoArgs, OneString, OfType, ArrayOf, CapabilitySchema, PathAndText, Written;
    var added := Builtins(mounts, hosts);
    RegisteredInKeys(tools, added);
    var t := RegisteredIn(tools, added);
    assert forall a :: a in added ==> a.capability.name !in {LIST.name, DESCRIBE.name, POLICY.name};
    DiscoveryAgrees(t);
    DescribeExactly(t);
    hide Builtins, RegisteredIn, WellKeyed, Capabilities;
  }

  /** Registering tools in turn: a name that none of them has holds what it held before. */
  lemma {:induction false} RegisteredElsewhere(tools: map<string, Tool>, added: seq<Tool>, n: string)
    requires forall i :: 0 <= i < |added| ==> added[i].capability.name != n
    ensures n in RegisteredIn(tools, added) <==> n in tools
    ensures n in tools ==> RegisteredIn(tools, added)[n] == tools[n]
  {
    if added != [] {
      hide IsPythonIdentifier;
      var front := added[..|added|-1];
      assert forall i :: 0 <= i < |front| ==> front[i] == added[i];
      RegisteredElsewhere(tools, front, n);
    }
  }

  /** And a name that some of them have holds the last of these. */
  lemma {:induction false} RegisteredLast(tools: map<string, Tool>, added: seq<Tool>, i: nat)
    requires i < |added| && IsPythonIdentifier(added[i].capability.name)
    requires forall j :: i < j < |added| ==> added[j].capability.name != added[i].capability.name
    ensures var n := added[i].capability.name;
      n in RegisteredIn(tools, added) && RegisteredIn(tools, added)[n] == added[i]
  {
    hide IsPythonIdentifier;
    if i < |added| - 1 {
      var front := added[..|added|-1];
      assert front[i] == added[i] && forall j :: 0 <= j < |front| ==> front[j] == added[j];
      RegisteredLast(tools, front, i);
    }
  }

  /** The built-in tools leave the host's own tools alone. */
  lemma HostToolsStay(tools: map<string, Tool>, mounts: bool, hosts: bool, n: string)
    requires n in tools && n !in {LIST.name, DESCRIBE.name, POLICY.name}
    requires forall t :: t in Builtins(mounts, hosts) ==> t.capability.name != n
    ensures var final := WithDiscovery(RegisteredIn(tools, Builtins(mounts, hosts)));
      n in final && final[n] == tools[n]
  {
    hide NewCapability, NoArgs, OneString, OfType, ArrayOf, CapabilitySchema, PathAndText, Written, Capabilities;
    RegisteredElsewhere(tools, Builtins(mounts, hosts), n);
    hide Builtins, RegisteredIn;
  }

  lemma {:induction false} RegisteredInKeys(tools: map<string, Tool>, added: seq<Tool>)
    requires WellKeyed(tools)
    ensures WellKeyed(RegisteredIn(tools, added)) && tools.Keys <= RegisteredIn(tools, added).Keys
    ensures forall n :: n in RegisteredIn(tools, added) ==>
      n in tools || exists t :: t in added && t.capability.name == n
  {
    if added != [] {
      var k := |added| - 1;
      RegisteredInKeys(tools, added[..k]);
      assert added == added[..k] + [added[k]];
    }
  }

  // ----- What the tools answer ----------------------------------------------

  /** The list answered by `list_tools`, and by `current_policy` under "tools". */
  ghost function Listed(tools: map<string, Tool>, name: string): seq<Capability>
    requires name in tools
  {
    match tools[name].handler
    case ListTools(captured) => captured
    case CurrentPolicy(captured) => captured
    case DescribeTool(captured) => captured
    case HostHandler => []
  }

  /** `describe_tool(name)`: the first captured capability of that name. */
  function Describe(captured: seq<Capability>, name: string): Option<Capability> {
    if captured == [] then None
    else if captured[0].name == name then Some(captured[0])
    else Describe(captured[1..], name)
  }

  function NamesOf(caps: seq<Capability>): seq<string> {
    seq(|caps|, i requires 0 <= i < |caps| => caps[i].name)
  }

  ghost predicate NoDuplicates(names: seq<string>) {
    forall i, j :: 0 <= i < j < |names| ==> names[i] != names[j]
  }

  /** A captured list agrees with a registry: its capabilities are the registered ones,
      each once. */
  ghost predicate AgreesWith(caps: seq<Capability>, tools: map<string, Tool>) {
    && NoDuplicates(NamesOf(caps))
    && (forall n :: n in NamesOf(caps) <==> n in tools)
    && (forall i :: 0 <= i < |caps| && caps[i].name in tools ==> caps[i] == tools[caps[i].name].capability)
  }

  lemma CapabilitiesAgree(tools: map<string, Tool>)
    requires WellKeyed(tools)
    ensures AgreesWith(Capabilities(tools), tools)
    ensures NamesOf(Capabilities(tools)) == Names(tools)
  {
    var caps, names := Capabilities(tools), Names(tools);
    assert forall i :: 0 <= i < |names| ==> caps[i].name == names[i];
    assert NamesOf(caps) == names;
    forall i, j | 0 <= i < j < |names| ensures names[i] != names[j] {
      LessIrreflexive(names[i]);
    }
  }

  /** Appending a capability and registering its tool keep agreement exactly when the name is new. */
  lemma AppendAgrees(caps: seq<Capability>, tools: map<string, Tool>, tool: Tool)
    requires AgreesWith(caps, tools)
    ensures tool.capability.name !in tools ==>
      AgreesWith(caps + [tool.capability], tools[tool.capability.name := tool])
    ensures tool.capability.name in tools ==> !NoDuplicates(NamesOf(caps + [tool.capability]))
  {
    var name := tool.capability.name;
    var caps' := caps + [tool.capability];
    var names' := NamesOf(caps');
    assert names' == NamesOf(caps) + [name];
    if name in tools {
      var i :| 0 <= i < |caps| && NamesOf(caps)[i] == name;
      assert names'[i] == names'[|caps|];
    } else {
      assert forall i :: 0 <= i < |caps| ==> NamesOf(caps)[i] in tools && caps'[i] == caps[i];
      assert caps'[|caps|] == tool.capability;
    }
  }

  lemma {:induction false} DescribeFinds(caps: seq<Capability>, tools: map<string, Tool>, name: string)
    requires forall i :: 0 <= i < |caps| && caps[i].name in tools ==> caps[i] == tools[caps[i].name].capability
    ensures name in NamesOf(caps) && name in tools ==> Describe(caps, name) == Some(tools[name].capability)
    ensures name !in NamesOf(caps) ==> Describe(caps, name) == None
  {
    if caps != [] {
      DescribeFinds(caps[1..], tools, name);
      assert NamesOf(caps) == [caps[0].name] + NamesOf(caps[1..]);
    }
  }

  /** Discovery agrees with the final registry: if none of the three names was taken, the lists
      of `list_tools` and `current_policy` are exactly the registered capabilities, each once. */
  lemma DiscoveryAgrees(tools: map<string, Tool>)
    requires WellKeyed(tools)
    requires LIST.name !in tools && DESCRIBE.name !in tools && POLICY.name !in tools
    ensures AgreesWith(Listed(WithDiscovery(tools), LIST.name), WithDiscovery(tools))
    ensures AgreesWith(Listed(WithDiscovery(tools), POLICY.name), WithDiscovery(tools))
  {
    hide NewCapability, NoArgs, OneString, OfType, ArrayOf, CapabilitySchema;
    var t1 := WithList(tools);
    var t2 := WithDescribe(t1);
    var final := WithPolicy(t2);
    var c0 := Capabilities(tools);
    CapabilitiesAgree(tools);
    AppendAgrees(c0, tools, t1[LIST.name]);
    AppendAgrees(c0 + [LIST], t1, t2[DESCRIBE.name]);
    AppendAgrees(c0 + [LIST] + [DESCRIBE], t2, final[POLICY.name]);
    assert c0 + [LIST] + [DESCRIBE] + [POLICY] == c0 + [LIST, DESCRIBE, POLICY];
    PolicyExactly(tools);
  }

  /** No other capability is registered under the name of `cap`. */
  predicate Untaken(tools: map<string, Tool>, cap: Capability) {
    cap.name in tools ==> tools[cap.name].capability == cap
  }

  /** `describe_tool` finds exactly the registered capabilities, if and only if no other tool had
      been registered under its own name or that of `current_policy`. */
  lemma DescribeExactly(tools: map<string, Tool>)
    requires WellKeyed(tools)
    ensures var final := WithDiscovery(tools);
      (forall n :: Describe(Listed(final, DESCRIBE.name), n) == RegisteredCapability(final, n))
      <==> Untaken(tools, DESCRIBE) && Untaken(tools, POLICY)
  {
    hide NewCapability, NoArgs, OneString, OfType, ArrayOf, CapabilitySchema, Capabilities, Describe;
    var final := WithDiscovery(tools);
    assert Listed(final, DESCRIBE.name) == Capabilities(WithList(tools)) + [DESCRIBE, POLICY];
    if Untaken(tools, DESCRIBE) && Untaken(tools, POLICY) {
      forall n ensures Describe(Listed(final, DESCRIBE.name), n) == RegisteredCapability(final, n) {
        DescribesRegistered(tools, n);
      }
    } else {
      hide WellKeyed;
      var n := if !Untaken(tools, DESCRIBE) then DESCRIBE.name else POLICY.name;
      DescribesOther(tools, n);
      assert Describe(Listed(final, DESCRIBE.name), n) != RegisteredCapability(final, n);
    }
  }

  lemma DescribesRegistered(tools: map<string, Tool>, n: string)
    requires WellKeyed(tools) && Untaken(tools, DESCRIBE) && Untaken(tools, POLICY)
    ensures Describe(Capabilities(WithList(tools)) + [DESCRIBE, POLICY], n)
         == RegisteredCapability(WithDiscovery(tools), n)
  {
    hide NewCapability, NoArgs, OneString, OfType, ArrayOf, CapabilitySchema;
    WellKeyedBeforePolicy(tools);
    CapabilitiesAgree(WithList(tools));
    hide WellKeyed, Capabilities, Describe;
    DescribesFinal(Capabilities(WithList(tools)), WithList(tools), WithDiscovery(tools), n);
  }

  lemma DescribesFinal(caps: seq<Capability>, tools: map<string, Tool>, final: map<string, Tool>, n: string)
    requires AgreesWith(caps, tools) && Untaken(tools, DESCRIBE) && Untaken(tools, POLICY)
    requires final.Keys == tools.Keys + {DESCRIBE.name, POLICY.name}
    requires forall n :: n in final ==>
      final[n].capability
      == if n == POLICY.name then POLICY else if n == DESCRIBE.name then DESCRIBE else tools[n].capability
    ensures Describe(caps + [DESCRIBE, POLICY], n) == RegisteredCapability(final, n)
  {
    hide NewCapability, NoArgs, OneString, OfType, ArrayOf, CapabilitySchema;
    hide Describe;
    var listed := caps + [DESCRIBE, POLICY];
    assert NamesOf(listed) == NamesOf(caps) + [DESCRIBE.name, POLICY.name];
    forall i | 0 <= i < |listed| ensures listed[i].name in final && listed[i] == final[listed[i].name].capability {
      if i < |caps| { assert listed[i] == caps[i] && NamesOf(caps)[i] in tools; }
    }
    DescribeFinds(listed, final, n);
  }

  /** A tool that held the name before is described instead of the one that replaced it. */
  lemma DescribesOther(tools: map<string, Tool>, n: string)
    requires WellKeyed(tools)
    requires (n == DESCRIBE.name && !Untaken(tools, DESCRIBE)) || (n == POLICY.name && !Untaken(tools, POLICY))
    ensures Describe(Capabilities(WithList(tools)) + [DESCRIBE, POLICY], n) == Some(tools[n].capability)
    ensures RegisteredCapability(WithDiscovery(tools), n) == Some(if n == DESCRIBE.name then DESCRIBE else POLICY)
  {
    hide Capabilities, WellKeyed, Describe;
    WellKeyedBeforePolicy(tools);
    CapabilityFound(WithList(tools), n, [DESCRIBE, POLICY]);
    assert LIST.name[0] == 'l' && DESCRIBE.name[0] == 'd' && POLICY.name[0] == 'c';
  }

  lemma CapabilityFound(tools: map<string, Tool>, n: string, more: seq<Capability>)
    requires WellKeyed(tools) && n in tools
    ensures Describe(Capabilities(tools) + more, n) == Some(tools[n].capability)
  {
    CapabilitiesAgree(tools);
    DescribeFinds(Capabilities(tools), tools, n);
    DescribeFirst(Capabilities(tools), more, n);
    hide WellKeyed, Describe;
  }

  ghost function RegisteredCapability(tools: map<string, Tool>, name: string): Option<Capability> {
    if name in tools then Some(tools[name].capability) else None
  }

  lemma {:induction false} DescribeFirst(a: seq<Capability>, b: seq<Capability>, name: string)
    ensures Describe(a, name).Some? ==> Describe(a + b, name) == Describe(a, name)
  {
    if a != [] {
      DescribeFirst(a[1..], b, name);
      assert (a + b)[1..] == a[1..] + b;
    }
  }

  /** The condition is exact: `list_tools` reports every tool once if and only if none of the
      three names was registered before. */
  lemma ListToolsExactly(tools: map<string, Tool>)
    requires WellKeyed(tools)
    ensures AgreesWith(Listed(WithDiscovery(tools), LIST.name), WithDiscovery(tools))
       <==> LIST.name !in tools && DESCRIBE.name !in tools && POLICY.name !in tools
  {
    hide NewCapability, NoArgs, OneString, OfType, ArrayOf, CapabilitySchema;
    if LIST.name !in tools && DESCRIBE.name !in tools && POLICY.name !in tools {
      DiscoveryAgrees(tools);
    } else {
      CapabilitiesAgree(tools);
      assert Listed(WithDiscovery(tools), LIST.name) == Capabilities(tools) + [LIST, DESCRIBE, POLICY];
      hide WellKeyed, Capabilities, WithDiscovery;
      ListedTwice(Capabilities(tools), tools);
    }
  }

  lemma ListedTwice(caps: seq<Capability>, tools: map<string, Tool>)
    requires AgreesWith(caps, tools) && (LIST.name in tools || DESCRIBE.name in tools || POLICY.name in tools)
    ensures !NoDuplicates(NamesOf(caps + [LIST, DESCRIBE, POLICY]))
  {
    hide NewCapability, NoArgs, OneString, OfType, ArrayOf, CapabilitySchema;
    var names := NamesOf(caps + [LIST, DESCRIBE, POLICY]);
    assert names == NamesOf(caps) + [LIST.name, DESCRIBE.name, POLICY.name];
    var j := if LIST.name in tools then 0 else if DESCRIBE.name in tools then 1 else 2;
    assert names[|caps| + j] in NamesOf(caps);
    var i :| 0 <= i < |caps| && NamesOf(caps)[i] == names[|caps| + j];
    assert names[i] == names[|caps| + j];
  }

  lemma WellKeyedBeforePolicy(tools: map<string, Tool>)
    requires WellKeyed(tools)
    ensures WellKeyed(WithList(tools)) && WellKeyed(WithDescribe(WithList(tools)))
    ensures POLICY.name in WithDescribe(WithList(tools)) <==> POLICY.name in tools
  {
    hide Capabilities;
    hide NewCapability, NoArgs, OneString, OfType, ArrayOf, CapabilitySchema;
    assert IsPythonIdentifier(LIST.name) && IsPythonIdentifier(DESCRIBE.name);
    assert LIST.name[0] == 'l' && DESCRIBE.name[0] == 'd' && POLICY.name[0] == 'c';
  }

  /** The same holds of `current_policy` and its own name alone. */
  lemma PolicyExactly(tools: map<string, Tool>)
    requires WellKeyed(tools)
    ensures AgreesWith(Listed(WithDiscovery(tools), POLICY.name), WithDiscovery(tools))
       <==> POLICY.name !in tools
  {
    var t2 := WithDescribe(WithList(tools));
    WellKeyedBeforePolicy(tools);
    CapabilitiesAgree(t2);
    hide WellKeyed, Capabilities, WithDescribe, WithList;
    AppendAgrees(Capabilities(t2), t2, WithPolicy(t2)[POLICY.name]);
  }

  /** A host tool that took the name `current_policy` puts every discovery tool at odds with the
      registry: it is listed beside the one that replaced it, and described in its stead. */
  lemma TakenNameExample(tool: Tool)
    requires tool.capability.name == POLICY.name && tool.capability != POLICY
    ensures var tools := map[POLICY.name := tool];
      var final := WithDiscovery(tools);
      && WellKeyed(tools)
      && !AgreesWith(Listed(final, LIST.name), final)
      && !AgreesWith(Listed(final, POLICY.name), final)
      && Describe(Listed(final, DESCRIBE.name), POLICY.name) == Some(tool.capability)
      && RegisteredCapability(final, POLICY.name) == Some(POLICY)
  {
    var tools := map[POLICY.name := tool];
    assert IsPythonIdentifier(POLICY.name);
    ListToolsExactly(tools);
    PolicyExactly(tools);
    DescribesOther(tools, POLICY.name);
    hide AgreesWith, Capabilities, WellKeyed, Describe;
  }
}
