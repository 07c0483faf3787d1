/** The static check of Python code before it runs: a visitor over the syntax tree that stops
    at the first use of something the sandbox forbids. */
module PythonValidator {
  import opened Core

  /** What a statement or expression is, as far as the check looks. */
  datatype Kind =
    | Import(names: seq<string>)
    | ImportFrom(origin: Option<string>, level: nat)
    | Attribute(attr: string)
    | Call
    | Name(id: string)
    | Other

  /** A syntax tree. Children come in the order the traversal visits them; the callee is the
      first child of a call. */
  datatype Node = Node(kind: Kind, children: seq<Node>)

  const BLOCKED_MODULES: set<string> :=
    {"os", "subprocess", "socket", "urllib", "requests", "ctypes", "sys", "shutil", "pathlib", "io",
     "multiprocessing", "threading", "http"}

  const BLOCKED_ATTRS: set<string> :=
    {"__class__", "__bases__", "__subclasses__", "__mro__", "__globals__", "__builtins__", "__import__"}

  const SUSPICIOUS_NAMES: set<string> := {"fetch_url", "query_db", "send_email"}

  const BANNED_BUILTINS: set<string> := {"open", "exec", "eval", "compile", "__import__"}

  /** The part of a dotted name before its first dot. */
  function Head(name: string): (head: string)
    ensures head <= name && '.' !in head
    ensures head == name || name[|head|] == '.'
  {
    if name == [] || name[0] == '.' then [] else [name[0]] + Head(name[1..])
  }

  function Unsupported(what: string): ErrorObject {
    ErrorObject("UNSUPPORTED_FEATURE", what)
  }

  function UnknownTool(name: string): ErrorObject {
    ErrorObject("UNKNOWN_TOOL", name)
  }

  // ----- The rules, node by node -------------------------------------------------

  ghost predicate ImportsBlocked(n: Node) {
    n.kind.Import? && exists i :: 0 <= i < |n.kind.names| && Head(n.kind.names[i]) in BLOCKED_MODULES
  }

  predicate ImportsFromBlocked(n: Node) {
    n.kind.ImportFrom? && n.kind.origin.Some? && Head(n.kind.origin.value) in BLOCKED_MODULES
  }

  predicate ImportsFromNowhere(n: Node) {
    n.kind.ImportFrom? && n.kind.origin.None? && n.kind.level > 0
  }

  predicate ReadsBlocked(n: Node) {
    n.kind.Attribute? && n.kind.attr in BLOCKED_ATTRS
  }

  predicate CallsByName(n: Node, names: set<string>) {
    n.kind.Call? && n.children != [] && n.children[0].kind.Name? && n.children[0].kind.id in names
  }

  /** A node breaks a rule of the sandbox. */
  ghost predicate Breaks(registered: set<string>, n: Node) {
    || ImportsBlocked(n)
    || ImportsFromBlocked(n)
    || ImportsFromNowhere(n)
    || ReadsBlocked(n)
    || CallsByName(n, BANNED_BUILTINS)
    || CallsByName(n, SUSPICIOUS_NAMES - registered)
  }

  function FirstBlocked(names: seq<string>): Option<string> {
    if names == [] then None
    else if Head(names[0]) in BLOCKED_MODULES then Some(names[0])
    else FirstBlocked(names[1..])
  }

  /** What the check reports for a node on its own. */
  function Finding(registered: set<string>, n: Node): Option<ErrorObject> {
    match n.kind
    case Import(names) =>
      (match FirstBlocked(names) case Some(name) => Some(Unsupported("import " + name)) case None => None)
    case ImportFrom(Some(origin), _) =>
      if Head(origin) in BLOCKED_MODULES then Some(Unsupported("from " + origin + " import ...")) else None
    case ImportFrom(None, level) => if level > 0 then Some(Unsupported("relative import")) else None
    case Attribute(attr) => if attr in BLOCKED_ATTRS then Some(Unsupported(attr)) else None
    case Call =>
      if n.children == [] || !n.children[0].kind.Name? then None
      else
        var name := n.children[0].kind.id;
        if name in BANNED_BUILTINS then Some(Unsupported(name + "(...)"))
        else if name in SUSPICIOUS_NAMES && name !in registered then Some(UnknownTool(name))
        else None
    case _ => None
  }

  lemma {:induction false} FirstBlockedExactly(names: seq<string>)
    ensures FirstBlocked(names).Some? <==> exists i :: 0 <= i < |names| && Head(names[i]) in BLOCKED_MODULES
  {
    if names != [] {
      FirstBlockedExactly(names[1..]);
      if i :| 1 <= i < |names| && Head(names[i]) in BLOCKED_MODULES {
        assert Head(names[1..][i-1]) in BLOCKED_MODULES;
      }
      if i :| 0 <= i < |names| - 1 && Head(names[1..][i]) in BLOCKED_MODULES {
        assert Head(names[i+1]) in BLOCKED_MODULES;
      }
    }
  }

  /** A node is reported exactly when it breaks a rule. */
  lemma FindingExactly(registered: set<string>, n: Node)
    ensures Finding(registered, n).Some? <==> Breaks(registered, n)
  {
    if n.kind.Import? { FirstBlockedExactly(n.kind.names); }
  }

  /** What is reported: an unknown tool exactly for a call of a suspicious name that is not registered
      (and not banned anyway), an unsupported feature for all else, and by what name. */
  lemma FindingSays(registered: set<string>, n: Node)
    requires Breaks(registered, n)
    ensures Finding(registered, n).Some?
    ensures var error := Finding(registered, n).value;
      && (error.code == "UNKNOWN_TOOL" <==> CallsByName(n, SUSPICIOUS_NAMES - registered - BANNED_BUILTINS))
      && (error.code == "UNSUPPORTED_FEATURE" <==> error.code != "UNKNOWN_TOOL")
      && (CallsByName(n, SUSPICIOUS_NAMES) ==> error.message == n.children[0].kind.id)
      && (CallsByName(n, BANNED_BUILTINS) ==> error.message == n.children[0].kind.id + "(...)")
      && (ReadsBlocked(n) ==> error.message == n.kind.attr)
      && (ImportsFromBlocked(n) ==> error.message == "from " + n.kind.origin.value + " import ...")
      && (ImportsFromNowhere(n) ==> error.message == "relative import")
      && (ImportsBlocked(n) ==> FirstBlockedIs(n.kind.names, error.message))
  {
    FindingExactly(registered, n);
    if n.kind.Import? { FirstBlockedAt(n.kind.names); }
    assert "UNKNOWN_TOOL"[2] == 'K' && "UNSUPPORTED_FEATURE"[2] == 'S';
  }

  /** The message is about the first blocked name. */
  ghost predicate FirstBlockedIs(names: seq<string>, message: string) {
    exists i :: 0 <= i < |names| && Head(names[i]) in BLOCKED_MODULES && message == "import " + names[i]
                && forall j :: 0 <= j < i ==> Head(names[j]) !in BLOCKED_MODULES
  }

  lemma {:induction false} FirstBlockedAt(names: seq<string>)
    ensures FirstBlocked(names).Some? ==> FirstBlockedIs(names, "import " + FirstBlocked(names).value)
  {
    if names != [] && Head(names[0]) !in BLOCKED_MODULES && FirstBlocked(names[1..]).Some? {
      FirstBlockedAt(names[1..]);
      var message := "import " + FirstBlocked(names).value;
      var i :| 0 <= i < |names[1..]| && Head(names[1..][i]) in BLOCKED_MODULES && message == "import " + names[1..][i]
               && forall j :: 0 <= j < i ==> Head(names[1..][j]) !in BLOCKED_MODULES;
      forall j | 0 <= j < i + 1 ensures Head(names[j]) !in BLOCKED_MODULES {
        if j > 0 { assert Head(names[1..][j-1]) !in BLOCKED_MODULES; }
      }
      assert Head(names[i+1]) in BLOCKED_MODULES && message == "import " + names[i+1];
    }
  }

  /** A relative import is refused exactly when it names no module or one with a blocked head:
      the rule against relative imports does not reach those that name a module. */
  lemma RelativeImportsExactly(registered: set<string>, n: Node)
    requires n.kind.ImportFrom? && n.kind.level > 0
    ensures Breaks(registered, n) <==> n.kind.origin.None? || Head(n.kind.origin.value) in BLOCKED_MODULES
  {}

  lemma RelativeImportExample(registered: set<string>)
    ensures First(registered, [Node(ImportFrom(Some("foo"), 1), [])]) == None
  {
    assert Head("foo") == "foo" by {
      assert "foo"[1..] == "oo" && "oo"[1..] == "o" && "o"[1..] == "";
    }
    assert First(registered, []) == None;
  }

  // ----- The whole tree ------------------------------------------------------------

  /** The first report in a forest, parents before children, left to right. */
  function First(registered: set<string>, nodes: seq<Node>): Option<ErrorObject> {
    if nodes == [] then None
    else
      var n := nodes[0];
      match Finding(registered, n)
      case Some(error) => Some(error)
      case None =>
        match First(registered, n.children)
        case Some(error) => Some(error)
        case None => First(registered, nodes[1..])
  }

  /** A place in a forest: the index of a tree, then of a child, and so on. */
  type Path = seq<nat>

  predicate IsPath(nodes: seq<Node>, p: Path) {
    p != [] && p[0] < |nodes| && (|p| == 1 || IsPath(nodes[p[0]].children, p[1..]))
  }

  function NodeAt(nodes: seq<Node>, p: Path): Node
    requires IsPath(nodes, p)
  {
    if |p| == 1 then nodes[p[0]] else NodeAt(nodes[p[0]].children, p[1..])
  }

  /** Pre-order: an ancestor before its descendants, an elder sibling's tree before a younger's. */
  predicate Precedes(p: Path, q: Path) {
    q != [] && (p == [] || p[0] < q[0] || (p[0] == q[0] && Precedes(p[1..], q[1..])))
  }

  ghost predicate Clean(registered: set<string>, nodes: seq<Node>) {
    forall p: Path :: IsPath(nodes, p) ==> !Breaks(registered, NodeAt(nodes, p))
  }

  /** The node at `p` breaks a rule, is reported as `error`, and no node before it breaks one. */
  ghost predicate FirstBreak(registered: set<string>, nodes: seq<Node>, p: Path, error: ErrorObject) {
    && IsPath(nodes, p)
    && Breaks(registered, NodeAt(nodes, p))
    && Finding(registered, NodeAt(nodes, p)) == Some(error)
    && forall q: Path :: IsPath(nodes, q) && Precedes(q, p) ==> !Breaks(registered, NodeAt(nodes, q))
  }

  lemma PathCases(nodes: seq<Node>, p: Path)
    requires IsPath(nodes, p)
    ensures p == [0] || (p[0] == 0 && |p| > 1 && IsPath(nodes[0].children, p[1..])
                         && NodeAt(nodes, p) == NodeAt(nodes[0].children, p[1..]))
         || (p[0] > 0 && IsPath(nodes[1..], [p[0] - 1] + p[1..])
             && NodeAt(nodes, p) == NodeAt(nodes[1..], [p[0] - 1] + p[1..]))
  {
    if p[0] == 0 {
      if |p| == 1 { assert p == [0]; }
    } else {
      var q := [p[0] - 1] + p[1..];
      assert q[1..] == p[1..] && nodes[1..][q[0]] == nodes[p[0]];
    }
  }

  /** No report means no node breaks a rule. */
  lemma {:induction false} SilentIsClean(registered: set<string>, nodes: seq<Node>)
    requires First(registered, nodes) == None
    ensures Clean(registered, nodes)
  {
    if nodes != [] {
      SilentIsClean(registered, nodes[0].children);
      SilentIsClean(registered, nodes[1..]);
      FindingExactly(registered, nodes[0]);
      forall p: Path | IsPath(nodes, p) ensures !Breaks(registered, NodeAt(nodes, p)) {
        PathCases(nodes, p);
      }
    }
  }

  /** A report is that of the first node, in pre-order, that breaks a rule. */
  lemma {:induction false} ReportIsFirst(registered: set<string>, nodes: seq<Node>) returns (p: Path)
    requires First(registered, nodes).Some?
    ensures FirstBreak(registered, nodes, p, First(registered, nodes).value)
  {
    var n, error := nodes[0], First(registered, nodes).value;
    FindingExactly(registered, n);
    if Finding(registered, n).Some? {
      p := [0];
    } else if First(registered, n.children).Some? {
      var q := ReportIsFirst(registered, n.children);
      p := [0] + q;
      assert p[1..] == q;
      forall r: Path | IsPath(nodes, r) && Precedes(r, p) ensures !Breaks(registered, NodeAt(nodes, r)) {
        PathCases(nodes, r);
      }
    } else {
      SilentIsClean(registered, n.children);
      var q := ReportIsFirst(registered, nodes[1..]);
      p := [q[0] + 1] + q[1..];
      assert p[1..] == q[1..] && nodes[p[0]] == nodes[1..][q[0]];
      forall r: Path | IsPath(nodes, r) && Precedes(r, p) ensures !Breaks(registered, NodeAt(nodes, r)) {
        PathCases(nodes, r);
      }
    }
  }

  /** The report is decided by the rules alone: it exists exactly when some node breaks one. */
  lemma ReportExactly(registered: set<string>, nodes: seq<Node>)
    ensures First(registered, nodes) == None <==> Clean(registered, nodes)
  {
    if First(registered, nodes).Some? {
      var p := ReportIsFirst(registered, nodes);
    } else {
      SilentIsClean(registered, nodes);
    }
  }

  /** Registering more tools never makes acceptable code unacceptable. */
  lemma MoreToolsAcceptMore(fewer: set<string>, more: set<string>, nodes: seq<Node>)
    requires fewer <= more && First(fewer, nodes) == None
    ensures First(more, nodes) == None
  {
    ReportExactly(fewer, nodes);
    ReportExactly(more, nodes);
    assert SUSPICIOUS_NAMES - more <= SUSPICIOUS_NAMES - fewer;
  }

  // ----- The visitor ---------------------------------------------------------------

  lemma {:induction false} FirstConcat(registered: set<string>, a: seq<Node>, b: seq<Node>)
    ensures First(registered, a + b)
         == if First(registered, a).Some? then First(registered, a) else First(registered, b)
  {
    if a == [] {
      assert a + b == b;
    } else {
      assert (a + b)[1..] == a[1..] + b;
      FirstConcat(registered, a[1..], b);
    }
  }

  /** What a visit leaves behind: an earlier report stays, otherwise the first in `nodes`. */
  function Noted(registered: set<string>, before: Option<ErrorObject>, nodes: seq<Node>): Option<ErrorObject> {
    if before.Some? then before else First(registered, nodes)
  }

  class Visitor {
    const registered: set<string>
    var error: Option<ErrorObject>

    constructor (registered: set<string>)
      ensures this.registered == registered && error == None
    {
      this.registered := registered;
      error := None;
    }

    method Flag(report: ErrorObject)
      modifies this
      ensures error == if old(error).Some? then old(error) else Some(report)
    {
      if error.Some? { return; }
      error := Some(report);
    }

    /** The first blocked name of an import statement, if any. */
    method VisitAliases(names: seq<string>) returns (stop: bool)
      requires error.None?
      modifies this
      ensures stop <==> FirstBlocked(names).Some?
      ensures error == if stop then Some(Unsupported("import " + FirstBlocked(names).value)) else None
    {
      for i := 0 to |names|
        invariant error.None? && FirstBlocked(names) == FirstBlocked(names[i..])
      {
        assert names[i..][0] == names[i] && names[i..][1..] == names[i+1..];
        if Head(names[i]) in BLOCKED_MODULES {
          Flag(Unsupported("import " + names[i]));
          return true;
        }
      }
      stop := false;
    }

    /** Checks the node itself before anything below it. */
    method Visit(n: Node)
      modifies this
      ensures error == Noted(registered, old(error), [n])
      decreases n
    {
      if error.Some? { return; }
      assert First(registered, [n]) == Noted(registered, Finding(registered, n), n.children) by {
        assert [n][1..] == [];
      }
      match n.kind {
        case Import(names) =>
          var stop := VisitAliases(names);
          if stop { return; }
        case ImportFrom(Some(origin), _) =>
          if Head(origin) in BLOCKED_MODULES {
            Flag(Unsupported("from " + origin + " import ..."));
            return;
          }
        case ImportFrom(None, level) =>
          if level > 0 {
            Flag(Unsupported("relative import"));
            return;
          }
        case Attribute(attr) =>
          if attr in BLOCKED_ATTRS {
            Flag(Unsupported(attr));
            return;
          }
        case Call =>
          if n.children != [] && n.children[0].kind.Name? {
            var name := n.children[0].kind.id;
            if name in BANNED_BUILTINS {
              Flag(Unsupported(name + "(...)"));
              return;
            }
            if name in SUSPICIOUS_NAMES && name !in registered {
              Flag(UnknownTool(name));
              return;
            }
          }
        case _ =>
      }
      Walk(n);
    }

    /** Visits every child; once something is reported the visits return at once. */
    method Walk(n: Node)
      requires error.None?
      modifies this
      ensures error == First(registered, n.children)
      decreases n, 0
    {
      for i := 0 to |n.children|
        invariant error == First(registered, n.children[..i])
      {
        FirstConcat(registered, n.children[..i], [n.children[i]]);
        assert n.children[..i+1] == n.children[..i] + [n.children[i]];
        Visit(n.children[i]);
      }
      assert n.children[..|n.children|] == n.children;
    }
  }

  /** The check of a whole module; code that does not parse is left to the engine. */
  method StaticValidationError(registered: set<string>, parsed: Option<seq<Node>>) returns (error: Option<ErrorObject>)
    ensures parsed.None? ==> error == None
    ensures parsed.Some? ==> error == First(registered, parsed.value)
    ensures parsed.Some? ==> (error == None <==> Clean(registered, parsed.value))
    ensures parsed.Some? && error.Some? ==> exists p :: FirstBreak(registered, parsed.value, p, error.value)
  {
    if parsed.None? { return None; }
    var body := parsed.value;
    ReportExactly(registered, body);
    if First(registered, body).Some? {
      var p := ReportIsFirst(registered, body);
    }
    var v := new Visitor(registered);
    for i := 0 to |body|
      invariant v.registered == registered && v.error == None == First(registered, body[..i])
    {
      FirstConcat(registered, body[..i], [body[i]]);
      assert body[..i+1] == body[..i] + [body[i]];
      v.Visit(body[i]);
      if v.error.Some? {
        FirstConcat(registered, body[..i+1], body[i+1..]);
        assert body == body[..i+1] + body[i+1..];
        return v.error;
      }
    }
    assert body[..|body|] == body;
    error := v.error;
  }
}
