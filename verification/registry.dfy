/** The tool registry and the canonical digest of what it offers. */
module Registry {
  import opened Core
  import opened Ordering
  import Utf8

  predicate IsAsciiAlphabetic(c: char) {
    'a' <= c <= 'z' || 'A' <= c <= 'Z'
  }

  predicate IsPythonIdentifier(name: string) {
    && name != []
    && (name[0] == '_' || IsAsciiAlphabetic(name[0]))
    && forall i :: 1 <= i < |name| ==> name[i] == '_' || IsAsciiAlphabetic(name[i]) || '0' <= name[i] <= '9'
  }

  /** Tools are stored under their own, valid, names. */
  ghost predicate WellKeyed(tools: map<string, Tool>) {
    forall n :: n in tools ==> tools[n].capability.name == n && IsPythonIdentifier(n)
  }

  class ToolRegistry {
    var tools: map<string, Tool>

    ghost predicate Valid() reads this { WellKeyed(tools) }

    constructor ()
      ensures Valid() && tools == map[]
    {
      tools := map[];
    }

    /** Replaces any tool of the same name; refuses a name that is no identifier. */
    method Register(tool: Tool) returns (r: Result<()>)
      requires Valid()
      modifies this
      ensures Valid()
      ensures r.Ok? <==> IsPythonIdentifier(tool.capability.name)
      ensures r.Err? ==> r.error.code == "INVALID_TOOL_NAME" && tools == old(tools)
      ensures r.Ok? ==> tools == old(tools)[tool.capability.name := tool]
      ensures tools == Registered(old(tools), tool)
    {
      if !IsPythonIdentifier(tool.capability.name) {
        return Err(ErrorObject("INVALID_TOOL_NAME", "Capability name is not a valid Python identifier."));
      }
      tools := tools[tool.capability.name := tool];
      r := Ok(());
    }
  }

  function Registered(tools: map<string, Tool>, tool: Tool): map<string, Tool> {
    if IsPythonIdentifier(tool.capability.name) then tools[tool.capability.name := tool] else tools
  }

  /** The registered names, ascending. */
  ghost function Names(tools: map<string, Tool>): seq<string> {
    Listing(tools.Keys)
  }

  /** The capabilities in the order of their names. */
  ghost function Capabilities(tools: map<string, Tool>): (r: seq<Capability>)
    ensures |r| == |Names(tools)|
    ensures forall i :: 0 <= i < |r| ==> Names(tools)[i] in tools && r[i] == tools[Names(tools)[i]].capability
  {
    var names := Names(tools);
    assert forall i :: 0 <= i < |names| ==> names[i] in names;
    seq(|names|, i requires 0 <= i < |names| => tools[names[i]].capability)
  }

  // ----- The canonical digest ----------------------------------------------

  const HEX := "0123456789abcdef"

  function Hex(bytes: seq<Utf8.Byte>): string {
    if bytes == [] then []
    else
      var n := |bytes| - 1;
      Hex(bytes[..n]) + [HEX[bytes[n] / 16], HEX[bytes[n] % 16]]
  }

  method ToHex(bytes: seq<Utf8.Byte>) returns (output: string)
    ensures output == Hex(bytes)
  {
    output := [];
    for i := 0 to |bytes|
      invariant output == Hex(bytes[..i])
    {
      assert bytes[..i+1][..i] == bytes[..i];
      output := output + [HEX[bytes[i] / 16]];
      output := output + [HEX[bytes[i] % 16]];
    }
    assert bytes[..|bytes|] == bytes;
  }

  lemma {:induction false} HexInjective(a: seq<Utf8.Byte>, b: seq<Utf8.Byte>)
    requires Hex(a) == Hex(b)
    ensures a == b
  {
    HexLength(a);
    HexLength(b);
    if a != [] {
      var n := |a| - 1;
      var x, y := Hex(a), Hex(b);
      assert x[..2*n] == Hex(a[..n]) && y[..2*n] == Hex(b[..n]);
      assert HEX[a[n] / 16] == x[2*n] == HEX[b[n] / 16];
      assert HEX[a[n] % 16] == x[2*n+1] == HEX[b[n] % 16];
      HexDigits(a[n] / 16, b[n] / 16);
      HexDigits(a[n] % 16, b[n] % 16);
      HexInjective(a[..n], b[..n]);
      assert a == a[..n] + [a[n]] && b == b[..n] + [b[n]];
    }
  }

  /** Byte i becomes its high and then its low digit, at places 2i and 2i + 1. */
  lemma {:induction false} HexAt(a: seq<Utf8.Byte>, i: nat)
    requires i < |a|
    ensures |Hex(a)| == 2 * |a|
    ensures Hex(a)[2*i] == "0123456789abcdef"[a[i] / 16] && Hex(a)[2*i+1] == "0123456789abcdef"[a[i] % 16]
  {
    var n := |a| - 1;
    HexLength(a);
    HexLength(a[..n]);
    if i < n {
      HexAt(a[..n], i);
      assert Hex(a)[2*i] == Hex(a[..n])[2*i] && Hex(a)[2*i+1] == Hex(a[..n])[2*i+1];
    }
  }

  lemma {:induction false} HexLength(a: seq<Utf8.Byte>)
    ensures |Hex(a)| == 2 * |a|
  {
    if a != [] { HexLength(a[..|a|-1]); }
  }

  lemma HexDigits(i: nat, j: nat)
    requires i < 16 && j < 16 && HEX[i] == HEX[j]
    ensures i == j
  {
    assert HEX == ['0','1','2','3','4','5','6','7','8','9','a','b','c','d','e','f'];
  }

  /** A JSON string, with the escapes that section 7 of RFC 8259 requires. */
  function EscapeChar(c: char): string {
    if c == '"' then "\\\""
    else if c == '\\' then "\\\\"
    else if c < ' ' then "\\u00" + [HEX[c as int / 16], HEX[c as int % 16]]
    else [c]
  }

  function Escape(s: string): string {
    if s == [] then [] else EscapeChar(s[0]) + Escape(s[1..])
  }

  function Quoted(names: seq<string>): string {
    if names == [] then []
    else "\"" + Escape(names[0]) + "\"" + (if |names| == 1 then "" else "," + Quoted(names[1..]))
  }

  /** The JSON text of an array of strings. */
  function JsonText(names: seq<string>): string {
    "[" + Quoted(names) + "]"
  }

  lemma {:induction false} PlainEscape(s: string)
    requires forall i :: 0 <= i < |s| ==> s[i] == '_' || IsAsciiAlphabetic(s[i]) || '0' <= s[i] <= '9'
    ensures Escape(s) == s
  {
    if s != [] {
      PlainEscape(s[1..]);
      assert s == [s[0]] + s[1..];
    }
  }

  lemma QuoteSplits(a: string, restA: string, b: string, restB: string)
    requires '"' !in a && '"' !in b
    requires "\"" + a + "\"" + restA == "\"" + b + "\"" + restB
    ensures a == b && restA == restB
  {
    var x := "\"" + a + "\"" + restA;
    var y := "\"" + b + "\"" + restB;
    assert x[|a|+1] == '"' && y[|b|+1] == '"';
    assert forall i :: 0 <= i < |a| ==> x[i+1] == a[i];
    assert forall i :: 0 <= i < |b| ==> y[i+1] == b[i];
    assert |a| == |b|;
    assert x[|a|+2..] == restA && y[|b|+2..] == restB;
  }

  lemma {:induction false} QuotedInjective(a: seq<string>, b: seq<string>)
    requires forall n :: n in a || n in b ==> IsPythonIdentifier(n)
    requires Quoted(a) == Quoted(b)
    ensures a == b
  {
    if a != [] && b != [] {
      assert a[0] in a && b[0] in b;
      PlainEscape(a[0]);
      PlainEscape(b[0]);
      QuoteSplits(a[0], if |a| == 1 then "" else "," + Quoted(a[1..]),
                  b[0], if |b| == 1 then "" else "," + Quoted(b[1..]));
      if |a| > 1 {
        assert ("," + Quoted(a[1..]))[1..] == Quoted(a[1..]);
        assert ("," + Quoted(b[1..]))[1..] == Quoted(b[1..]);
        QuotedInjective(a[1..], b[1..]);
      }
      assert a == [a[0]] + a[1..] && b == [b[0]] + b[1..];
    }
  }

  /** The digest of the sorted names; `sha` stands for SHA3-256. */
  ghost function CapabilityDigest(sha: string -> seq<Utf8.Byte>, tools: map<string, Tool>): string {
    Hex(sha(JsonText(Names(tools))))
  }

  ghost predicate CollisionFree(sha: string -> seq<Utf8.Byte>) {
    forall x, y :: sha(x) == sha(y) ==> x == y
  }

  /** Two registries have the same digest exactly when they register the same names. */
  lemma DigestIdentifiesNames(sha: string -> seq<Utf8.Byte>, a: map<string, Tool>, b: map<string, Tool>)
    requires WellKeyed(a) && WellKeyed(b) && CollisionFree(sha)
    ensures CapabilityDigest(sha, a) == CapabilityDigest(sha, b) <==> a.Keys == b.Keys
  {
    if CapabilityDigest(sha, a) == CapabilityDigest(sha, b) {
      var x, y := Names(a), Names(b);
      HexInjective(sha(JsonText(x)), sha(JsonText(y)));
      assert JsonText(x)[1..|Quoted(x)|+1] == Quoted(x);
      assert JsonText(y)[1..|Quoted(y)|+1] == Quoted(y);
      QuotedInjective(x, y);
      assert forall n :: n in a.Keys <==> n in x;
    }
  }

  function RegisteredAll(tools: seq<Tool>): map<string, Tool> {
    if tools == [] then map[]
    else Registered(RegisteredAll(tools[..|tools|-1]), tools[|tools|-1])
  }

  function ValidNames(tools: seq<Tool>): set<string> {
    set t | t in tools && IsPythonIdentifier(t.capability.name) :: t.capability.name
  }

  lemma {:induction false} RegisteredNames(tools: seq<Tool>)
    ensures WellKeyed(RegisteredAll(tools))
    ensures RegisteredAll(tools).Keys
         == ValidNames(tools)
  {
    if tools != [] {
      var n := |tools| - 1;
      RegisteredNames(tools[..n]);
      assert tools == tools[..n] + [tools[n]];
    }
  }

  /** The order of registration, and what the tools do, make no difference to the digest. */
  lemma DigestIsCanonical(sha: string -> seq<Utf8.Byte>, ts: seq<Tool>, us: seq<Tool>)
    requires CollisionFree(sha)
    ensures CapabilityDigest(sha, RegisteredAll(ts)) == CapabilityDigest(sha, RegisteredAll(us))
       <==> ValidNames(ts) == ValidNames(us)
  {
    RegisteredNames(ts);
    RegisteredNames(us);
    DigestIdentifiesNames(sha, RegisteredAll(ts), RegisteredAll(us));
  }
}
