/** Contracts shared by every part of LangShell: results, errors, limits,
    JSON values and the audit record of one external call. */
module Core {

  datatype Option<+T> = None | Some(value: T)

  datatype ErrorObject = ErrorObject(code: string, message: string)

  datatype Result<+T> = Ok(value: T) | Err(error: ErrorObject)

  /** The largest `u32`; counters saturate here. */
  const U32_MAX: nat := 0xFFFF_FFFF

  type U32 = n: int | 0 <= n <= U32_MAX

  function SaturatingInc(n: U32): (r: U32)
    ensures r >= n
    ensures n < U32_MAX ==> r == n + 1
  {
    if n < U32_MAX then n + 1 else n
  }

  function Min(a: nat, b: nat): nat {
    if a < b then a else b
  }

  /** An element at two places is counted at least twice. */
  lemma CountedTwice<T>(s: seq<T>, i: nat, j: nat)
    requires i < j < |s| && s[i] == s[j]
    ensures multiset(s)[s[i]] >= 2
  {
    assert s == s[..j] + [s[j]] + s[j+1..];
    assert s[i] in s[..j];
  }

  datatype Language = Python | TypeScript

  datatype SideEffect = NoEffect | ReadEffect | WriteEffect | NetworkEffect | DatabaseEffect | ExternalSystemEffect

  datatype Limits = Limits(wallMs: U32, maxStdoutBytes: U32, maxExternalCalls: U32)

  /** JSON values; the fields of an object carry no order. */
  datatype Json =
    | JNull
    | JBool(b: bool)
    | JNum(n: real)
    | JStr(s: string)
    | JArr(items: seq<Json>)
    | JObj(fields: map<string, Json>)

  datatype CallStatus = CallOk | CallDenied | CallError

  /** One entry of the audit log. A digest stands for the content it digests. */
  datatype CallRecord = CallRecord(
    name: string,
    sideEffect: SideEffect,
    status: CallStatus,
    request: Json,
    response: Option<Json>,
    error: Option<ErrorObject>)

  datatype CapabilityLimits = CapabilityLimits(
    timeoutMs: U32,
    maxRequestBytes: U32,
    maxResponseBytes: U32,
    concurrency: U32,
    ratePerMin: Option<U32>)

  datatype ApprovalPolicy = NoApproval | Auto(rule: string) | Manual

  datatype Capability = Capability(
    name: string,
    description: string,
    inputSchema: Json,
    outputSchema: Json,
    sideEffect: SideEffect,
    limits: CapabilityLimits,
    approval: ApprovalPolicy,
    idempotent: bool)

  /** What a tool does when called. The discovery tools answer from a captured list;
      every other handler is the host's. */
  datatype Handler =
    | HostHandler
    | ListTools(captured: seq<Capability>)
    | DescribeTool(captured: seq<Capability>)
    | CurrentPolicy(captured: seq<Capability>)

  datatype Tool = Tool(capability: Capability, asyncMode: bool, handler: Handler)
}
