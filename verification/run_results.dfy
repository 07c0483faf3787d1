/** What both backends make of errors and of output: statuses, and text cut at a byte limit. */
module RunResults {
  import opened Core
  import opened Sessions
  import Utf8

  // ----- Statuses --------------------------------------------------------------------

  function CodeToStatus(code: string, validation: bool): RunStatus {
    if code == "PERMISSION_DENIED" then PermissionDenied
    else if code == "WAITING_FOR_APPROVAL" then WaitingForApproval
    else if code in {"TIMEOUT_WALL", "TIMEOUT_CPU", "TIMEOUT_TOOL"} then TimedOut
    else if code == "CANCELLED" then Cancelled
    else if code in {"MEMORY_EXCEEDED", "STDOUT_EXCEEDED", "EXTERNAL_CALLS_EXCEEDED", "STACK_OVERFLOW"} then
      ResourceExhausted
    else if code in {"SYNTAX_ERROR", "TYPE_ERROR", "UNKNOWN_TOOL", "UNSUPPORTED_FEATURE", "RESULT_NOT_SERIALIZABLE",
                     "SNAPSHOT_VERSION_MISMATCH", "SNAPSHOT_CAPABILITY_MISMATCH", "SNAPSHOT_CORRUPT"} then
      ValidationError
    else if validation then ValidationError
    else RuntimeError
  }

  /** The status of a failed execution, from its error code alone. */
  predicate StatusFits(status: RunStatus, code: string) {
    && status != StatusOk
    && (status == PermissionDenied <==> code == "PERMISSION_DENIED")
    && (status == WaitingForApproval <==> code == "WAITING_FOR_APPROVAL")
    && (status == TimedOut <==> code == "TIMEOUT_WALL" || code == "TIMEOUT_CPU" || code == "TIMEOUT_TOOL")
    && (status == Cancelled <==> code == "CANCELLED")
    && (status == ResourceExhausted <==>
          || code == "MEMORY_EXCEEDED" || code == "STDOUT_EXCEEDED"
          || code == "EXTERNAL_CALLS_EXCEEDED" || code == "STACK_OVERFLOW")
    && (status == ValidationError <==>
          || code == "SYNTAX_ERROR" || code == "TYPE_ERROR" || code == "UNKNOWN_TOOL"
          || code == "UNSUPPORTED_FEATURE" || code == "RESULT_NOT_SERIALIZABLE"
          || code == "SNAPSHOT_VERSION_MISMATCH" || code == "SNAPSHOT_CAPABILITY_MISMATCH"
          || code == "SNAPSHOT_CORRUPT")
  }

  /** So every code that has no status of its own is a runtime error. */
  lemma StatusExactly(code: string)
    ensures StatusFits(CodeToStatus(code, false), code)
    ensures CodeToStatus(code, true)
         == if CodeToStatus(code, false) == RuntimeError then ValidationError else CodeToStatus(code, false)
  {}

  lemma ValidationIsNeverOk(code: string)
    ensures forall validation :: CodeToStatus(code, validation) != StatusOk
  {}

  // ----- Standard output -----------------------------------------------------------

  function Text(stdout: string): Utf8.Text {
    seq(|stdout|, i requires 0 <= i < |stdout| => stdout[i] as int)
  }

  function Bytes(stdout: string): seq<Utf8.Byte> {
    Utf8.Encode(Text(stdout))
  }

  /** The longest leading part of the text that fits the limit, as bytes. */
  function Cut(stdout: string, limits: Limits): seq<Utf8.Byte> {
    Utf8.Encode(Text(stdout)[..Utf8.Fitting(Text(stdout), limits.maxStdoutBytes)])
  }

  predicate Overflows(stdout: string, limits: Limits) {
    |Bytes(stdout)| > limits.maxStdoutBytes
  }

  method TruncateStdout(stdout: string, limits: Limits) returns (kept: seq<Utf8.Byte>, cut: bool)
    ensures kept == Cut(stdout, limits) && cut == Overflows(stdout, limits)
  {
    kept, cut := Utf8.TruncateUtf8(Bytes(stdout), limits.maxStdoutBytes, Text(stdout));
  }

  lemma CutFits(stdout: string, limits: Limits)
    ensures |Cut(stdout, limits)| <= limits.maxStdoutBytes
    ensures Cut(stdout, limits) <= Bytes(stdout)
    ensures Cut(stdout, limits) == Bytes(stdout) <==> !Overflows(stdout, limits)
    ensures Overflows(stdout, limits) ==> |Cut(stdout, limits)| + 3 >= limits.maxStdoutBytes
  {
    var text := Text(stdout);
    var k := Utf8.Fitting(text, limits.maxStdoutBytes);
    Utf8.FittingIsLongest(text, limits.maxStdoutBytes, k);
    Utf8.EncodePrefix(text, k);
    assert text[..|text|] == text;
    if k < |text| {
      Utf8.FittingIsLongest(text, limits.maxStdoutBytes, k + 1);
      Utf8.EncodeStep(text, k);
    }
  }

  lemma {:induction false} AtLeastOneByteEach(text: Utf8.Text)
    ensures |Utf8.Encode(text)| >= |text|
  {
    if text != [] { AtLeastOneByteEach(text[..|text|-1]); }
  }
}
