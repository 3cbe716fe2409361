/** The error taxonomy of receipt_recognizer/exceptions.py, together with
    the Python built-ins the rest of the client raises. A raised exception
    is an `Error` value: its class and its `str()`. */
module Exceptions {
  import opened Values

  datatype ErrorKind =
    | Exception               // Python's built-in root of ordinary errors
    | ValueError              // built-in
    | TypeError               // built-in
    | AttributeError          // built-in
    | ReceiptRecognizerError
    | APIError
    | ValidationError
    | VersionMismatchError
    | DeprecatedClientError

  /** A raised exception: its class and the text `str(e)` gives. */
  datatype Error = Error(kind: ErrorKind, message: string)

  /** Distance from `Exception` in the class hierarchy. */
  function Depth(k: ErrorKind): nat {
    match k
    case Exception => 0
    case ValueError | TypeError | AttributeError | ReceiptRecognizerError => 1
    case _ => 2
  }

  /** The direct base class of every class but `Exception`. */
  function Parent(k: ErrorKind): (p: ErrorKind)
    requires k != Exception
    ensures Depth(p) + 1 == Depth(k)
  {
    match k
    case APIError | ValidationError | VersionMismatchError | DeprecatedClientError =>
      ReceiptRecognizerError
    case _ => Exception
  }

  /** `issubclass(k, base)`, which decides whether `except base:` catches `k`. */
  predicate IsA(k: ErrorKind, base: ErrorKind)
    decreases Depth(k)
  {
    k == base || (k != Exception && IsA(Parent(k), base))
  }

  lemma {:induction false} EveryErrorIsAnException(k: ErrorKind)
    ensures IsA(k, Exception)
    decreases Depth(k)
  {
    if k != Exception {
      EveryErrorIsAnException(Parent(k));
    }
  }

  lemma {:induction false} IsATransitive(a: ErrorKind, b: ErrorKind, c: ErrorKind)
    requires IsA(a, b) && IsA(b, c)
    ensures IsA(a, c)
    decreases Depth(a)
  {
    if a != b {
      IsATransitive(Parent(a), b, c);
    }
  }

  /** The library's four error classes share one base, and
      `ValidationError` is not a `ValueError`. */
  lemma Hierarchy()
    ensures IsA(APIError, ReceiptRecognizerError)
    ensures IsA(ValidationError, ReceiptRecognizerError)
    ensures IsA(VersionMismatchError, ReceiptRecognizerError)
    ensures IsA(DeprecatedClientError, ReceiptRecognizerError)
    ensures IsA(ReceiptRecognizerError, Exception)
    ensures !IsA(ValidationError, ValueError)
    ensures !IsA(Exception, VersionMismatchError)
  {
  }

  /** The message `VersionMismatchError` builds when given none. */
  function DefaultMismatchMessage(clientVersion: string, serverVersion: string): string {
    "Version mismatch: client=" + clientVersion + ", server=" + serverVersion
    + ". Please update your client library."
  }

  /** `message or (default)`: an explicit non-empty message is kept
      verbatim, an empty one is replaced by the default. */
  function MismatchMessage(clientVersion: string, serverVersion: string, message: string): (r: string)
    ensures message != "" ==> r == message
    ensures message == "" ==> r == DefaultMismatchMessage(clientVersion, serverVersion)
    ensures r != ""
  {
    if message != "" then message else DefaultMismatchMessage(clientVersion, serverVersion)
  }

  /** The default message names both versions, and choosing the message
      is idempotent: passing the chosen message again keeps it. */
  lemma {:induction false} MismatchMessageNamesVersions(c: string, s: string, message: string)
    ensures message == "" ==> IsInfix(c, MismatchMessage(c, s, message))
                              && IsInfix(s, MismatchMessage(c, s, message))
    ensures MismatchMessage(c, s, MismatchMessage(c, s, message)) == MismatchMessage(c, s, message)
  {
    if message == "" {
      var m := DefaultMismatchMessage(c, s);
      var p := "Version mismatch: client=";
      var q := ", server=";
      assert m == p + c + q + s + ". Please update your client library.";
      assert m[|p|..|p| + |c|] == c;
      assert InfixAt(c, m, |p|);
      assert m[|p| + |c| + |q|..|p| + |c| + |q| + |s|] == s;
      assert InfixAt(s, m, |p| + |c| + |q|);
    }
  }

  /** A `VersionMismatchError` instance: the two versions, the message and
      the exception's `args`, which `super().__init__(self.message)` sets. */
  class VersionMismatch {
    var clientVersion: string
    var serverVersion: string
    var message: string
    var args: seq<string>

    constructor (clientVersion: string, serverVersion: string, message: string)
      ensures this.clientVersion == clientVersion && this.serverVersion == serverVersion
      ensures this.message == MismatchMessage(clientVersion, serverVersion, message)
      ensures Str() == this.message
    {
      this.clientVersion := clientVersion;
      this.serverVersion := serverVersion;
      this.message := MismatchMessage(clientVersion, serverVersion, message);
      this.args := [MismatchMessage(clientVersion, serverVersion, message)];
    }

    /** `str(e)`: empty without arguments, the argument itself with one,
        the tuple's repr with several (quoting as for strings that hold no
        quote or backslash). */
    function Str(): (s: string)
      reads this
      ensures args == [] ==> s == ""
      ensures |args| == 1 ==> s == args[0]
    {
      if args == [] then ""
      else if |args| == 1 then args[0]
      else
        var a := args;
        "(" + Join(seq(|a|, i requires 0 <= i < |a| => "'" + a[i] + "'"), ", ") + ")"
    }

    /** The instance as a raised error. */
    function AsError(): (e: Error)
      reads this
      ensures e.kind == VersionMismatchError && IsA(e.kind, ReceiptRecognizerError)
      ensures |args| == 1 ==> e.message == args[0]
    {
      Error(VersionMismatchError, Str())
    }
  }
}
