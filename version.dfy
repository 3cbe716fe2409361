/** Version constants and the client/server compatibility rule of
    receipt_recognizer/version.py: only the major segment is compared. */
module Version {
  import opened Wrappers
  import opened Values
  import opened Exceptions

  /** The client library's own version (`__version__`). */
  const ClientVersion: string := "1.0.0"
  const MinServerVersion: string := "1.0.0"
  const ApiVersion: string := "v1"

  /** `v.split('.')[0]`: everything before the first '.', or all of `v`. */
  function Major(v: string): (r: string)
    ensures |r| <= |v| && r == v[..|r|]
    ensures '.' !in r
    ensures |r| < |v| ==> v[|r|] == '.'
  {
    if v == [] || v[0] == '.' then [] else [v[0]] + Major(v[1..])
  }

  /** The three facts `Major` ensures pin it down: any dot-free prefix
      that ends at a '.' or at the end of `v` is the major segment. */
  lemma MajorCharacterized(v: string, p: string)
    requires |p| <= |v| && p == v[..|p|]
    requires '.' !in p
    requires |p| < |v| ==> v[|p|] == '.'
    ensures p == Major(v)
  {
  }

  /** A version without '.' is its own major; a dotted one's major is
      the part before the first dot. */
  lemma {:induction false} MajorOfDotted(a: string, rest: string)
    requires '.' !in a
    ensures Major(a) == a
    ensures Major(a + "." + rest) == a
  {
    MajorCharacterized(a, a);
    var v := a + "." + rest;
    assert v[..|a|] == a && v[|a|] == '.';
    MajorCharacterized(v, a);
  }

  /** The text of the error raised on a major mismatch. */
  function IncompatibleMessage(clientMajor: string, serverMajor: string): string {
    IncompatiblePrefix + clientMajor + (IncompatibleMiddle + serverMajor + IncompatibleSuffix)
  }

  const IncompatiblePrefix: string := "Несовместимые версии. Клиент v"
  const IncompatibleMiddle: string := ".x.x не может работать с сервером v"
  const IncompatibleSuffix: string := ".x.x. Установите подходящую версию."

  lemma IncompatibleMessageNamesMajors(cm: string, sm: string)
    ensures IsInfix(cm, IncompatibleMessage(cm, sm)) && IsInfix(sm, IncompatibleMessage(cm, sm))
  {
    var p, q, t := IncompatiblePrefix, IncompatibleMiddle, IncompatibleSuffix;
    InfixMiddle(p, cm, q + sm + t);
    InfixMiddle(p + cm + q, sm, t);
    assert p + cm + (q + sm + t) == p + cm + q + sm + t;
  }

  /** `check_compatibility`: `True` when the majors agree; otherwise a
      plain `Exception` (not `VersionMismatchError`) naming both majors. */
  function CheckCompatibility(clientVersion: string, serverVersion: string): (r: Result<bool, Error>)
    ensures r.Success? <==> Major(clientVersion) == Major(serverVersion)
    ensures r.Success? ==> r.value
    ensures r.Failure? ==> r.error.kind == Exception
                           && IsInfix(Major(clientVersion), r.error.message)
                           && IsInfix(Major(serverVersion), r.error.message)
  {
    var cm := Major(clientVersion);
    var sm := Major(serverVersion);
    if cm != sm then
      IncompatibleMessageNamesMajors(cm, sm);
      Failure(Error(Exception, IncompatibleMessage(cm, sm)))
    else
      Success(true)
  }

  /** Compatibility is an equivalence on the majors: reflexive and
      symmetric, and blind to everything after the first '.'. */
  lemma CompatibilityIsSymmetric(a: string, b: string)
    ensures CheckCompatibility(a, a).Success?
    ensures CheckCompatibility(a, b).Success? <==> CheckCompatibility(b, a).Success?
  {
  }

  lemma {:induction false} MinorAndPatchIgnored(major: string, restA: string, restB: string)
    requires '.' !in major
    ensures CheckCompatibility(major + "." + restA, major + "." + restB).Success?
  {
    MajorOfDotted(major, restA);
    MajorOfDotted(major, restB);
  }

  lemma Examples()
    ensures CheckCompatibility("1.0.0", "1.9.3") == Success(true)
    ensures CheckCompatibility("1.0.0", "2.0.0").Failure?
    ensures CheckCompatibility("2", "2.5").Success?
  {
    MajorOfDotted("1", "0.0");
    MajorOfDotted("1", "9.3");
    MajorOfDotted("2", "0.0");
    MajorOfDotted("2", "5");
  }

  /** A mismatch raises `Exception`, which `except VersionMismatchError`
      does not catch. */
  lemma MismatchIsNotAVersionMismatchError(a: string, b: string)
    requires CheckCompatibility(a, b).Failure?
    ensures !IsA(CheckCompatibility(a, b).error.kind, VersionMismatchError)
    ensures !IsA(CheckCompatibility(a, b).error.kind, ReceiptRecognizerError)
  {
  }
}
