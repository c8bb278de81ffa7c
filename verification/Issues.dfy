/** Validation issues: severity, code, and the ids they point at (message texts are not modelled). */
module Issues {

  datatype Severity = Error | Warning

  datatype Issue = Issue(severity: Severity, code: string, about: seq<string>)

  const OVERLAP := "schedule-overlapping-windows"
  const COLLISION := "entrypoint-collision"
  const NO_PASSWORD := "missing-sip-password"
  const NO_OPTIONS := "ivr-without-options"

  predicate HasErrors(issues: seq<Issue>) { exists i | i in issues :: i.severity == Error }

  ghost predicate Reports(issues: seq<Issue>, code: string) { exists i :: i in issues && i.code == code }

  /** `if (condition) issues.push({severity: 'error', code, ...})` */
  function Err(condition: bool, code: string, about: string): (r: seq<Issue>)
    ensures HasErrors(r) <==> condition
    ensures forall c :: Reports(r, c) <==> condition && c == code
  {
    if condition then
      var r := [Issue(Error, code, [about])];
      assert r[0] in r;
      r
    else []
  }

  function Warn(condition: bool, code: string, about: string): (r: seq<Issue>)
    ensures !HasErrors(r)
    ensures forall c :: Reports(r, c) <==> condition && c == code
  {
    if condition then
      var r := [Issue(Warning, code, [about])];
      assert r[0] in r;
      r
    else []
  }

  /** `a.push(...b)` */
  function Plus(a: seq<Issue>, b: seq<Issue>): (r: seq<Issue>)
    ensures HasErrors(r) <==> HasErrors(a) || HasErrors(b)
    ensures forall c :: Reports(r, c) <==> Reports(a, c) || Reports(b, c)
  {
    var r := a + b;
    assert forall i :: i in r <==> i in a || i in b;
    r
  }
}
