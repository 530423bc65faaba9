/** Package records and the status words of the dpkg database. */
module Packages {

  datatype InstalledPackage = InstalledPackage(name: string, architecture: string, version: string, status: seq<string>)

  datatype AvailablePackage = AvailablePackage(
    name: string, architecture: string, version: string, security: bool, priority: int, backports: bool)

  const DEFAULT_PRIORITY := 500
  const INSTALLED_PRIORITY := 100
  const FORCE_DOWNGRADE_PRIORITY := 1000

  predicate IsInstalled(status: seq<string>) {
    |status| == 3 && (status[0] == "install" || status[0] == "hold") && status[2] == "installed"
  }

  predicate IsHeld(status: seq<string>) {
    |status| == 3 && status[0] == "hold" && status[2] == "installed"
  }

  predicate IsBroken(status: seq<string>) {
    |status| == 3 && status[0] == "install" && status[2] !in {"not-installed", "config-files", "installed"}
  }

  function ArchOrAll(architecture: string): string {
    if architecture == "" then "all" else architecture
  }

  function NormalizedPriority(priority: int): int {
    if priority == 0 then DEFAULT_PRIORITY else priority
  }

  /** Number of elements satisfying `p`. */
  function CountWhere<T>(s: seq<T>, p: T -> bool): nat {
    if s == [] then 0
    else CountWhere(s[..|s| - 1], p) + if p(s[|s| - 1]) then 1 else 0
  }

  lemma CountWhereNone<T>(p: T -> bool)
    ensures CountWhere([], p) == 0
  {
  }

  lemma CountWhereSnoc<T>(s: seq<T>, i: nat, p: T -> bool)
    requires i < |s|
    ensures CountWhere(s[..i + 1], p) == CountWhere(s[..i], p) + if p(s[i]) then 1 else 0
  {
    assert s[..i + 1][..i] == s[..i];
  }

  lemma {:induction false} CountWhereAgree<T>(s: seq<T>, p: T -> bool, q: T -> bool)
    requires forall x | x in s :: p(x) == q(x)
    ensures CountWhere(s, p) == CountWhere(s, q)
  {
    if s != [] {
      CountWhereAgree(s[..|s| - 1], p, q);
    }
  }

  lemma {:induction false} CountWhereCovered<T>(s: seq<T>, p: T -> bool, a: T -> bool, b: T -> bool, c: T -> bool)
    requires forall x | x in s && p(x) :: a(x) || b(x) || c(x)
    ensures CountWhere(s, p) <= CountWhere(s, a) + CountWhere(s, b) + CountWhere(s, c)
  {
    if s != [] {
      CountWhereCovered(s[..|s| - 1], p, a, b, c);
    }
  }
}
