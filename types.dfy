/** The data types shared by the extension (src/types.ts). */
module Types {
  import opened Wrappers

  /** The closed enumeration of sealing scopes. */
  datatype Scope = Strict | NamespaceWide | ClusterWide

  /** The numeric value TypeScript gives each enum member. */
  function Ordinal(s: Scope): (n: nat)
    ensures n < 3
  {
    match s
    case Strict => 0
    case NamespaceWide => 1
    case ClusterWide => 2
  }

  /** The enum member with a given numeric value, if any (what a `switch` over `Scope` matches). */
  function FromOrdinal(n: int): (r: Option<Scope>)
    ensures r.Some? <==> 0 <= n < 3
    ensures r.Some? ==> Ordinal(r.value) == n
  {
    if n == 0 then Some(Strict)
    else if n == 1 then Some(NamespaceWide)
    else if n == 2 then Some(ClusterWide)
    else None
  }

  /** The member name `Scope[s]`, used as the quick-pick label. */
  function Label(s: Scope): string {
    match s
    case Strict => "strict"
    case NamespaceWide => "namespaceWide"
    case ClusterWide => "clusterWide"
  }

  /** The member whose name is `l`, if any. */
  function FromLabel(l: string): (r: Option<Scope>)
    ensures r.Some? ==> Label(r.value) == l
  {
    if l == "strict" then Some(Strict)
    else if l == "namespaceWide" then Some(NamespaceWide)
    else if l == "clusterWide" then Some(ClusterWide)
    else None
  }

  /** The three labels, in declaration order. */
  const ScopeLabels: seq<string> := [Label(Strict), Label(NamespaceWide), Label(ClusterWide)]

  /** JavaScript truthiness of a number-valued field that may be undefined. */
  predicate Truthy(n: Option<int>) {
    n.Some? && n.value != 0
  }

  /** JavaScript truthiness of a string-valued field that may be undefined. */
  predicate NonEmpty(s: Option<string>) {
    s.Some? && s.value != ""
  }

  /** Ordinals and members are in one-to-one correspondence. */
  lemma OrdinalBijection(s: Scope, n: int)
    ensures FromOrdinal(Ordinal(s)) == Some(s)
    ensures FromOrdinal(n).Some? ==> Ordinal(FromOrdinal(n).value) == n
    ensures FromOrdinal(n) == Some(s) <==> Ordinal(s) == n
  {
  }

  /** Labels and members are in one-to-one correspondence, and each label sits at its ordinal. */
  lemma LabelBijection(s: Scope, l: string)
    ensures FromLabel(Label(s)) == Some(s)
    ensures FromLabel(l) == Some(s) <==> Label(s) == l
    ensures ScopeLabels[Ordinal(s)] == Label(s)
    ensures l in ScopeLabels <==> FromLabel(l).Some?
  {
  }

  /** Strict is the only member a truthiness test treats as unset. */
  lemma OnlyStrictIsFalsy(s: Scope)
    ensures !Truthy(Some(Ordinal(s))) <==> s == Strict
  {
  }

  /** The parameter record; every field may be unset independently of the others.
      `scope` holds the runtime value of the enum-typed field, so any number can appear. */
  datatype SealSecretParameters = SealSecretParameters(
    certificatePath: Option<string>,
    name: Option<string>,
    namespace: Option<string>,
    scope: Option<int>)

  /** The record with all four fields unset. */
  const Unset := SealSecretParameters(None, None, None, None)

  /** The extension-wide state. */
  datatype ExtensionState = ExtensionState(
    kubeSealPath: Option<string>,
    ocPath: Option<string>,
    sealSecretParams: Option<SealSecretParameters>,
    localCert: bool,
    controllerNamespace: Option<string>)
}
