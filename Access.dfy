/** Declared and effective accessibility of an element (Element.cs,
    ComputeActualAccess). The reference definition is the accessibility
    domain of section 10.5.2 of ECMA-334, 4th edition: the domain of a nested
    member is the domain of its declared accessibility intersected with the
    domain of the type that contains it. */
module Access {

  import opened Wrappers

  datatype AccessModifierType =
    | Public
    | ProtectedInternal
    | Protected
    | Internal
    | ProtectedAndInternal
    | Private

  /** The kinds of code that may try to use a member: unrelated code in
      another assembly, a derived class in another assembly, unrelated code
      in the same assembly, a derived class in the same assembly. */
  datatype Audience = Outside | DerivedOutside | Assembly | DerivedInAssembly

  const Everyone: set<Audience> := {Outside, DerivedOutside, Assembly, DerivedInAssembly}

  /** The accessibility domain of each declared accessibility. */
  function Domain(a: AccessModifierType): (d: set<Audience>)
    ensures d <= Everyone
  {
    match a
    case Public => Everyone
    case ProtectedInternal => {DerivedOutside, Assembly, DerivedInAssembly}
    case Protected => {DerivedOutside, DerivedInAssembly}
    case Internal => {Assembly, DerivedInAssembly}
    case ProtectedAndInternal => {DerivedInAssembly}
    case Private => {}
  }

  /** Different access levels have different domains, so a domain names its
      access level. */
  lemma DomainInjective(a: AccessModifierType, b: AccessModifierType)
    requires Domain(a) == Domain(b)
    ensures a == b
  {
    var da, db := Domain(a), Domain(b);
    assert Outside in da <==> Outside in db;
    assert DerivedOutside in da <==> DerivedOutside in db;
    assert Assembly in da <==> Assembly in db;
    assert DerivedInAssembly in da <==> DerivedInAssembly in db;
  }

  /** a is at most as permissive as b. */
  predicate AtMost(a: AccessModifierType, b: AccessModifierType) {
    Domain(a) <= Domain(b)
  }

  /** Merges an element's own access level with the actual access level of
      its parent element (None when there is no parent element). */
  function ActualAccess(local: AccessModifierType, parentActual: Option<AccessModifierType>): (r: AccessModifierType)
    ensures parentActual.None? ==> r == local
    ensures parentActual.Some? ==> Domain(r) == Domain(local) * Domain(parentActual.value)
    ensures AtMost(r, local)
  {
    if local == Private then local
    else if parentActual.None? then local
    else
      match parentActual.value
      case Public => local
      case ProtectedInternal =>
        if local == Public then ProtectedInternal else local
      case Protected =>
        if local == Public || local == ProtectedInternal then Protected
        else if local == Internal then ProtectedAndInternal
        else local
      case Internal =>
        if local == Public || local == ProtectedInternal then Internal
        else if local == Protected then ProtectedAndInternal
        else local
      case ProtectedAndInternal =>
        if local == Public || local == ProtectedInternal || local == Protected || local == Internal then ProtectedAndInternal
        else local
      case Private => Private
  }

  /** The actual access of the last element of a nesting chain, listed from
      the outermost element inward, computed by the pairwise merge one level
      at a time. */
  function ChainAccess(chain: seq<AccessModifierType>): AccessModifierType
    requires |chain| > 0
  {
    if |chain| == 1 then ActualAccess(chain[0], None)
    else ActualAccess(chain[|chain| - 1], Some(ChainAccess(chain[..|chain| - 1])))
  }

  /** The audiences admitted by every level of the chain at once. */
  function CommonDomain(chain: seq<AccessModifierType>): set<Audience> {
    set a | a in Everyone && forall i :: 0 <= i < |chain| ==> a in Domain(chain[i])
  }

  /** Merging level by level gives the same result as intersecting every
      level's domain directly: the merge is associative down a chain. */
  lemma {:induction false} ChainAccessIsCommonDomain(chain: seq<AccessModifierType>)
    requires |chain| > 0
    ensures Domain(ChainAccess(chain)) == CommonDomain(chain)
  {
    var n := |chain|;
    if n == 1 {
      assert forall a :: a in CommonDomain(chain) <==> a in Domain(chain[0]);
    } else {
      var prefix := chain[..n - 1];
      ChainAccessIsCommonDomain(prefix);
      forall a | a in Everyone
        ensures a in CommonDomain(chain) <==> a in CommonDomain(prefix) && a in Domain(chain[n - 1])
      {
        if a in CommonDomain(prefix) && a in Domain(chain[n - 1]) {
          forall i | 0 <= i < n ensures a in Domain(chain[i]) {
            if i < n - 1 { assert chain[i] == prefix[i]; }
          }
        }
        if a in CommonDomain(chain) {
          forall i | 0 <= i < n - 1 ensures a in Domain(prefix[i]) {
            assert prefix[i] == chain[i];
          }
        }
      }
    }
  }

  /** The merge rules one parent level at a time, as Element.cs lists them;
      each follows from the domain intersection above. */
  lemma ActualAccessRules(local: AccessModifierType, parent: AccessModifierType)
    ensures local == Private ==> ActualAccess(local, Some(parent)) == Private
    ensures parent == Public ==> ActualAccess(local, Some(parent)) == local
    ensures parent == ProtectedInternal ==>
      ActualAccess(local, Some(parent)) == if local == Public then ProtectedInternal else local
    ensures parent == Protected && (local == Public || local == ProtectedInternal) ==>
      ActualAccess(local, Some(parent)) == Protected
    ensures parent == Protected && local == Internal ==> ActualAccess(local, Some(parent)) == ProtectedAndInternal
    ensures parent == Internal && (local == Public || local == ProtectedInternal) ==>
      ActualAccess(local, Some(parent)) == Internal
    ensures parent == Internal && local == Protected ==> ActualAccess(local, Some(parent)) == ProtectedAndInternal
    ensures parent == ProtectedAndInternal && local != Private ==>
      ActualAccess(local, Some(parent)) == ProtectedAndInternal
    ensures parent == Private ==> ActualAccess(local, Some(parent)) == Private
  {
  }
}
