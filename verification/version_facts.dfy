/** Properties of the version fallback chain, one per stage. */
module VersionFacts {
  import opened Wrappers
  import opened Project
  import opened VersionResolution

  /** The reference relation picks exactly one version, so the resolver is
      characterised by it in both directions. */
  lemma ResolveVersionCharacterised(explicit: Option<string>, deps: seq<Dependency>, props: Properties, v: string)
    ensures VersionChosen(explicit, deps, props, v) <==> v == ResolveVersion(explicit, deps, props)
  {
  }

  /** A given `muleVersion` (even the empty string) is used unchanged; the
      dependencies and properties are not consulted. */
  lemma ExplicitVersionWins(v: string, deps: seq<Dependency>, props: Properties, deps': seq<Dependency>, props': Properties)
    ensures ResolveVersion(Some(v), deps, props) == v
    ensures ResolveVersion(Some(v), deps, props) == ResolveVersion(Some(v), deps', props')
  {
  }

  /** Without an explicit version, the first `org.mule:mule-core`
      dependency's version wins when it is set. */
  lemma DependencyVersionWins(deps: seq<Dependency>, props: Properties, i: int)
    requires FirstMuleCoreAt(deps, i) && deps[i].version.Some?
    ensures ResolveVersion(None, deps, props) == deps[i].version.value
  {
  }

  /** Only the first match is consulted: appending dependencies after a
      match, matching or not, does not change the outcome. */
  lemma LaterDependenciesIgnored(deps: seq<Dependency>, rest: seq<Dependency>, props: Properties, i: int)
    requires FirstMuleCoreAt(deps, i)
    ensures ResolveVersion(None, deps + rest, props) == ResolveVersion(None, deps, props)
  {
    assert FirstMuleCoreAt(deps + rest, i);
  }

  /** A first match whose version is unset falls through to the property
      stage as if there were no dependencies at all, even when a later
      match carries a version. */
  lemma UnsetDependencyVersionFallsThrough(deps: seq<Dependency>, props: Properties, i: int)
    requires FirstMuleCoreAt(deps, i) && deps[i].version.None?
    ensures ResolveVersion(None, deps, props) == ResolveVersion(None, [], props)
  {
  }

  /** The property stage takes `mule.version` over when its value is the
      empty string. */
  lemma EmptyPropertyAdopted(deps: seq<Dependency>, props: Properties)
    requires forall i :: FirstMuleCoreAt(deps, i) ==> deps[i].version.None?
    requires MuleVersionProperty in props && props[MuleVersionProperty] == ""
    ensures ResolveVersion(None, deps, props) == ""
  {
  }

  /** A non-empty `mule.version` property is ignored: the result is the
      hard-coded default, whatever the property says. */
  lemma NonEmptyPropertyIgnored(deps: seq<Dependency>, props: Properties)
    requires forall i :: FirstMuleCoreAt(deps, i) ==> deps[i].version.None?
    requires MuleVersionProperty in props && props[MuleVersionProperty] != ""
    ensures ResolveVersion(None, deps, props) == LatestMuleEsbVersion
    ensures ResolveVersion(None, deps, props) == ResolveVersion(None, deps, props - {MuleVersionProperty})
  {
  }
}
