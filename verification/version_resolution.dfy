/** The three-stage fallback by which the deploy goal settles the Mule runtime
    version: the explicit `muleVersion` parameter, then the first
    `org.mule:mule-core` dependency, then the `mule.version` project property,
    then the hard-coded latest version. */
module VersionResolution {
  import opened Wrappers
  import opened Project

  /** The version used when no stage produced one. */
  const LatestMuleEsbVersion: string := "3.3.1"

  const MuleGroupId: string := "org.mule"
  const MuleCoreArtifactId: string := "mule-core"
  const MuleVersionProperty: string := "mule.version"

  /** True of the runtime-core dependency `org.mule:mule-core`. */
  predicate IsMuleCore(d: Dependency) {
    d.groupId == MuleGroupId && d.artifactId == MuleCoreArtifactId
  }

  /** `i` is the index of the first `org.mule:mule-core` dependency. */
  ghost predicate FirstMuleCoreAt(deps: seq<Dependency>, i: int) {
    && 0 <= i < |deps|
    && IsMuleCore(deps[i])
    && forall j :: 0 <= j < i ==> !IsMuleCore(deps[j])
  }

  /** There is no `org.mule:mule-core` dependency at all. */
  ghost predicate NoMuleCore(deps: seq<Dependency>) {
    forall j :: 0 <= j < |deps| ==> !IsMuleCore(deps[j])
  }

  /** The index of the first `org.mule:mule-core` dependency, if any. */
  function FirstMuleCore(deps: seq<Dependency>): (r: Option<nat>)
    ensures r.Some? ==> FirstMuleCoreAt(deps, r.value)
    ensures r.None? ==> NoMuleCore(deps)
  {
    if |deps| == 0 then None
    else if IsMuleCore(deps[0]) then Some(0)
    else
      match FirstMuleCore(deps[1..])
      case None => None
      case Some(k) => Some(k + 1)
  }

  /** The mule-core dependency scan: when no version is set yet, adopt the version of the first
      `org.mule:mule-core` dependency. That version may itself be unset, in
      which case the stage still produces nothing: later matches are never
      consulted. */
  function DependencyStage(muleVersion: Option<string>, deps: seq<Dependency>): (r: Option<string>)
    ensures muleVersion.Some? ==> r == muleVersion
    ensures muleVersion.None? ==> forall i :: FirstMuleCoreAt(deps, i) ==> r == deps[i].version
    ensures muleVersion.None? && NoMuleCore(deps) ==> r.None?
  {
    if muleVersion.Some? then muleVersion
    else
      match FirstMuleCore(deps)
      case None => None
      case Some(i) => deps[i].version
  }

  /** The dependency scan as the goal writes it: a loop over the
      dependencies that breaks at the first `org.mule:mule-core` entry. */
  method ScanDependencies(muleVersion: Option<string>, deps: seq<Dependency>) returns (v: Option<string>)
    ensures muleVersion.Some? ==> v == muleVersion
    ensures muleVersion.None? && NoMuleCore(deps) ==> v.None?
    ensures muleVersion.None? ==> forall i :: FirstMuleCoreAt(deps, i) ==> v == deps[i].version
    ensures v == DependencyStage(muleVersion, deps)
  {
    v := muleVersion;
    if v.None? {
      var i := 0;
      while i < |deps|
        invariant 0 <= i <= |deps|
        invariant forall j :: 0 <= j < i ==> !IsMuleCore(deps[j])
        invariant v.None?
      {
        if IsMuleCore(deps[i]) {
          v := deps[i].version;
          assert FirstMuleCoreAt(deps, i);
          return;
        }
        i := i + 1;
      }
    }
  }

  /** The `mule.version` property is adopted exactly when it is present and
      equal to the empty string: the goal's test is `"".equals(value)`. */
  predicate PropertyAdopted(props: Properties) {
    var p := GetProperty(props, MuleVersionProperty);
    p.Some? && p.value == ""
  }

  /** The property lookup: when still no version, consult the
      `mule.version` property; as written, only an empty value is taken
      over. */
  function PropertyStage(muleVersion: Option<string>, props: Properties): (r: Option<string>)
    ensures muleVersion.Some? ==> r == muleVersion
    ensures muleVersion.None? && r.Some? ==> r.value == "" && MuleVersionProperty in props
    ensures muleVersion.None? && MuleVersionProperty in props && props[MuleVersionProperty] != "" ==> r.None?
    ensures muleVersion.None? && MuleVersionProperty in props && props[MuleVersionProperty] == "" ==> r == Some("")
  {
    if muleVersion.None? && PropertyAdopted(props) then Some("") else muleVersion
  }

  /** The last resort: fall back to the latest known Mule ESB version. */
  function DefaultStage(muleVersion: Option<string>): (r: string)
    ensures muleVersion.Some? ==> r == muleVersion.value
    ensures muleVersion.None? ==> r == LatestMuleEsbVersion
  {
    muleVersion.GetOr(LatestMuleEsbVersion)
  }

  /** The stage that produced a version before the default, if any. */
  ghost predicate EarlierStageProduces(explicit: Option<string>, deps: seq<Dependency>, props: Properties, v: string) {
    if explicit.Some? then v == explicit.value
    else if exists i :: FirstMuleCoreAt(deps, i) && deps[i].version.Some? then
      forall i :: FirstMuleCoreAt(deps, i) ==> deps[i].version == Some(v)
    else PropertyAdopted(props) && v == ""
  }

  /** No stage before the default produced a version. */
  ghost predicate NoEarlierStage(explicit: Option<string>, deps: seq<Dependency>, props: Properties) {
    && explicit.None?
    && (forall i :: FirstMuleCoreAt(deps, i) ==> deps[i].version.None?)
    && !PropertyAdopted(props)
  }

  /** Declarative reference for the resolved version: the value of the first
      stage that produces one, else the hard-coded default. */
  ghost predicate VersionChosen(explicit: Option<string>, deps: seq<Dependency>, props: Properties, v: string) {
    if NoEarlierStage(explicit, deps, props) then v == LatestMuleEsbVersion
    else EarlierStageProduces(explicit, deps, props, v)
  }

  /** The whole fallback chain, starting from the explicit
      `muleVersion` parameter (None when the parameter was not given). */
  function ResolveVersion(explicit: Option<string>, deps: seq<Dependency>, props: Properties): (r: string)
    ensures VersionChosen(explicit, deps, props, r)
  {
    DefaultStage(PropertyStage(DependencyStage(explicit, deps), props))
  }
}
