/** The `cloudhub-deploy` goal: validate the packaging and the attached
    application, settle the Mule version, and make the one deploy call. The
    call itself (upload, configure, start, poll) belongs to an adapter that is
    not part of this model; an outcome records the arguments it was given. */
module CloudHubDeployMojo {
  import opened Wrappers
  import opened Project
  import opened VersionResolution

  /** The only packaging type the goal accepts. */
  const MuleType: string := "mule"

  /** The start and end of the unsupported-packaging message; the
      rejected type stands between them. */
  const PackagingMessagePrefix: string := "Only supports mule packaging type, not <"
  const PackagingMessageSuffix: string := ">."

  const NoApplicationMessage: string :=
    "No Mule application attached. This probably means `package` phase has not been executed."

  /** The two IllegalArgumentExceptions the goal throws before deploying. */
  datatype Rejection =
    | UnsupportedPackaging(packaging: string)
    | NoApplicationAttached
  {
    /** The exception message; the rejected packaging type can be read back
        from it. */
    function Message(): (r: string)
      ensures UnsupportedPackaging? ==>
        && |r| == |PackagingMessagePrefix| + |packaging| + |PackagingMessageSuffix|
        && r[..|PackagingMessagePrefix|] == PackagingMessagePrefix
        && r[|PackagingMessagePrefix|..|r| - |PackagingMessageSuffix|] == packaging
        && r[|r| - |PackagingMessageSuffix|..] == PackagingMessageSuffix
      ensures NoApplicationAttached? ==> r == NoApplicationMessage
    {
      match this
      case UnsupportedPackaging(t) => PackagingMessagePrefix + t + PackagingMessageSuffix
      case NoApplicationAttached => NoApplicationMessage
    }
  }

  /** Distinct rejections have distinct messages. */
  lemma MessageIdentifiesRejection(e: Rejection, e': Rejection)
    requires e.Message() == e'.Message()
    ensures e == e'
  {
  }

  /** The goal's own `properties` parameter, a map handed to the deploy
      call untouched; distinct from the project's property table. */
  type DeploymentProperties = map<string, string>

  /** The arguments of the single `adapter.deploy` call. */
  datatype DeployCall = DeployCall(
    file: Path,
    muleVersion: string,
    workers: Int32,
    maxWaitTime: Int64,
    properties: Option<DeploymentProperties>)

  /** What one invocation does: throw before deploying, or make one deploy
      call. */
  datatype Outcome = Thrown(error: Rejection) | Deployed(call: DeployCall)

  /** The inputs of one invocation: the project's packaging type, attached
      artifacts, dependencies and properties, and the goal's parameters
      (`muleVersion` is None when it was not configured; `properties` is None
      when the map was not configured). */
  datatype Invocation = Invocation(
    packaging: string,
    attached: seq<Artifact>,
    muleVersion: Option<string>,
    dependencies: seq<Dependency>,
    projectProperties: Properties,
    workers: Int32,
    maxWaitTime: Int64,
    properties: Option<DeploymentProperties>)

  /** `execute()`: the packaging check, then the attachment check, then the
      version fallback, then the deploy call on the first attached file. */
  function Execute(inv: Invocation): (r: Outcome)
    ensures inv.packaging != MuleType ==> r == Thrown(UnsupportedPackaging(inv.packaging))
    ensures inv.packaging == MuleType && |inv.attached| == 0 ==> r == Thrown(NoApplicationAttached)
    ensures r.Deployed? <==> inv.packaging == MuleType && |inv.attached| > 0
    ensures r.Deployed? ==>
      && r.call.file == inv.attached[0].file
      && VersionChosen(inv.muleVersion, inv.dependencies, inv.projectProperties, r.call.muleVersion)
      && r.call.workers == inv.workers
      && r.call.maxWaitTime == inv.maxWaitTime
      && r.call.properties == inv.properties
  {
    if inv.packaging != MuleType then
      Thrown(UnsupportedPackaging(inv.packaging))
    else if |inv.attached| == 0 then
      Thrown(NoApplicationAttached)
    else
      var file := inv.attached[0].file;
      var version := ResolveVersion(inv.muleVersion, inv.dependencies, inv.projectProperties);
      Deployed(DeployCall(file, version, inv.workers, inv.maxWaitTime, inv.properties))
  }

  /** A rejected invocation depends only on the packaging type and the
      attachments: the version inputs and the deploy parameters are never
      looked at. */
  lemma RejectionIgnoresVersionInputs(inv: Invocation, inv': Invocation)
    requires Execute(inv).Thrown?
    requires inv'.packaging == inv.packaging && (|inv'.attached| == 0) == (|inv.attached| == 0)
    ensures Execute(inv') == Execute(inv)
  {
  }

  /** The packaging check comes first: a wrong type is reported as such even
      when nothing is attached. */
  lemma PackagingCheckedBeforeAttachments(inv: Invocation)
    requires inv.packaging != MuleType && |inv.attached| == 0
    ensures Execute(inv) == Thrown(UnsupportedPackaging(inv.packaging))
    ensures Execute(inv).error.Message() == "Only supports mule packaging type, not <" + inv.packaging + ">."
  {
  }

  /** Only the first attached artifact is deployed; the rest never matter. */
  lemma LaterAttachmentsIgnored(inv: Invocation, more: seq<Artifact>)
    requires |inv.attached| > 0
    ensures Execute(inv.(attached := inv.attached + more)) == Execute(inv)
  {
  }

  /** The version handed to the adapter depends only on the version
      inputs: the packaging, the attachments and the deploy parameters do
      not influence it. */
  lemma DeployedVersionDependsOnlyOnVersionInputs(inv: Invocation, inv': Invocation)
    requires Execute(inv).Deployed? && Execute(inv').Deployed?
    requires inv.muleVersion == inv'.muleVersion
    requires inv.dependencies == inv'.dependencies
    requires inv.projectProperties == inv'.projectProperties
    ensures Execute(inv).call.muleVersion == Execute(inv').call.muleVersion
  {
  }

  /** As written, the property stage can hand the adapter an empty version:
      with no explicit version and no versioned first mule-core dependency,
      a `mule.version` of "" is taken over. */
  lemma EmptyPropertyReachesAdapter(inv: Invocation)
    requires inv.packaging == MuleType && |inv.attached| > 0
    requires inv.muleVersion.None?
    requires forall i :: FirstMuleCoreAt(inv.dependencies, i) ==> inv.dependencies[i].version.None?
    requires MuleVersionProperty in inv.projectProperties && inv.projectProperties[MuleVersionProperty] == ""
    ensures Execute(inv).Deployed? && Execute(inv).call.muleVersion == ""
  {
  }

  /** As written, a non-empty `mule.version` is ignored in favour of the
      default whenever no earlier stage produced a version. */
  lemma NonEmptyPropertyNotUsed(inv: Invocation)
    requires inv.packaging == MuleType && |inv.attached| > 0
    requires inv.muleVersion.None?
    requires forall i :: FirstMuleCoreAt(inv.dependencies, i) ==> inv.dependencies[i].version.None?
    requires MuleVersionProperty in inv.projectProperties && inv.projectProperties[MuleVersionProperty] != ""
    ensures Execute(inv).Deployed? && Execute(inv).call.muleVersion == LatestMuleEsbVersion
  {
  }
}
