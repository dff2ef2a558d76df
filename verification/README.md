# CloudHub deploy goal — Dafny model

This project models the decision logic of the Mule AppKit Maven goal
`cloudhub-deploy` (`CloudHubDeployMojo.execute()`), which runs before the goal
hands a packaged Mule application to the CloudHub adapter. With the Maven types
stripped away, one invocation is a pure function of:

- the project's packaging type,
- the list of attached artifacts,
- the optional `muleVersion` parameter,
- the project dependencies as (groupId, artifactId, optional version) triples,
- the project property table,
- and the `workers`, `maxWaitTime` and `properties` parameters.

The function either throws one of two `IllegalArgumentException`s or makes
exactly one `adapter.deploy` call. That call receives the first attached file,
the resolved Mule version, and the three parameters unchanged.

The Mule version is settled by an ordered fallback:

1. the explicit `muleVersion`, if it is set (even to the empty string);
2. otherwise, the version of the first `org.mule:mule-core` dependency. The
   scan stops at that first match. If the match has no version, later matches
   are not consulted;
3. otherwise, the `mule.version` project property, but only when its value is
   the empty string;
4. otherwise, the hard-coded `"3.3.1"`.

Stage 3 is reproduced as the code writes it (`"".equals(...)`): a non-empty
`mule.version` is ignored, and an empty one can reach the adapter as the
version. The comment above that lookup ("What about the 'mule.version'
property?") suggests a set property was meant to be used; the model follows
the equality test as written. An explicit empty `muleVersion` is kept, because
the code only tests for null.

Files:

- `wrappers.dfy` — `Option`, standing for a Java reference that may be null.
- `project.dfy` — artifacts, dependencies, the property table, and Java
  `int`/`long` as bounded newtypes.
- `version_resolution.dfy` — the fallback stages, the imperative dependency
  scan, and a declarative reference relation `VersionChosen` for the result.
- `version_facts.dfy` — one lemma per fallback stage.
- `cloudhub_deploy_mojo.dfy` — `Execute`, the two rejections with their messages, and the deploy call.

## Model

| member | source | states |
|---|---|---|
| VersionResolution.FirstMuleCore | tools/maven/src/main/java/org/mule/tools/maven/plugin/CloudHubDeployMojo.java:75-81 | The index returned, if any, is an `org.mule:mule-core` dependency with no such dependency before it. None means no dependency matches. |
| VersionResolution.DependencyStage | tools/maven/src/main/java/org/mule/tools/maven/plugin/CloudHubDeployMojo.java:74-82 | A version already set is kept. Otherwise the result is the first match's version, which may be unset. With no match the result is unset. |
| VersionResolution.ScanDependencies | tools/maven/src/main/java/org/mule/tools/maven/plugin/CloudHubDeployMojo.java:74-82 | The for/break loop yields the first match's version (or nothing when nothing matches). It keeps a set version, and agrees with the functional stage. |
| VersionResolution.PropertyStage | tools/maven/src/main/java/org/mule/tools/maven/plugin/CloudHubDeployMojo.java:85-91 | A version already set is kept. Otherwise a present `mule.version` of "" is adopted, a present non-empty one leaves the version unset, and anything adopted is "". |
| VersionResolution.DefaultStage | tools/maven/src/main/java/org/mule/tools/maven/plugin/CloudHubDeployMojo.java:93-96 | A version already set is returned as is; an unset one becomes "3.3.1", the constant of line 28. |
| VersionResolution.ResolveVersion | tools/maven/src/main/java/org/mule/tools/maven/plugin/CloudHubDeployMojo.java:73-96 | The result satisfies the reference relation: the first stage that produces a value, or "3.3.1" when none does. |
| VersionFacts.ResolveVersionCharacterised | tools/maven/src/main/java/org/mule/tools/maven/plugin/CloudHubDeployMojo.java:73-96 | A version satisfies the reference relation if and only if it is the resolver's result, so the outcome is unique. |
| VersionFacts.ExplicitVersionWins | tools/maven/src/main/java/org/mule/tools/maven/plugin/CloudHubDeployMojo.java:74-96 | An explicit version, including "", is returned unchanged whatever the dependencies and properties are. |
| VersionFacts.DependencyVersionWins | tools/maven/src/main/java/org/mule/tools/maven/plugin/CloudHubDeployMojo.java:75-81 | With no explicit version, a set version on the first `org.mule:mule-core` dependency is the result. |
| VersionFacts.LaterDependenciesIgnored | tools/maven/src/main/java/org/mule/tools/maven/plugin/CloudHubDeployMojo.java:75-81 | Once the list contains a match, appending any dependencies after it leaves the result unchanged. |
| VersionFacts.UnsetDependencyVersionFallsThrough | tools/maven/src/main/java/org/mule/tools/maven/plugin/CloudHubDeployMojo.java:78-85 | A first match without a version gives the same result as having no dependencies, even when a later match has a version. |
| VersionFacts.EmptyPropertyAdopted | tools/maven/src/main/java/org/mule/tools/maven/plugin/CloudHubDeployMojo.java:85-90 | With no earlier value, a `mule.version` of "" becomes the version. |
| VersionFacts.NonEmptyPropertyIgnored | tools/maven/src/main/java/org/mule/tools/maven/plugin/CloudHubDeployMojo.java:85-96 | With no earlier value, a non-empty `mule.version` yields "3.3.1". The result is the same as if the property were absent. |
| CloudHubDeployMojo.Execute | tools/maven/src/main/java/org/mule/tools/maven/plugin/CloudHubDeployMojo.java:60-101 | A non-"mule" type throws the packaging error. "mule" with nothing attached throws the attachment error. A deploy happens if and only if both checks pass. The deploy gets the first attached file and a version satisfying the reference relation, and gets workers, max wait and properties unchanged. |
| CloudHubDeployMojo.RejectionIgnoresVersionInputs | tools/maven/src/main/java/org/mule/tools/maven/plugin/CloudHubDeployMojo.java:61-68 | A rejection depends only on the packaging type and whether anything is attached. The version inputs and deploy parameters cannot change it. |
| CloudHubDeployMojo.PackagingCheckedBeforeAttachments | tools/maven/src/main/java/org/mule/tools/maven/plugin/CloudHubDeployMojo.java:61-68 | A wrong type with nothing attached reports the packaging error, with its message naming the type. |
| CloudHubDeployMojo.Rejection.Message | tools/maven/src/main/java/org/mule/tools/maven/plugin/CloudHubDeployMojo.java:62-68 | The packaging message starts with "Only supports mule packaging type, not <", ends with ">.", and has the rejected type between the two; the attachment message is the fixed text of line 67. |
| CloudHubDeployMojo.MessageIdentifiesRejection | tools/maven/src/main/java/org/mule/tools/maven/plugin/CloudHubDeployMojo.java:62-68 | Two rejections with the same message are the same rejection, so the message names both the error and the rejected type. |
| CloudHubDeployMojo.LaterAttachmentsIgnored | tools/maven/src/main/java/org/mule/tools/maven/plugin/CloudHubDeployMojo.java:70-70 | Appending attached artifacts after the first leaves the outcome unchanged. |
| CloudHubDeployMojo.DeployedVersionDependsOnlyOnVersionInputs | tools/maven/src/main/java/org/mule/tools/maven/plugin/CloudHubDeployMojo.java:73-99 | Two deploying invocations that agree on the explicit version, the dependencies and the project properties deploy the same version, whatever their packaging, attachments, workers, max wait or properties. |
| CloudHubDeployMojo.EmptyPropertyReachesAdapter | tools/maven/src/main/java/org/mule/tools/maven/plugin/CloudHubDeployMojo.java:85-99 | For every invocation that passes validation with no explicit version, no versioned first mule-core dependency and `mule.version` = "", the adapter is called with the empty version. |
| CloudHubDeployMojo.NonEmptyPropertyNotUsed | tools/maven/src/main/java/org/mule/tools/maven/plugin/CloudHubDeployMojo.java:85-99 | For every invocation that passes validation with no explicit version, no versioned first mule-core dependency and a non-empty `mule.version`, the adapter is called with "3.3.1". |

## Left out

- `CloudHubAdapter.deploy` and `createDomainConnection()`: the upload, configure, start and status polling they do is network I/O. Their code (the adapter and `AbstractCloudHubMojo`) is not part of this model. An outcome records the deploy call's arguments instead.
- Maven parameter binding and default values (lines 32-57): the model takes the already-bound values as inputs.
- The `getLog().info` line (line 71): logging only.
- `muleVersion` is a mutable field, so a value resolved in one invocation persists into the next. Only a single invocation is modelled.
- Null packaging type, group id or artifact id: these are plain strings here. The code compares them with `"literal".equals(x)`, so a null behaves like any non-matching string. A null attached file and a null dependency list are not modelled.
- `Properties.getProperty` defaults and non-string values: the property table is a plain string map.
