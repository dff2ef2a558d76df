/** The parts of the Maven project model that the deploy goal reads, stripped
    of the Maven types: artifacts, dependencies and the property table. */
module Project {
  import opened Wrappers

  /** A Java `int`, the type of the `workers` parameter. */
  newtype Int32 = x: int | -0x8000_0000 <= x < 0x8000_0000

  /** A Java `long`, the type of the `maxWaitTime` parameter. */
  newtype Int64 = x: int | -0x8000_0000_0000_0000 <= x < 0x8000_0000_0000_0000

  /** The file of an artifact, identified by its path. */
  type Path = string

  /** An attached artifact; the goal only reads its file. */
  datatype Artifact = Artifact(file: Path)

  /** A declared dependency: group id, artifact id and a version that may be
      unset (null). */
  datatype Dependency = Dependency(groupId: string, artifactId: string, version: Option<string>)

  /** The project's property table, string keys to string values. */
  type Properties = map<string, string>

  /** Property lookup: an absent key yields null. */
  function GetProperty(props: Properties, key: string): Option<string>
  {
    if key in props then Some(props[key]) else None
  }
}
