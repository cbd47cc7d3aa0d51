/** The FileSystem custom resource (`apis/v1alpha1/file_system.go`, `types.go`). */
module FileSystems {
  import opened Nilable
  import opened AckTypes
  import opened OrderedTags

  datatype ImportDataRule = ImportDataRule(prefix: Option<string>, sizeLessThan: Option<int64>, trigger: Option<string>)
  datatype ExpirationDataRule = ExpirationDataRule(daysAfterLastAccess: Option<int64>)

  datatype FileSystemSpec = FileSystemSpec(
    bucket: Option<string>, bucketRef: Option<Ref>,
    kmsKeyID: Option<string>, kmsKeyRef: Option<Ref>,
    prefix: Option<string>,
    roleARN: Option<string>, roleRef: Option<Ref>,
    policy: Option<string>,
    importDataRules: Option<seq<ImportDataRule>>,
    expirationDataRules: Option<seq<ExpirationDataRule>>,
    tags: seq<Tag>)

  /** A point in time, in seconds since 1970. */
  type Time = real

  datatype FileSystemStatus = FileSystemStatus(
    metadata: Option<ResourceMetadata>,
    creationTime: Option<Time>,
    fileSystemID: Option<string>,
    name: Option<string>,
    ownerID: Option<string>,
    state: Option<string>,
    statusMessage: Option<string>,
    latestVersionNumber: Option<int64>)

  const AVAILABLE := "available"
  const ERROR := "error"

  class FileSystem {
    const namespace: string
    var spec: FileSystemSpec
    var status: FileSystemStatus
    var conditions: seq<Condition>

    constructor (namespace: string, spec: FileSystemSpec, status: FileSystemStatus, conditions: seq<Condition>)
      ensures this.namespace == namespace && this.spec == spec && this.status == status && this.conditions == conditions
    {
      this.namespace, this.spec, this.status, this.conditions := namespace, spec, status, conditions;
    }

    method DeepCopy() returns (ko: FileSystem)
      ensures fresh(ko) && ko.namespace == namespace && ko.spec == spec && ko.status == status
      ensures AllDistinct(ko.conditions) && forall i :: 0 <= i < |ko.conditions| ==> fresh(ko.conditions[i])
      ensures Values(ko.conditions) == Values(conditions)
    {
      var copy := DeepCopyConditions(conditions);
      ko := new FileSystem(namespace, spec, status, copy);
    }
  }
}
