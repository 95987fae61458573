/** The MPI-operator job the translation produces and later reads back, cut
    down to the fields it touches: one container per role, the role's volumes,
    its restart policy and replica count, plus the job-wide run policy. */
module MpiJob {
  import opened Common
  import opened Quantities

  /** A resource list: resource name to quantity. */
  type ResourceList = map<string, Quantity>

  datatype VolumeMount = VolumeMount(name: string, mountPath: string, readOnly: bool)

  datatype KeyToPath = KeyToPath(key: string, path: string)

  datatype VolumeSource =
    | ConfigMapSource(configMapName: string, items: seq<KeyToPath>)
    | ClaimSource(claimName: string, claimReadOnly: bool)

  datatype Volume = Volume(name: string, source: VolumeSource)

  /** A container; an empty `command` or `args` stands for Go's nil slice, and
      `runAsUser` is the security context's user when one is attached. */
  datatype Container = Container(
    name: string,
    image: string,
    command: seq<string>,
    args: seq<string>,
    workingDir: string,
    requests: Option<ResourceList>,
    limits: Option<ResourceList>,
    runAsUser: Option<Int64>,
    volumeMounts: seq<VolumeMount>)

  datatype RestartPolicy = Always | OnFailure | Never | ExitCode

  datatype CleanPodPolicy = CleanAll | CleanRunning | CleanNone

  datatype ReplicaSpec = ReplicaSpec(
    restartPolicy: RestartPolicy,
    replicas: Option<Int32>,
    container: Container,
    volumes: seq<Volume>)

  datatype MPIJobSpec = MPIJobSpec(
    backoffLimit: Option<Int32>,
    cleanPodPolicy: CleanPodPolicy,
    mpiImplementation: string,
    slotsPerWorker: Option<Int32>,
    sshAuthMountPath: string,
    launcher: ReplicaSpec,
    worker: ReplicaSpec)

  /** A condition the operator records; only its type is read. */
  datatype JobCondition = JobCondition(conditionType: string)

  datatype JobStatus = JobStatus(
    conditions: seq<JobCondition>,
    startTime: Option<int>,
    completionTime: Option<int>)

  /** A job as fetched from the cluster. */
  datatype MPIJob = MPIJob(name: string, spec: MPIJobSpec, status: JobStatus)
}
