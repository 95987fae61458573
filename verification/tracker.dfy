/** The DRMAA2 job tracker front end: job control dispatch, the job list,
    job submission and the kubeconfig lookup. Every call into the cluster is
    an input: the error a delete would return, the jobs a list would return,
    the name a create would return. */
module Tracker {
  import opened Common
  import opened Drmaa
  import opened MpiJob
  import opened VolumeCodec
  import opened Synthesizer

  const ControlSuspend: string := "suspend"
  const ControlResume: string := "resume"
  const ControlHold: string := "hold"
  const ControlRelease: string := "release"
  const ControlTerminate: string := "terminate"

  const ErrUnsupported: string := "unsupported operation"
  const ErrUndefined: string := "undefined job operation"

  /** What a control request did: the job it asked the cluster to delete, if
      any, and the error it returned, if any. */
  datatype ControlOutcome = ControlOutcome(deleted: Option<string>, error: Option<string>)

  /** The tracker's `DeleteJob` given the cluster's answer `clusterErr`:
      success passes through, a failure is wrapped with its own message. */
  function DeleteJob(jobID: string, clusterErr: Option<string>): (r: ControlOutcome)
    ensures r.deleted == Some(jobID)
    ensures r.error.None? <==> clusterErr.None?
    ensures r.error.Some? ==> r.error.value == "failed to delete job: " + clusterErr.value + "\n"
  {
    ControlOutcome(Some(jobID), if clusterErr.None? then None else Some("failed to delete job: " + clusterErr.value + "\n"))
  }

  /** Go's `JobControl`. Suspending, resuming, holding and releasing are
      refused without touching the cluster, terminating is a delete, and any
      other action is refused as undefined. Only a terminate whose delete
      succeeds returns no error. */
  function JobControl(jobID: string, action: string, clusterErr: Option<string>): (r: ControlOutcome)
    ensures action in {ControlSuspend, ControlResume, ControlHold, ControlRelease} ==>
              r == ControlOutcome(None, Some(ErrUnsupported))
    ensures action == ControlTerminate ==> r == DeleteJob(jobID, clusterErr)
    ensures action !in {ControlSuspend, ControlResume, ControlHold, ControlRelease, ControlTerminate} ==>
              r == ControlOutcome(None, Some(ErrUndefined))
    ensures r.deleted.Some? <==> action == ControlTerminate
    ensures r.error.None? <==> action == ControlTerminate && clusterErr.None?
  {
    if action == ControlSuspend || action == ControlResume || action == ControlHold || action == ControlRelease then
      ControlOutcome(None, Some(ErrUnsupported))
    else if action == ControlTerminate then
      DeleteJob(jobID, clusterErr)
    else
      ControlOutcome(None, Some(ErrUndefined))
  }

  /** Go's `ListJobs` on the tracker, with the cluster's answer `listed`. The
      name slice is created with length n and the names are then appended to
      it, so n jobs give 2n entries: n empty ones, then the names in order. */
  method ListJobs(listed: Result<seq<MPIJob>>) returns (names: seq<string>, err: Option<string>)
    ensures err.Some? <==> listed.Err?
    ensures listed.Err? ==> names == [] && err.value == "failed to list MPIOperator jobs: " + listed.msg + "\n"
    ensures listed.Ok? ==> |names| == 2 * |listed.value|
    ensures listed.Ok? ==> forall k | 0 <= k < |listed.value| :: names[k] == ""
    ensures listed.Ok? ==> forall k | 0 <= k < |listed.value| :: names[|listed.value| + k] == listed.value[k].name
  {
    if listed.Err? {
      return [], Some("failed to list MPIOperator jobs: " + listed.msg + "\n");
    }
    var jobs := listed.value;
    names := seq(|jobs|, _ => "");
    var i := 0;
    while i < |jobs|
      invariant 0 <= i <= |jobs|
      invariant |names| == |jobs| + i
      invariant forall k | 0 <= k < |jobs| :: names[k] == ""
      invariant forall k | 0 <= k < i :: names[|jobs| + k] == jobs[k].name
    {
      names := names + [jobs[i].name];
      i := i + 1;
    }
    err := None;
  }

  /** The list the loop evidently means to build: one name per job, in order. */
  method ListJobIDs(listed: Result<seq<MPIJob>>) returns (names: seq<string>, err: Option<string>)
    ensures err.Some? <==> listed.Err?
    ensures listed.Err? ==> names == [] && err.value == "failed to list MPIOperator jobs: " + listed.msg + "\n"
    ensures listed.Ok? ==> |names| == |listed.value|
    ensures listed.Ok? ==> forall k | 0 <= k < |listed.value| :: names[k] == listed.value[k].name
  {
    if listed.Err? {
      return [], Some("failed to list MPIOperator jobs: " + listed.msg + "\n");
    }
    var jobs := listed.value;
    names := [];
    var i := 0;
    while i < |jobs|
      invariant 0 <= i <= |jobs|
      invariant |names| == i
      invariant forall k | 0 <= k < i :: names[k] == jobs[k].name
    {
      names := names + [jobs[i].name];
      i := i + 1;
    }
    err := None;
  }

  /** One listed job shows the discrepancy: the loop as written reports an
      empty job ID ahead of the real one. */
  method ListJobsPadsWithEmptyIDs(job: MPIJob) returns (asWritten: seq<string>, intended: seq<string>)
    ensures asWritten == ["", job.name]
    ensures intended == [job.name]
    ensures asWritten != intended
  {
    var e1, e2;
    asWritten, e1 := ListJobs(Ok([job]));
    intended, e2 := ListJobIDs(Ok([job]));
    assert asWritten[|[job]| + 0] == [job][0].name;
    assert |asWritten| == 2 && asWritten[0] == "" && asWritten[1] == job.name;
  }

  /** The kubeconfig path: the argument when given, otherwise `KUBECONFIG`
      when set, otherwise the per-user default under `HOME`. */
  function ResolveKubeconfigPath(arg: string, kubeconfigEnv: string, homeEnv: string): (r: string)
    ensures r != ""
    ensures arg != "" ==> r == arg
    ensures arg == "" && kubeconfigEnv != "" ==> r == kubeconfigEnv
    ensures arg == "" && kubeconfigEnv == "" ==> r == homeEnv + "/.kube/config"
  {
    if arg != "" then arg
    else if kubeconfigEnv != "" then kubeconfigEnv
    else homeEnv + "/.kube/config"
  }

  /** Resolving an already resolved path changes nothing, whatever the environment. */
  lemma ResolveIdempotent(arg: string, kubeconfigEnv: string, homeEnv: string, env2: string, home2: string)
    ensures var p := ResolveKubeconfigPath(arg, kubeconfigEnv, homeEnv);
            ResolveKubeconfigPath(p, env2, home2) == p
  {
  }

  /** Go's `ListJobCategories`: every launcher image is accepted, so the list is always empty. */
  function ListJobCategories(): (r: (seq<string>, Option<string>))
    ensures |r.0| == 0 && r.1.None?
  {
    ([], None)
  }

  /** Go's `AddJob` with the cluster's answer `created` (the created job's
      name, or the create error): conversion errors and create errors are
      each wrapped with their own message; otherwise the job ID is the name. */
  function AddJob(jt: JobTemplate, order: seq<string>, created: Result<string>): (r: Result<string>)
    requires jt.stageInFiles.Some? ==> Enumerates(order, jt.stageInFiles.value)
    ensures r.Ok? <==> ConvertJobTemplateToMPIJob(jt, order).Ok? && created.Ok?
    ensures r.Ok? ==> r.value == created.value
    ensures ConvertJobTemplateToMPIJob(jt, order).Err? ==>
              r == Err("failed to convert DRMAA2 job template to MPI job: " + ConvertJobTemplateToMPIJob(jt, order).msg + "\n")
    ensures ConvertJobTemplateToMPIJob(jt, order).Ok? && created.Err? ==>
              r == Err("failed to create job: " + created.msg + "\n")
  {
    match ConvertJobTemplateToMPIJob(jt, order)
    case Err(msg) => Err("failed to convert DRMAA2 job template to MPI job: " + msg + "\n")
    case Ok(_) =>
      match created
      case Err(msg) => Err("failed to create job: " + msg + "\n")
      case Ok(name) => Ok(name)
  }

  /** A template without a launcher image is never submitted. */
  lemma AddJobRejectsMissingImage(jt: JobTemplate, order: seq<string>, created: Result<string>)
    requires jt.stageInFiles.Some? ==> Enumerates(order, jt.stageInFiles.value)
    requires jt.jobCategory == ""
    ensures AddJob(jt, order, created) == Err("failed to convert DRMAA2 job template to MPI job: " + ErrJobCategory + "\n")
  {
  }
}
