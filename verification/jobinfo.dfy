/** Reading a job's accounting back: the fetched job is projected onto a
    DRMAA2 job info. Times are nanoseconds on one clock. */
module Info {
  import opened Common
  import opened Drmaa
  import opened MpiJob
  import opened Synthesizer

  /** A job the projection can read: the code dereferences both times, the
      slots per worker and the worker replica count without a nil check. */
  predicate Projectable(job: MPIJob) {
    && job.status.startTime.Some?
    && job.status.completionTime.Some?
    && job.spec.slotsPerWorker.Some?
    && job.spec.worker.replicas.Some?
  }

  /** Go's `JobInfoFromMPIJob`. The slot count is the product of two int32
      values taken in int32, so it wraps before it is widened; the wallclock
      time is a `time.Duration` difference, which saturates at the int64 range. */
  function JobInfoFromMPIJob(job: MPIJob): (r: JobInfo)
    requires Projectable(job)
    ensures r.id == job.name
    ensures IsInt32(r.slots)
    ensures (r.slots - job.spec.slotsPerWorker.value * job.spec.worker.replicas.value) % 0x1_0000_0000 == 0
    ensures IsInt32(job.spec.slotsPerWorker.value * job.spec.worker.replicas.value) ==>
              r.slots == job.spec.slotsPerWorker.value * job.spec.worker.replicas.value
    ensures r.submissionTime == r.dispatchTime == job.status.startTime.value
    ensures r.finishTime == job.status.completionTime.value
    ensures IsInt64(r.finishTime - r.submissionTime) ==> r.submissionTime + r.wallclockTime == r.finishTime
    ensures r.finishTime >= r.submissionTime <==> r.wallclockTime >= 0
    ensures r.finishTime - r.submissionTime > Int64Max ==> r.wallclockTime == Int64Max
    ensures r.finishTime - r.submissionTime < Int64Min ==> r.wallclockTime == Int64Min
  {
    var start := job.status.startTime.value;
    var finish := job.status.completionTime.value;
    JobInfo(
      job.name,
      WrapInt32(job.spec.slotsPerWorker.value * job.spec.worker.replicas.value),
      start, start, finish,
      SaturateInt64(finish - start))
  }

  /** Go's `GetJobInfo` with the cluster fetch as the input: a fetch error
      passes through, a fetched job is projected. */
  function GetJobInfo(fetched: Result<MPIJob>): (r: Result<JobInfo>)
    requires fetched.Ok? ==> Projectable(fetched.value)
    ensures r.Err? <==> fetched.Err?
    ensures fetched.Err? ==> r.msg == fetched.msg
    ensures r.Ok? ==> r.value.id == fetched.value.name
    ensures fetched.Ok? ==> r == Ok(JobInfoFromMPIJob(fetched.value))
  {
    match fetched
    case Err(msg) => Err(msg)
    case Ok(job) => Ok(JobInfoFromMPIJob(job))
  }

  /** A job created from a converted template reports as many slots as the
      template asked for: slots per worker times the larger slot count, when
      both and their product fit in 32 bits. */
  lemma InfoOfConvertedJob(jt: JobTemplate, order: seq<string>, name: string, status: JobStatus)
    requires jt.stageInFiles.Some? ==> VolumeCodec.Enumerates(order, jt.stageInFiles.value)
    requires ConvertJobTemplateToMPIJob(jt, order).Ok?
    requires status.startTime.Some? && status.completionTime.Some?
    requires IsInt32(WorkerReplicas(jt))
    requires IsInt32(Extensions.GetSlotsPerWorkerExtension(jt) * WorkerReplicas(jt))
    ensures var job := MPIJob(name, ConvertJobTemplateToMPIJob(jt, order).value, status);
            && Projectable(job)
            && JobInfoFromMPIJob(job).slots == Extensions.GetSlotsPerWorkerExtension(jt) * WorkerReplicas(jt)
  {
  }
}
