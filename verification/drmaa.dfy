/** The backend-agnostic DRMAA2 records the tracker consumes and produces:
    the job template it translates, the job states it reports and the job
    info it projects. Only the fields the translation reads or writes are kept. */
module Drmaa {
  import opened Common

  /** A DRMAA2 job template. `stageInFiles` and `extensionList` are Go maps, so
      nil (`None`) is distinct from an empty map. */
  datatype JobTemplate = JobTemplate(
    remoteCommand: string,
    args: seq<string>,
    jobCategory: string,
    workingDirectory: string,
    minSlots: Int64,
    maxSlots: Int64,
    stageInFiles: Option<map<string, string>>,
    extensionList: Option<map<string, string>>)

  /** The zero-valued template Go's `var jt drmaa2interface.JobTemplate` declares. */
  const EmptyTemplate: JobTemplate :=
    JobTemplate("", [], "", "", 0, 0, None, None)

  datatype JobState =
    | Unset | Undetermined | Queued | QueuedHeld | Running | Suspended
    | Requeued | RequeuedHeld | Done | Failed

  /** Times are nanoseconds on a common clock; durations are int64 nanoseconds. */
  datatype JobInfo = JobInfo(
    id: string,
    slots: Int64,
    submissionTime: int,
    dispatchTime: int,
    finishTime: int,
    wallclockTime: Int64)
}
