/** Reading a job's state back: the operator's last recorded condition is
    classified into a DRMAA2 job state. */
module Describe {
  import opened Common
  import opened Drmaa
  import opened MpiJob

  const JobCreated: string := "Created"
  const JobRunning: string := "Running"
  const JobRestarting: string := "Restarting"
  const JobSucceeded: string := "Succeeded"
  const JobFailed: string := "Failed"

  /** Go's `(JobState, substate, error)` triple. */
  datatype StateReport = StateReport(state: JobState, substate: string, error: Option<string>)

  /** The condition type that stands for each reportable state: the table
      the classifier inverts. */
  function ConditionTypeOf(s: JobState): Option<string> {
    match s
    case Queued => Some(JobCreated)
    case Running => Some(JobRunning)
    case Requeued => Some(JobRestarting)
    case Done => Some(JobSucceeded)
    case Failed => Some(JobFailed)
    case _ => None
  }

  /** Go's `JobStateFromCondition`: total, never an error, never a substate.
      A state other than `Undetermined` is reported exactly when the
      condition's type is the one the table gives for that state. */
  function JobStateFromCondition(c: JobCondition): (r: StateReport)
    ensures r.substate == "" && r.error.None?
    ensures r.state != Undetermined ==> ConditionTypeOf(r.state) == Some(c.conditionType)
    ensures r.state == Undetermined <==> c.conditionType !in {JobCreated, JobRunning, JobRestarting, JobSucceeded, JobFailed}
  {
    var t := c.conditionType;
    if t == JobCreated then StateReport(Queued, "", None)
    else if t == JobRunning then StateReport(Running, "", None)
    else if t == JobRestarting then StateReport(Requeued, "", None)
    else if t == JobSucceeded then StateReport(Done, "", None)
    else if t == JobFailed then StateReport(Failed, "", None)
    else StateReport(Undetermined, "", None)
  }

  /** The classifier inverts the table: the condition type listed for a
      state is classified as that state. */
  lemma ClassifierInvertsTable(s: JobState)
    requires ConditionTypeOf(s).Some?
    ensures JobStateFromCondition(JobCondition(ConditionTypeOf(s).value)).state == s
  {
  }

  /** Only the five listed states are ever reported, besides `Undetermined`. */
  lemma ReportedStates(c: JobCondition)
    ensures JobStateFromCondition(c).state in {Queued, Running, Requeued, Done, Failed, Undetermined}
  {
  }

  /** Go's `GetJobState` with the cluster fetch as the input `fetched`: a
      fetch error is passed through beside `Undetermined`; otherwise the
      last condition decides. The code indexes the last condition without a
      check, so a fetched job must have at least one. */
  function GetJobState(fetched: Result<MPIJob>): (r: StateReport)
    requires fetched.Ok? ==> |fetched.value.status.conditions| > 0
    ensures fetched.Err? ==> r == StateReport(Undetermined, "", Some(fetched.msg))
    ensures fetched.Ok? ==> r.error.None? && r.substate == ""
    ensures fetched.Ok? ==> var cs := fetched.value.status.conditions;
              && (r.state != Undetermined ==> ConditionTypeOf(r.state) == Some(cs[|cs| - 1].conditionType))
              && (r.state == Undetermined <==> forall s :: ConditionTypeOf(s) != Some(cs[|cs| - 1].conditionType))
  {
    match fetched
    case Err(msg) => StateReport(Undetermined, "", Some(msg))
    case Ok(job) =>
      var cs := job.status.conditions;
      var r := JobStateFromCondition(cs[|cs| - 1]);
      assert r.state != Undetermined ==> ConditionTypeOf(r.state) == Some(cs[|cs| - 1].conditionType);
      r
  }

  /** Earlier conditions never matter: prepending history leaves the state unchanged. */
  lemma LastConditionDecides(job: MPIJob, earlier: seq<JobCondition>)
    requires |job.status.conditions| > 0
    ensures var longer := job.(status := job.status.(conditions := earlier + job.status.conditions));
            GetJobState(Ok(longer)) == GetJobState(Ok(job))
  {
    var cs := job.status.conditions;
    assert (earlier + cs)[|earlier + cs| - 1] == cs[|cs| - 1];
  }
}
