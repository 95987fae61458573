/** Concrete templates from the repository's own test suite, translated
    through the model, with the results that suite expects. */
module Scenarios {
  import opened Common
  import opened Strings
  import opened Drmaa
  import opened MpiJob
  import opened VolumeCodec
  import opened Extensions
  import opened Synthesizer

  /** The zero-valued template is rejected, for the missing image. */
  lemma UnsetTemplateRejected()
    ensures ConvertJobTemplateToMPIJob(EmptyTemplate, []) == Err(ErrJobCategory)
  {
  }

  /** An image and a slot count are all a template needs; the remote command
      becomes the launcher's command and the arguments follow it. */
  lemma MinimalTemplateAccepted()
    ensures var jt := JobTemplate("echo", ["hello", "world"], "mpi-launcher", "", 2, 0, None, None);
            var r := ConvertJobTemplateToMPIJob(jt, []);
            && r.Ok?
            && r.value.launcher.container.command == ["echo"]
            && r.value.launcher.container.args == ["hello", "world"]
            && r.value.worker.replicas == Some(2)
            && r.value.worker.container.image == "mpi-launcher"
  {
  }

  const PiWorkerCommand: seq<string> := ["/usr/sbin/sshd", "-De", "-f", "/home/mpiuser/.sshd_config"]

  /** The Pi example template: launcher image and arguments, the worker's sshd
      command line and the shared user, after four setters. */
  function PiTemplate(): JobTemplate {
    var jt := JobTemplate("", ["mpirun", "-n", "2", "hostname"], "mpioperator/mpi-pi:intel", "", 2, 2, None, None);
    var jt1 := SetSSHMountPathExtension(jt, "/home/mpiuser/.ssh");
    var jt2 := SetWorkerCommandExtension(jt1, PiWorkerCommand);
    var jt3 := SetRunAsUserExtension(jt2, 1000);
    SetSlotsPerWorkerExtension(jt3, 1)
  }

  /** No token of the Pi worker command holds the command separator. */
  lemma PiTokensFree()
    ensures forall k | 0 <= k < |PiWorkerCommand| :: !Contains(PiWorkerCommand[k], CommandSeparator)
  {
    AbsentFirstChar("/usr/sbin/sshd", CommandSeparator);
    AbsentFirstChar("-De", CommandSeparator);
    AbsentFirstChar("-f", CommandSeparator);
    AbsentFirstChar("/home/mpiuser/.sshd_config", CommandSeparator);
  }

  /** The Pi example's settings read back as written. */
  lemma PiSettings()
    ensures GetWorkerCommandExtension(PiTemplate()) == PiWorkerCommand
    ensures GetRunAsUserExtension(PiTemplate()) == 1000
    ensures GetSSHMountPathExtension(PiTemplate()) == "/home/mpiuser/.ssh"
    ensures GetSlotsPerWorkerExtension(PiTemplate()) == 1
  {
    var jt := JobTemplate("", ["mpirun", "-n", "2", "hostname"], "mpioperator/mpi-pi:intel", "", 2, 2, None, None);
    var jt1 := SetSSHMountPathExtension(jt, "/home/mpiuser/.ssh");
    var jt2 := SetWorkerCommandExtension(jt1, PiWorkerCommand);
    var jt3 := SetRunAsUserExtension(jt2, 1000);
    var jt4 := SetSlotsPerWorkerExtension(jt3, 1);
    PiTokensFree();
    WorkerCommandRoundTrip(jt1, PiWorkerCommand);
    assert Lookup(jt4.extensionList, ExtensionWorkerCommand) == Lookup(jt2.extensionList, ExtensionWorkerCommand);
    assert Lookup(jt4.extensionList, ExtensionRunAsUser) == Lookup(jt3.extensionList, ExtensionRunAsUser);
    assert Lookup(jt4.extensionList, ExtensionSSHMountPath) == Lookup(jt1.extensionList, ExtensionSSHMountPath);
    SlotsPerWorkerRoundTrip(jt3, 1);
  }

  /** The Pi example converts: the launcher runs the image's entrypoint with
      the given arguments, the worker runs sshd, and both run as user 1000. */
  lemma PiJobConverts()
    ensures var r := ConvertJobTemplateToMPIJob(PiTemplate(), []);
            && r.Ok?
            && r.value.launcher.container.image == "mpioperator/mpi-pi:intel"
            && r.value.launcher.container.command == []
            && r.value.launcher.container.args == ["mpirun", "-n", "2", "hostname"]
            && r.value.launcher.container.runAsUser == Some(1000)
            && r.value.worker.container.runAsUser == Some(1000)
            && r.value.worker.container.command == ["/usr/sbin/sshd"]
            && r.value.worker.container.args == ["-De", "-f", "/home/mpiuser/.sshd_config"]
            && r.value.sshAuthMountPath == "/home/mpiuser/.ssh"
            && r.value.slotsPerWorker == Some(1)
            && r.value.worker.replicas == Some(2)
  {
    PiSettings();
  }
  /** Any setting other than the worker command leaves the worker with a
      command of one empty token rather than none: the getter reads the
      missing entry as `[""]`, and only lists of two or more tokens have an
      empty command dropped. */
  lemma OtherSettingGivesEmptyWorkerCommand(user: Int64)
    ensures var jt := SetRunAsUserExtension(JobTemplate("", [], "mpi-launcher", "", 2, 0, None, None), user);
            var r := ConvertJobTemplateToMPIJob(jt, []);
            && r.Ok?
            && r.value.worker.container.command == [""]
            && r.value.worker.container.args == []
  {
    var jt := SetRunAsUserExtension(JobTemplate("", [], "mpi-launcher", "", 2, 0, None, None), user);
    assert jt.extensionList.value.Keys == {ExtensionRunAsUser};
    assert ExtensionWorkerCommand != ExtensionRunAsUser;
    assert GetWorkerCommandExtension(jt) == [""];
    var r := ConvertJobTemplateToMPIJob(jt, []);
    assert r.value == AssembleSpec(jt, []);
  }
}
