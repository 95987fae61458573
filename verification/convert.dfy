/** The job spec synthesizer: a DRMAA2 job template becomes an MPI-operator
    job spec with a launcher role and a replicated worker role. The stage-in
    map is walked in an arbitrary but fixed key order `order`. The synthetic
    volume names `volume-<i>` are positions in the decoded list: entries
    without a colon take no position. */
module Synthesizer {
  import opened Common
  import opened Strings
  import opened Decimal
  import opened Drmaa
  import opened MpiJob
  import opened VolumeCodec
  import opened Extensions

  const ErrJobCategory: string := "JobCategory is required. It specifies the MPI launcher image"
  const ErrSlotCount: string := "MinSlots or MaxSlots is required. It specifies the number of workers"

  /** The number of workers: the larger of the two slot counts. */
  function WorkerReplicas(jt: JobTemplate): (r: Int64)
    ensures r >= jt.minSlots && r >= jt.maxSlots
    ensures r == jt.minSlots || r == jt.maxSlots
  {
    if jt.maxSlots > jt.minSlots then jt.maxSlots else jt.minSlots
  }

  // ---------------------------------------------------------------------------
  // Commands

  datatype CommandLine = CommandLine(command: seq<string>, args: seq<string>)

  /** The launcher runs the remote command, or the image's entrypoint when it is empty. */
  function LauncherCommand(jt: JobTemplate): (r: seq<string>)
    ensures |r| <= 1
    ensures r == [] <==> jt.remoteCommand == ""
    ensures r != [] ==> r[0] == jt.remoteCommand
  {
    if jt.remoteCommand == "" then [] else [jt.remoteCommand]
  }

  /** Worker command and arguments from the decoded tokens: with more than one
      token the first becomes the command (none when it is empty) and the rest
      the arguments; with at most one token the list is the command as it is. */
  function ResolveWorkerCommand(tokens: seq<string>): (r: CommandLine)
    ensures |tokens| <= 1 ==> r.command == tokens && r.args == []
    ensures |tokens| > 1 ==> r.args == tokens[1..] && |r.command| <= 1
    ensures |tokens| > 1 ==> (r.command == [] <==> tokens[0] == "")
    ensures |tokens| > 1 && tokens[0] != "" ==> r.command + r.args == tokens
  {
    if |tokens| > 1 then
      CommandLine(if tokens[0] == "" then [] else tokens[..1], tokens[1..])
    else CommandLine(tokens, [])
  }

  /** Both containers carry the user only when it is not the `-1` sentinel. */
  function RunAs(user: Int64): (r: Option<Int64>)
    ensures r.Some? <==> user != -1
    ensures r.Some? ==> r.value == user
  {
    if user != -1 then Some(user) else None
  }

  // ---------------------------------------------------------------------------
  // Volumes

  /** The synthetic name of the volume for the i-th decoded mount. */
  function VolumeName(i: nat): string {
    "volume-" + NatToString(i)
  }

  /** Different positions give different volume names. */
  lemma VolumeNameInjective(i: nat, j: nat)
    requires i != j
    ensures VolumeName(i) != VolumeName(j)
  {
    var a := NatToString(i);
    var b := NatToString(j);
    assert VolumeName(i)[7..] == a;
    assert VolumeName(j)[7..] == b;
    assert DigitsValue(a) != DigitsValue(b);
  }

  predicate SupportedType(t: string) {
    t == "configmap" || t == "cm" || t == "pvc"
  }

  /** A config map restricted to one key and path when the name has exactly three colon-separated parts. */
  function ConfigMapItems(parts: seq<string>): (items: seq<KeyToPath>)
    ensures |items| <= 1
    ensures |items| == 1 <==> |parts| == 3
  {
    if |parts| == 3 then [KeyToPath(parts[1], parts[2])] else []
  }

  /** The container mount and pod volume the loop adds for a supported mount at position `i`. */
  function VolumeFor(i: nat, vm: VolumeMountSpec): (p: (VolumeMount, Volume))
    requires SupportedType(vm.volumeType)
    ensures p.0.name == VolumeName(i) && p.1.name == VolumeName(i)
    ensures p.0.mountPath == vm.mountPath && p.0.readOnly == vm.readOnly
  {
    var name := VolumeName(i);
    var mount := VolumeMount(name, vm.mountPath, vm.readOnly);
    if vm.volumeType == "pvc" then
      (mount, Volume(name, ClaimSource(vm.volumeName, vm.readOnly)))
    else
      var parts := Split(vm.volumeName, Colon);
      (mount, Volume(name, ConfigMapSource(parts[0], ConfigMapItems(parts))))
  }

  /** A config-map volume names the map by the text before the first colon,
      and selects one item, keyed by the second part and placed at the third,
      exactly when the name has three colon-separated parts. */
  lemma ConfigMapVolume(i: nat, vm: VolumeMountSpec)
    requires vm.volumeType == "configmap" || vm.volumeType == "cm"
    ensures var src := VolumeFor(i, vm).1.source;
            var parts := Split(vm.volumeName, Colon);
            && src.ConfigMapSource?
            && src.configMapName == parts[0]
            && (|src.items| == 1 <==> |parts| == 3)
            && (|parts| == 3 ==> src.items[0] == KeyToPath(parts[1], parts[2]))
            && (|parts| != 3 ==> src.items == [])
  {
  }

  /** A mount naming a config map by `name:key:path`, none of whose parts
      holds a colon, selects exactly that key and path. */
  lemma ConfigMapItemFromTriple(i: nat, vm: VolumeMountSpec, name: string, key: string, path: string)
    requires vm.volumeType == "configmap" || vm.volumeType == "cm"
    requires ':' !in name && ':' !in key && ':' !in path
    requires vm.volumeName == name + ":" + key + ":" + path
    ensures VolumeFor(i, vm).1.source == ConfigMapSource(name, [KeyToPath(key, path)])
  {
    var parts := [name, key, path];
    ContainsChar(name, ':');
    ContainsChar(key, ':');
    ContainsChar(path, ':');
    JoinCons(key, [path], Colon);
    JoinCons(name, [key, path], Colon);
    assert [name] + [key, path] == parts;
    assert Join(parts, Colon) == vm.volumeName;
    SplitJoin(parts, Colon);
  }

  /** One (mount, volume) pair per supported decoded mount from position `i`
      on, in order: the reference the loop is measured against. */
  function Attached(mounts: seq<VolumeMountSpec>, i: nat): seq<(VolumeMount, Volume)>
    requires i <= |mounts|
    decreases |mounts| - i
  {
    if i == |mounts| then []
    else if SupportedType(mounts[i].volumeType) then [VolumeFor(i, mounts[i])] + Attached(mounts, i + 1)
    else Attached(mounts, i + 1)
  }

  /** Every attached pair comes from a supported mount at or after `i`, and
      its container mount names its own volume. */
  lemma {:induction false} AttachedSound(mounts: seq<VolumeMountSpec>, i: nat)
    requires i <= |mounts|
    ensures forall p | p in Attached(mounts, i) :: p.0.name == p.1.name
    ensures forall p | p in Attached(mounts, i) :: exists j | i <= j < |mounts| ::
              SupportedType(mounts[j].volumeType) && p == VolumeFor(j, mounts[j])
    decreases |mounts| - i
  {
    if i < |mounts| {
      AttachedSound(mounts, i + 1);
    }
  }

  /** Every supported mount at or after `i` is attached. */
  lemma {:induction false} AttachedComplete(mounts: seq<VolumeMountSpec>, i: nat)
    requires i <= |mounts|
    ensures forall j | i <= j < |mounts| && SupportedType(mounts[j].volumeType) ::
              VolumeFor(j, mounts[j]) in Attached(mounts, i)
    decreases |mounts| - i
  {
    if i < |mounts| {
      AttachedComplete(mounts, i + 1);
    }
  }

  predicate DistinctVolumeNames(ps: seq<(VolumeMount, Volume)>) {
    forall k1, k2 | 0 <= k1 < k2 < |ps| :: ps[k1].1.name != ps[k2].1.name
  }

  /** A position before `i` names no volume attached from `i` on. */
  lemma {:induction false} AttachedNamesAfter(mounts: seq<VolumeMountSpec>, i: nat, n: nat)
    requires n < i <= |mounts|
    ensures forall p | p in Attached(mounts, i) :: p.1.name != VolumeName(n)
    decreases |mounts| - i
  {
    if i < |mounts| {
      AttachedNamesAfter(mounts, i + 1, n);
      if SupportedType(mounts[i].volumeType) {
        VolumeNameInjective(n, i);
      }
    }
  }

  lemma DistinctNamesCons(p: (VolumeMount, Volume), rest: seq<(VolumeMount, Volume)>)
    requires DistinctVolumeNames(rest)
    requires forall q | q in rest :: q.1.name != p.1.name
    ensures DistinctVolumeNames([p] + rest)
  {
    var ps := [p] + rest;
    forall k1, k2 | 0 <= k1 < k2 < |ps| ensures ps[k1].1.name != ps[k2].1.name {
      assert ps[k2] == rest[k2 - 1];
      if k1 == 0 {
        assert rest[k2 - 1] in rest;
      } else {
        assert ps[k1] == rest[k1 - 1];
      }
    }
  }

  /** No two attached volumes share a name. */
  lemma {:induction false} AttachedDistinct(mounts: seq<VolumeMountSpec>, i: nat)
    requires i <= |mounts|
    ensures DistinctVolumeNames(Attached(mounts, i))
    decreases |mounts| - i
  {
    if i < |mounts| {
      AttachedDistinct(mounts, i + 1);
      if SupportedType(mounts[i].volumeType) {
        var p := VolumeFor(i, mounts[i]);
        AttachedNamesAfter(mounts, i + 1, i);
        assert Attached(mounts, i) == [p] + Attached(mounts, i + 1);
        DistinctNamesCons(p, Attached(mounts, i + 1));
      }
    }
  }

  /** The container mounts of a pair list, in order. */
  function MountsOf(ps: seq<(VolumeMount, Volume)>): (r: seq<VolumeMount>)
    ensures |r| == |ps| && forall k | 0 <= k < |ps| :: r[k] == ps[k].0
  {
    if |ps| == 0 then [] else [ps[0].0] + MountsOf(ps[1..])
  }

  /** The pod volumes of a pair list, in order. */
  function VolumesOf(ps: seq<(VolumeMount, Volume)>): (r: seq<Volume>)
    ensures |r| == |ps| && forall k | 0 <= k < |ps| :: r[k] == ps[k].1
  {
    if |ps| == 0 then [] else [ps[0].1] + VolumesOf(ps[1..])
  }

  lemma AppendAssoc<T>(a: seq<T>, b: seq<T>, c: seq<T>)
    ensures a + (b + c) == (a + b) + c
  {
  }

  lemma ProjectionsCons(p: (VolumeMount, Volume), rest: seq<(VolumeMount, Volume)>)
    ensures MountsOf([p] + rest) == [p.0] + MountsOf(rest)
    ensures VolumesOf([p] + rest) == [p.1] + VolumesOf(rest)
  {
    assert ([p] + rest)[1..] == rest;
  }

  /** The four lists the loop grows: each container's mounts and each pod's volumes. */
  datatype PodVolumes = PodVolumes(
    launcherMounts: seq<VolumeMount>,
    workerMounts: seq<VolumeMount>,
    launcherVolumes: seq<Volume>,
    workerVolumes: seq<Volume>)

  /** One pass of the loop body. The config-map branch builds the launcher's
      volume list by appending to the worker's; the pvc branch appends to each
      role's own list; any other type adds nothing. */
  function VolumeStep(st: PodVolumes, i: nat, vm: VolumeMountSpec): (st': PodVolumes)
    ensures !SupportedType(vm.volumeType) ==> st' == st
    ensures SupportedType(vm.volumeType) ==>
              && st'.launcherMounts == st.launcherMounts + [VolumeFor(i, vm).0]
              && st'.workerMounts == st.workerMounts + [VolumeFor(i, vm).0]
              && st'.workerVolumes == st.workerVolumes + [VolumeFor(i, vm).1]
    ensures st.launcherVolumes == st.workerVolumes ==> st'.launcherVolumes == st'.workerVolumes
  {
    if vm.volumeType == "configmap" || vm.volumeType == "cm" then
      var p := VolumeFor(i, vm);
      PodVolumes(st.launcherMounts + [p.0], st.workerMounts + [p.0],
                 st.workerVolumes + [p.1], st.workerVolumes + [p.1])
    else if vm.volumeType == "pvc" then
      var p := VolumeFor(i, vm);
      PodVolumes(st.launcherMounts + [p.0], st.workerMounts + [p.0],
                 st.launcherVolumes + [p.1], st.workerVolumes + [p.1])
    else st
  }

  /** The loop from position `i` on. Launcher and worker stay identical, since
      both lists start equal, and they grow by exactly the reference pairs. */
  function VolumeLoop(mounts: seq<VolumeMountSpec>, i: nat, st: PodVolumes): (r: PodVolumes)
    requires i <= |mounts|
    requires st.launcherMounts == st.workerMounts && st.launcherVolumes == st.workerVolumes
    ensures r.launcherMounts == r.workerMounts && r.launcherVolumes == r.workerVolumes
    ensures r.launcherMounts == st.launcherMounts + MountsOf(Attached(mounts, i))
    ensures r.launcherVolumes == st.launcherVolumes + VolumesOf(Attached(mounts, i))
    decreases |mounts| - i
  {
    if i == |mounts| then st
    else
      StepMatchesAttached(st, mounts, i);
      VolumeLoop(mounts, i + 1, VolumeStep(st, i, mounts[i]))
  }

  /** One loop pass keeps the two roles equal and moves exactly the head of
      the reference list from "still to add" to "added". */
  lemma StepMatchesAttached(st: PodVolumes, mounts: seq<VolumeMountSpec>, i: nat)
    requires i < |mounts|
    requires st.launcherMounts == st.workerMounts && st.launcherVolumes == st.workerVolumes
    ensures var st' := VolumeStep(st, i, mounts[i]);
            && st'.launcherMounts == st'.workerMounts && st'.launcherVolumes == st'.workerVolumes
            && st.launcherMounts + MountsOf(Attached(mounts, i)) == st'.launcherMounts + MountsOf(Attached(mounts, i + 1))
            && st.launcherVolumes + VolumesOf(Attached(mounts, i)) == st'.launcherVolumes + VolumesOf(Attached(mounts, i + 1))
  {
    var rest := Attached(mounts, i + 1);
    var st' := VolumeStep(st, i, mounts[i]);
    if SupportedType(mounts[i].volumeType) {
      var p := VolumeFor(i, mounts[i]);
      assert Attached(mounts, i) == [p] + rest;
      assert MountsOf(Attached(mounts, i)) == [p.0] + MountsOf(rest) by {
        ProjectionsCons(p, rest);
      }
      assert VolumesOf(Attached(mounts, i)) == [p.1] + VolumesOf(rest) by {
        ProjectionsCons(p, rest);
      }
      AppendAssoc(st.launcherMounts, [p.0], MountsOf(rest));
      AppendAssoc(st.launcherVolumes, [p.1], VolumesOf(rest));
    } else {
      assert Attached(mounts, i) == rest;
    }
  }

  /** The mounts the loop walks: the decoded stage-in entries, none for a nil map. */
  function DecodedMounts(jt: JobTemplate, order: seq<string>): seq<VolumeMountSpec>
    requires jt.stageInFiles.Some? ==> Enumerates(order, jt.stageInFiles.value)
  {
    GetVolumeMounts(jt, order).GetOr([])
  }

  /** A mount of an unsupported type adds nothing but still uses up its
      position: a supported mount after it gets the next name. */
  lemma SkippedMountKeepsPosition(a: VolumeMountSpec, b: VolumeMountSpec)
    requires !SupportedType(a.volumeType) && SupportedType(b.volumeType)
    ensures Attached([a, b], 0) == [VolumeFor(1, b)]
    ensures VolumeFor(1, b).1.name == "volume-1"
  {
    assert Attached([a, b], 2) == [];
    assert NatToString(1) == "1";
  }

  /** The k-th container mount names the k-th volume, and volume names are distinct. */
  predicate PairedVolumes(mounts: seq<VolumeMount>, vols: seq<Volume>) {
    && |mounts| == |vols|
    && (forall k | 0 <= k < |vols| :: mounts[k].name == vols[k].name)
    && (forall k1, k2 | 0 <= k1 < k2 < |vols| :: vols[k1].name != vols[k2].name)
  }

  /** The reference list pairs each mount with its own, uniquely named volume. */
  lemma AttachedPaired(mounts: seq<VolumeMountSpec>, i: nat)
    requires i <= |mounts|
    ensures PairedVolumes(MountsOf(Attached(mounts, i)), VolumesOf(Attached(mounts, i)))
  {
    var ps := Attached(mounts, i);
    AttachedSound(mounts, i);
    AttachedDistinct(mounts, i);
    assert forall k | 0 <= k < |ps| :: ps[k] in ps;
  }

  /** The loop run over the decoded mounts from empty lists: both roles get
      the reference list's mounts and volumes, each mount naming its own,
      uniquely named volume. */
  function AttachVolumes(jt: JobTemplate, order: seq<string>): (pods: PodVolumes)
    requires jt.stageInFiles.Some? ==> Enumerates(order, jt.stageInFiles.value)
    ensures pods.launcherMounts == pods.workerMounts == MountsOf(Attached(DecodedMounts(jt, order), 0))
    ensures pods.launcherVolumes == pods.workerVolumes == VolumesOf(Attached(DecodedMounts(jt, order), 0))
    ensures PairedVolumes(pods.launcherMounts, pods.launcherVolumes)
  {
    AttachedPaired(DecodedMounts(jt, order), 0);
    VolumeLoop(DecodedMounts(jt, order), 0, PodVolumes([], [], [], []))
  }

  // ---------------------------------------------------------------------------
  // The spec

  /** What every synthesized spec satisfies: the fixed run policy, a single
      launcher and `workers` workers that never restart, and identical volume
      lists on both roles in which every mount names its own, distinct volume. */
  predicate WellShaped(spec: MPIJobSpec) {
    && spec.backoffLimit == Some(0)
    && spec.cleanPodPolicy == CleanRunning
    && spec.launcher.restartPolicy == Never
    && spec.worker.restartPolicy == Never
    && spec.launcher.replicas.None?
    && spec.worker.replicas.Some?
    && spec.slotsPerWorker.Some?
    && spec.launcher.container.name == "launcher"
    && spec.worker.container.name == "worker"
    && spec.launcher.volumes == spec.worker.volumes
    && spec.launcher.container.volumeMounts == spec.worker.container.volumeMounts
    && PairedVolumes(spec.launcher.container.volumeMounts, spec.launcher.volumes)
  }

  /** The spec built for a template that passes validation: the launcher
      runs the template's image and command, the worker its own image (or the
      launcher's) and the decoded worker command line, both share the working
      directory, the user and the volumes, and the run policy is fixed. */
  function AssembleSpec(jt: JobTemplate, order: seq<string>): (spec: MPIJobSpec)
    requires jt.stageInFiles.Some? ==> Enumerates(order, jt.stageInFiles.value)
    ensures WellShaped(spec)
    ensures spec.launcher.container.image == jt.jobCategory
    ensures GetWorkerImageExtension(jt) != "" ==> spec.worker.container.image == GetWorkerImageExtension(jt)
    ensures GetWorkerImageExtension(jt) == "" ==> spec.worker.container.image == jt.jobCategory
    ensures spec.launcher.container.command == LauncherCommand(jt)
    ensures spec.launcher.container.args == jt.args
    ensures CommandLine(spec.worker.container.command, spec.worker.container.args)
              == ResolveWorkerCommand(GetWorkerCommandExtension(jt))
    ensures spec.launcher.container.workingDir == jt.workingDirectory
            && spec.worker.container.workingDir == jt.workingDirectory
    ensures spec.launcher.container.requests == GetLauncherResourceRequestExtension(jt)
            && spec.launcher.container.limits == GetLauncherResourceLimitExtension(jt)
            && spec.worker.container.requests == GetWorkerResourceRequestExtension(jt)
            && spec.worker.container.limits == GetWorkerResourceLimitExtension(jt)
    ensures spec.sshAuthMountPath == GetSSHMountPathExtension(jt)
            && spec.mpiImplementation == GetMPIImplementationExtension(jt)
            && spec.slotsPerWorker == Some(GetSlotsPerWorkerExtension(jt))
    ensures spec.worker.replicas == Some(WrapInt32(WorkerReplicas(jt)))
    ensures IsInt32(WorkerReplicas(jt)) ==> spec.worker.replicas == Some(WorkerReplicas(jt))
    ensures spec.launcher.container.runAsUser == spec.worker.container.runAsUser
    ensures spec.worker.container.runAsUser == RunAs(GetRunAsUserExtension(jt))
    ensures spec.launcher.container.volumeMounts == MountsOf(Attached(DecodedMounts(jt, order), 0))
    ensures spec.launcher.volumes == VolumesOf(Attached(DecodedMounts(jt, order), 0))
  {
    var workerImage := if GetWorkerImageExtension(jt) == "" then jt.jobCategory else GetWorkerImageExtension(jt);
    var worker := ResolveWorkerCommand(GetWorkerCommandExtension(jt));
    var user := RunAs(GetRunAsUserExtension(jt));
    var pods := AttachVolumes(jt, order);
    var launcherContainer := Container(
      "launcher", jt.jobCategory, LauncherCommand(jt), jt.args, jt.workingDirectory,
      GetLauncherResourceRequestExtension(jt), GetLauncherResourceLimitExtension(jt),
      user, pods.launcherMounts);
    var workerContainer := Container(
      "worker", workerImage, worker.command, worker.args, jt.workingDirectory,
      GetWorkerResourceRequestExtension(jt), GetWorkerResourceLimitExtension(jt),
      user, pods.workerMounts);
    MPIJobSpec(
      Some(0), CleanRunning,
      GetMPIImplementationExtension(jt),
      Some(GetSlotsPerWorkerExtension(jt)),
      GetSSHMountPathExtension(jt),
      ReplicaSpec(Never, None, launcherContainer, pods.launcherVolumes),
      ReplicaSpec(Never, Some(WrapInt32(WorkerReplicas(jt))), workerContainer, pods.workerVolumes))
  }

  /** Go's `ConvertJobTemplateToMPIJob`, with the stage-in map walked in
      `order`: a missing image is reported first, then a zero worker count
      (a negative one passes); a template passing both gets the assembled spec. */
  function ConvertJobTemplateToMPIJob(jt: JobTemplate, order: seq<string>): (r: Result<MPIJobSpec>)
    requires jt.stageInFiles.Some? ==> Enumerates(order, jt.stageInFiles.value)
    ensures jt.jobCategory == "" ==> r == Err(ErrJobCategory)
    ensures jt.jobCategory != "" && WorkerReplicas(jt) == 0 ==> r == Err(ErrSlotCount)
    ensures r.Ok? <==> jt.jobCategory != "" && WorkerReplicas(jt) != 0
    ensures r.Ok? ==> r.value == AssembleSpec(jt, order)
  {
    if jt.jobCategory == "" then Err(ErrJobCategory)
    else if WorkerReplicas(jt) == 0 then Err(ErrSlotCount)
    else Ok(AssembleSpec(jt, order))
  }

  /** Where a supported mount lands: a container mount at its path with its
      read-only flag, next to a volume of the same name whose claim (for a
      pvc) is the mount's volume name. */
  predicate AttachedAt(mounts: seq<VolumeMount>, vols: seq<Volume>, k: int, v: VolumeMountSpec)
    requires |mounts| == |vols|
  {
    && 0 <= k < |mounts|
    && mounts[k].mountPath == v.mountPath
    && mounts[k].readOnly == v.readOnly
    && mounts[k].name == vols[k].name
    && (v.volumeType == "pvc" ==> vols[k].source == ClaimSource(v.volumeName, v.readOnly))
    && (v.volumeType != "pvc" ==> vols[k].source.ConfigMapSource?)
  }

  /** Every supported mount of `vm` is attached somewhere in the lists. */
  predicate CoversSupported(mounts: seq<VolumeMount>, vols: seq<Volume>, vm: seq<VolumeMountSpec>)
    requires |mounts| == |vols|
  {
    forall v | v in vm && SupportedType(v.volumeType) :: exists k | 0 <= k < |mounts| :: AttachedAt(mounts, vols, k, v)
  }

  /** Every container mount stands for a supported mount of `vm`. */
  predicate OnlySupported(mounts: seq<VolumeMount>, vm: seq<VolumeMountSpec>) {
    forall m | m in mounts ::
      exists v | v in vm :: SupportedType(v.volumeType) && m.mountPath == v.mountPath && m.readOnly == v.readOnly
  }

  /** The reference list attaches every supported decoded mount, and attaches nothing else. */
  lemma AttachedCovers(decoded: seq<VolumeMountSpec>)
    ensures CoversSupported(MountsOf(Attached(decoded, 0)), VolumesOf(Attached(decoded, 0)), decoded)
    ensures OnlySupported(MountsOf(Attached(decoded, 0)), decoded)
  {
    var ps := Attached(decoded, 0);
    var mounts := MountsOf(ps);
    var vols := VolumesOf(ps);
    AttachedComplete(decoded, 0);
    AttachedSound(decoded, 0);
    forall v | v in decoded && SupportedType(v.volumeType)
      ensures exists k | 0 <= k < |mounts| :: AttachedAt(mounts, vols, k, v)
    {
      var j :| 0 <= j < |decoded| && decoded[j] == v;
      var p := VolumeFor(j, v);
      assert p in ps;
      var k :| 0 <= k < |ps| && ps[k] == p;
      assert AttachedAt(mounts, vols, k, v);
    }
    forall m | m in mounts
      ensures exists v | v in decoded :: SupportedType(v.volumeType) && m.mountPath == v.mountPath && m.readOnly == v.readOnly
    {
      var k :| 0 <= k < |mounts| && mounts[k] == m;
      assert ps[k] in ps;
      var j :| 0 <= j < |decoded| && SupportedType(decoded[j].volumeType) && ps[k] == VolumeFor(j, decoded[j]);
      assert decoded[j] in decoded;
    }
  }

  /** Mounts written with `SetVolumeMounts` into a template with no stage-in
      entries reach the job: every supported mount is attached to both roles,
      and every attached mount is one of them, whatever order the map is
      walked in. */
  lemma ConvertAttachesMounts(jt: JobTemplate, vm: seq<VolumeMountSpec>, order: seq<string>)
    requires RoundTripInput(jt, vm, order)
    requires jt.jobCategory != "" && WorkerReplicas(jt) != 0
    ensures var r := ConvertJobTemplateToMPIJob(SetVolumeMounts(jt, vm), order);
            && r.Ok?
            && CoversSupported(r.value.worker.container.volumeMounts, r.value.worker.volumes, vm)
            && OnlySupported(r.value.worker.container.volumeMounts, vm)
  {
    var jt' := SetVolumeMounts(jt, vm);
    var decoded := DecodedMounts(jt', order);
    VolumeRoundTrip(jt, vm, order);
    AttachedCovers(decoded);
    var r := ConvertJobTemplateToMPIJob(jt', order);
    assert r.Ok?;
  }
}
