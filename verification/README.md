# MPI-operator job tracker — a Dafny model of its translation core

The tracker is a DRMAA2 back end for the Kubeflow MPI operator. This project
models its translation engine in Dafny and proves properties about it. The
engine has three parts:

- the **extension codec**: typed settings (resource groups, worker image,
  worker command, slots per worker, SSH mount path, MPI implementation,
  run-as-user) stored as strings in the job template's extension list;
- the **volume-mount codec**: volume mounts stored in the template's
  stage-in map as `path -> type[-read]:name`;
- the **spec synthesizer** `ConvertJobTemplateToMPIJob`: it validates a
  template and builds a launcher role and a replicated worker role, with
  containers, shared volumes and fixed run policies.

It also models the read-back side and the tracker front end:

- the condition-to-state classifier and the last-condition rule of
  `GetJobState`;
- the job-info projection;
- job-control dispatch, the job list, submission, kubeconfig resolution and
  the job-category list.

Files and modules:

| file | module | content |
|---|---|---|
| common.dfy | Common | nil-or-value, `(value, error)`, int32/int64 ranges, Go's `int32()` wrap and `Duration` saturation, map lookup with zero value |
| strings.dfy | Strings | Go's `strings.Split`/`Join`/`HasPrefix`/`TrimSuffix`; Split–Join inverse lemmas |
| decimal.dfy | Decimal | decimal printing and `strconv.ParseInt`, with their round trip |
| quantity.dfy | Quantities | a stand-in for resource quantities with a partial parser and a canonical printer |
| drmaa.dfy | Drmaa | job template, job state, job info |
| mpijob.dfy | MpiJob | the job spec record: two roles, their containers and volumes, the run policy |
| volumes.dfy | VolumeCodec | `SetVolumeMounts` / `GetVolumeMounts` |
| extensions.dfy | Extensions | every `Set*Extension` / `Get*Extension` |
| convert.dfy | Synthesizer | `ConvertJobTemplateToMPIJob` and the volume loop |
| scenarios.dfy | Scenarios | the repository's test templates pushed through the model |
| describe.dfy | Describe | `JobStateFromCondition`, `GetJobState` |
| jobinfo.dfy | Info | `JobInfoFromMPIJob`, `GetJobInfo` |
| tracker.dfy | Tracker | `JobControl`, `ListJobs`, `AddJob`, kubeconfig path, `ListJobCategories` |

Modelling choices:

- A Go map that may be nil is `Option<map<string, string>>`, because nil and
  empty behave differently for three readings: a nil extension list reads as
  the SSH path `/root/.ssh`, a nil worker command and nil resource groups,
  while a non-nil list without those entries reads as `""`, `[""]` and empty
  groups. The slot count (1), the user (-1) and the MPI implementation
  (`Intel`) keep their defaults for a missing entry either way
  (`Extensions.DefaultsAfterOtherSetter`).
- Go's map iteration order is unspecified. `GetVolumeMounts` and everything
  after it therefore take a parameter `order`: any sequence that lists each
  stage-in key once (`VolumeCodec.Enumerates`). Every property is proved for
  all such orders. The `volume-<i>` names are positions in the decoded
  list, not in `order`: entries without a colon take no position.
- The cluster calls (list, get, delete, create) are inputs: the jobs a list
  returns, the error a delete returns, the name a create returns.
- Integer widths follow the code. `int32(...)` conversions wrap (`WrapInt32`).
  `time.Time.Sub` saturates at the int64 range (`SaturateInt64`).

Behaviours of the code worth knowing:

- `JobStateFromCondition` always returns an empty substate, also for an
  unknown condition type, which gives `Undetermined`.
- `GetJobState` indexes the last condition without a guard, so a fetched job
  must have at least one condition; this is a precondition.
- `JobInfoFromMPIJob` dereferences the start and completion times, the slots
  per worker and the worker replica count without a nil check, so all four
  are preconditions (`Info.Projectable`).
- The SSH mount path defaults to `/root/.ssh` only when the extension list is
  nil. Once any setter has run, a missing entry reads as `""`.
- The worker command getter returns nil only for a nil extension list. A list
  without the entry reads as `[""]`. The synthesizer drops an empty first
  token only when there are at least two tokens, so such a template's worker
  gets the command `[""]` (`Scenarios.OtherSettingGivesEmptyWorkerCommand`).

## Model

| member | source | states |
|---|---|---|
| Common.WrapInt32 | jobtemplate.go:200 | `int32(x)` agrees with `x` modulo 2^32, lands in the int32 range, and is the identity on int32 values |
| Common.SaturateInt64 | jobinfo.go:15 | a duration difference equals the exact difference in the int64 range and clamps to the nearer bound outside it |
| Common.Lookup | jobtemplate.go:162 | indexing a possibly-nil map gives the stored value for a present key and `""` for a nil map or absent key |
| Strings.TrimPrefix | jobtemplate.go:120 | with the prefix present, prefix + result is the key; otherwise the key is unchanged |
| Strings.TrimSuffix | jobtemplate.go:68 | with the suffix present, result + suffix is the input; otherwise the input is unchanged |
| Strings.Split | jobtemplate.go:61-62 | splitting yields at least one part, and exactly one (the whole input) iff the separator does not occur |
| Strings.JoinSplit | jobtemplate.go:61-69 | joining the split parts with the same separator rebuilds the input, for every input |
| Strings.SplitAfterFirst | jobtemplate.go:61-69 | with a border-free separator, a separator-free head before the first separator splits off as the first part |
| Strings.SplitJoin | jobtemplate.go:169-181 | with a border-free separator, splitting a join of separator-free parts gives the parts back |
| Strings.AbsentFirstChar | jobtemplate.go:169 | a token lacking the separator's first character cannot contain the separator |
| Strings.ContainsChar | jobtemplate.go:61 | a one-character separator occurs iff the character is in the string |
| Decimal.NatToString | jobtemplate.go:339 | `%d` of a natural is a non-empty digit string without a leading zero whose decimal value is the number |
| Decimal.FormatInt | jobtemplate.go:188 | a `-` exactly for negative values, then a digit run with no leading zero whose value is the magnitude |
| Decimal.ParseInt64 | jobtemplate.go:249 | a text parses iff it is an optional sign and a non-empty digit run whose signed value is in the int64 range, and then to that value |
| Decimal.ParseNonCanonical | jobtemplate.go:196 | `+5`, `007` and `-0` parse; `5a` and a bare `-` do not |
| Decimal.ParseFormat | jobtemplate.go:240-250 | parsing the decimal rendering of any int64 gives it back |
| Decimal.ParseEmpty | jobtemplate.go:248-252 | the empty string does not parse as an integer |
| Quantities.ParseSuffix | jobtemplate.go:121 | a recognised unit text is exactly that unit's spelling; rejected text spells no unit |
| Quantities.ParseQuantity | jobtemplate.go:121-125 | an accepted quantity text is a non-empty digit run followed by a unit spelling |
| Quantities.ParsePrint | jobtemplate.go:80 | parsing the printed text of a quantity gives the same quantity |
| VolumeCodec.EncodeVolume | jobtemplate.go:43-50 | the stored text starts with the type followed by `-read:` for a read-only mount or `:` otherwise, ends with `:` and the name, and has nothing else in between; `DecodeEncode` is its inverse |
| VolumeCodec.DecodeVolume | jobtemplate.go:61-70 | an entry without `:` is dropped; any other entry decodes to a mount at its key that re-encodes to exactly the stored text |
| VolumeCodec.DecodeEncode | jobtemplate.go:43-69 | a mount whose type has no `:` (and, when writable, does not end in `-read`) decodes back to itself |
| VolumeCodec.PutVolumesFrame | jobtemplate.go:42-51 | the loop's keys are the old keys plus the mount paths, and keys it does not write keep their values |
| VolumeCodec.PutVolumesLast | jobtemplate.go:42-51 | for each path, the last mount written with it decides the stored text |
| VolumeCodec.SetVolumeMounts | jobtemplate.go:38-53 | a nil stage-in map becomes a map; only the given paths are written (last wins); other entries and every other field are unchanged |
| VolumeCodec.DecodeAll | jobtemplate.go:60-71 | the loop yields at most one mount per visited key |
| VolumeCodec.DecodeAllSound | jobtemplate.go:60-71 | every decoded mount comes from its own key and decodes from that key's entry |
| VolumeCodec.DecodeAllComplete | jobtemplate.go:60-71 | every visited entry that holds a `:` is decoded |
| VolumeCodec.DecodeAllDistinct | jobtemplate.go:60-71 | visiting each key once gives mounts with pairwise distinct paths |
| VolumeCodec.GetVolumeMounts | jobtemplate.go:55-73 | nil exactly for a nil map; otherwise each result decodes from, and re-encodes to, its stored entry, every entry with `:` is present, and paths are distinct |
| VolumeCodec.RoundTripKeeps | jobtemplate.go:38-73 | every encodable mount written with a distinct path is read back |
| VolumeCodec.RoundTripAddsNothing | jobtemplate.go:38-73 | every mount read back was written |
| VolumeCodec.VolumeRoundTrip | jobtemplate.go:38-73 | encodable mounts with distinct paths written into an empty stage-in map read back as the same set, in every iteration order |
| Extensions.PutExtension | jobtemplate.go:150-156 | a scalar setter creates the list if nil, writes its one key, and changes nothing else |
| Extensions.SetResourceExtension | jobtemplate.go:75-83 | a resource setter writes `prefix + name -> printed quantity` for each resource and touches no other key or field |
| Extensions.GetResourceExtension | jobtemplate.go:113-130 | nil for a nil list; otherwise exactly the prefixed keys whose values parse, keyed by the stripped name; unparseable values are skipped |
| Extensions.ResourceRoundTrip | jobtemplate.go:75-130 | every resource written under a prefix reads back under it with the same quantity |
| Extensions.ResourceRoundTripExact | jobtemplate.go:113-130 | with no prior entry under the prefix, the group reads back as exactly the written list |
| Extensions.GroupsIndependent | jobtemplate.go:75-148 | writing one resource group leaves every other group's reading unchanged (nil turning into empty) |
| Extensions.ResourcePrefixesDistinct | jobtemplate.go:80-141 | none of the four resource-group prefixes starts another |
| Extensions.SetLauncherResourceLimitExtension | jobtemplate.go:75-87 | launcher limits read back with the same quantities after being set |
| Extensions.GetLauncherResourceLimitExtension | jobtemplate.go:85-87 | nil for a nil list, otherwise exactly the parseable `resourceLimitLauncher-` entries, keyed by the name after the prefix |
| Extensions.SetWorkerResourceLimitExtension | jobtemplate.go:89-101 | worker limits read back with the same quantities after being set |
| Extensions.GetWorkerResourceLimitExtension | jobtemplate.go:99-101 | nil for a nil list, otherwise exactly the parseable `resourceLimitWorker-` entries, keyed by the name after the prefix |
| Extensions.SetLauncherResourceRequestsExtension | jobtemplate.go:103-134 | launcher requests read back with the same quantities after being set |
| Extensions.GetLauncherResourceRequestExtension | jobtemplate.go:132-134 | nil for a nil list, otherwise exactly the parseable `resourceRequestLauncher-` entries, keyed by the name after the prefix |
| Extensions.SetWorkerResourceRequestsExtension | jobtemplate.go:136-148 | worker requests read back with the same quantities after being set |
| Extensions.GetWorkerResourceRequestExtension | jobtemplate.go:146-148 | nil for a nil list, otherwise exactly the parseable `resourceRequestWorker-` entries, keyed by the name after the prefix |
| Extensions.SetWorkerImageExtension | jobtemplate.go:150-163 | the worker image reads back as written and only its key changes |
| Extensions.GetWorkerImageExtension | jobtemplate.go:158-163 | `""` for a nil list or a missing entry, otherwise the stored image |
| Extensions.SetWorkerCommandExtension | jobtemplate.go:165-171 | the command tokens are stored joined by `<!~!>` under one key, nothing else changes |
| Extensions.GetWorkerCommandExtension | jobtemplate.go:173-182 | nil exactly for a nil list; `[""]` for a list without the key; the tokens always join back to the stored text |
| Extensions.CommandSeparatorBorderFree | jobtemplate.go:169-181 | no proper suffix of `<!~!>` is a prefix of it, so split occurrences cannot overlap |
| Extensions.WorkerCommandRoundTrip | jobtemplate.go:165-182 | a non-empty token list with no token containing `<!~!>` reads back unchanged |
| Extensions.WorkerCommandEmptyList | jobtemplate.go:165-182 | an empty token list reads back as one empty token |
| Extensions.SetSlotsPerWorkerExtension | jobtemplate.go:184-190 | the slot count is stored as its decimal text under one key, nothing else changes |
| Extensions.GetSlotsPerWorkerExtension | jobtemplate.go:192-201 | 1 for a nil list or unparseable value; otherwise the parsed value modulo 2^32 |
| Extensions.SlotsPerWorkerRoundTrip | jobtemplate.go:184-201 | every int32 slot count reads back unchanged |
| Extensions.SetSSHMountPathExtension | jobtemplate.go:203-209 | the SSH path reads back as written and only its key changes |
| Extensions.GetSSHMountPathExtension | jobtemplate.go:211-216 | `/root/.ssh` iff the list is nil or stores exactly that path; for a non-nil list the stored path, or `""` when there is none |
| Extensions.SSHDefaultLostAfterOtherSetter | jobtemplate.go:211-216 | the zero template reads `/root/.ssh`, but after setting only the worker image it reads `""` |
| Extensions.DefaultsAfterOtherSetter | jobtemplate.go:173-252 | after setting only the worker image, slots still read 1, the user -1 and the MPI implementation `Intel`, while the SSH path reads `""`, the worker command `[""]` and a resource group empty |
| Extensions.SetMPIImplementationExtension | jobtemplate.go:218-224 | the implementation reads back as written, or `Intel` when written empty; only its key changes |
| Extensions.GetMPIImplementationExtension | jobtemplate.go:226-234 | never empty; `Intel` iff nothing, `""` or `Intel` is stored; any other stored value is returned as it is |
| Extensions.SetRunAsUserExtension | jobtemplate.go:236-242 | every int64 user reads back unchanged, and only its key changes |
| Extensions.GetRunAsUserExtension | jobtemplate.go:244-253 | -1 for a nil list or unparseable value; otherwise the parsed value |
| Synthesizer.WorkerReplicas | jobtemplate.go:279-282 | the replica count is the larger of MinSlots and MaxSlots |
| Synthesizer.LauncherCommand | jobtemplate.go:293-306 | the launcher command is `[RemoteCommand]`, or absent iff the remote command is empty |
| Synthesizer.ResolveWorkerCommand | jobtemplate.go:264-274 | with ≥2 tokens: args are the rest and command + args is the token list unless the first token is empty (then no command); with ≤1 token the list is the command, no args |
| Synthesizer.RunAs | jobtemplate.go:327-335 | a security context is attached iff the user is not -1, carrying that user |
| Synthesizer.VolumeNameInjective | jobtemplate.go:339 | different loop positions give different `volume-<i>` names |
| Synthesizer.SkippedMountKeepsPosition | jobtemplate.go:338-418 | an unsupported mount adds nothing but uses up its position, so the next supported mount is `volume-1` |
| Synthesizer.ConfigMapItems | jobtemplate.go:343-350 | a config map gets at most one item, and exactly one iff the name has three `:`-separated parts |
| Synthesizer.VolumeFor | jobtemplate.go:339-414 | the mount and the volume for position `i` are both named `volume-<i>`, and the mount keeps the entry's path and read-only flag |
| Synthesizer.ConfigMapVolume | jobtemplate.go:341-379 | a config-map volume is named by part 0, with item (part 1, part 2) iff there are exactly three parts, else no items |
| Synthesizer.ConfigMapItemFromTriple | jobtemplate.go:343-373 | a `name:key:path` volume name without further colons selects exactly that key and path from that map |
| Synthesizer.AttachedSound | jobtemplate.go:338-419 | every attached pair belongs to a supported mount at or after the position, and its mount names its own volume |
| Synthesizer.AttachedComplete | jobtemplate.go:338-419 | every configmap/cm/pvc mount is attached; other types add nothing |
| Synthesizer.AttachedNamesAfter | jobtemplate.go:338-339 | a position before `i` names no volume attached from `i` on |
| Synthesizer.AttachedDistinct | jobtemplate.go:338-419 | no two attached volumes share a name |
| Synthesizer.AttachedPaired | jobtemplate.go:338-419 | the k-th container mount names the k-th volume, and volume names are unique |
| Synthesizer.StepMatchesAttached | jobtemplate.go:341-415 | one loop pass keeps launcher and worker lists equal, although line 378 builds the launcher's list from the worker's |
| Synthesizer.VolumeStep | jobtemplate.go:340-417 | an unsupported type changes nothing; a supported one appends its mount to both containers and its volume to the worker, and equal volume lists stay equal |
| Synthesizer.VolumeLoop | jobtemplate.go:338-419 | the loop leaves launcher and worker with identical mounts and volumes, grown by exactly the reference pairs |
| Synthesizer.AttachVolumes | jobtemplate.go:338-419 | from empty lists both roles get exactly the reference list's mounts and volumes, each mount naming its own uniquely named volume |
| Synthesizer.AssembleSpec | jobtemplate.go:259-440 | the spec is well shaped (backoff 0, clean running pods, never restart, equal volume lists on both roles), the launcher image is JobCategory, the worker image is the extension or else JobCategory, commands come from the launcher and worker rules, both roles get the working directory, their own resource groups and the user iff it is not -1, replicas are `int32(max(MinSlots, MaxSlots))` (exact when it fits), the SSH path, slots and MPI implementation come from the getters, and the volumes are the reference list's |
| Synthesizer.ConvertJobTemplateToMPIJob | jobtemplate.go:255-443 | empty JobCategory fails first; a zero replica count fails, and nothing else does; a template passing both gets the assembled spec |
| Synthesizer.AttachedCovers | jobtemplate.go:338-419 | every supported decoded mount is attached at its path and read-only flag, and every attached mount stands for one |
| Synthesizer.ConvertAttachesMounts | jobtemplate.go:38-419 | mounts written with `SetVolumeMounts` reach the worker (and so the launcher) in every iteration order, and nothing else does |
| Scenarios.UnsetTemplateRejected | jobtemplate_test.go:166-170 | the zero-valued template fails with the missing-image error |
| Scenarios.MinimalTemplateAccepted | jobtemplate_test.go:20-28 | an image plus MinSlots 2 converts, with the remote command as launcher command |
| Scenarios.PiSettings | jobtemplate_test.go:38-50 | the Pi example's four settings read back as written after all four setters |
| Scenarios.PiJobConverts | jobtemplate_test.go:38-57 | the Pi example converts: launcher image, no launcher command, its args, user 1000 on both roles, the sshd worker command |
| Scenarios.OtherSettingGivesEmptyWorkerCommand | jobtemplate.go:173-182 | with an extension list lacking the worker command, the worker command is `[""]` |
| Describe.JobStateFromCondition | describe.go:47-61 | never an error or substate; `Undetermined` iff the type is none of the five; otherwise the state whose table entry is the type |
| Describe.ClassifierInvertsTable | describe.go:48-58 | each state's condition type is classified as that state |
| Describe.ReportedStates | describe.go:47-61 | only Queued, Running, Requeued, Done, Failed or Undetermined are reported |
| Describe.GetJobState | describe.go:39-45 | a fetch error passes through beside `Undetermined`; otherwise no error, an empty substate, and the state is the one the table gives the last condition's type, `Undetermined` iff the table gives none |
| Describe.LastConditionDecides | describe.go:44 | prepending earlier conditions never changes the reported state |
| Info.JobInfoFromMPIJob | jobinfo.go:8-18 | ID is the name; slots are spw × replicas in int32; submission = dispatch = start; finish = completion; submission + wallclock = finish in range, and the wallclock clamps to the int64 maximum or minimum outside it, as `time.Time.Sub` does; wallclock ≥ 0 iff finish ≥ start |
| Info.GetJobInfo | describe.go:31-37 | a fetch error passes through; a fetched job is projected by `JobInfoFromMPIJob`, with its name as ID |
| Info.InfoOfConvertedJob | jobinfo.go:11 | a job built from a converted template reports slots = slots per worker × max(MinSlots, MaxSlots) when these fit in int32 |
| Tracker.DeleteJob | mpioperatortracker.go:144-150 | the delete succeeds iff the cluster's does; a failure is wrapped as `failed to delete job: …` |
| Tracker.JobControl | mpioperatortracker.go:114-129 | suspend/resume/hold/release are unsupported and delete nothing; terminate is exactly the delete; anything else is undefined; no error iff a terminate's delete succeeds |
| Tracker.ListJobs | mpioperatortracker.go:50-60 | a list error is wrapped; otherwise 2n entries, the first n empty and entry n+i the name of job i |
| Tracker.ListJobIDs | mpioperatortracker.go:55-58 | the corrected loop: one entry per job, entry i the name of job i |
| Tracker.ListJobsPadsWithEmptyIDs | mpioperatortracker.go:55-58 | for one job the loop as written returns `["", name]` where `[name]` is meant |
| Tracker.ResolveKubeconfigPath | mpioperatortracker.go:21-26 | the argument if non-empty, else `KUBECONFIG` if non-empty, else `HOME/.kube/config`; never empty |
| Tracker.ResolveIdempotent | mpioperatortracker.go:21-26 | resolving a resolved path returns it unchanged, whatever the environment |
| Tracker.ListJobCategories | mpioperatortracker.go:156-159 | always an empty list and no error |
| Tracker.AddJob | mpioperatortracker.go:71-82 | succeeds iff conversion and creation do, returning the created name; each failure is wrapped with its own message |
| Tracker.AddJobRejectsMissingImage | mpioperatortracker.go:71-75 | a template without an image is never submitted and reports the conversion error |

## Left out

- Cluster I/O is not modelled: client construction, the REST config, operator installation (a `kubectl` subprocess), the create-and-poll in `CreateJob`, the network list/get/delete. Their outcomes are inputs.
- `NewMPIJob` is not modelled separately; it only wraps the spec in a record with a generated name. `Info.InfoOfConvertedJob` builds that record directly.
- Array jobs, `Wait` and `ListArrayJobs` delegate to a foreign helper library and are not modelled.
- Logging (`fmt.Printf` of a quantity parse error, `klog` for an unsupported volume type) has no effect on results and is not modelled.
- Quantities.ParseQuantity: Kubernetes' `resource.Quantity` grammar (decimal fractions, exponents, more suffixes) and its canonical printing (for example, 1073741824 printed as `1Gi`) are not modelled. The stand-in accepts a digit run plus one of eight suffixes and prints amount then suffix. Only the parse-after-print round trip and the skip-on-error behaviour are relied on.
- Resource names are plain strings; Kubernetes' `ResourceName` type adds nothing the translation uses.
- Container fields the synthesizer never sets (ports, env, …) and the pod template's other fields are not represented.
- Go's map iteration order is not fixed; it is a parameter, and only order-independent facts are stated about mount positions.
- Extensions.GetSlotsPerWorkerExtension: `strconv.Atoi` is modelled as the 64-bit parse, which is what it is on 64-bit platforms; its range errors on 32-bit platforms are not modelled.
- Tracker.JobControl: the action constants are the DRMAA2 job-control strings `suspend`, `resume`, `hold`, `release`, `terminate`; their defining package is not part of this model.
- Synthesizer.ConvertAttachesMounts: stands in for the OpenFoam example, whose index-specific volume checks depend on map iteration order; it states the order-free part (every supported mount attached, nothing else).
- Aliasing of the template's maps is not modelled. The Go setters take the template by value but write into `StageInFiles` and `ExtensionList`, which are references (jobtemplate.go:50, 80, 94, 108, 141, 154, 169, 188, 207, 222, 240), so when a map is already non-nil the caller's template changes too. The model returns a new template and leaves the argument as it was; callers that use the returned template see the same result.
- Go strings are byte strings, while the model's strings are sequences of characters. No result differs, since every separator, prefix and key the code matches on (`:`, `-read`, `<!~!>`, the resource prefixes, the digits and signs) is ASCII.

## Findings

| source | as written | input that shows it | evidently intended | confidence | as-written member | corrected member |
|---|---|---|---|---|---|---|
| mpioperatortracker.go:55-58 | `make([]string, len(jobs))` followed by `append` for each job | one listed job named `a`: the result is `["", "a"]` | one job ID per job, `["a"]` | high, not executed | Tracker.ListJobs, shown by Tracker.ListJobsPadsWithEmptyIDs | Tracker.ListJobIDs |
