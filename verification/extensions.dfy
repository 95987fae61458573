/** The extension codec: typed settings stored as strings in the template's
    extension list. Every setter first turns a nil list into an empty one, so
    after any setter the getters no longer see a nil list. Three readings
    change with that: the SSH path reads `""` instead of `/root/.ssh`, the
    worker command `[""]` instead of nil, and each resource group an empty
    list instead of nil. The slot count (1), the user (-1) and the MPI
    implementation (`Intel`) keep their defaults for a missing entry. */
module Extensions {
  import opened Common
  import opened Strings
  import opened Decimal
  import opened Quantities
  import opened Drmaa
  import opened MpiJob

  const ExtensionWorkerImage: string := "workerImage"
  const ExtensionWorkerCommand: string := "workerCommand"
  const ExtensionSlotsPerWorker: string := "slotsPerWorker"
  const ExtensionMPIImplementation: string := "mpiImplementation"
  const ExtensionSSHMountPath: string := "sshMountPath"
  const ExtensionRunAsUser: string := "runAsUser"

  const ResourceLimitLauncher: string := "resourceLimitLauncher-"
  const ResourceLimitWorker: string := "resourceLimitWorker-"
  const ResourceRequestLauncher: string := "resourceRequestLauncher-"
  const ResourceRequestWorker: string := "resourceRequestWorker-"

  /** Joins the tokens of the worker command. */
  const CommandSeparator: string := "<!~!>"

  const DefaultSSHMountPath: string := "/root/.ssh"
  const MPIImplementationIntel: string := "Intel"

  /** The entries of a possibly-nil extension list. */
  function Entries(jt: JobTemplate): map<string, string> {
    jt.extensionList.GetOr(map[])
  }

  /** `r` is `jt` with one extension entry written and nothing else changed. */
  predicate WritesOnly(jt: JobTemplate, r: JobTemplate, key: string, value: string) {
    && r.(extensionList := jt.extensionList) == jt
    && r.extensionList.Some?
    && r.extensionList.value.Keys == Entries(jt).Keys + {key}
    && r.extensionList.value[key] == value
    && (forall k | k in Entries(jt) && k != key :: r.extensionList.value[k] == Entries(jt)[k])
  }

  /** The shared shape of every scalar setter. */
  function PutExtension(jt: JobTemplate, key: string, value: string): (r: JobTemplate)
    ensures WritesOnly(jt, r, key, value)
  {
    jt.(extensionList := Some(Entries(jt)[key := value]))
  }

  // ---------------------------------------------------------------------------
  // Resource groups

  /** Resource names written under `prefix`. */
  function PrefixedKeys(prefix: string, list: ResourceList): set<string> {
    set n | n in list :: prefix + n
  }

  /** Different names give different prefixed keys. */
  lemma PrefixInjective(prefix: string)
    ensures forall a, b | a != b :: prefix + a != prefix + b
  {
    forall a, b | prefix + a == prefix + b
      ensures a == b
    {
      assert a == (prefix + a)[|prefix|..];
      assert b == (prefix + b)[|prefix|..];
    }
  }

  /** Different keys with the same prefix keep different names once it is stripped. */
  lemma StripInjective(prefix: string)
    ensures forall k1, k2 | HasPrefix(k1, prefix) && HasPrefix(k2, prefix) && k1 != k2 ::
              k1[|prefix|..] != k2[|prefix|..]
  {
    forall k1, k2 | HasPrefix(k1, prefix) && HasPrefix(k2, prefix) && k1[|prefix|..] == k2[|prefix|..]
      ensures k1 == k2
    {
      assert k1 == k1[..|prefix|] + k1[|prefix|..];
      assert k2 == k2[..|prefix|] + k2[|prefix|..];
    }
  }

  /** Writes one `prefix + name -> canonical quantity` entry per resource and
      leaves every other entry of the extension list as it was. */
  function SetResourceExtension(jt: JobTemplate, prefix: string, list: ResourceList): (r: JobTemplate)
    ensures r.(extensionList := jt.extensionList) == jt
    ensures r.extensionList.Some?
    ensures r.extensionList.value.Keys == Entries(jt).Keys + PrefixedKeys(prefix, list)
    ensures forall n | n in list :: r.extensionList.value[prefix + n] == PrintQuantity(list[n])
    ensures forall k | k in Entries(jt) && k !in PrefixedKeys(prefix, list) ::
              r.extensionList.value[k] == Entries(jt)[k]
  {
    PrefixInjective(prefix);
    var written := map n | n in list :: prefix + n := PrintQuantity(list[n]);
    assert written.Keys == PrefixedKeys(prefix, list);
    jt.(extensionList := Some(Entries(jt) + written))
  }

  /** `r` is what the group under `prefix` reads as: nil for a nil list;
      otherwise exactly the entries whose key starts with `prefix` and whose
      value parses as a quantity, keyed by the name after the prefix. */
  predicate ReadsGroup(jt: JobTemplate, prefix: string, r: Option<ResourceList>) {
    && (r.None? <==> jt.extensionList.None?)
    && (r.Some? ==> forall n | n in r.value ::
          prefix + n in Entries(jt) && ParseQuantity(Entries(jt)[prefix + n]) == Some(r.value[n]))
    && (r.Some? ==> forall k | k in Entries(jt) && HasPrefix(k, prefix) && ParseQuantity(Entries(jt)[k]).Some? ::
          k[|prefix|..] in r.value)
  }

  /** Go's `getResourceExtension`: nil for a nil list; otherwise exactly the
      entries whose key starts with `prefix` and whose value parses as a
      quantity, keyed by the name after the prefix. Unparseable values are
      skipped without affecting the rest. */
  function GetResourceExtension(jt: JobTemplate, prefix: string): (r: Option<ResourceList>)
    ensures r.None? <==> jt.extensionList.None?
    ensures r.Some? ==> forall n | n in r.value ::
              prefix + n in Entries(jt) && ParseQuantity(Entries(jt)[prefix + n]) == Some(r.value[n])
    ensures r.Some? ==> forall k | k in Entries(jt) && HasPrefix(k, prefix) && ParseQuantity(Entries(jt)[k]).Some? ::
              k[|prefix|..] in r.value
  {
    match jt.extensionList
    case None => None
    case Some(m) =>
      StripInjective(prefix);
      var r := map k | k in m && HasPrefix(k, prefix) && ParseQuantity(m[k]).Some? ::
                 k[|prefix|..] := ParseQuantity(m[k]).value;
      assert forall k | k in m && HasPrefix(k, prefix) :: prefix + k[|prefix|..] == k;
      Some(r)
  }

  /** Two resource lists with the same names and quantities are equal. */
  lemma MapsEqual(a: ResourceList, b: ResourceList)
    requires forall n | n in a :: n in b && a[n] == b[n]
    requires forall n | n in b :: n in a
    ensures a == b
  {
    assert a.Keys == b.Keys;
  }

  /** A name under its own prefix starts with that prefix and strips back to the name. */
  lemma PrefixedName(prefix: string, n: string)
    ensures HasPrefix(prefix + n, prefix) && (prefix + n)[|prefix|..] == n
  {
    assert (prefix + n)[..|prefix|] == prefix;
  }

  /** Every resource written under a prefix reads back under that prefix
      with the same quantity. */
  lemma ResourceRoundTrip(jt: JobTemplate, prefix: string, list: ResourceList)
    ensures GetResourceExtension(SetResourceExtension(jt, prefix, list), prefix).Some?
    ensures forall n | n in list ::
              && n in GetResourceExtension(SetResourceExtension(jt, prefix, list), prefix).value
              && GetResourceExtension(SetResourceExtension(jt, prefix, list), prefix).value[n] == list[n]
  {
    var jt' := SetResourceExtension(jt, prefix, list);
    var g := GetResourceExtension(jt', prefix).value;
    var m := Entries(jt');
    forall n | n in list
      ensures n in g && g[n] == list[n]
    {
      var k := prefix + n;
      PrefixedName(prefix, n);
      assert k in m && m[k] == PrintQuantity(list[n]);
      ParsePrint(list[n]);
      assert ParseQuantity(m[k]) == Some(list[n]);
      assert n in g;
      assert ParseQuantity(m[k]) == Some(g[n]);
    }
  }

  /** When no entry had the prefix before, the group reads back as exactly
      the list written. */
  lemma ResourceRoundTripExact(jt: JobTemplate, prefix: string, list: ResourceList)
    requires forall k | k in Entries(jt) :: !HasPrefix(k, prefix)
    ensures GetResourceExtension(SetResourceExtension(jt, prefix, list), prefix) == Some(list)
  {
    var jt' := SetResourceExtension(jt, prefix, list);
    var g := GetResourceExtension(jt', prefix).value;
    ResourceRoundTrip(jt, prefix, list);
    forall n | n in g
      ensures n in list
    {
      PrefixedName(prefix, n);
      assert prefix + n in PrefixedKeys(prefix, list);
    }
    MapsEqual(g, list);
  }

  /** No resource-group prefix starts another one. */
  predicate DistinctGroups(p: string, q: string) {
    !HasPrefix(p, q) && !HasPrefix(q, p)
  }

  /** A key written under one group's prefix never starts with another's. */
  lemma OtherGroupKey(p: string, q: string, n: string)
    requires DistinctGroups(p, q)
    ensures !HasPrefix(p + n, q)
  {
    if |q| <= |p| {
      assert (p + n)[..|q|] == p[..|q|];
    } else if |q| <= |p + n| {
      assert (p + n)[..|q|][..|p|] == p;
      assert q[..|p|] != p;
    }
  }

  /** Writing one resource group leaves every other group as it was (a nil
      list having become an empty one). */
  lemma GroupsIndependent(jt: JobTemplate, p: string, q: string, list: ResourceList)
    requires DistinctGroups(p, q)
    ensures GetResourceExtension(SetResourceExtension(jt, p, list), q)
         == Some(GetResourceExtension(jt, q).GetOr(map[]))
  {
    var jt' := SetResourceExtension(jt, p, list);
    var m := Entries(jt);
    var m' := Entries(jt');
    forall k | HasPrefix(k, q)
      ensures (k in m' <==> k in m) && (k in m ==> m'[k] == m[k])
    {
      if k in PrefixedKeys(p, list) {
        var n :| n in list && k == p + n;
        OtherGroupKey(p, q, n);
      }
    }
    var a := GetResourceExtension(jt', q).value;
    var b := GetResourceExtension(jt, q).GetOr(map[]);
    forall n | n in a
      ensures n in b && a[n] == b[n]
    {
      PrefixedName(q, n);
    }
    forall n | n in b
      ensures n in a
    {
      PrefixedName(q, n);
    }
    MapsEqual(a, b);
  }

  lemma ResourcePrefixesDistinct()
    ensures DistinctGroups(ResourceLimitLauncher, ResourceLimitWorker)
    ensures DistinctGroups(ResourceLimitLauncher, ResourceRequestLauncher)
    ensures DistinctGroups(ResourceLimitLauncher, ResourceRequestWorker)
    ensures DistinctGroups(ResourceLimitWorker, ResourceRequestLauncher)
    ensures DistinctGroups(ResourceLimitWorker, ResourceRequestWorker)
    ensures DistinctGroups(ResourceRequestLauncher, ResourceRequestWorker)
  {
    assert ResourceLimitLauncher[13] != ResourceLimitWorker[13];
    assert ResourceLimitLauncher[9] != ResourceRequestLauncher[9];
    assert ResourceLimitLauncher[9] != ResourceRequestWorker[9];
    assert ResourceLimitWorker[9] != ResourceRequestLauncher[9];
    assert ResourceLimitWorker[9] != ResourceRequestWorker[9];
    assert ResourceRequestLauncher[15] != ResourceRequestWorker[15];
  }

  function SetLauncherResourceLimitExtension(jt: JobTemplate, limits: ResourceList): (r: JobTemplate)
    ensures GetLauncherResourceLimitExtension(r).Some?
    ensures forall n | n in limits :: n in GetLauncherResourceLimitExtension(r).value
              && GetLauncherResourceLimitExtension(r).value[n] == limits[n]
  {
    ResourceRoundTrip(jt, ResourceLimitLauncher, limits);
    SetResourceExtension(jt, ResourceLimitLauncher, limits)
  }

  function GetLauncherResourceLimitExtension(jt: JobTemplate): (r: Option<ResourceList>)
    ensures ReadsGroup(jt, ResourceLimitLauncher, r)
  {
    GetResourceExtension(jt, ResourceLimitLauncher)
  }

  function SetWorkerResourceLimitExtension(jt: JobTemplate, limits: ResourceList): (r: JobTemplate)
    ensures GetWorkerResourceLimitExtension(r).Some?
    ensures forall n | n in limits :: n in GetWorkerResourceLimitExtension(r).value
              && GetWorkerResourceLimitExtension(r).value[n] == limits[n]
  {
    ResourceRoundTrip(jt, ResourceLimitWorker, limits);
    SetResourceExtension(jt, ResourceLimitWorker, limits)
  }

  function GetWorkerResourceLimitExtension(jt: JobTemplate): (r: Option<ResourceList>)
    ensures ReadsGroup(jt, ResourceLimitWorker, r)
  {
    GetResourceExtension(jt, ResourceLimitWorker)
  }

  function SetLauncherResourceRequestsExtension(jt: JobTemplate, requests: ResourceList): (r: JobTemplate)
    ensures GetLauncherResourceRequestExtension(r).Some?
    ensures forall n | n in requests :: n in GetLauncherResourceRequestExtension(r).value
              && GetLauncherResourceRequestExtension(r).value[n] == requests[n]
  {
    ResourceRoundTrip(jt, ResourceRequestLauncher, requests);
    SetResourceExtension(jt, ResourceRequestLauncher, requests)
  }

  function GetLauncherResourceRequestExtension(jt: JobTemplate): (r: Option<ResourceList>)
    ensures ReadsGroup(jt, ResourceRequestLauncher, r)
  {
    GetResourceExtension(jt, ResourceRequestLauncher)
  }

  function SetWorkerResourceRequestsExtension(jt: JobTemplate, requests: ResourceList): (r: JobTemplate)
    ensures GetWorkerResourceRequestExtension(r).Some?
    ensures forall n | n in requests :: n in GetWorkerResourceRequestExtension(r).value
              && GetWorkerResourceRequestExtension(r).value[n] == requests[n]
  {
    ResourceRoundTrip(jt, ResourceRequestWorker, requests);
    SetResourceExtension(jt, ResourceRequestWorker, requests)
  }

  function GetWorkerResourceRequestExtension(jt: JobTemplate): (r: Option<ResourceList>)
    ensures ReadsGroup(jt, ResourceRequestWorker, r)
  {
    GetResourceExtension(jt, ResourceRequestWorker)
  }

  // ---------------------------------------------------------------------------
  // Scalar settings

  function SetWorkerImageExtension(jt: JobTemplate, workerImage: string): (r: JobTemplate)
    ensures WritesOnly(jt, r, ExtensionWorkerImage, workerImage)
    ensures GetWorkerImageExtension(r) == workerImage
  {
    PutExtension(jt, ExtensionWorkerImage, workerImage)
  }

  /** The stored worker image, `""` when the list is nil or has no entry. */
  /** The worker image: `""` for a nil list or a missing entry, otherwise the stored image. */
  function GetWorkerImageExtension(jt: JobTemplate): (r: string)
    ensures jt.extensionList.None? ==> r == ""
    ensures jt.extensionList.Some? && ExtensionWorkerImage !in jt.extensionList.value ==> r == ""
    ensures jt.extensionList.Some? && ExtensionWorkerImage in jt.extensionList.value ==>
              r == jt.extensionList.value[ExtensionWorkerImage]
  {
    Lookup(jt.extensionList, ExtensionWorkerImage)
  }

  function SetWorkerCommandExtension(jt: JobTemplate, workerCommand: seq<string>): (r: JobTemplate)
    ensures WritesOnly(jt, r, ExtensionWorkerCommand, Join(workerCommand, CommandSeparator))
  {
    PutExtension(jt, ExtensionWorkerCommand, Join(workerCommand, CommandSeparator))
  }

  /** The stored worker command split into tokens. Nil (`[]`) only for a nil
      list; a list with no entry gives `[""]`, since splitting `""` yields one
      empty token. Joining the tokens gives back the stored text. */
  function GetWorkerCommandExtension(jt: JobTemplate): (r: seq<string>)
    ensures r == [] <==> jt.extensionList.None?
    ensures jt.extensionList.Some? ==> Join(r, CommandSeparator) == Lookup(jt.extensionList, ExtensionWorkerCommand)
    ensures jt.extensionList.Some? && ExtensionWorkerCommand !in jt.extensionList.value ==> r == [""]
  {
    if jt.extensionList.None? then []
    else
      var stored := Lookup(jt.extensionList, ExtensionWorkerCommand);
      JoinSplit(stored, CommandSeparator);
      Split(stored, CommandSeparator)
  }

  /** No proper suffix of the command separator is also a prefix of it. */
  lemma CommandSeparatorBorderFree()
    ensures BorderFree(CommandSeparator)
  {
    var sep := CommandSeparator;
    forall m | 0 < m < |sep|
      ensures sep[m..] != sep[..|sep| - m]
    {
      assert sep[m..][0] == sep[m] != '<';
      assert sep[..|sep| - m][0] == '<';
    }
  }

  /** A non-empty token list in which no token holds the separator is read
      back unchanged. */
  lemma WorkerCommandRoundTrip(jt: JobTemplate, tokens: seq<string>)
    requires |tokens| > 0
    requires forall k | 0 <= k < |tokens| :: !Contains(tokens[k], CommandSeparator)
    ensures GetWorkerCommandExtension(SetWorkerCommandExtension(jt, tokens)) == tokens
  {
    CommandSeparatorBorderFree();
    SplitJoin(tokens, CommandSeparator);
  }

  /** An empty token list is read back as one empty token, not as nothing. */
  lemma WorkerCommandEmptyList(jt: JobTemplate)
    ensures GetWorkerCommandExtension(SetWorkerCommandExtension(jt, [])) == [""]
  {
    var r := SetWorkerCommandExtension(jt, []);
    assert Lookup(r.extensionList, ExtensionWorkerCommand) == "";
    assert !Contains("", CommandSeparator);
  }

  function SetSlotsPerWorkerExtension(jt: JobTemplate, slotsPerWorker: Int32): (r: JobTemplate)
    ensures WritesOnly(jt, r, ExtensionSlotsPerWorker, FormatInt(slotsPerWorker))
  {
    PutExtension(jt, ExtensionSlotsPerWorker, FormatInt(slotsPerWorker))
  }

  /** Slots per worker: 1 for a nil list or a value that does not parse as a
      64-bit integer; otherwise the parsed value truncated to 32 bits. */
  function GetSlotsPerWorkerExtension(jt: JobTemplate): (r: Int32)
    ensures jt.extensionList.None? ==> r == 1
    ensures ParseInt64(Lookup(jt.extensionList, ExtensionSlotsPerWorker)).None? ==> r == 1
    ensures jt.extensionList.Some? && ParseInt64(Lookup(jt.extensionList, ExtensionSlotsPerWorker)).Some? ==>
              (r - ParseInt64(Lookup(jt.extensionList, ExtensionSlotsPerWorker)).value) % 0x1_0000_0000 == 0
  {
    if jt.extensionList.None? then 1
    else
      match ParseInt64(Lookup(jt.extensionList, ExtensionSlotsPerWorker))
      case None => 1
      case Some(v) => WrapInt32(v)
  }

  /** Every int32 slot count is read back unchanged. */
  lemma SlotsPerWorkerRoundTrip(jt: JobTemplate, slots: Int32)
    ensures GetSlotsPerWorkerExtension(SetSlotsPerWorkerExtension(jt, slots)) == slots
  {
    ParseFormat(slots);
  }

  function SetSSHMountPathExtension(jt: JobTemplate, sshMountPath: string): (r: JobTemplate)
    ensures WritesOnly(jt, r, ExtensionSSHMountPath, sshMountPath)
    ensures GetSSHMountPathExtension(r) == sshMountPath
  {
    PutExtension(jt, ExtensionSSHMountPath, sshMountPath)
  }

  /** The SSH mount path: `/root/.ssh` only for a nil list; otherwise the
      stored value, which is `""` when there is no entry. */
  function GetSSHMountPathExtension(jt: JobTemplate): (r: string)
    ensures r == DefaultSSHMountPath <==>
              (jt.extensionList.None? || Lookup(jt.extensionList, ExtensionSSHMountPath) == DefaultSSHMountPath)
    ensures jt.extensionList.Some? && ExtensionSSHMountPath in jt.extensionList.value ==>
              r == jt.extensionList.value[ExtensionSSHMountPath]
    ensures jt.extensionList.Some? && ExtensionSSHMountPath !in jt.extensionList.value ==> r == ""
  {
    if jt.extensionList.None? then DefaultSSHMountPath
    else Lookup(jt.extensionList, ExtensionSSHMountPath)
  }

  /** Writing any other setting first loses the SSH default: the path then reads as `""`. */
  lemma SSHDefaultLostAfterOtherSetter(image: string)
    ensures GetSSHMountPathExtension(EmptyTemplate) == DefaultSSHMountPath
    ensures GetSSHMountPathExtension(SetWorkerImageExtension(EmptyTemplate, image)) == ""
  {
  }

  /** After an unrelated setter, the readings with a default for a missing
      entry keep it, and the ones with a default only for a nil list lose it. */
  lemma DefaultsAfterOtherSetter(image: string)
    ensures var jt := SetWorkerImageExtension(EmptyTemplate, image);
            && GetSlotsPerWorkerExtension(jt) == 1
            && GetRunAsUserExtension(jt) == -1
            && GetMPIImplementationExtension(jt) == MPIImplementationIntel
            && GetSSHMountPathExtension(jt) == ""
            && GetWorkerCommandExtension(jt) == [""]
            && GetLauncherResourceLimitExtension(jt) == Some(map[])
  {
    var jt := SetWorkerImageExtension(EmptyTemplate, image);
    assert jt.extensionList.value.Keys == {ExtensionWorkerImage};
    ParseEmpty();
    assert Lookup(jt.extensionList, ExtensionSlotsPerWorker) == "";
    assert Lookup(jt.extensionList, ExtensionRunAsUser) == "";
    assert !HasPrefix(ExtensionWorkerImage, ResourceLimitLauncher);
  }

  function SetMPIImplementationExtension(jt: JobTemplate, mpiImplementation: string): (r: JobTemplate)
    ensures WritesOnly(jt, r, ExtensionMPIImplementation, mpiImplementation)
    ensures GetMPIImplementationExtension(r) == (if mpiImplementation == "" then MPIImplementationIntel else mpiImplementation)
  {
    PutExtension(jt, ExtensionMPIImplementation, mpiImplementation)
  }

  /** The MPI implementation: `Intel` when the list is nil or the stored value
      is empty or missing, otherwise the stored value. */
  function GetMPIImplementationExtension(jt: JobTemplate): (r: string)
    ensures r != ""
    ensures r == MPIImplementationIntel <==>
              Lookup(jt.extensionList, ExtensionMPIImplementation) in {"", MPIImplementationIntel}
    ensures Lookup(jt.extensionList, ExtensionMPIImplementation) != "" ==>
              r == Lookup(jt.extensionList, ExtensionMPIImplementation)
  {
    if jt.extensionList.None? then MPIImplementationIntel
    else if Lookup(jt.extensionList, ExtensionMPIImplementation) == "" then MPIImplementationIntel
    else Lookup(jt.extensionList, ExtensionMPIImplementation)
  }

  function SetRunAsUserExtension(jt: JobTemplate, runAsUser: Int64): (r: JobTemplate)
    ensures WritesOnly(jt, r, ExtensionRunAsUser, FormatInt(runAsUser))
    ensures GetRunAsUserExtension(r) == runAsUser
  {
    ParseFormat(runAsUser);
    PutExtension(jt, ExtensionRunAsUser, FormatInt(runAsUser))
  }

  /** The user to run as: -1 for a nil list or a value that does not parse as
      a 64-bit integer, otherwise the parsed value. */
  function GetRunAsUserExtension(jt: JobTemplate): (r: Int64)
    ensures jt.extensionList.None? ==> r == -1
    ensures ParseInt64(Lookup(jt.extensionList, ExtensionRunAsUser)).None? ==> r == -1
    ensures jt.extensionList.Some? && ParseInt64(Lookup(jt.extensionList, ExtensionRunAsUser)).Some? ==>
              r == ParseInt64(Lookup(jt.extensionList, ExtensionRunAsUser)).value
  {
    if jt.extensionList.None? then -1
    else
      match ParseInt64(Lookup(jt.extensionList, ExtensionRunAsUser))
      case None => -1
      case Some(v) => v
  }
}
