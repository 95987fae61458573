/** The volume-mount codec: a list of volume mounts is stored in the job
    template's stage-in map as `mount path -> <type>[-read]:<name>`. Decoding
    splits on `:`, takes the first piece as the type (with its `-read` marker)
    and joins every later piece back together as the name, so names may hold
    colons but types may not. */
module VolumeCodec {
  import opened Common
  import opened Strings
  import opened Drmaa

  datatype VolumeMountSpec = VolumeMountSpec(
    mountPath: string,
    readOnly: bool,
    volumeType: string,
    volumeName: string)

  const Colon: string := ":"
  const ReadSuffix: string := "-read"

  /** The stored text of one mount. */
  function EncodeVolume(v: VolumeMountSpec): (r: string)
    ensures HasPrefix(r, v.volumeType + (if v.readOnly then ReadSuffix + Colon else Colon))
    ensures HasSuffix(r, Colon + v.volumeName)
    ensures |r| == |v.volumeType| + (if v.readOnly then |ReadSuffix| else 0) + 1 + |v.volumeName|
  {
    v.volumeType + (if v.readOnly then ReadSuffix else "") + Colon + v.volumeName
  }

  /** Splitting at the first separator: the text before it and the joined rest. */
  lemma JoinTail(s: string, sep: string)
    requires |sep| > 0 && |Split(s, sep)| >= 2
    ensures Split(s, sep)[0] + sep + Join(Split(s, sep)[1..], sep) == s
  {
    JoinSplit(s, sep);
  }

  /** Decodes one stage-in entry. An entry with no colon is dropped; any other
      entry decodes to a mount that encodes back to exactly the stored text. */
  function DecodeVolume(path: string, value: string): (r: Option<VolumeMountSpec>)
    ensures r.None? <==> !Contains(value, Colon)
    ensures r.Some? ==> r.value.mountPath == path && EncodeVolume(r.value) == value
  {
    var parts := Split(value, Colon);
    if |parts| < 2 then None
    else
      var ro := HasSuffix(parts[0], ReadSuffix);
      var v := VolumeMountSpec(path, ro, TrimSuffix(parts[0], ReadSuffix), Join(parts[1..], Colon));
      JoinTail(value, Colon);
      assert v.volumeType + (if ro then ReadSuffix else "") == parts[0];
      Some(v)
  }

  /** A mount the codec can carry: its type holds no colon, and a writable
      mount's type does not itself end in the read-only marker. */
  predicate Encodable(v: VolumeMountSpec) {
    && ':' !in v.volumeType
    && (!v.readOnly ==> !HasSuffix(v.volumeType, ReadSuffix))
  }

  /** Decoding an encoded mount gives the mount back. */
  lemma DecodeEncode(v: VolumeMountSpec)
    requires Encodable(v)
    ensures DecodeVolume(v.mountPath, EncodeVolume(v)) == Some(v)
  {
    var head := v.volumeType + (if v.readOnly then ReadSuffix else "");
    assert ':' !in head;
    ContainsChar(head, ':');
    SplitAfterFirst(head, v.volumeName, Colon);
    JoinSplit(v.volumeName, Colon);
    var parts := Split(EncodeVolume(v), Colon);
    assert parts[0] == head && parts[1..] == Split(v.volumeName, Colon);
    assert Join(parts[1..], Colon) == v.volumeName;
    if v.readOnly {
      assert head[|head| - |ReadSuffix|..] == ReadSuffix;
      assert HasSuffix(head, ReadSuffix);
      assert head[..|head| - |ReadSuffix|] == v.volumeType;
    } else {
      assert head == v.volumeType;
    }
    assert HasSuffix(parts[0], ReadSuffix) == v.readOnly;
    assert TrimSuffix(parts[0], ReadSuffix) == v.volumeType;
  }

  /** The mount paths a list writes. */
  function Paths(vm: seq<VolumeMountSpec>): set<string> {
    set i | 0 <= i < |vm| :: vm[i].mountPath
  }

  /** `vm[i]` is the last mount in the list with its path. */
  predicate LastWithPath(vm: seq<VolumeMountSpec>, i: int)
    requires 0 <= i < |vm|
  {
    forall j | i < j < |vm| :: vm[j].mountPath != vm[i].mountPath
  }

  /** The loop of `SetVolumeMounts`: each mount in turn overwrites its path. */
  function PutVolumes(m: map<string, string>, vm: seq<VolumeMountSpec>): (r: map<string, string>)
    decreases |vm|
  {
    if |vm| == 0 then m
    else PutVolumes(m[vm[0].mountPath := EncodeVolume(vm[0])], vm[1..])
  }

  lemma PathsCons(vm: seq<VolumeMountSpec>)
    requires |vm| > 0
    ensures Paths(vm) == {vm[0].mountPath} + Paths(vm[1..])
  {
    var rest := vm[1..];
    forall p | p in Paths(vm) ensures p in {vm[0].mountPath} + Paths(rest) {
      var i :| 0 <= i < |vm| && vm[i].mountPath == p;
      if i > 0 { assert rest[i - 1].mountPath == p; }
    }
    forall p | p in Paths(rest) ensures p in Paths(vm) {
      var i :| 0 <= i < |rest| && rest[i].mountPath == p;
      assert vm[i + 1].mountPath == p;
    }
  }

  /** The loop writes exactly the listed paths and leaves every other key alone. */
  lemma {:induction false} PutVolumesFrame(m: map<string, string>, vm: seq<VolumeMountSpec>)
    ensures PutVolumes(m, vm).Keys == m.Keys + Paths(vm)
    ensures forall k | k in m && k !in Paths(vm) :: PutVolumes(m, vm)[k] == m[k]
    decreases |vm|
  {
    if |vm| > 0 {
      PathsCons(vm);
      PutVolumesFrame(m[vm[0].mountPath := EncodeVolume(vm[0])], vm[1..]);
    }
  }

  /** The last mount written to a path decides its stored text. */
  lemma {:induction false} PutVolumesLast(m: map<string, string>, vm: seq<VolumeMountSpec>)
    ensures forall i | 0 <= i < |vm| && LastWithPath(vm, i) :: vm[i].mountPath in PutVolumes(m, vm)
    ensures forall i | 0 <= i < |vm| && LastWithPath(vm, i) ::
              PutVolumes(m, vm)[vm[i].mountPath] == EncodeVolume(vm[i])
    decreases |vm|
  {
    if |vm| > 0 {
      var m' := m[vm[0].mountPath := EncodeVolume(vm[0])];
      var rest := vm[1..];
      PathsCons(vm);
      PutVolumesFrame(m', rest);
      PutVolumesLast(m', rest);
      forall i | 0 <= i < |vm| && LastWithPath(vm, i)
        ensures vm[i].mountPath in PutVolumes(m, vm)
        ensures PutVolumes(m, vm)[vm[i].mountPath] == EncodeVolume(vm[i])
      {
        if i == 0 {
          assert vm[0].mountPath !in Paths(rest);
        } else {
          assert LastWithPath(rest, i - 1) && rest[i - 1] == vm[i];
        }
      }
    }
  }

  /** Go's `SetVolumeMounts`: a nil stage-in map becomes an empty one, each
      mount writes its own path (a later mount with the same path wins), and
      nothing else in the template changes. */
  function SetVolumeMounts(jt: JobTemplate, vm: seq<VolumeMountSpec>): (r: JobTemplate)
    ensures r.stageInFiles.Some?
    ensures r.(stageInFiles := jt.stageInFiles) == jt
    ensures r.stageInFiles.value.Keys == jt.stageInFiles.GetOr(map[]).Keys + Paths(vm)
    ensures forall k | k in jt.stageInFiles.GetOr(map[]) && k !in Paths(vm) ::
              r.stageInFiles.value[k] == jt.stageInFiles.value[k]
    ensures forall i | 0 <= i < |vm| && LastWithPath(vm, i) ::
              r.stageInFiles.value[vm[i].mountPath] == EncodeVolume(vm[i])
  {
    PutVolumesFrame(jt.stageInFiles.GetOr(map[]), vm);
    PutVolumesLast(jt.stageInFiles.GetOr(map[]), vm);
    jt.(stageInFiles := Some(PutVolumes(jt.stageInFiles.GetOr(map[]), vm)))
  }

  predicate Distinct(order: seq<string>) {
    forall i, j | 0 <= i < j < |order| :: order[i] != order[j]
  }

  /** `order` lists every key of `m` once: one possible Go map iteration order. */
  predicate Enumerates(order: seq<string>, m: map<string, string>) {
    && Distinct(order)
    && (forall i | 0 <= i < |order| :: order[i] in m)
    && (forall k | k in m :: k in order)
  }

  /** The loop of `GetVolumeMounts` over the keys in iteration order. */
  function DecodeAll(m: map<string, string>, order: seq<string>): (r: seq<VolumeMountSpec>)
    requires forall i | 0 <= i < |order| :: order[i] in m
    ensures |r| <= |order|
    decreases |order|
  {
    if |order| == 0 then []
    else
      match DecodeVolume(order[0], m[order[0]])
      case None => DecodeAll(m, order[1..])
      case Some(v) => [v] + DecodeAll(m, order[1..])
  }

  /** Every decoded mount comes from its own path's entry. */
  lemma {:induction false} DecodeAllSound(m: map<string, string>, order: seq<string>)
    requires forall i | 0 <= i < |order| :: order[i] in m
    ensures forall v | v in DecodeAll(m, order) ::
              v.mountPath in order && DecodeVolume(v.mountPath, m[v.mountPath]) == Some(v)
    decreases |order|
  {
    if |order| > 0 {
      DecodeAllSound(m, order[1..]);
    }
  }

  /** Every visited entry holding a colon is decoded. */
  lemma {:induction false} DecodeAllComplete(m: map<string, string>, order: seq<string>)
    requires forall i | 0 <= i < |order| :: order[i] in m
    ensures forall i | 0 <= i < |order| && Contains(m[order[i]], Colon) ::
              DecodeVolume(order[i], m[order[i]]).value in DecodeAll(m, order)
    decreases |order|
  {
    if |order| > 0 {
      DecodeAllComplete(m, order[1..]);
      assert forall i | 1 <= i < |order| :: order[i] == order[1..][i - 1];
    }
  }

  /** No two mounts of the list share a path. */
  predicate DistinctPaths(vm: seq<VolumeMountSpec>) {
    forall i, j | 0 <= i < j < |vm| :: vm[i].mountPath != vm[j].mountPath
  }

  lemma DistinctTail(order: seq<string>)
    requires |order| > 0 && Distinct(order)
    ensures Distinct(order[1..]) && order[0] !in order[1..]
  {
    forall i, j | 0 <= i < j < |order[1..]| ensures order[1..][i] != order[1..][j] {
      assert order[1..][i] == order[i + 1] && order[1..][j] == order[j + 1];
    }
    forall k | 0 <= k < |order[1..]| ensures order[1..][k] != order[0] {
      assert order[1..][k] == order[k + 1];
    }
  }

  lemma DistinctPathsCons(v: VolumeMountSpec, rest: seq<VolumeMountSpec>)
    requires DistinctPaths(rest)
    requires forall w | w in rest :: w.mountPath != v.mountPath
    ensures DistinctPaths([v] + rest)
  {
    var r := [v] + rest;
    forall i, j | 0 <= i < j < |r| ensures r[i].mountPath != r[j].mountPath {
      assert r[j] == rest[j - 1];
      if i == 0 {
        assert rest[j - 1] in rest;
      } else {
        assert r[i] == rest[i - 1];
      }
    }
  }

  /** Decoded mounts keep the paths they were visited under. */
  lemma {:induction false} DecodeAllPaths(m: map<string, string>, order: seq<string>)
    requires forall i | 0 <= i < |order| :: order[i] in m
    ensures forall v | v in DecodeAll(m, order) :: v.mountPath in order
    decreases |order|
  {
    if |order| > 0 {
      DecodeAllPaths(m, order[1..]);
    }
  }

  /** Visiting each key once decodes each path at most once. */
  lemma {:induction false} DecodeAllDistinct(m: map<string, string>, order: seq<string>)
    requires forall i | 0 <= i < |order| :: order[i] in m
    requires Distinct(order)
    ensures DistinctPaths(DecodeAll(m, order))
    decreases |order|
  {
    if |order| > 0 {
      var rest := DecodeAll(m, order[1..]);
      DistinctTail(order);
      DecodeAllDistinct(m, order[1..]);
      DecodeAllPaths(m, order[1..]);
      var d := DecodeVolume(order[0], m[order[0]]);
      if d.Some? {
        assert DecodeAll(m, order) == [d.value] + rest;
        DistinctPathsCons(d.value, rest);
      }
    }
  }

  /** Go's `GetVolumeMounts`: nil for a nil stage-in map; otherwise one mount
      per entry that holds a colon, in the map's iteration order `order`, each
      re-encoding to its stored text, and entries without a colon dropped. */
  function GetVolumeMounts(jt: JobTemplate, order: seq<string>): (r: Option<seq<VolumeMountSpec>>)
    requires jt.stageInFiles.Some? ==> Enumerates(order, jt.stageInFiles.value)
    ensures r.None? <==> jt.stageInFiles.None?
    ensures r.Some? ==> forall v | v in r.value ::
              && v.mountPath in jt.stageInFiles.value
              && DecodeVolume(v.mountPath, jt.stageInFiles.value[v.mountPath]) == Some(v)
              && EncodeVolume(v) == jt.stageInFiles.value[v.mountPath]
    ensures r.Some? ==> forall k | k in jt.stageInFiles.value && Contains(jt.stageInFiles.value[k], Colon) ::
              DecodeVolume(k, jt.stageInFiles.value[k]).value in r.value
    ensures r.Some? ==> DistinctPaths(r.value)
  {
    match jt.stageInFiles
    case None => None
    case Some(m) =>
      DecodeAllSound(m, order);
      DecodeAllComplete(m, order);
      DecodeAllDistinct(m, order);
      assert forall k | k in m :: exists i | 0 <= i < |order| :: order[i] == k;
      Some(DecodeAll(m, order))
  }

  /** What a round trip starts from: mounts with distinct paths that the
      codec can carry, written into a template with no stage-in entries, and
      one iteration order of the resulting map. */
  predicate RoundTripInput(jt: JobTemplate, vm: seq<VolumeMountSpec>, order: seq<string>) {
    && (jt.stageInFiles.None? || jt.stageInFiles == Some(map[]))
    && DistinctPaths(vm)
    && (forall i | 0 <= i < |vm| :: Encodable(vm[i]))
    && Enumerates(order, SetVolumeMounts(jt, vm).stageInFiles.value)
  }

  /** Every written mount is read back. */
  lemma RoundTripKeeps(jt: JobTemplate, vm: seq<VolumeMountSpec>, order: seq<string>)
    requires RoundTripInput(jt, vm, order)
    ensures forall i | 0 <= i < |vm| :: vm[i] in GetVolumeMounts(SetVolumeMounts(jt, vm), order).value
  {
    var m := SetVolumeMounts(jt, vm).stageInFiles.value;
    forall i | 0 <= i < |vm|
      ensures vm[i] in GetVolumeMounts(SetVolumeMounts(jt, vm), order).value
    {
      assert LastWithPath(vm, i);
      DecodeEncode(vm[i]);
      ContainsChar(m[vm[i].mountPath], ':');
    }
  }

  /** Every mount read back was written. */
  lemma RoundTripAddsNothing(jt: JobTemplate, vm: seq<VolumeMountSpec>, order: seq<string>)
    requires RoundTripInput(jt, vm, order)
    ensures forall v | v in GetVolumeMounts(SetVolumeMounts(jt, vm), order).value :: v in vm
  {
    var m := SetVolumeMounts(jt, vm).stageInFiles.value;
    assert m.Keys == Paths(vm);
    forall v | v in GetVolumeMounts(SetVolumeMounts(jt, vm), order).value
      ensures v in vm
    {
      assert v.mountPath in Paths(vm);
      var i :| 0 <= i < |vm| && vm[i].mountPath == v.mountPath;
      assert LastWithPath(vm, i);
      assert m[v.mountPath] == EncodeVolume(vm[i]);
      DecodeEncode(vm[i]);
    }
  }

  /** Mounts with distinct paths that the codec can carry, written into a
      template with no stage-in entries, come back as the same set of mounts
      whatever order the map is walked in. */
  lemma VolumeRoundTrip(jt: JobTemplate, vm: seq<VolumeMountSpec>, order: seq<string>)
    requires RoundTripInput(jt, vm, order)
    ensures GetVolumeMounts(SetVolumeMounts(jt, vm), order).Some?
    ensures forall v :: v in GetVolumeMounts(SetVolumeMounts(jt, vm), order).value <==> v in vm
    ensures (set v | v in GetVolumeMounts(SetVolumeMounts(jt, vm), order).value) == (set v | v in vm)
  {
    RoundTripKeeps(jt, vm, order);
    RoundTripAddsNothing(jt, vm, order);
  }
}
