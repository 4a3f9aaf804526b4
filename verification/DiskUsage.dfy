/** Per-device disk accounting (scripts/check_disk_usage.py). */
module DiskUsage {
  import opened Sequences
  import opened Wrappers

  datatype ResourceUsage = ResourceUsage(available: int, total: int, used: int, usedPercent: int)

  datatype FilesystemUsage = FilesystemUsage(
    aliases: seq<string>,
    blocks: ResourceUsage,
    deviceId: int,
    inodes: Option<ResourceUsage>)

  /** A path that could not be checked. */
  datatype CheckError = CheckError(error: string, path: string)

  /** What `os.statvfs` returns, as far as it is used. */
  datatype StatVfs = StatVfs(
    frsize: nat, bsize: nat, blocks: nat, bfree: nat, bavail: nat, files: nat, ffree: nat, favail: nat)

  /** What the system answers while one configured path is checked: resolving it,
      the device it is on, and the statistics of its filesystem. */
  datatype Answers = Answers(
    resolved: Result<string, string>,
    device: Result<int, string>,
    statistics: Result<StatVfs, string>)

  function Max0(n: int): int {
    if n < 0 then 0 else n
  }

  /** `used_percent`; `//` floors. */
  function UsedPercent(used: int, available: int): (p: int)
    ensures p <= 100
  {
    var denominator := used + available;
    if denominator <= 0 then 100
    else
      var p := (used * 100 + denominator - 1) / denominator;
      if p > 100 then 100 else p
  }

  function Usage(total: int, free: int, available: int): ResourceUsage {
    var used := Max0(total - free);
    ResourceUsage(Max0(available), Max0(total), used, UsedPercent(used, Max0(available)))
  }

  function FragmentSize(s: StatVfs): nat {
    if s.frsize != 0 then s.frsize else s.bsize
  }

  function Measured(path: string, device: int, s: StatVfs): FilesystemUsage {
    FilesystemUsage(
      [path],
      Usage(s.blocks * FragmentSize(s), s.bfree * FragmentSize(s), s.bavail * FragmentSize(s)),
      device,
      if s.files > 0 then Some(Usage(s.files, s.ffree, s.favail)) else None)
  }

  /** `is_near_full` */
  predicate NearFull(f: FilesystemUsage, threshold: int) {
    f.blocks.usedPercent >= threshold || (f.inodes.Some? && f.inodes.value.usedPercent >= threshold)
  }

  lemma CeilingAtLeast(n: int, d: int, t: int)
    requires d > 0
    ensures (n + d - 1) / d >= t <==> n > (t - 1) * d
  {
    var q, r := (n + d - 1) / d, (n + d - 1) % d;
    assert n + d - 1 == d * q + r;
    if q >= t {
      AtLeastTimes(d, t, q);
      assert (t - 1) * d == d * t - d;
    } else {
      AtLeastTimes(d, q + 1, t);
      assert d * (q + 1) == d * q + d;
      assert (t - 1) * d == d * t - d;
    }
  }

  lemma AtLeastTimes(d: int, a: int, b: int)
    requires d > 0 && a <= b
    ensures d * a <= d * b
  {
    assert d * (b - a) >= 0;
    assert d * b == d * a + d * (b - a);
  }

  /** The rounded percentage reaches a threshold exactly when the true ratio exceeds
      the next lower percentage, or when there is nothing to use at all: rounding up
      never hides a full edge. */
  lemma RoundingIsExact(used: int, available: int, threshold: int)
    requires used >= 0 && available >= 0 && 1 <= threshold <= 100
    ensures UsedPercent(used, available) >= threshold <==>
            used + available == 0 || used * 100 > (threshold - 1) * (used + available)
  {
    if used + available > 0 {
      CeilingAtLeast(used * 100, used + available, threshold);
    }
  }

  /** A resource below the threshold after rounding is strictly below it. */
  lemma BelowIsBelow(used: int, available: int, threshold: int)
    requires used >= 0 && available >= 0 && 1 <= threshold <= 100
    requires UsedPercent(used, available) < threshold
    ensures used * 100 < threshold * (used + available)
  {
    RoundingIsExact(used, available, threshold);
    var d := used + available;
    assert threshold * d == (threshold - 1) * d + d;
  }

  // ----- what the statistics say

  /** What is taken of a resource of which `free` is left. */
  function Taken(total: nat, free: nat): nat {
    if free <= total then total - free else 0
  }

  /** More is taken than the next lower percentage of what is taken or still available,
      or there is nothing at all. */
  predicate Crowded(total: nat, free: nat, available: nat, threshold: int) {
    var taken := Taken(total, free);
    taken + available == 0 || taken * 100 > (threshold - 1) * (taken + available)
  }

  /** Strictly less is taken than the percentage. */
  predicate Roomy(total: nat, free: nat, available: nat, threshold: int) {
    var taken := Taken(total, free);
    taken * 100 < threshold * (taken + available)
  }

  /** A filesystem is near full by the numbers of blocks, or of inodes if it has any. One
      that reports no fragment size counts as full. */
  predicate NearlyFull(s: StatVfs, threshold: int) {
    || (s.frsize == 0 && s.bsize == 0)
    || Crowded(s.blocks, s.bfree, s.bavail, threshold)
    || (s.files > 0 && Crowded(s.files, s.ffree, s.favail, threshold))
  }

  /** It is strictly below the threshold by both. */
  predicate StrictlyBelow(s: StatVfs, threshold: int) {
    && (s.frsize != 0 || s.bsize != 0)
    && Roomy(s.blocks, s.bfree, s.bavail, threshold)
    && (s.files > 0 ==> Roomy(s.files, s.ffree, s.favail, threshold))
  }

  lemma NotCrowdedIsRoomy(total: nat, free: nat, available: nat, threshold: int)
    requires !Crowded(total, free, available, threshold)
    ensures Roomy(total, free, available, threshold)
  {
    var all := Taken(total, free) + available;
    assert threshold * all == (threshold - 1) * all + all;
  }

  lemma Times(a: int, b: int, size: int)
    ensures (a + b) * size == a * size + b * size && (a - b) * size == a * size - b * size
  {
  }

  lemma TimesPositive(a: int, size: int)
    requires size > 0
    ensures a > 0 ==> a * size > 0
    ensures a == 0 ==> a * size == 0
    ensures a < 0 ==> a * size < 0
  {
  }

  /** Counting in units of `size` changes no ratio. */
  lemma CrowdedInUnits(taken: nat, available: nat, size: nat, threshold: int)
    requires size > 0
    ensures taken * size + available * size == 0 <==> taken + available == 0
    ensures taken * size * 100 > (threshold - 1) * (taken * size + available * size) <==>
            taken * 100 > (threshold - 1) * (taken + available)
  {
    var all := taken + available;
    Times(taken, available, size);
    TimesPositive(all, size);
    var excess := taken * 100 - (threshold - 1) * all;
    TimesPositive(excess, size);
    Times(taken * 100, (threshold - 1) * all, size);
    Associates(taken, 100, size);
    Associates(threshold - 1, all, size);
  }

  lemma Associates(a: int, b: int, size: int)
    ensures a * b * size == a * (b * size) && a * b * size == a * size * b
  {
  }

  /** The percentage of a resource counted in units of `size`. */
  lemma UsageMeans(total: nat, free: nat, available: nat, size: nat, threshold: int)
    requires 1 <= threshold <= 100
    ensures var u := Usage(total * size, free * size, available * size);
            && u.total == total * size && u.used == Taken(total, free) * size && u.available == available * size
            && (u.usedPercent >= threshold <==> size == 0 || Crowded(total, free, available, threshold))
  {
    hide UsedPercent;
    var taken := Taken(total, free);
    Times(total, free, size);
    Times(free, total, size);
    if size > 0 {
      TimesPositive(total, size);
      TimesPositive(available, size);
      TimesPositive(taken, size);
      TimesPositive(total - free, size);
      CrowdedInUnits(taken, available, size, threshold);
    }
    assert Max0(total * size - free * size) == taken * size;
    RoundingIsExact(taken * size, available * size, threshold);
  }

  /** An entry is near full exactly if the statistics it was measured by say so, and its
      numbers are theirs. */
  lemma MeasuredMeans(path: string, device: int, s: StatVfs, threshold: int)
    requires 1 <= threshold <= 100
    ensures var f := Measured(path, device, s);
            var size := if s.frsize != 0 then s.frsize else s.bsize;
            && (NearFull(f, threshold) <==> NearlyFull(s, threshold))
            && f.blocks.total == s.blocks * size && f.blocks.available == s.bavail * size
            && f.blocks.used == Taken(s.blocks, s.bfree) * size
            && (f.inodes.Some? <==> s.files > 0)
            && (f.inodes.Some? ==> && f.inodes.value.total == s.files && f.inodes.value.available == s.favail
                                   && f.inodes.value.used == Taken(s.files, s.ffree))
  {
    hide Usage, Crowded;
    UsageMeans(s.blocks, s.bfree, s.bavail, FragmentSize(s), threshold);
    UsageMeans(s.files, s.ffree, s.favail, 1, threshold);
  }

  // ----- inspect_filesystems

  /** The path an answer is recorded under. */
  function RecordedPath(configured: string, a: Answers): string {
    if a.resolved.Success? then a.resolved.value else configured
  }

  predicate OnDevice(a: Answers) {
    a.resolved.Success? && a.device.Success?
  }

  /** A path is accounted for: as an alias of its device's entry, or by an error. */
  ghost predicate Accounted(configured: string, a: Answers, list: seq<FilesystemUsage>, errors: seq<CheckError>) {
    || (OnDevice(a) && exists i ::
          0 <= i < |list| && list[i].deviceId == a.device.value && a.resolved.value in list[i].aliases)
    || (exists i :: 0 <= i < |errors| && errors[i].path == RecordedPath(configured, a))
  }

  /** An entry was measured on the path that is its first alias, and its aliases are
      different paths found on its device. */
  ghost predicate Genuine(f: FilesystemUsage, answers: seq<Answers>) {
    && f.aliases != [] && NoRepeats(f.aliases)
    && (exists k :: 0 <= k < |answers| && MeasuredBy(f, answers[k]))
    && forall i :: 0 <= i < |f.aliases| ==>
        exists k :: 0 <= k < |answers| && Resolves(answers[k], f.aliases[i], f.deviceId)
  }

  predicate MeasuredBy(f: FilesystemUsage, a: Answers)
    requires f.aliases != []
  {
    && Resolves(a, f.aliases[0], f.deviceId) && a.statistics.Success?
    && f.(aliases := [f.aliases[0]]) == Measured(f.aliases[0], f.deviceId, a.statistics.value)
  }

  predicate Resolves(a: Answers, path: string, device: int) {
    a.resolved == Success(path) && a.device == Success(device)
  }

  predicate DevicesUnique(list: seq<FilesystemUsage>) {
    forall i, j :: 0 <= i < j < |list| ==> list[i].deviceId != list[j].deviceId
  }

  /** Entries keep their places, devices and aliases. */
  ghost predicate Grows(a: seq<FilesystemUsage>, b: seq<FilesystemUsage>) {
    |a| <= |b| && forall i :: 0 <= i < |a| ==> a[i].deviceId == b[i].deviceId && forall p :: p in a[i].aliases ==>
        p in b[i].aliases
  }

  lemma StaysAccounted(configured: string, a: Answers, list: seq<FilesystemUsage>, list': seq<FilesystemUsage>,
                       errors: seq<CheckError>, errors': seq<CheckError>)
    requires Accounted(configured, a, list, errors) && Grows(list, list') && errors <= errors'
    ensures Accounted(configured, a, list', errors')
  {
    if i :| 0 <= i < |errors| && errors[i].path == RecordedPath(configured, a) {
      assert errors'[i] == errors[i];
    }
  }

  /** `inspect_filesystems`. The dictionary by device keeps insertion order, so it is
      a list here. */
  method InspectFilesystems(paths: seq<string>, answers: seq<Answers>)
    returns (list: seq<FilesystemUsage>, errors: seq<CheckError>)
    requires |paths| == |answers|
    ensures forall k :: 0 <= k < |paths| ==> Accounted(paths[k], answers[k], list, errors)
    ensures DevicesUnique(list)
    ensures forall i :: 0 <= i < |list| ==> Genuine(list[i], answers)
  {
    hide Genuine, Accounted, Grows;
    list, errors := [], [];
    for k := 0 to |paths|
      invariant forall m :: 0 <= m < k ==> Accounted(paths[m], answers[m], list, errors)
      invariant DevicesUnique(list)
      invariant forall i :: 0 <= i < |list| ==> Genuine(list[i], answers)
    {
      ghost var list0, errors0 := list, errors;
      list, errors := InspectOne(paths[k], answers[k], list, errors, k, answers);
      forall m | 0 <= m < k ensures Accounted(paths[m], answers[m], list, errors) {
        StaysAccounted(paths[m], answers[m], list0, list, errors0, errors);
      }
    }
  }

  /** One turn of the loop. */
  method InspectOne(configured: string, a: Answers, list: seq<FilesystemUsage>, errors: seq<CheckError>, ghost k: nat,
                    ghost answers: seq<Answers>)
    returns (list': seq<FilesystemUsage>, errors': seq<CheckError>)
    requires k < |answers| && answers[k] == a && DevicesUnique(list)
    requires forall i :: 0 <= i < |list| ==> Genuine(list[i], answers)
    ensures Accounted(configured, a, list', errors') && Grows(list, list') && errors <= errors'
    ensures DevicesUnique(list')
    ensures forall i :: 0 <= i < |list'| ==> Genuine(list'[i], answers)
  {
    list', errors' := list, errors;
    if a.resolved.Failure? {
      errors' := errors + [CheckError(a.resolved.error, configured)];
      assert errors'[|errors|].path == RecordedPath(configured, a);
      return;
    }
    var path := a.resolved.value;
    if a.device.Failure? {
      errors' := errors + [CheckError(a.device.error, path)];
      assert errors'[|errors|].path == RecordedPath(configured, a);
      return;
    }
    var device := a.device.value;
    if i :| 0 <= i < |list| && list[i].deviceId == device {
      if path !in list[i].aliases {
        var entry := list[i].(aliases := list[i].aliases + [path]);
        AliasAdded(list[i], path, k, answers);
        list' := list[i := entry];
        assert list'[i] == entry && path in entry.aliases;
      }
      assert list'[i].deviceId == device && path in list'[i].aliases;
      return;
    }
    if a.statistics.Failure? {
      errors' := errors + [CheckError(a.statistics.error, path)];
      assert errors'[|errors|].path == RecordedPath(configured, a);
      return;
    }
    var entry := Measured(path, device, a.statistics.value);
    list' := list + [entry];
    assert MeasuredBy(entry, answers[k]) && Resolves(answers[k], path, device);
    assert Genuine(entry, answers);
    assert list'[|list|] == entry;
  }

  lemma AliasAdded(f: FilesystemUsage, path: string, k: nat, answers: seq<Answers>)
    requires Genuine(f, answers) && k < |answers| && Resolves(answers[k], path, f.deviceId) && path !in f.aliases
    ensures Genuine(f.(aliases := f.aliases + [path]), answers)
  {
    var g := f.(aliases := f.aliases + [path]);
    var m :| 0 <= m < |answers| && MeasuredBy(f, answers[m]);
    assert MeasuredBy(g, answers[m]);
    forall i | 0 <= i < |g.aliases|
      ensures exists n :: 0 <= n < |answers| && Resolves(answers[n], g.aliases[i], g.deviceId)
    {
      if i < |f.aliases| {
        assert g.aliases[i] == f.aliases[i];
      }
    }
  }

  // ----- build_event

  datatype Status = Ok | Alert | Error

  function NearFullDevices(list: seq<FilesystemUsage>, threshold: int): seq<int> {
    if list == [] then []
    else (if NearFull(list[0], threshold) then [list[0].deviceId] else []) + NearFullDevices(list[1..], threshold)
  }

  lemma {:induction false} NearFullMeans(list: seq<FilesystemUsage>, threshold: int)
    ensures forall d :: d in NearFullDevices(list, threshold) <==>
              exists i :: 0 <= i < |list| && list[i].deviceId == d && NearFull(list[i], threshold)
  {
    if list != [] {
      NearFullMeans(list[1..], threshold);
      assert forall i :: 1 <= i < |list| ==> list[i] == list[1..][i - 1];
      assert forall i :: 0 <= i < |list[1..]| ==> list[1..][i] == list[i + 1];
    }
  }

  /** The statistics answered for some path on the device. */
  predicate StatisticsOf(s: StatVfs, device: int, a: Answers) {
    OnDevice(a) && a.device.value == device && a.statistics == Success(s)
  }

  /** The statistics of an entry's device say whether it is near full. */
  lemma GenuineMeans(f: FilesystemUsage, answers: seq<Answers>, threshold: int)
    requires Genuine(f, answers) && 1 <= threshold <= 100
    ensures exists k, s :: 0 <= k < |answers| && StatisticsOf(s, f.deviceId, answers[k])
                           && (NearFull(f, threshold) <==> NearlyFull(s, threshold))
  {
    hide NearFull, NearlyFull, Measured;
    var k :| 0 <= k < |answers| && MeasuredBy(f, answers[k]);
    var s := answers[k].statistics.value;
    MeasuredMeans(f.aliases[0], f.deviceId, s, threshold);
    NearFullOfAliases(f, [f.aliases[0]], threshold);
    assert StatisticsOf(s, f.deviceId, answers[k]);
  }

  lemma NearFullOfAliases(f: FilesystemUsage, aliases: seq<string>, threshold: int)
    ensures NearFull(f.(aliases := aliases), threshold) == NearFull(f, threshold)
  {
  }

  lemma BelowUnlessNearlyFull(s: StatVfs, threshold: int)
    requires !NearlyFull(s, threshold)
    ensures StrictlyBelow(s, threshold)
  {
    NotCrowdedIsRoomy(s.blocks, s.bfree, s.bavail, threshold);
    if s.files > 0 {
      NotCrowdedIsRoomy(s.files, s.ffree, s.favail, threshold);
    }
  }

  /** Some path on the device answered with such statistics. */
  ghost predicate SomeAnswer(answers: seq<Answers>, device: int, p: StatVfs -> bool) {
    exists k, s :: 0 <= k < |answers| && StatisticsOf(s, device, answers[k]) && p(s)
  }

  function IsNearlyFull(threshold: int): StatVfs -> bool {
    s => NearlyFull(s, threshold)
  }

  function IsStrictlyBelow(threshold: int): StatVfs -> bool {
    s => StrictlyBelow(s, threshold)
  }

  /** `build_event`: the status, the devices reported near full, and the exit code. The
      devices reported are those whose statistics say so. Exit code 0 hides nothing: every
      path is an alias of a checked device, and every checked device is strictly below the
      threshold, unrounded. With exit code 1, nothing went wrong and some device has at
      least reached the next lower percentage. */
  method BuildEvent(paths: seq<string>, answers: seq<Answers>, threshold: int)
    returns (status: Status, nearFull: seq<int>, exitCode: int, list: seq<FilesystemUsage>, errors: seq<CheckError>)
    requires |paths| == |answers| && 1 <= threshold <= 100
    ensures forall k :: 0 <= k < |paths| ==> Accounted(paths[k], answers[k], list, errors)
    ensures DevicesUnique(list) && forall i :: 0 <= i < |list| ==> Genuine(list[i], answers)
    ensures nearFull == NearFullDevices(list, threshold)
    ensures forall d :: d in nearFull ==> SomeAnswer(answers, d, IsNearlyFull(threshold))
    ensures forall i :: 0 <= i < |list| && list[i].deviceId !in nearFull ==>
              SomeAnswer(answers, list[i].deviceId, IsStrictlyBelow(threshold))
    ensures status == (if errors != [] then Error else if nearFull != [] then Alert else Ok)
    ensures exitCode == match status case Ok => 0 case Alert => 1 case Error => 2
    ensures exitCode == 0 ==>
              && (forall k :: 0 <= k < |paths| ==> OnDevice(answers[k]) && Accounted(paths[k], answers[k], list, []))
              && forall i :: 0 <= i < |list| ==> SomeAnswer(answers, list[i].deviceId, IsStrictlyBelow(threshold))
    ensures exitCode == 1 ==>
              && (forall k :: 0 <= k < |paths| ==> OnDevice(answers[k]) && Accounted(paths[k], answers[k], list, []))
              && exists i :: 0 <= i < |list| && SomeAnswer(answers, list[i].deviceId, IsNearlyFull(threshold))
  {
    hide NearFull, NearlyFull, StrictlyBelow, Genuine;
    list, errors := InspectFilesystems(paths, answers);
    nearFull := NearFullDevices(list, threshold);
    forall i | 0 <= i < |list|
      ensures if NearFull(list[i], threshold) then SomeAnswer(answers, list[i].deviceId, IsNearlyFull(threshold))
              else SomeAnswer(answers, list[i].deviceId, IsStrictlyBelow(threshold))
    {
      GenuineMeans(list[i], answers, threshold);
      var k, s :| 0 <= k < |answers| && StatisticsOf(s, list[i].deviceId, answers[k])
                  && (NearFull(list[i], threshold) <==> NearlyFull(s, threshold));
      if !NearlyFull(s, threshold) {
        BelowUnlessNearlyFull(s, threshold);
        assert IsStrictlyBelow(threshold)(s);
      } else {
        assert IsNearlyFull(threshold)(s);
      }
    }
    NearFullMeans(list, threshold);
    if errors != [] {
      status, exitCode := Error, 2;
    } else if nearFull != [] {
      assert nearFull[0] in nearFull;
      ghost var i :| 0 <= i < |list| && list[i].deviceId == nearFull[0] && NearFull(list[i], threshold);
      status, exitCode := Alert, 1;
    } else {
      status, exitCode := Ok, 0;
    }
  }
}
