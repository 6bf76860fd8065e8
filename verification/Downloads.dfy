/** One whole download run: devices, file types, configs, and where each file goes. */
module Downloads {
  import opened Json
  import opened Options
  import opened Sequences
  import opened SafePaths
  import opened UniquePaths

  // ----- Responses

  /** What the run reads from one config entry. */
  datatype Config = Config(filename: Option<string>, content: Option<string>, deviceName: Option<string>)

  /** The configs of one device and type, or a RuntimeError. */
  datatype Fetched = Configs(configs: seq<Config>) | Raised

  function StringIn(v: Option<Value>): Option<string> {
    if v.Some? && v.value.String? then Some(v.value.s) else None
  }

  function NameIn(v: Option<Value>): Option<string> {
    if v.Some? && v.value.Object? then
      var name := StringIn(Field(v.value.fields, "name"));
      if name.Some? && Strip(name.value, IsSpace) != "" then name else None
    else None
  }

  function ConfigOf(entry: map<string, Value>): Config {
    var filename := StringIn(Field(entry, "filename"));
    Config(if filename == Some("") then None else filename,
           StringIn(Field(entry, "content")),
           NameIn(Field(entry, "device")))
  }

  /** `fetch_device_configs` on what the API answers, None if the request itself raises. */
  function FetchedOf(answer: Option<Value>): Fetched {
    if answer.None? || !answer.value.Array? then Raised
    else
      var items := answer.value.items;
      if forall i :: 0 <= i < |items| ==> items[i].Object?
      then Configs(seq(|items|, i requires 0 <= i < |items| => ConfigOf(items[i].fields)))
      else Raised
  }

  /** `device_name_from_configs`: the first usable name, or the uuid. */
  function DeviceName(uuid: string, configs: seq<Config>): string {
    if configs == [] then uuid
    else if configs[0].deviceName.Some? then configs[0].deviceName.value
    else DeviceName(uuid, configs[1..])
  }

  // ----- What a run writes, in order

  datatype Write = Write(uuid: string, deviceName: string, fileType: string, filename: string, content: string)

  /** The writes made before the work ends or a RuntimeError stops it. */
  datatype Plan = Plan(writes: seq<Write>, failed: bool)

  function Then(first: Plan, second: Plan): Plan {
    if first.failed then first else Plan(first.writes + second.writes, second.failed)
  }

  function PlanConfig(uuid: string, name: string, fileType: string, config: Config): Plan {
    if config.filename.None? || config.content.None? then Plan([], true)
    else Plan([Write(uuid, name, fileType, config.filename.value, config.content.value)], false)
  }

  function PlanConfigs(uuid: string, name: string, fileType: string, configs: seq<Config>): Plan {
    if configs == [] then Plan([], false)
    else
      var n := |configs| - 1;
      Then(PlanConfigs(uuid, name, fileType, configs[..n]), PlanConfig(uuid, name, fileType, configs[n]))
  }

  function PlanFetched(uuid: string, fileType: string, fetched: Fetched): Plan {
    if fetched.Raised? then Plan([], true)
    else PlanConfigs(uuid, DeviceName(uuid, fetched.configs), fileType, fetched.configs)
  }

  /** The whole work on one device. */
  function PlanDevice(uuid: string, fileTypes: seq<string>, fetch: (string, string) -> Option<Value>): Plan {
    if fileTypes == [] then Plan([], false)
    else
      var n := |fileTypes| - 1;
      var last := PlanFetched(uuid, fileTypes[n], FetchedOf(fetch(uuid, fileTypes[n])));
      Then(PlanDevice(uuid, fileTypes[..n], fetch), last)
  }

  /** The writes of a whole run: device by device, type by type, config by config. */
  function AllWrites(uuids: seq<string>, fileTypes: seq<string>, fetch: (string, string) -> Option<Value>): seq<Write> {
    if uuids == [] then []
    else
      var n := |uuids| - 1;
      AllWrites(uuids[..n], fileTypes, fetch) + PlanDevice(uuids[n], fileTypes, fetch).writes
  }

  datatype Outcome = Written | Skipped | Failed

  function OutcomeOf(plan: Plan): Outcome {
    if plan.failed then Failed else if plan.writes == [] then Skipped else Written
  }

  /** The devices with a given outcome, in order. */
  function DevicesWith(outcome: Outcome, uuids: seq<string>, fileTypes: seq<string>,
                       fetch: (string, string) -> Option<Value>): seq<string> {
    if uuids == [] then []
    else
      var n := |uuids| - 1;
      DevicesWith(outcome, uuids[..n], fileTypes, fetch)
      + if OutcomeOf(PlanDevice(uuids[n], fileTypes, fetch)) == outcome then [uuids[n]] else []
  }

  // ----- Where each file goes

  /** `output_dir / [file_type /] device_dir / safe_config_path(filename)` */
  function Target(outputDir: PosixPath, withTypeDir: bool, w: Write): (path: PosixPath)
    ensures path.names != []
  {
    SafeNamesAreSafe(w.filename);
    var deviceDir := SafePathComponent(w.deviceName, w.uuid);
    var relative := Slash(Parse(deviceDir), PosixPath("", SafeNames(w.filename)));
    Slash(outputDir, if withTypeDir then Slash(Parse(w.fileType), relative) else relative)
  }

  /** The paths a run gives its writes: each the first candidate its predecessors left free. */
  ghost function Placed(outputDir: PosixPath, withTypeDir: bool, writes: seq<Write>): (paths: seq<PosixPath>)
    ensures |paths| == |writes|
  {
    if writes == [] then []
    else
      var n := |writes| - 1;
      var before := Placed(outputDir, withTypeDir, writes[..n]);
      before + [Fresh(Target(outputDir, withTypeDir, writes[n]), SetOf(before))]
  }

  lemma PlacedMore(outputDir: PosixPath, withTypeDir: bool, writes: seq<Write>, w: Write)
    ensures var before := Placed(outputDir, withTypeDir, writes);
            Placed(outputDir, withTypeDir, writes + [w])
            == before + [Fresh(Target(outputDir, withTypeDir, w), SetOf(before))]
  {
    assert (writes + [w])[..|writes|] == writes;
  }

  // ----- The run

  datatype DownloadResult = DownloadResult(write: Write, path: PosixPath)

  function WritesOf(results: seq<DownloadResult>): seq<Write> {
    seq(|results|, i requires 0 <= i < |results| => results[i].write)
  }

  function PathsOf(results: seq<DownloadResult>): seq<PosixPath> {
    seq(|results|, i requires 0 <= i < |results| => results[i].path)
  }

  lemma OneMoreResult(results: seq<DownloadResult>, r: DownloadResult)
    ensures WritesOf(results + [r]) == WritesOf(results) + [r.write]
    ensures PathsOf(results + [r]) == PathsOf(results) + [r.path]
    ensures SetOf(PathsOf(results + [r])) == SetOf(PathsOf(results)) + {r.path}
  {
    assert PathsOf(results + [r]) == PathsOf(results) + [r.path];
  }

  lemma UnusedPath(results: seq<DownloadResult>, path: PosixPath)
    requires path !in SetOf(PathsOf(results))
    ensures forall i :: 0 <= i < |results| ==> results[i].path != path
  {
    forall i | 0 <= i < |results| ensures results[i].path != path {
      assert PathsOf(results)[i] == results[i].path;
    }
  }

  /** The local disk: the text last written to each path. */
  class Disk {
    var files: map<PosixPath, string>

    constructor ()
      ensures files == map[]
    {
      files := map[];
    }
  }

  /** The state of a run: its results, the paths they took and the files on disk agree. */
  class Download {
    const outputDir: PosixPath
    const withTypeDir: bool
    var results: seq<DownloadResult>
    const used: UsedPaths
    const disk: Disk

    constructor (outputDir: PosixPath, withTypeDir: bool)
      ensures this.outputDir == outputDir && this.withTypeDir == withTypeDir
      ensures results == [] && Valid() && fresh(used) && fresh(disk)
    {
      this.outputDir := outputDir;
      this.withTypeDir := withTypeDir;
      results := [];
      used := new UsedPaths();
      disk := new Disk();
    }

    ghost predicate Valid()
      reads this, used, disk
    {
      && PathsOf(results) == Placed(outputDir, withTypeDir, WritesOf(results))
      && used.paths == SetOf(PathsOf(results))
      && Stored()
    }

    /** Every result's path holds that result's content. */
    ghost predicate Stored()
      reads this, disk
    {
      forall i :: 0 <= i < |results| ==>
        results[i].path in disk.files && disk.files[results[i].path] == results[i].write.content
    }

    /** `write_config_file`, and the result appended to the list. */
    method WriteConfigFile(w: Write)
      requires Valid()
      modifies `results, used, disk
      ensures Valid() && WritesOf(results) == WritesOf(old(results)) + [w]
    {
      hide Placed, WritesOf, PathsOf, Target, Fresh;
      var relative := Target(outputDir, withTypeDir, w);
      var path, tested := UniquePath(relative, used);
      PlacedMore(outputDir, withTypeDir, WritesOf(results), w);
      OneMoreResult(results, DownloadResult(w, path));
      UnusedPath(results, path);
      disk.files := disk.files[path := w.content];
      results := results + [DownloadResult(w, path)];
    }

    /** The work on one device; `failed` is a RuntimeError raised on the way. */
    method DownloadDevice(uuid: string, fileTypes: seq<string>, fetch: (string, string) -> Option<Value>)
      returns (failed: bool, written: nat)
      requires Valid()
      modifies `results, used, disk
      ensures Valid()
      ensures
        var plan := PlanDevice(uuid, fileTypes, fetch);
        && WritesOf(results) == WritesOf(old(results)) + plan.writes
        && failed == plan.failed && written == |plan.writes|
    {
      hide WritesOf, Stored, Placed, PathsOf, PlanDevice, PlanConfigs;
      written := 0;
      EmptyPlans(uuid, fileTypes, fetch);
      for i := 0 to |fileTypes|
        invariant Valid()
        invariant !PlanDevice(uuid, fileTypes[..i], fetch).failed
        invariant WritesOf(results) == WritesOf(old(results)) + PlanDevice(uuid, fileTypes[..i], fetch).writes
        invariant written == |PlanDevice(uuid, fileTypes[..i], fetch).writes|
      {
        PlanDeviceMore(uuid, fileTypes, i, fetch);
        var fetched := FetchedOf(fetch(uuid, fileTypes[i]));
        if fetched.Raised? {
          FailedStays(uuid, fileTypes, i + 1, fetch);
          return true, written;
        }
        var name := DeviceName(uuid, fetched.configs);
        var bad, more := DownloadConfigs(uuid, name, fileTypes[i], fetched.configs);
        written := written + more;
        if bad {
          FailedStays(uuid, fileTypes, i + 1, fetch);
          return true, written;
        }
      }
      assert fileTypes[..|fileTypes|] == fileTypes;
      failed := false;
    }

    /** The loop over the configs of one type. */
    method DownloadConfigs(uuid: string, name: string, fileType: string, configs: seq<Config>)
      returns (failed: bool, written: nat)
      requires Valid()
      modifies `results, used, disk
      ensures Valid()
      ensures
        var plan := PlanConfigs(uuid, name, fileType, configs);
        && WritesOf(results) == WritesOf(old(results)) + plan.writes
        && failed == plan.failed && written == |plan.writes|
    {
      hide WritesOf, Stored, Placed, PathsOf;
      written := 0;
      for i := 0 to |configs|
        invariant Valid()
        invariant !PlanConfigs(uuid, name, fileType, configs[..i]).failed
        invariant WritesOf(results) == WritesOf(old(results)) + PlanConfigs(uuid, name, fileType, configs[..i]).writes
        invariant written == |PlanConfigs(uuid, name, fileType, configs[..i]).writes|
      {
        PlanConfigsMore(uuid, name, fileType, configs, i);
        if configs[i].filename == None || configs[i].content == None {
          ConfigFailedStays(uuid, name, fileType, configs, i + 1);
          return true, written;
        }
        WriteConfigFile(Write(uuid, name, fileType, configs[i].filename.value, configs[i].content.value));
        written := written + 1;
      }
      assert configs[..|configs|] == configs;
      failed := false;
    }
  }

  lemma PlanConfigsMore(uuid: string, name: string, fileType: string, configs: seq<Config>, i: nat)
    requires i < |configs|
    ensures PlanConfigs(uuid, name, fileType, configs[..i + 1])
         == Then(PlanConfigs(uuid, name, fileType, configs[..i]), PlanConfig(uuid, name, fileType, configs[i]))
  {
    assert configs[..i + 1][..i] == configs[..i];
  }

  lemma {:induction false} ConfigFailedStays(uuid: string, name: string, fileType: string, configs: seq<Config>, i: nat)
    requires i <= |configs| && PlanConfigs(uuid, name, fileType, configs[..i]).failed
    ensures PlanConfigs(uuid, name, fileType, configs) == PlanConfigs(uuid, name, fileType, configs[..i])
    decreases |configs| - i
  {
    if i == |configs| {
      assert configs[..i] == configs;
    } else {
      PlanConfigsMore(uuid, name, fileType, configs, i);
      ConfigFailedStays(uuid, name, fileType, configs, i + 1);
    }
  }

  lemma EmptyPlans(uuid: string, fileTypes: seq<string>, fetch: (string, string) -> Option<Value>)
    ensures PlanDevice(uuid, fileTypes[..0], fetch) == Plan([], false)
  {
  }

  lemma PlanDeviceMore(uuid: string, fileTypes: seq<string>, i: nat, fetch: (string, string) -> Option<Value>)
    requires i < |fileTypes|
    ensures PlanDevice(uuid, fileTypes[..i + 1], fetch)
         == Then(PlanDevice(uuid, fileTypes[..i], fetch),
                 PlanFetched(uuid, fileTypes[i], FetchedOf(fetch(uuid, fileTypes[i]))))
  {
    assert fileTypes[..i + 1][..i] == fileTypes[..i];
  }

  lemma {:induction false} FailedStays(uuid: string, fileTypes: seq<string>, i: nat,
                                       fetch: (string, string) -> Option<Value>)
    requires i <= |fileTypes| && PlanDevice(uuid, fileTypes[..i], fetch).failed
    ensures PlanDevice(uuid, fileTypes, fetch) == PlanDevice(uuid, fileTypes[..i], fetch)
    decreases |fileTypes| - i
  {
    if i == |fileTypes| {
      assert fileTypes[..i] == fileTypes;
    } else {
      PlanDeviceMore(uuid, fileTypes, i, fetch);
      FailedStays(uuid, fileTypes, i + 1, fetch);
    }
  }

  lemma OneMoreDevice(uuids: seq<string>, i: nat, fileTypes: seq<string>, fetch: (string, string) -> Option<Value>)
    requires i < |uuids|
    ensures AllWrites(uuids[..i + 1], fileTypes, fetch)
         == AllWrites(uuids[..i], fileTypes, fetch) + PlanDevice(uuids[i], fileTypes, fetch).writes
    ensures forall o :: (DevicesWith(o, uuids[..i + 1], fileTypes, fetch)
         == DevicesWith(o, uuids[..i], fileTypes, fetch)
            + if OutcomeOf(PlanDevice(uuids[i], fileTypes, fetch)) == o then [uuids[i]] else [])
  {
    assert uuids[..i + 1][..i] == uuids[..i];
  }

  /** The whole run over the listed devices. A RuntimeError ends the work on its device only,
      and what that device had already written stays. */
  method DownloadAll(outputDir: PosixPath, fileTypes: seq<string>, uuids: seq<string>,
                     fetch: (string, string) -> Option<Value>)
    returns (run: Download, skipped: seq<string>, failures: seq<string>)
    ensures fresh(run) && run.Valid() && run.outputDir == outputDir && run.withTypeDir == (|fileTypes| > 1)
    ensures WritesOf(run.results) == AllWrites(uuids, fileTypes, fetch)
    ensures PathsOf(run.results) == Placed(outputDir, |fileTypes| > 1, AllWrites(uuids, fileTypes, fetch))
    ensures skipped == DevicesWith(Skipped, uuids, fileTypes, fetch)
    ensures failures == DevicesWith(Failed, uuids, fileTypes, fetch)
    ensures NoDuplicates(uuids) ==> forall uuid :: uuid in uuids ==>
      Accounted(uuid, WritesOf(run.results), skipped, failures, ReturnedFor(uuid, fileTypes, fetch))
  {
    hide PlanDevice, WritesOf, PathsOf, Placed, Accounted, NoDuplicates, ReturnedFor;
    run := new Download(outputDir, |fileTypes| > 1);
    skipped, failures := [], [];
    assert WritesOf(run.results) == [] by {
      NoResults();
    }
    for i := 0 to |uuids|
      invariant fresh(run) && fresh(run.used) && fresh(run.disk) && run.Valid()
      invariant WritesOf(run.results) == AllWrites(uuids[..i], fileTypes, fetch)
      invariant skipped == DevicesWith(Skipped, uuids[..i], fileTypes, fetch)
      invariant failures == DevicesWith(Failed, uuids[..i], fileTypes, fetch)
    {
      OneMoreDevice(uuids, i, fileTypes, fetch);
      var failed, written := run.DownloadDevice(uuids[i], fileTypes, fetch);
      if failed {
        failures := failures + [uuids[i]];
      } else if written == 0 {
        skipped := skipped + [uuids[i]];
      }
    }
    assert uuids[..|uuids|] == uuids;
    forall uuid | NoDuplicates(uuids) && uuid in uuids
      ensures Accounted(uuid, WritesOf(run.results), skipped, failures, ReturnedFor(uuid, fileTypes, fetch))
    {
      EveryDeviceOnce(uuids, fileTypes, fetch, uuid);
    }
  }

  lemma NoResults()
    ensures WritesOf([]) == []
  {
  }

  // ----- What the run guarantees

  /** All result paths of a run are pairwise distinct. */
  lemma {:induction false} PlacedDiffer(outputDir: PosixPath, withTypeDir: bool, writes: seq<Write>)
    ensures NoDuplicates(Placed(outputDir, withTypeDir, writes))
  {
    if writes != [] {
      var n := |writes| - 1;
      var before := Placed(outputDir, withTypeDir, writes[..n]);
      PlacedDiffer(outputDir, withTypeDir, writes[..n]);
      NoDuplicatesAppend(before, Fresh(Target(outputDir, withTypeDir, writes[n]), SetOf(before)));
    }
  }

  /** Each result path is its own target or a numbered variant of it. */
  lemma {:induction false} PlacedAt(outputDir: PosixPath, withTypeDir: bool, writes: seq<Write>, i: nat)
    returns (round: nat)
    requires i < |writes|
    ensures Placed(outputDir, withTypeDir, writes)[i] == Candidate(Target(outputDir, withTypeDir, writes[i]), round)
  {
    var n := |writes| - 1;
    var before := Placed(outputDir, withTypeDir, writes[..n]);
    if i == n {
      round := FreshRound(Target(outputDir, withTypeDir, writes[n]), SetOf(before), 0);
    } else {
      round := PlacedAt(outputDir, withTypeDir, writes[..n], i);
    }
  }

  /** The directory of the device is a clean name. */
  predicate CleanDevice(w: Write) {
    Sanitized(w.deviceName) != "" || IsClean(w.uuid)
  }

  /** For a device with a clean directory the target is the output directory followed by the
      type (if types have directories), the device and the safe file path. */
  lemma TargetUnderOutput(outputDir: PosixPath, withTypeDir: bool, w: Write)
    requires CleanDevice(w) && IsPlain(w.fileType)
    ensures Target(outputDir, withTypeDir, w)
         == PosixPath(outputDir.root, outputDir.names + (if withTypeDir then [w.fileType] else [])
              + [SafePathComponent(w.deviceName, w.uuid)] + SafeNames(w.filename))
  {
    hide SafePathComponent, SafeNames, Parse;
    var deviceDir := SafePathComponent(w.deviceName, w.uuid);
    SafePathComponentCleanWhen(w.deviceName, w.uuid);
    CleanIsPlain(deviceDir);
    ParsePlain(deviceDir);
    ParsePlain(w.fileType);
    var tail := [deviceDir] + SafeNames(w.filename);
    assert [w.fileType] + tail == [w.fileType] + [deviceDir] + SafeNames(w.filename);
    assert outputDir.names + ([w.fileType] + tail)
        == outputDir.names + [w.fileType] + [deviceDir] + SafeNames(w.filename);
    assert outputDir.names + tail == outputDir.names + [] + [deviceDir] + SafeNames(w.filename);
  }

  /** `path` lies under `dir` and gets there without `..`. */
  predicate Under(dir: PosixPath, path: PosixPath) {
    && path.root == dir.root
    && dir.names < path.names
    && ".." !in path.names[|dir.names|..]
  }

  lemma TargetNamesSafe(outputDir: PosixPath, withTypeDir: bool, w: Write)
    requires CleanDevice(w) && IsPlain(w.fileType) && w.fileType != ".."
    ensures Under(outputDir, Target(outputDir, withTypeDir, w))
    ensures LastName(Target(outputDir, withTypeDir, w)) in SafeNames(w.filename)
    ensures |Target(outputDir, withTypeDir, w).names| >= |outputDir.names| + (if withTypeDir then 3 else 2)
    ensures withTypeDir ==> Target(outputDir, withTypeDir, w).names[|outputDir.names|] == w.fileType
  {
    hide SafePathComponent, SafeNames, Target, Sanitized;
    var deviceDir := SafePathComponent(w.deviceName, w.uuid);
    TargetUnderOutput(outputDir, withTypeDir, w);
    SafeNamesAreSafe(w.filename);
    SafePathComponentCleanWhen(w.deviceName, w.uuid);
    CleanIsPlain(deviceDir);
    var top := if withTypeDir then [w.fileType] else [];
    var names := Target(outputDir, withTypeDir, w).names;
    assert names[|outputDir.names|..] == top + [deviceDir] + SafeNames(w.filename);
    assert names[..|outputDir.names|] == outputDir.names;
    assert LastName(Target(outputDir, withTypeDir, w)) == SafeNames(w.filename)[|SafeNames(w.filename)| - 1];
  }

  lemma CandidateUnder(dir: PosixPath, target: PosixPath, round: nat)
    requires Under(dir, target) && target.names != [] && LastName(target) != ""
    ensures Under(dir, Candidate(target, round))
    ensures |dir.names| + 1 < |target.names| ==>
              Candidate(target, round).names[|dir.names|] == target.names[|dir.names|]
  {
    if round > 0 {
      var last := Numbered(LastName(target), round + 1);
      assert |last| > 2;
      var front := target.names[..|target.names| - 1];
      var d := |dir.names|;
      assert (front + [last])[d..] == target.names[d..][..|target.names| - 1 - d] + [last];
      assert (front + [last])[..d] == target.names[..d];
    }
  }

  /** Every file of a device with a clean directory ends up under the output directory, and
      under its type's directory when types have one, whatever its name and number. */
  lemma CandidateUnderOutput(outputDir: PosixPath, withTypeDir: bool, w: Write, round: nat)
    requires CleanDevice(w) && IsPlain(w.fileType) && w.fileType != ".."
    ensures Under(outputDir, Candidate(Target(outputDir, withTypeDir, w), round))
    ensures withTypeDir ==> Candidate(Target(outputDir, withTypeDir, w), round).names[|outputDir.names|] == w.fileType
  {
    hide Target, SafeNames, Candidate;
    TargetNamesSafe(outputDir, withTypeDir, w);
    SafeNamesAreSafe(w.filename);
    CandidateUnder(outputDir, Target(outputDir, withTypeDir, w), round);
  }

  /** With a directory per type, files of different types never share a path. */
  lemma TypesNeverCollide(outputDir: PosixPath, a: Write, b: Write, i: nat, j: nat)
    requires CleanDevice(a) && CleanDevice(b) && IsPlain(a.fileType) && IsPlain(b.fileType)
    requires a.fileType != ".." && b.fileType != ".." && a.fileType != b.fileType
    ensures Candidate(Target(outputDir, true, a), i) != Candidate(Target(outputDir, true, b), j)
  {
    CandidateUnderOutput(outputDir, true, a, i);
    CandidateUnderOutput(outputDir, true, b, j);
  }

  // ----- One type alone

  /** The writes of one type, in order. */
  function OfType(fileType: string, writes: seq<Write>): seq<Write> {
    if writes == [] then []
    else
      var last := writes[|writes| - 1];
      OfType(fileType, writes[..|writes| - 1]) + if last.fileType == fileType then [last] else []
  }

  /** The paths that belong to them. */
  function PathsOfType(fileType: string, writes: seq<Write>, paths: seq<PosixPath>): seq<PosixPath>
    requires |writes| == |paths|
  {
    if writes == [] then []
    else
      var n := |writes| - 1;
      PathsOfType(fileType, writes[..n], paths[..n]) + if writes[n].fileType == fileType then [paths[n]] else []
  }

  ghost predicate InTypeDirectory(w: Write) {
    CleanDevice(w) && IsPlain(w.fileType) && w.fileType != ".."
  }

  /** What a file of the type could be called is taken by some file of a mixed run exactly if
      it is taken by a file of the type. */
  lemma {:induction false} TakenByOwnType(outputDir: PosixPath, writes: seq<Write>, w: Write, round: nat)
    requires InTypeDirectory(w) && forall v :: v in writes ==> InTypeDirectory(v)
    ensures
      var paths, candidate := Placed(outputDir, true, writes), Candidate(Target(outputDir, true, w), round);
      candidate in paths <==> candidate in PathsOfType(w.fileType, writes, paths)
  {
    hide Placed, PathsOfType, OfType, Target, Candidate, InTypeDirectory, Fresh;
    var candidate := Candidate(Target(outputDir, true, w), round);
    if writes == [] {
      NothingPlaced(outputDir, w.fileType);
    } else {
      var front, last := writes[..|writes| - 1], writes[|writes| - 1];
      assert writes == front + [last];
      TakenByOwnType(outputDir, front, w, round);
      var before := Placed(outputDir, true, front);
      var path := Fresh(Target(outputDir, true, last), SetOf(before));
      PlacedMore(outputDir, true, front, last);
      OfTypeMore(w.fileType, front, last, before, path);
      if last.fileType != w.fileType {
        var other := PlacedAt(outputDir, true, writes, |front|);
        OtherTypeDiffers(outputDir, w, last, round, other);
        assert path == Placed(outputDir, true, writes)[|front|] != candidate;
      }
    }
  }

  lemma OtherTypeDiffers(outputDir: PosixPath, a: Write, b: Write, i: nat, j: nat)
    requires InTypeDirectory(a) && InTypeDirectory(b) && a.fileType != b.fileType
    ensures Candidate(Target(outputDir, true, a), i) != Candidate(Target(outputDir, true, b), j)
  {
    TypesNeverCollide(outputDir, a, b, i, j);
  }

  lemma SameFresh(path: PosixPath, a: set<PosixPath>, b: set<PosixPath>)
    requires path.names != [] && forall k :: Candidate(path, k) in a <==> Candidate(path, k) in b
    ensures Fresh(path, a) == Fresh(path, b)
  {
    hide Candidate;
    FreshRoundIs(path, b, FreshRound(path, a, 0));
  }

  /** In a run over several types the files of one type get the very paths they would get in a
      run of that type alone: no other type makes them take a number. */
  lemma {:induction false} TypesPlacedAlone(outputDir: PosixPath, writes: seq<Write>, fileType: string)
    requires forall v :: v in writes ==> InTypeDirectory(v)
    ensures PathsOfType(fileType, writes, Placed(outputDir, true, writes))
         == Placed(outputDir, true, OfType(fileType, writes))
  {
    hide Placed, PathsOfType, OfType, Target, Candidate, InTypeDirectory, Fresh;
    if writes == [] {
      NothingPlaced(outputDir, fileType);
    } else {
      var front, w := writes[..|writes| - 1], writes[|writes| - 1];
      assert writes == front + [w];
      TypesPlacedAlone(outputDir, front, fileType);
      var before, own := Placed(outputDir, true, front), OfType(fileType, front);
      PlacedMore(outputDir, true, front, w);
      OfTypeMore(fileType, front, w, before, Fresh(Target(outputDir, true, w), SetOf(before)));
      if w.fileType == fileType {
        PlacedMore(outputDir, true, own, w);
        FreshAlone(outputDir, front, w);
      }
    }
  }

  lemma NothingPlaced(outputDir: PosixPath, fileType: string)
    ensures Placed(outputDir, true, []) == [] && OfType(fileType, []) == [] && PathsOfType(fileType, [], []) == []
  {
  }

  lemma OfTypeMore(fileType: string, writes: seq<Write>, w: Write, paths: seq<PosixPath>, path: PosixPath)
    requires |writes| == |paths|
    ensures OfType(fileType, writes + [w])
         == if w.fileType == fileType then OfType(fileType, writes) + [w] else OfType(fileType, writes)
    ensures var own := PathsOfType(fileType, writes, paths);
            PathsOfType(fileType, writes + [w], paths + [path]) == if w.fileType == fileType then own + [path] else own
  {
    assert (writes + [w])[..|writes|] == writes && (paths + [path])[..|paths|] == paths;
  }

  lemma FreshAlone(outputDir: PosixPath, writes: seq<Write>, w: Write)
    requires InTypeDirectory(w) && forall v :: v in writes ==> InTypeDirectory(v)
    ensures
      var paths := Placed(outputDir, true, writes);
      Fresh(Target(outputDir, true, w), SetOf(paths))
      == Fresh(Target(outputDir, true, w), SetOf(PathsOfType(w.fileType, writes, paths)))
  {
    hide Placed, PathsOfType, Target, Candidate, InTypeDirectory, Fresh;
    var target, paths := Target(outputDir, true, w), Placed(outputDir, true, writes);
    var own := PathsOfType(w.fileType, writes, paths);
    forall k ensures Candidate(target, k) in SetOf(paths) <==> Candidate(target, k) in SetOf(own) {
      TakenByOwnType(outputDir, writes, w, k);
    }
    SameFresh(target, SetOf(paths), SetOf(own));
  }

  // ----- Which writes there are

  predicate Concerns(w: Write, uuids: seq<string>, fileTypes: seq<string>) {
    w.uuid in uuids && w.fileType in fileTypes
  }

  lemma {:induction false} ConfigWritesConcern(uuid: string, name: string, fileType: string, configs: seq<Config>,
                                               w: Write)
    requires w in PlanConfigs(uuid, name, fileType, configs).writes
    ensures w.uuid == uuid && w.fileType == fileType
  {
    var front := configs[..|configs| - 1];
    if w in PlanConfigs(uuid, name, fileType, front).writes {
      ConfigWritesConcern(uuid, name, fileType, front, w);
    }
  }

  lemma {:induction false} DeviceWritesConcern(uuid: string, fileTypes: seq<string>,
                                               fetch: (string, string) -> Option<Value>, w: Write)
    requires w in PlanDevice(uuid, fileTypes, fetch).writes
    ensures w.uuid == uuid && w.fileType in fileTypes
  {
    var front, last := fileTypes[..|fileTypes| - 1], fileTypes[|fileTypes| - 1];
    if w in PlanDevice(uuid, front, fetch).writes {
      DeviceWritesConcern(uuid, front, fetch, w);
    } else {
      var configs := FetchedOf(fetch(uuid, last)).configs;
      ConfigWritesConcern(uuid, DeviceName(uuid, configs), last, configs, w);
    }
  }

  lemma {:induction false} WritesConcern(uuids: seq<string>, fileTypes: seq<string>,
                                         fetch: (string, string) -> Option<Value>, w: Write)
    requires w in AllWrites(uuids, fileTypes, fetch)
    ensures Concerns(w, uuids, fileTypes)
  {
    var front, last := uuids[..|uuids| - 1], uuids[|uuids| - 1];
    if w in AllWrites(front, fileTypes, fetch) {
      WritesConcern(front, fileTypes, fetch, w);
    } else {
      DeviceWritesConcern(last, fileTypes, fetch, w);
    }
  }

  /** When the uuids are clean names, every file of a run lies under the output directory. */
  lemma RunStaysUnderOutput(outputDir: PosixPath, uuids: seq<string>, fileTypes: seq<string>,
                            fetch: (string, string) -> Option<Value>, i: nat)
    requires forall uuid :: uuid in uuids ==> IsClean(uuid)
    requires forall fileType :: fileType in fileTypes ==> IsPlain(fileType) && fileType != ".."
    requires i < |AllWrites(uuids, fileTypes, fetch)|
    ensures Under(outputDir, Placed(outputDir, |fileTypes| > 1, AllWrites(uuids, fileTypes, fetch))[i])
  {
    hide Under, AllWrites, Placed, Candidate, Target;
    var writes := AllWrites(uuids, fileTypes, fetch);
    WritesConcern(uuids, fileTypes, fetch, writes[i]);
    var round := PlacedAt(outputDir, |fileTypes| > 1, writes, i);
    CandidateUnderOutput(outputDir, |fileTypes| > 1, writes[i], round);
  }

  // ----- What becomes of each device

  /** The writes of one device, in order. */
  function WritesFor(uuid: string, writes: seq<Write>): seq<Write> {
    if writes == [] then []
    else
      var last := writes[|writes| - 1];
      WritesFor(uuid, writes[..|writes| - 1]) + if last.uuid == uuid then [last] else []
  }

  lemma {:induction false} WritesForAppend(uuid: string, a: seq<Write>, b: seq<Write>)
    ensures WritesFor(uuid, a + b) == WritesFor(uuid, a) + WritesFor(uuid, b)
  {
    if b == [] {
      assert a + b == a;
    } else {
      assert (a + b)[..|a + b| - 1] == a + b[..|b| - 1];
      WritesForAppend(uuid, a, b[..|b| - 1]);
    }
  }

  lemma {:induction false} WritesForOwn(uuid: string, owner: string, writes: seq<Write>)
    requires forall w :: w in writes ==> w.uuid == owner
    ensures WritesFor(uuid, writes) == if uuid == owner then writes else []
  {
    if writes != [] {
      var front, last := writes[..|writes| - 1], writes[|writes| - 1];
      assert writes == front + [last];
      WritesForOwn(uuid, owner, front);
      assert last in writes;
    }
  }

  /** The results of a listed device are those of the work on it, wherever it is in the list. */
  lemma {:induction false} RunWritesFor(uuid: string, uuids: seq<string>, fileTypes: seq<string>,
                                        fetch: (string, string) -> Option<Value>)
    requires NoDuplicates(uuids)
    ensures WritesFor(uuid, AllWrites(uuids, fileTypes, fetch))
         == if uuid in uuids then PlanDevice(uuid, fileTypes, fetch).writes else []
  {
    hide PlanDevice, NoDuplicates;
    if uuids != [] {
      var front, last := uuids[..|uuids| - 1], uuids[|uuids| - 1];
      assert uuids == front + [last];
      NoDuplicatesFront(uuids);
      RunWritesFor(uuid, front, fileTypes, fetch);
      var own := PlanDevice(last, fileTypes, fetch).writes;
      forall w | w in own ensures w.uuid == last {
        DeviceWritesConcern(last, fileTypes, fetch, w);
      }
      WritesForOwn(uuid, last, own);
      WritesForAppend(uuid, AllWrites(front, fileTypes, fetch), own);
    }
  }

  lemma {:induction false} DevicesWithMembers(outcome: Outcome, uuids: seq<string>, fileTypes: seq<string>,
                                              fetch: (string, string) -> Option<Value>, uuid: string)
    ensures uuid in DevicesWith(outcome, uuids, fileTypes, fetch) <==>
              uuid in uuids && OutcomeOf(PlanDevice(uuid, fileTypes, fetch)) == outcome
  {
    hide PlanDevice, OutcomeOf;
    if uuids != [] {
      DevicesWithMembers(outcome, uuids[..|uuids| - 1], fileTypes, fetch, uuid);
      assert uuids == uuids[..|uuids| - 1] + [uuids[|uuids| - 1]];
    }
  }

  /** Item `i` of an answer that the API gave for a type. */
  datatype Entry = Entry(fileType: string, answer: seq<Value>, i: nat)

  /** All items returned for a device, type by type, up to the first answer that is no list of
      objects. */
  datatype Returned = Returned(entries: seq<Entry>, raised: bool)

  predicate IsListOfObjects(answer: Option<Value>) {
    answer.Some? && answer.value.Array? && forall i :: 0 <= i < |answer.value.items| ==> answer.value.items[i].Object?
  }

  function EntriesOf(fileType: string, answer: seq<Value>): seq<Entry> {
    seq(|answer|, i requires 0 <= i < |answer| => Entry(fileType, answer, i))
  }

  function ReturnedFor(uuid: string, fileTypes: seq<string>, fetch: (string, string) -> Option<Value>): Returned {
    if fileTypes == [] then Returned([], false)
    else
      var n := |fileTypes| - 1;
      var before := ReturnedFor(uuid, fileTypes[..n], fetch);
      var answer := fetch(uuid, fileTypes[n]);
      if before.raised then before
      else if !IsListOfObjects(answer) then Returned(before.entries, true)
      else Returned(before.entries + EntriesOf(fileTypes[n], answer.value.items), false)
  }

  /** The object has the text under the key. */
  predicate HasText(v: Value, key: string, text: string) {
    v.Object? && key in v.fields && v.fields[key] == String(text)
  }

  /** The item has a device object with a name that is more than white space. */
  ghost predicate HasUsableName(item: Value, name: string) {
    && item.Object? && "device" in item.fields && HasText(item.fields["device"], "name", name)
    && exists i :: 0 <= i < |name| && !IsSpace(name[i])
  }

  /** Item `k` is the first with a usable name. */
  ghost predicate FirstUsable(answer: seq<Value>, k: int, name: string) {
    && 0 <= k < |answer| && HasUsableName(answer[k], name)
    && forall j, other :: 0 <= j < k ==> !HasUsableName(answer[j], other)
  }

  /** The name is that of the first item with a usable one, or the uuid if there is none. */
  ghost predicate IsNameOf(uuid: string, answer: seq<Value>, name: string) {
    || (exists k :: FirstUsable(answer, k, name))
    || (name == uuid && forall j, other :: 0 <= j < |answer| ==> !HasUsableName(answer[j], other))
  }

  /** The item has a non-empty string as "filename" and a string as "content". */
  ghost predicate IsComplete(e: Entry) {
    && e.i < |e.answer|
    && (exists filename :: filename != "" && HasText(e.answer[e.i], "filename", filename))
    && exists content :: HasText(e.answer[e.i], "content", content)
  }

  /** The write has the item's own filename and content, its type, and its device's name. */
  ghost predicate Matches(uuid: string, w: Write, e: Entry) {
    && w.uuid == uuid && w.fileType == e.fileType && IsNameOf(uuid, e.answer, w.deviceName)
    && e.i < |e.answer| && w.filename != ""
    && HasText(e.answer[e.i], "filename", w.filename)
    && HasText(e.answer[e.i], "content", w.content)
  }

  lemma {:induction false} BlankIsSpace(s: string)
    ensures Strip(s, IsSpace) == "" <==> forall i :: 0 <= i < |s| ==> IsSpace(s[i])
  {
    StripEnds(s, IsSpace);
    if forall i :: 0 <= i < |s| ==> IsSpace(s[i]) {
      assert forall c :: c in s ==> IsSpace(c);
    } else {
      var i :| 0 <= i < |s| && !IsSpace(s[i]);
      StripLeftKeepsLetter(s, i);
    }
  }

  /** Stripping white space keeps any other character. */
  lemma {:induction false} StripLeftKeepsLetter(s: string, i: nat)
    requires i < |s| && !IsSpace(s[i])
    ensures Strip(s, IsSpace) != ""
  {
    if IsSpace(s[0]) {
      StripLeftKeepsLetter(s[1..], i - 1);
    } else {
      StripRightKeepsLetter(s, i);
      assert StripLeft(s, IsSpace) == s;
    }
  }

  lemma {:induction false} StripRightKeepsLetter(s: string, i: nat)
    requires i < |s| && !IsSpace(s[i])
    ensures StripRight(s, IsSpace) != ""
  {
    if IsSpace(s[|s| - 1]) {
      StripRightKeepsLetter(s[..|s| - 1], i);
    }
  }

  /** What is read from an item is what it has. */
  lemma ConfigIsItem(item: Value)
    requires item.Object?
    ensures
      var config := ConfigOf(item.fields);
      && (forall s :: config.filename == Some(s) <==> s != "" && HasText(item, "filename", s))
      && (forall s :: config.content == Some(s) <==> HasText(item, "content", s))
      && (forall s :: config.deviceName == Some(s) <==> HasUsableName(item, s))
  {
    hide Strip;
    forall s ensures ConfigOf(item.fields).deviceName == Some(s) <==> HasUsableName(item, s) {
      BlankIsSpace(s);
    }
  }

  lemma ConfigOfComplete(e: Entry)
    requires e.i < |e.answer| && e.answer[e.i].Object?
    ensures
      var config := ConfigOf(e.answer[e.i].fields);
      IsComplete(e) <==> config.filename.Some? && config.content.Some?
  {
    ConfigIsItem(e.answer[e.i]);
    hide ConfigOf, HasText;
    var config := ConfigOf(e.answer[e.i].fields);
    if config.filename.Some? && config.content.Some? {
      assert HasText(e.answer[e.i], "filename", config.filename.value);
      assert HasText(e.answer[e.i], "content", config.content.value);
    }
  }

  /** The configs of an answer, item by item. */
  ghost predicate ConfigsOf(answer: seq<Value>, configs: seq<Config>) {
    |configs| == |answer|
    && forall i :: 0 <= i < |answer| ==> answer[i].Object? && configs[i] == ConfigOf(answer[i].fields)
  }

  lemma {:induction false} DeviceNameIsFirst(uuid: string, answer: seq<Value>, configs: seq<Config>)
    requires ConfigsOf(answer, configs)
    ensures IsNameOf(uuid, answer, DeviceName(uuid, configs))
  {
    hide ConfigOf, HasUsableName;
    if configs != [] {
      ConfigIsItem(answer[0]);
      if configs[0].deviceName == None {
        var name := DeviceName(uuid, configs[1..]);
        DeviceNameIsFirst(uuid, answer[1..], configs[1..]);
        if k :| FirstUsable(answer[1..], k, name) {
          forall j, other | 0 <= j < k + 1 ensures !HasUsableName(answer[j], other) {
            assert j > 0 ==> answer[j] == answer[1..][j - 1];
          }
          assert FirstUsable(answer, k + 1, name);
        } else {
          forall j, other | 0 <= j < |answer| ensures !HasUsableName(answer[j], other) {
            assert j > 0 ==> answer[j] == answer[1..][j - 1];
          }
        }
      } else {
        assert FirstUsable(answer, 0, configs[0].deviceName.value);
      }
    }
  }

  /** The writes match the first entries one for one. */
  ghost predicate MatchFirst(uuid: string, writes: seq<Write>, entries: seq<Entry>) {
    |writes| <= |entries| && forall i :: 0 <= i < |writes| ==> Matches(uuid, writes[i], entries[i])
  }

  /** The writes are the entries up to the first incomplete one. */
  ghost predicate WrittenUpTo(uuid: string, plan: Plan, returned: Returned) {
    && MatchFirst(uuid, plan.writes, returned.entries)
    && (|plan.writes| < |returned.entries| ==> !IsComplete(returned.entries[|plan.writes|]))
    && (plan.failed <==> returned.raised || |plan.writes| < |returned.entries|)
  }

  lemma OneConfigWritten(uuid: string, name: string, fileType: string, config: Config, e: Entry)
    requires e.i < |e.answer| && e.answer[e.i].Object? && config == ConfigOf(e.answer[e.i].fields)
    requires e.fileType == fileType && IsNameOf(uuid, e.answer, name)
    ensures
      var plan := PlanConfig(uuid, name, fileType, config);
      && (plan.failed <==> !IsComplete(e)) && |plan.writes| == (if plan.failed then 0 else 1)
      && (!plan.failed ==> Matches(uuid, plan.writes[0], e))
  {
    hide ConfigOf, IsNameOf;
    ConfigOfComplete(e);
    ConfigIsItem(e.answer[e.i]);
  }

  lemma {:induction false} ConfigsWritten(uuid: string, name: string, fileType: string, configs: seq<Config>,
                                          answer: seq<Value>, n: nat)
    requires ConfigsOf(answer, configs) && IsNameOf(uuid, answer, name) && n <= |configs|
    ensures WrittenUpTo(uuid, PlanConfigs(uuid, name, fileType, configs[..n]),
                        Returned(EntriesOf(fileType, answer)[..n], false))
  {
    if n > 0 {
      hide Matches, IsComplete, IsNameOf, ConfigOf;
      ConfigsWritten(uuid, name, fileType, configs, answer, n - 1);
      OneConfigWritten(uuid, name, fileType, configs[n - 1], Entry(fileType, answer, n - 1));
      assert configs[..n][..n - 1] == configs[..n - 1];
    }
  }

  /** The configs of one type fail exactly when one of them lacks a filename or a content. */
  lemma {:induction false} PlanConfigsComplete(uuid: string, name: string, fileType: string, configs: seq<Config>)
    ensures !PlanConfigs(uuid, name, fileType, configs).failed ==>
              |PlanConfigs(uuid, name, fileType, configs).writes| == |configs|
    ensures PlanConfigs(uuid, name, fileType, configs).failed <==>
              exists i :: 0 <= i < |configs| && (configs[i].filename.None? || configs[i].content.None?)
  {
    if configs != [] {
      var n := |configs| - 1;
      PlanConfigsComplete(uuid, name, fileType, configs[..n]);
      if configs[n].filename.None? || configs[n].content.None? {
        assert PlanConfigs(uuid, name, fileType, configs).failed;
      }
    }
  }

  lemma WrittenThen(uuid: string, first: Plan, before: seq<Entry>, second: Plan, more: Returned)
    requires WrittenUpTo(uuid, first, Returned(before, false)) && WrittenUpTo(uuid, second, more)
    ensures WrittenUpTo(uuid, Then(first, second), Returned(before + more.entries, more.raised))
  {
  }

  /** The work on a device writes the returned entries, in order, up to the first incomplete
      one or the request that raised. */
  lemma {:induction false} DeviceWritten(uuid: string, fileTypes: seq<string>, fetch: (string, string) -> Option<Value>)
    ensures WrittenUpTo(uuid, PlanDevice(uuid, fileTypes, fetch), ReturnedFor(uuid, fileTypes, fetch))
  {
    if fileTypes != [] {
      hide WrittenUpTo, DeviceName, ConfigOf;
      var n := |fileTypes| - 1;
      var before, answer := ReturnedFor(uuid, fileTypes[..n], fetch), fetch(uuid, fileTypes[n]);
      var first := PlanDevice(uuid, fileTypes[..n], fetch);
      DeviceWritten(uuid, fileTypes[..n], fetch);
      if before.raised {
        RaisedFails(uuid, first, before);
      } else if !IsListOfObjects(answer) {
        NothingWritten(uuid);
        WrittenThen(uuid, first, before.entries, Plan([], true), Returned([], true));
        assert before.entries + [] == before.entries;
      } else {
        var items := answer.value.items;
        AnswerWritten(uuid, fileTypes[n], items);
        WrittenThen(uuid, first, before.entries, PlanFetched(uuid, fileTypes[n], FetchedOf(answer)),
                    Returned(EntriesOf(fileTypes[n], items), false));
      }
    }
  }

  lemma AnswerWritten(uuid: string, fileType: string, items: seq<Value>)
    requires forall i :: 0 <= i < |items| ==> items[i].Object?
    ensures WrittenUpTo(uuid, PlanFetched(uuid, fileType, FetchedOf(Some(Array(items)))),
                        Returned(EntriesOf(fileType, items), false))
  {
    hide WrittenUpTo, DeviceName, ConfigOf, PlanConfigs, IsNameOf;
    var configs := FetchedOf(Some(Array(items))).configs;
    DeviceNameIsFirst(uuid, items, configs);
    ConfigsWritten(uuid, DeviceName(uuid, configs), fileType, configs, items, |configs|);
    assert configs[..|configs|] == configs;
    assert EntriesOf(fileType, items)[..|configs|] == EntriesOf(fileType, items);
  }

  /** A device that did not fail has had every returned entry written, one for one. */
  lemma NotFailedIsComplete(uuid: string, fileTypes: seq<string>, fetch: (string, string) -> Option<Value>)
    requires !PlanDevice(uuid, fileTypes, fetch).failed
    ensures
      var writes, returned := PlanDevice(uuid, fileTypes, fetch).writes, ReturnedFor(uuid, fileTypes, fetch);
      !returned.raised && |writes| == |returned.entries| && MatchFirst(uuid, writes, returned.entries)
  {
    DeviceWritten(uuid, fileTypes, fetch);
  }

  /** A device fails exactly when an answer is no list of objects or an item is incomplete. */
  lemma FailsExactlyWhen(uuid: string, fileTypes: seq<string>, fetch: (string, string) -> Option<Value>)
    ensures
      var returned := ReturnedFor(uuid, fileTypes, fetch);
      PlanDevice(uuid, fileTypes, fetch).failed <==>
        returned.raised || exists e :: e in returned.entries && !IsComplete(e)
  {
    hide PlanDevice, ReturnedFor;
    var writes, returned := PlanDevice(uuid, fileTypes, fetch).writes, ReturnedFor(uuid, fileTypes, fetch);
    DeviceWritten(uuid, fileTypes, fetch);
    forall i | 0 <= i < |writes| ensures IsComplete(returned.entries[i]) {
      assert Matches(uuid, writes[i], returned.entries[i]);
    }
    assert |writes| < |returned.entries| ==> returned.entries[|writes|] in returned.entries;
  }

  lemma RaisedFails(uuid: string, plan: Plan, returned: Returned)
    requires WrittenUpTo(uuid, plan, returned) && returned.raised
    ensures plan.failed
  {
  }

  lemma NothingWritten(uuid: string)
    ensures WrittenUpTo(uuid, Plan([], true), Returned([], true))
  {
  }

  /** What a finished run says of one listed device. Its results are the entries returned for
      it, one for one and in order, up to the first incomplete one; results made before a
      failure are kept. It is exactly one of failed, skipped with nothing returned and no
      result, and written in full with at least one result. */
  ghost predicate Accounted(uuid: string, writes: seq<Write>, skipped: seq<string>, failures: seq<string>,
                            returned: Returned) {
    var own := WritesFor(uuid, writes);
    && MatchFirst(uuid, own, returned.entries)
    && (|own| < |returned.entries| ==> !IsComplete(returned.entries[|own|]))
    && if uuid in failures then uuid !in skipped && (returned.raised || |own| < |returned.entries|)
       else
         && !returned.raised && |own| == |returned.entries|
         && (uuid in skipped <==> own == [])
  }

  /** A run goes device by device: the results and reports of a longer list continue those of a
      shorter one. */
  lemma {:induction false} RunGoesInOrder(a: seq<string>, b: seq<string>, fileTypes: seq<string>,
                                          fetch: (string, string) -> Option<Value>, outcome: Outcome)
    ensures AllWrites(a + b, fileTypes, fetch) == AllWrites(a, fileTypes, fetch) + AllWrites(b, fileTypes, fetch)
    ensures DevicesWith(outcome, a + b, fileTypes, fetch)
         == DevicesWith(outcome, a, fileTypes, fetch) + DevicesWith(outcome, b, fileTypes, fetch)
  {
    hide PlanDevice, OutcomeOf;
    if b == [] {
      assert a + b == a;
    } else {
      assert (a + b)[..|a + b| - 1] == a + b[..|b| - 1];
      RunGoesInOrder(a, b[..|b| - 1], fileTypes, fetch, outcome);
    }
  }

  /** Every listed device is accounted for, and no other device has results or is reported. */
  lemma EveryDeviceOnce(uuids: seq<string>, fileTypes: seq<string>, fetch: (string, string) -> Option<Value>,
                        uuid: string)
    requires NoDuplicates(uuids)
    ensures
      var writes := AllWrites(uuids, fileTypes, fetch);
      var skipped := DevicesWith(Skipped, uuids, fileTypes, fetch);
      var failures := DevicesWith(Failed, uuids, fileTypes, fetch);
      if uuid in uuids then Accounted(uuid, writes, skipped, failures, ReturnedFor(uuid, fileTypes, fetch))
      else WritesFor(uuid, writes) == [] && uuid !in skipped && uuid !in failures
  {
    hide PlanDevice, ReturnedFor, MatchFirst, IsComplete, WritesFor, AllWrites, DevicesWith;
    RunWritesFor(uuid, uuids, fileTypes, fetch);
    DevicesWithMembers(Skipped, uuids, fileTypes, fetch, uuid);
    DevicesWithMembers(Failed, uuids, fileTypes, fetch, uuid);
    DeviceWritten(uuid, fileTypes, fetch);
    MatchIsShort(uuid, PlanDevice(uuid, fileTypes, fetch).writes, ReturnedFor(uuid, fileTypes, fetch).entries);
  }

  lemma MatchIsShort(uuid: string, writes: seq<Write>, entries: seq<Entry>)
    ensures MatchFirst(uuid, writes, entries) ==> |writes| <= |entries|
  {
  }
}
