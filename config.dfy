/**
 * The configuration: storage locations, repo groups, the paths derived
 * from the data directory and the config file, validation of a freshly
 * loaded configuration, and the default configuration written by `init`.
 */
module Config {
  import opened Paths
  import opened Wrappers

  datatype StorageType = Rclone | Local

  /** `StorageConfig`: where a storage location keeps its records and its repo contents. */
  datatype StorageConfig = StorageConfig(storageType: StorageType, repometaPath: Path, repostorePath: Path)

  datatype SyncingConfig = SyncingConfig(bisyncWaitTime: int)

  datatype RepoTitleMode = FullNameTitle | DatetimeTitle | NameTitle

  /** `RepoGroupConfig` */
  datatype RepoGroupConfig = RepoGroupConfig(
    groupName: string,
    isVirtual: bool,
    repoTitleMode: RepoTitleMode,
    uniqueRepoNames: bool)

  /** `RepoGroupConfig(group_name=...)` with every other field at its declared default. */
  function DefaultGroupConfig(groupName: string): (g: RepoGroupConfig)
    ensures g.groupName == groupName
    ensures !g.isVirtual && g.repoTitleMode == DatetimeTitle && !g.uniqueRepoNames
  {
    RepoGroupConfig(groupName, false, DatetimeTitle, false)
  }

  /** One entry of the `storage_locations` dict, in the dict's order. */
  datatype Location = Location(name: string, storage: StorageConfig)

  const LocalRepometaRelPath: Path := ["local", "repometa"]
  const LocalRepostoreRelPath: Path := ["local", "repostore"]

  /** `Config`: the loaded configuration file plus the path it was loaded from. */
  datatype Config = Config(
    configPath: Path,
    defaultStorageLocation: string,
    repoyardDataPath: Path,
    userReposPath: Path,
    userRepoGroupsPath: Path,
    storageLocations: seq<Location>,
    syncing: SyncingConfig,
    repoGroups: seq<RepoGroupConfig>)
  {
    function LogPath(): Path { repoyardDataPath + ["repoyard.log"] }
    function IncludedRepostorePath(): Path { repoyardDataPath + ["included_repostore"] }
    function SyncedRepometaPath(): Path { repoyardDataPath + ["synced_repometa"] }
    function RepoyardMetaPath(): Path { repoyardDataPath + ["repoyard_meta.json"] }
    function SyncSettingsPath(): Path { repoyardDataPath + ["sync_settings.toml"] }
    function LocalRepometaPath(): Path { repoyardDataPath + LocalRepometaRelPath }
    function LocalRepostorePath(): Path { repoyardDataPath + LocalRepostoreRelPath }
    function RcloneConfigPath(): Path { Parent(configPath) + ["repoyard_rclone.conf"] }
    function DefaultRepoyardIgnorePath(): Path { Parent(configPath) + ["default.repoyard_ignore"] }

    /** The keys of `storage_locations`, in order. */
    function LocationNames(): (names: seq<string>)
      ensures |names| == |storageLocations|
      ensures forall i :: 0 <= i < |names| ==> names[i] == storageLocations[i].name
    {
      seq(|storageLocations|, i requires 0 <= i < |storageLocations| => storageLocations[i].name)
    }

    /** `storage_locations[name]`, which raises `KeyError` for an unknown name. */
    function StorageOf(name: string): (r: Option<StorageConfig>)
      ensures r.Some? <==> name in LocationNames()
      ensures r.Some? ==> Location(name, r.value) in storageLocations
    {
      LookUp(storageLocations, name)
    }
  }

  function LookUp(locs: seq<Location>, name: string): (r: Option<StorageConfig>)
    ensures r.Some? <==> exists i :: 0 <= i < |locs| && locs[i].name == name
    ensures r.Some? ==> Location(name, r.value) in locs
    ensures r.Some? ==> exists i :: 0 <= i < |locs| && locs[i] == Location(name, r.value)
                                    && forall i' :: 0 <= i' < i ==> locs[i'].name != name
  {
    if locs == [] then None
    else if locs[0].name == name then Some(locs[0].storage)
    else
      var r := LookUp(locs[1..], name);
      assert forall i :: 0 < i < |locs| ==> locs[i] == locs[1..][i - 1];
      r
  }

  /** The data files and directories derived from `repoyard_data_path`, in declaration order. */
  function DataPaths(c: Config): seq<Path> {
    [c.LogPath(), c.IncludedRepostorePath(), c.SyncedRepometaPath(), c.RepoyardMetaPath(),
     c.SyncSettingsPath(), c.LocalRepometaPath(), c.LocalRepostorePath()]
  }

  /** Every derived data path lies inside the data directory, and none lies inside (or equals) another. */
  lemma DataLayout(c: Config)
    ensures forall i :: 0 <= i < |DataPaths(c)| ==> IsStrictlyUnder(DataPaths(c)[i], c.repoyardDataPath)
    ensures forall i, j :: 0 <= i < |DataPaths(c)| && 0 <= j < |DataPaths(c)| && i != j ==>
      !IsPrefix(DataPaths(c)[i], DataPaths(c)[j])
  {
    var d := c.repoyardDataPath;
    var ps := DataPaths(c);
    var names := ["repoyard.log", "included_repostore", "synced_repometa", "repoyard_meta.json",
                  "sync_settings.toml", "local", "local"];
    forall i | 0 <= i < |ps| ensures |ps[i]| > |d| && ps[i][..|d|] == d && ps[i][|d|] == names[i] {
    }
    assert ps[5][|d| + 1] == "repometa" && ps[6][|d| + 1] == "repostore";
    forall i, j | 0 <= i < |ps| && 0 <= j < |ps| && i != j ensures !IsPrefix(ps[i], ps[j]) {
      if names[i] != names[j] {
        DiffersAt(ps[i], ps[j], |d|);
      } else {
        DiffersAt(ps[i], ps[j], |d| + 1);
      }
    }
  }

  /** A path is not a prefix of one it differs from at a position both have. */
  lemma DiffersAt(a: Path, b: Path, k: nat)
    requires k < |a| && k < |b| && a[k] != b[k]
    ensures !IsPrefix(a, b)
  {
    if |a| <= |b| {
      assert b[..|a|][k] == b[k];
    }
  }

  /** The rclone configuration and the default ignore file sit next to the config file, and differ. */
  lemma ConfigSiblings(c: Config)
    ensures Parent(c.RcloneConfigPath()) == Parent(c.configPath)
    ensures Parent(c.DefaultRepoyardIgnorePath()) == Parent(c.configPath)
    ensures c.RcloneConfigPath() != c.DefaultRepoyardIgnorePath()
  {
    assert c.RcloneConfigPath()[|Parent(c.configPath)|] == "repoyard_rclone.conf";
  }

  /** `Path.expanduser()`: a leading `~` component becomes the home directory; `~user` forms are left alone. */
  function ExpandUser(p: Path, home: Path): (r: Path)
    ensures |p| > 0 && p[0] == "~" ==> r == home + p[1..]
    ensures !(|p| > 0 && p[0] == "~") ==> r == p
  {
    if |p| > 0 && p[0] == "~" then home + p[1..] else p
  }

  /** `StorageConfig.validate_config`: expand both paths. */
  function ExpandStorage(s: StorageConfig, home: Path): StorageConfig {
    s.(repometaPath := ExpandUser(s.repometaPath, home), repostorePath := ExpandUser(s.repostorePath, home))
  }

  /** The configuration after both validators expanded its paths. */
  function Expanded(c: Config, home: Path): (r: Config)
    ensures r.LocationNames() == c.LocationNames()
    ensures r.defaultStorageLocation == c.defaultStorageLocation
  {
    var locs := seq(|c.storageLocations|, i requires 0 <= i < |c.storageLocations| =>
      Location(c.storageLocations[i].name, ExpandStorage(c.storageLocations[i].storage, home)));
    c.(repoyardDataPath := ExpandUser(c.repoyardDataPath, home),
       userReposPath := ExpandUser(c.userReposPath, home),
       userRepoGroupsPath := ExpandUser(c.userRepoGroupsPath, home),
       storageLocations := locs)
  }

  datatype ConfigError =
    | InvalidLocationName(name: string)
    | NoStorageLocations
    | DefaultLocationNotFound(name: string)

  predicate IsNameChar(ch: char) {
    ('A' <= ch <= 'Z') || ('a' <= ch <= 'z') || ('0' <= ch <= '9') || ch == '_' || ch == '-'
  }

  /** `re.fullmatch(r'[A-Za-z0-9_-]+', name)` */
  predicate ValidLocationName(name: string) {
    |name| > 0 && forall i :: 0 <= i < |name| ==> IsNameChar(name[i])
  }

  /** The position of the first storage-location name that fails the pattern. */
  function FirstInvalidName(names: seq<string>): (r: Option<nat>)
    ensures r.Some? ==> r.value < |names| && !ValidLocationName(names[r.value])
    ensures r.Some? ==> forall j :: 0 <= j < r.value ==> ValidLocationName(names[j])
    ensures r.None? <==> forall j :: 0 <= j < |names| ==> ValidLocationName(names[j])
  {
    if names == [] then None
    else if !ValidLocationName(names[0]) then Some(0)
    else
      var rest := FirstInvalidName(names[1..]);
      assert forall j :: 0 < j < |names| ==> names[j] == names[1..][j - 1];
      match rest
      case None => None
      case Some(k) => Some(k + 1)
  }

  /**
   * `Config.validate_config`: the names are checked first, then that there
   * is at least one location, then that the default location is one of them.
   */
  function Validate(c: Config, home: Path): (r: Result<Config, ConfigError>)
    ensures r.Ok? <==> (forall i :: 0 <= i < |c.storageLocations| ==> ValidLocationName(c.storageLocations[i].name))
                       && |c.storageLocations| > 0 && c.defaultStorageLocation in c.LocationNames()
    ensures r.Ok? ==> r.value == Expanded(c, home)
    ensures r == Err(NoStorageLocations) <==> |c.storageLocations| == 0
    ensures (exists i :: 0 <= i < |c.storageLocations| && !ValidLocationName(c.storageLocations[i].name)) ==>
      r.Err? && r.error.InvalidLocationName?
    ensures r.Err? && r.error.InvalidLocationName? ==>
      exists i :: 0 <= i < |c.storageLocations| && c.storageLocations[i].name == r.error.name
        && !ValidLocationName(r.error.name)
        && forall j :: 0 <= j < i ==> ValidLocationName(c.storageLocations[j].name)
    ensures r.Err? && r.error.DefaultLocationNotFound? ==>
      r.error.name == c.defaultStorageLocation && c.defaultStorageLocation !in c.LocationNames()
  {
    var names := c.LocationNames();
    match FirstInvalidName(names)
    case Some(i) => Err(InvalidLocationName(names[i]))
    case None =>
      if |names| == 0 then Err(NoStorageLocations)
      else if c.defaultStorageLocation !in names then Err(DefaultLocationNotFound(c.defaultStorageLocation))
      else Ok(Expanded(c, home))
  }

  /**
   * The validator as the source runs it: expand, then loop over the names,
   * then the two remaining checks.
   */
  method ValidateConfig(c: Config, home: Path) returns (r: Result<Config, ConfigError>)
    ensures r == Validate(c, home)
  {
    var expanded := Expanded(c, home);
    var names := c.LocationNames();
    var bad := FindInvalidName(names);
    if bad.Some? {
      return Err(InvalidLocationName(names[bad.value]));
    }
    if |names| == 0 {
      return Err(NoStorageLocations);
    }
    var found := HasName(names, c.defaultStorageLocation);
    if !found {
      return Err(DefaultLocationNotFound(c.defaultStorageLocation));
    }
    r := Ok(expanded);
  }

  /** The name loop of `validate_config`: it stops at the first name that fails the pattern. */
  method FindInvalidName(names: seq<string>) returns (bad: Option<nat>)
    ensures bad == FirstInvalidName(names)
  {
    var i := 0;
    while i < |names|
      invariant 0 <= i <= |names|
      invariant forall j :: 0 <= j < i ==> ValidLocationName(names[j])
    {
      if !ValidLocationName(names[i]) {
        return Some(i);
      }
      i := i + 1;
    }
    return None;
  }

  /** `name in storage_locations`, by a scan over the keys. */
  method HasName(names: seq<string>, name: string) returns (found: bool)
    ensures found <==> name in names
  {
    found := false;
    var k := 0;
    while k < |names|
      invariant 0 <= k <= |names|
      invariant found <==> name in names[..k]
    {
      assert names[..k + 1] == names[..k] + [names[k]];
      found := found || names[k] == name;
      k := k + 1;
    }
    assert names[..k] == names;
  }

  const DefaultConfigPath: Path := ["~", ".config", "repoyard", "config.json"]
  const DefaultDataPath: Path := ["~", ".repoyard"]
  const DefaultUserReposPath: Path := ["~", "repos"]
  const DefaultUserRepoGroupsPath: Path := ["~", "repo_groups"]

  /** `_get_default_config_dict`: one local storage location named "local", which is also the default. */
  function DefaultConfigDict(configPath: Option<Path>, dataPath: Option<Path>): Config {
    var cp := if configPath.Some? then configPath.value else DefaultConfigPath;
    var dp := if dataPath.Some? then dataPath.value else DefaultDataPath;
    Config(
      cp, "local", dp, DefaultUserReposPath, DefaultUserRepoGroupsPath,
      [Location("local", StorageConfig(Local, dp + LocalRepometaRelPath, dp + LocalRepostoreRelPath))],
      SyncingConfig(10), [])
  }

  /** The default configuration passes validation, and its local store is the one the data paths name. */
  lemma DefaultConfigIsValid(configPath: Option<Path>, dataPath: Option<Path>, home: Path)
    ensures var c := DefaultConfigDict(configPath, dataPath);
      && Validate(c, home).Ok?
      && c.StorageOf(c.defaultStorageLocation) == Some(StorageConfig(Local, c.LocalRepometaPath(), c.LocalRepostorePath()))
  {
    var c := DefaultConfigDict(configPath, dataPath);
    assert ValidLocationName("local") by {
      var s := "local";
      assert forall i :: 0 <= i < |s| ==> IsNameChar(s[i]);
    }
    assert c.LocationNames() == ["local"];
  }
}
