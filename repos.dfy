/**
 * Repo records on disk: where a record and its repo live, saving a record,
 * indexing every record under the synced record store into the by-full-name
 * and by-ulid maps, the cached index file, and the effective repo groups.
 */
module Repos {
  import opened Wrappers
  import opened Paths
  import opened Records
  import opened Config
  import opened FileSystem

  // ---------------------------------------------------------------- paths

  const TomlSuffix: string := ".toml"

  /** The record file name of a repo: its full name with the `.toml` suffix. */
  function RecordFileName(fullName: string): string {
    fullName + TomlSuffix
  }

  /** The names `glob('*.toml')` matches. */
  predicate IsTomlName(n: string) {
    |n| >= |TomlSuffix| && n[|n| - |TomlSuffix|..] == TomlSuffix
  }

  /** `Path.stem` of a `*.toml` name: the suffix goes, except that `.toml` alone is all stem. */
  function TomlStem(n: string): (s: string)
    requires IsTomlName(n)
    ensures n != TomlSuffix ==> RecordFileName(s) == n
    ensures n == TomlSuffix ==> s == n
  {
    if n == TomlSuffix then n else n[..|n| - |TomlSuffix|]
  }

  /** `get_included_repo_path` */
  function IncludedRepoPath(c: Config, m: RepoMeta): (p: Path)
    ensures IsChild(p, c.IncludedRepostorePath()) && p[|c.IncludedRepostorePath()|] == m.FullName()
  {
    c.IncludedRepostorePath() + [m.FullName()]
  }

  /** The directory of the synced record store that holds one storage location's records. */
  function LocationRecordDir(c: Config, location: string): (p: Path)
    ensures IsChild(p, c.SyncedRepometaPath()) && p[|c.SyncedRepometaPath()|] == location
  {
    c.SyncedRepometaPath() + [location]
  }

  /** `get_synced_repometa_path` */
  function SyncedRecordPath(c: Config, m: RepoMeta): (p: Path)
    ensures IsChild(p, LocationRecordDir(c, m.storageLocation))
    ensures p[|c.SyncedRepometaPath()|] == m.storageLocation
    ensures p[|c.SyncedRepometaPath()| + 1] == RecordFileName(m.FullName())
  {
    LocationRecordDir(c, m.storageLocation) + [RecordFileName(m.FullName())]
  }

  /** `get_remote_repo_path`: a `KeyError` when the record names an unknown storage location. */
  function RemoteRepoPath(c: Config, m: RepoMeta): (r: Option<Path>)
    ensures r.Some? <==> m.storageLocation in c.LocationNames()
    ensures r.Some? ==> exists s :: Location(m.storageLocation, s) in c.storageLocations
                                    && r.value == s.repostorePath + [m.FullName()]
  {
    match c.StorageOf(m.storageLocation)
    case None => None
    case Some(s) => Some(s.repostorePath + [m.FullName()])
  }

  /** `get_remote_repometa_path`: a `KeyError` when the record names an unknown storage location. */
  function RemoteRecordPath(c: Config, m: RepoMeta): (r: Option<Path>)
    ensures r.Some? <==> m.storageLocation in c.LocationNames()
    ensures r.Some? ==> exists s :: Location(m.storageLocation, s) in c.storageLocations
                                    && r.value == s.repometaPath + [RecordFileName(m.FullName())]
  {
    match c.StorageOf(m.storageLocation)
    case None => None
    case Some(s) => Some(s.repometaPath + [RecordFileName(m.FullName())])
  }

  /** `check_included`: the repo's folder in the included store is a directory. */
  function CheckIncluded(e: Entries, c: Config, m: RepoMeta): (r: bool)
    ensures r <==> IncludedRepoPath(c, m) in e && e[IncludedRepoPath(c, m)] == Dir
  {
    IsDirIn(e, IncludedRepoPath(c, m))
  }

  // ----------------------------------------------------------------- save

  /**
   * `save`: create the location's record directory, then write the record
   * without its ulid and name, which the file's name carries.
   */
  method Save(fs: FileSystem, c: Config, m: RepoMeta) returns (r: Outcome<FsError>)
    requires fs.Valid()
    modifies fs
    ensures fs.Valid()
    ensures var dir := LocationRecordDir(c, m.storageLocation);
      var made := WithDirs(old(fs.entries), dir);
      && (!CanMakeDirs(old(fs.entries), dir) ==> r.Fail? && fs.entries == old(fs.entries))
      && (CanMakeDirs(old(fs.entries), dir) ==>
            (r.Pass? <==> SyncedRecordPath(c, m) !in made || made[SyncedRecordPath(c, m)].File?))
      && (r.Pass? ==> fs.entries == made[SyncedRecordPath(c, m) := File(RecordToml(ToPayload(m)))])
      && (r.Fail? && CanMakeDirs(old(fs.entries), dir) ==> fs.entries == made)
  {
    var dir := LocationRecordDir(c, m.storageLocation);
    r := fs.MakeDirs(dir);
    if r.Fail? {
      return;
    }
    r := fs.WriteFile(SyncedRecordPath(c, m), RecordToml(ToPayload(m)));
  }

  // ------------------------------------------------------------ the index

  /** The `*.toml` names directly inside the record directory of the `j`-th storage location. */
  function RecordNames(e: Entries, c: Config, j: nat): (r: set<string>)
    requires j < |c.storageLocations|
    ensures forall n :: n in r <==> IsTomlName(n) && LocationRecordDir(c, c.storageLocations[j].name) + [n] in e
  {
    var dir := LocationRecordDir(c, c.storageLocations[j].name);
    assert forall n :: (dir + [n])[..|dir|] == dir && (dir + [n])[|dir|] == n;
    assert forall p :: IsChild(p, dir) ==> p == dir + [p[|dir|]];
    set p | p in e && IsChild(p, dir) && IsTomlName(p[|dir|]) :: p[|dir|]
  }

  datatype IndexError =
    | MalformedName(path: Path)
    | NotARecord(path: Path)
    | NotAnIndex(path: Path)
    | CacheWriteFailed(reason: FsError)

  /**
   * Loading one record file: the ulid and name come from the file's stem,
   * the storage location from its directory, the rest from the file.
   */
  function LoadRecord(e: Entries, c: Config, j: nat, n: string): (r: Result<RepoMeta, IndexError>)
    requires j < |c.storageLocations| && IsTomlName(n)
    ensures r.Ok? ==> r.value.FullName() == TomlStem(n) && WellKeyed(r.value)
    ensures r.Ok? ==> r.value.storageLocation == c.storageLocations[j].name
    ensures r.Err? ==> (r.error.MalformedName? || r.error.NotARecord?)
                       && r.error.path == LocationRecordDir(c, c.storageLocations[j].name) + [n]
  {
    var p := LocationRecordDir(c, c.storageLocations[j].name) + [n];
    if p in e && e[p].File? && e[p].content.RecordToml? then
      match FromRecordFile(TomlStem(n), c.storageLocations[j].name, e[p].content.payload)
      case Ok(m) => Ok(m)
      case Err(_) => Err(MalformedName(p))
    else
      Err(NotARecord(p))
  }

  /** A record file the index visits: the `*.toml` name `n` inside the `j`-th location's record directory. */
  predicate IsCandidate(e: Entries, c: Config, j: nat, n: string) {
    j < |c.storageLocations| && IsTomlName(n) && LocationRecordDir(c, c.storageLocations[j].name) + [n] in e
  }

  /** The two maps index exactly the records loaded from the record files `done`, and agree with each other. */
  ghost predicate IndexOver(byFullName: map<string, RepoMeta>, byUlid: map<string, RepoMeta>,
                            e: Entries, c: Config, done: set<(nat, string)>)
  {
    && (forall jn :: jn in done ==>
          IsCandidate(e, c, jn.0, jn.1) && LoadRecord(e, c, jn.0, jn.1).Ok? && TomlStem(jn.1) in byFullName)
    && (forall k :: k in byFullName ==>
          exists jn :: jn in done && IsCandidate(e, c, jn.0, jn.1) && TomlStem(jn.1) == k
                       && LoadRecord(e, c, jn.0, jn.1) == Ok(byFullName[k]))
    && KeyedByFullName(byFullName)
    && UlidsAgree(byFullName, byUlid)
  }

  /** Every record is stored under its own full name, and its name splits back into its ulid and name. */
  ghost predicate KeyedByFullName(byFullName: map<string, RepoMeta>) {
    forall k :: k in byFullName ==> byFullName[k].FullName() == k && WellKeyed(byFullName[k])
  }

  /** Every record has its ulid as a key of `byUlid`, and `byUlid` holds only records that `byFullName` holds under their full names. */
  ghost predicate UlidsAgree(byFullName: map<string, RepoMeta>, byUlid: map<string, RepoMeta>) {
    && (forall k :: k in byFullName ==> byFullName[k].ulid in byUlid)
    && (forall u :: u in byUlid ==>
          byUlid[u].ulid == u && byUlid[u].FullName() in byFullName && byFullName[byUlid[u].FullName()] == byUlid[u])
  }

  /** `meta` is the index `create_repoyard_meta` builds from the synced record store of `e`. */
  ghost predicate IsIndexOf(meta: RepoyardMeta, e: Entries, c: Config) {
    && (forall j: nat, n :: IsCandidate(e, c, j, n) ==> TomlStem(n) in meta.byFullName)
    && (forall k :: k in meta.byFullName ==>
          exists j: nat, n :: IsCandidate(e, c, j, n) && TomlStem(n) == k && LoadRecord(e, c, j, n) == Ok(meta.byFullName[k]))
    && KeyedByFullName(meta.byFullName)
    && UlidsAgree(meta.byFullName, meta.byUlid)
  }

  /** Every record file loads. */
  ghost predicate AllLoad(e: Entries, c: Config) {
    forall j: nat, n :: IsCandidate(e, c, j, n) ==> LoadRecord(e, c, j, n).Ok?
  }

  /** The last of the first `upTo` storage locations, in configuration order, whose record directory holds the file `n`. */
  function LastHolder(e: Entries, c: Config, n: string, upTo: nat): (r: Option<nat>)
    ensures r.Some? ==> r.value < upTo && IsCandidate(e, c, r.value, n)
    decreases upTo
  {
    if upTo == 0 then None
    else if IsCandidate(e, c, upTo - 1, n) then Some(upTo - 1)
    else LastHolder(e, c, n, upTo - 1)
  }

  /** `LastHolder` finds the last location holding the file, and none exactly when no location holds it. */
  lemma {:induction false} LastHolderIsLast(e: Entries, c: Config, n: string, upTo: nat)
    ensures var r := LastHolder(e, c, n, upTo);
      && (r.Some? ==> forall j: nat :: r.value < j < upTo ==> !IsCandidate(e, c, j, n))
      && (r.None? <==> forall j: nat :: j < upTo ==> !IsCandidate(e, c, j, n))
    decreases upTo
  {
    if upTo > 0 && !IsCandidate(e, c, upTo - 1, n) {
      LastHolderIsLast(e, c, n, upTo - 1);
    }
  }

  /**
   * Among the first `upTo` storage locations, the record kept under a full
   * name is the one loaded from the last location holding that file: a later
   * assignment overwrites an earlier one.
   */
  ghost predicate LastLocationWins(byFullName: map<string, RepoMeta>, e: Entries, c: Config, upTo: nat) {
    forall n {:trigger LastHolder(e, c, n, upTo)} :: LastHolder(e, c, n, upTo).Some? ==>
      TomlStem(n) in byFullName && Ok(byFullName[TomlStem(n)]) == LoadRecord(e, c, LastHolder(e, c, n, upTo).value, n)
  }

  /** Every record file of the `j`-th location that is not in `todo` has its record under its full name. */
  ghost predicate HoldsLocation(byFullName: map<string, RepoMeta>, e: Entries, c: Config, j: nat, todo: set<string>) {
    forall n {:trigger IsCandidate(e, c, j, n)} :: IsCandidate(e, c, j, n) && n !in todo ==>
      TomlStem(n) in byFullName && Ok(byFullName[TomlStem(n)]) == LoadRecord(e, c, j, n)
  }

  /** `byFullName` keeps every key of `byFullName0`, and changes only the records of full names the `j`-th location holds. */
  ghost predicate OverwritesOnly(byFullName0: map<string, RepoMeta>, byFullName: map<string, RepoMeta>, e: Entries, c: Config, j: nat) {
    forall k :: k in byFullName0 ==>
      k in byFullName && (byFullName[k] == byFullName0[k] || exists n :: IsCandidate(e, c, j, n) && TomlStem(n) == k)
  }

  /** Every record file of the first `upTo` storage locations loads. */
  ghost predicate LoadsBefore(e: Entries, c: Config, upTo: nat) {
    forall j: nat, n {:trigger IsCandidate(e, c, j, n)} :: IsCandidate(e, c, j, n) && j < upTo ==> LoadRecord(e, c, j, n).Ok?
  }

  /**
   * Two record files that load and share a stem have the same name: only
   * `.toml` shares its stem with another name (`.toml.toml`), and it never loads.
   */
  lemma LoadedStemsAgree(e: Entries, c: Config, j1: nat, n1: string, j2: nat, n2: string)
    requires IsCandidate(e, c, j1, n1) && IsCandidate(e, c, j2, n2)
    requires LoadRecord(e, c, j1, n1).Ok? && LoadRecord(e, c, j2, n2).Ok?
    requires TomlStem(n1) == TomlStem(n2)
    ensures n1 == n2
  {
    BareSuffixHasNoSeparator();
    assert n1 != TomlSuffix && n2 != TomlSuffix;
  }

  /** Adding one well-keyed record under its full name and its ulid keeps the two maps in agreement. */
  lemma UlidsAgreeStep(byFullName: map<string, RepoMeta>, byUlid: map<string, RepoMeta>, m: RepoMeta)
    requires KeyedByFullName(byFullName) && UlidsAgree(byFullName, byUlid) && WellKeyed(m)
    ensures KeyedByFullName(byFullName[m.FullName() := m])
    ensures UlidsAgree(byFullName[m.FullName() := m], byUlid[m.ulid := m])
  {
    var bf := byFullName[m.FullName() := m];
    var bu := byUlid[m.ulid := m];
    forall u | u in bu ensures bu[u].ulid == u && bu[u].FullName() in bf && bf[bu[u].FullName()] == bu[u] {
      if u != m.ulid {
        var x := byUlid[u];
        assert x.FullName() in byFullName && byFullName[x.FullName()] == x;
        assert WellKeyed(x);
      }
    }
  }

  /** Adding one successfully loaded record keeps the two maps an index of what was loaded. */
  lemma IndexStep(byFullName: map<string, RepoMeta>, byUlid: map<string, RepoMeta>,
                  e: Entries, c: Config, done: set<(nat, string)>, j: nat, n: string)
    requires IsCandidate(e, c, j, n) && LoadRecord(e, c, j, n).Ok?
    requires IndexOver(byFullName, byUlid, e, c, done)
    ensures var m := LoadRecord(e, c, j, n).value;
      IndexOver(byFullName[TomlStem(n) := m], byUlid[m.ulid := m], e, c, done + {(j, n)})
  {
    var m := LoadRecord(e, c, j, n).value;
    var bf := byFullName[TomlStem(n) := m];
    var done' := done + {(j, n)};
    UlidsAgreeStep(byFullName, byUlid, m);
    assert KeyedByFullName(bf) && UlidsAgree(bf, byUlid[m.ulid := m]);
    IndexStepDone(byFullName, byUlid, e, c, done, j, n);
    IndexStepKeys(byFullName, byUlid, e, c, done, j, n);
    assert IndexOver(bf, byUlid[m.ulid := m], e, c, done');
  }

  /** After adding one loaded record, every file handled so far still loads and has its full name as a key. */
  lemma IndexStepDone(byFullName: map<string, RepoMeta>, byUlid: map<string, RepoMeta>,
                      e: Entries, c: Config, done: set<(nat, string)>, j: nat, n: string)
    requires IsCandidate(e, c, j, n) && LoadRecord(e, c, j, n).Ok?
    requires IndexOver(byFullName, byUlid, e, c, done)
    ensures var bf := byFullName[TomlStem(n) := LoadRecord(e, c, j, n).value];
      forall jn :: jn in done + {(j, n)} ==>
        IsCandidate(e, c, jn.0, jn.1) && LoadRecord(e, c, jn.0, jn.1).Ok? && TomlStem(jn.1) in bf
  {
    var bf := byFullName[TomlStem(n) := LoadRecord(e, c, j, n).value];
    forall jn | jn in done + {(j, n)}
      ensures IsCandidate(e, c, jn.0, jn.1) && LoadRecord(e, c, jn.0, jn.1).Ok? && TomlStem(jn.1) in bf
    {
      if jn != (j, n) {
        assert jn in done;
      }
    }
  }

  /** After adding one loaded record, every key still comes from a loaded record file. */
  lemma IndexStepKeys(byFullName: map<string, RepoMeta>, byUlid: map<string, RepoMeta>,
                      e: Entries, c: Config, done: set<(nat, string)>, j: nat, n: string)
    requires IsCandidate(e, c, j, n) && LoadRecord(e, c, j, n).Ok?
    requires IndexOver(byFullName, byUlid, e, c, done)
    ensures var bf := byFullName[TomlStem(n) := LoadRecord(e, c, j, n).value];
      forall k :: k in bf ==>
        exists jn :: jn in done + {(j, n)} && IsCandidate(e, c, jn.0, jn.1) && TomlStem(jn.1) == k
                     && LoadRecord(e, c, jn.0, jn.1) == Ok(bf[k])
  {
    var bf := byFullName[TomlStem(n) := LoadRecord(e, c, j, n).value];
    var done' := done + {(j, n)};
    forall k | k in bf
      ensures exists jn :: jn in done' && IsCandidate(e, c, jn.0, jn.1) && TomlStem(jn.1) == k
                           && LoadRecord(e, c, jn.0, jn.1) == Ok(bf[k])
    {
      if k == TomlStem(n) {
        var jn := (j, n);
        assert bf[k] == LoadRecord(e, c, j, n).value;
        assert jn in done' && IsCandidate(e, c, jn.0, jn.1) && TomlStem(jn.1) == k
               && LoadRecord(e, c, jn.0, jn.1) == Ok(bf[k]);
      } else {
        assert k in byFullName && bf[k] == byFullName[k];
        var jn :| jn in done && IsCandidate(e, c, jn.0, jn.1) && TomlStem(jn.1) == k
                  && LoadRecord(e, c, jn.0, jn.1) == Ok(byFullName[k]);
        assert jn in done' && IsCandidate(e, c, jn.0, jn.1) && TomlStem(jn.1) == k
               && LoadRecord(e, c, jn.0, jn.1) == Ok(bf[k]);
      }
    }
  }

  /** The index of every record file, built location by location and stopping at the first record that does not load. */
  method CreateRepoyardMeta(e: Entries, c: Config) returns (r: Result<RepoyardMeta, IndexError>)
    ensures r.Ok? <==> AllLoad(e, c)
    ensures r.Ok? ==> IsIndexOf(r.value, e, c)
    ensures r.Ok? ==> LastLocationWins(r.value.byFullName, e, c, |c.storageLocations|)
    ensures r.Err? ==> exists j: nat, n :: IsCandidate(e, c, j, n) && LoadRecord(e, c, j, n) == Err(r.error) && LoadsBefore(e, c, j)
  {
    var byFullName: map<string, RepoMeta> := map[];
    var byUlid: map<string, RepoMeta> := map[];
    ghost var done: set<(nat, string)> := {};
    var j: nat := 0;
    while j < |c.storageLocations|
      invariant j <= |c.storageLocations|
      invariant IndexedBefore(byFullName, byUlid, e, c, done, j)
    {
      var res;
      res, byFullName, byUlid, done := IndexNextLocation(e, c, j, byFullName, byUlid, done);
      if res.Fail? {
        return Err(res.error);
      }
      j := j + 1;
    }
    r := Ok(RepoyardMeta(byFullName, byUlid));
    IndexOverEverything(byFullName, byUlid, e, c, done);
  }

  /** The outer loop's invariant: every record file of the first `j` locations is indexed, each full name under the last location holding it. */
  ghost predicate IndexedBefore(byFullName: map<string, RepoMeta>, byUlid: map<string, RepoMeta>,
                                e: Entries, c: Config, done: set<(nat, string)>, j: nat)
  {
    && (forall j': nat, n :: IsCandidate(e, c, j', n) && j' < j ==> (j', n) in done)
    && IndexOver(byFullName, byUlid, e, c, done)
    && LastLocationWins(byFullName, e, c, j)
  }

  /**
   * One turn of the outer loop of `create_repoyard_meta`: index the `j`-th
   * location, whose records overwrite those of earlier locations with the
   * same full name, or report a record file of it that does not load.
   */
  method IndexNextLocation(e: Entries, c: Config, j: nat, byFullName0: map<string, RepoMeta>, byUlid0: map<string, RepoMeta>,
                           ghost done0: set<(nat, string)>)
    returns (r: Outcome<IndexError>, byFullName: map<string, RepoMeta>, byUlid: map<string, RepoMeta>,
             ghost done: set<(nat, string)>)
    requires j < |c.storageLocations|
    requires IndexedBefore(byFullName0, byUlid0, e, c, done0, j)
    ensures r.Fail? ==> exists n :: IsCandidate(e, c, j, n) && LoadRecord(e, c, j, n) == Err(r.error) && LoadsBefore(e, c, j)
    ensures r.Pass? ==> IndexedBefore(byFullName, byUlid, e, c, done, j + 1)
  {
    assert LoadsBefore(e, c, j) by {
      forall j': nat, n | IsCandidate(e, c, j', n) && j' < j ensures LoadRecord(e, c, j', n).Ok? {
        assert (j', n) in done0;
      }
    }
    r, byFullName, byUlid, done := IndexLocation(e, c, j, byFullName0, byUlid0, done0);
    if r.Pass? {
      LastLocationStep(byFullName0, byFullName, e, c, j);
    }
  }

  /** The inner loop of `create_repoyard_meta`: index every record file of the `j`-th location. */
  method IndexLocation(e: Entries, c: Config, j: nat, byFullName0: map<string, RepoMeta>, byUlid0: map<string, RepoMeta>,
                       ghost done0: set<(nat, string)>)
    returns (r: Outcome<IndexError>, byFullName: map<string, RepoMeta>, byUlid: map<string, RepoMeta>,
             ghost done: set<(nat, string)>)
    requires j < |c.storageLocations| && IndexOver(byFullName0, byUlid0, e, c, done0)
    ensures r.Fail? ==> exists n :: IsCandidate(e, c, j, n) && LoadRecord(e, c, j, n) == Err(r.error)
    ensures r.Pass? ==> LocationProgress(byFullName0, byFullName, byUlid, e, c, j, done0, done, {})
  {
    byFullName, byUlid, done := byFullName0, byUlid0, done0;
    var todo := RecordNames(e, c, j);
    while todo != {}
      invariant todo <= RecordNames(e, c, j)
      invariant LocationProgress(byFullName0, byFullName, byUlid, e, c, j, done0, done, todo)
    {
      var n :| n in todo;
      var loaded := LoadRecord(e, c, j, n);
      if loaded.Err? {
        return Fail(loaded.error), byFullName, byUlid, done;
      }
      var m := loaded.value;
      IndexStep(byFullName, byUlid, e, c, done, j, n);
      HoldsStep(byFullName0, byFullName, e, c, j, done, todo, n);
      byFullName := byFullName[TomlStem(n) := m];
      byUlid := byUlid[m.ulid := m];
      done := done + {(j, n)};
      todo := todo - {n};
    }
    r := Pass;
  }

  /** The inner loop's invariant: the files of location `j` outside `todo` are indexed, each under its full name, and only their full names changed. */
  ghost predicate LocationProgress(byFullName0: map<string, RepoMeta>, byFullName: map<string, RepoMeta>, byUlid: map<string, RepoMeta>,
                                   e: Entries, c: Config, j: nat, done0: set<(nat, string)>, done: set<(nat, string)>, todo: set<string>)
  {
    && done0 <= done && (forall n :: IsCandidate(e, c, j, n) && n !in todo ==> (j, n) in done)
    && IndexOver(byFullName, byUlid, e, c, done)
    && HoldsLocation(byFullName, e, c, j, todo) && OverwritesOnly(byFullName0, byFullName, e, c, j)
  }

  /** Loading one more record file of a location keeps every loaded file's record and overwrites only its own full name. */
  lemma HoldsStep(byFullName0: map<string, RepoMeta>, byFullName: map<string, RepoMeta>,
                  e: Entries, c: Config, j: nat, done: set<(nat, string)>, todo: set<string>, n: string)
    requires IsCandidate(e, c, j, n) && LoadRecord(e, c, j, n).Ok?
    requires forall jn :: jn in done ==> IsCandidate(e, c, jn.0, jn.1) && LoadRecord(e, c, jn.0, jn.1).Ok?
    requires forall n' :: IsCandidate(e, c, j, n') && n' !in todo ==> (j, n') in done
    requires HoldsLocation(byFullName, e, c, j, todo) && OverwritesOnly(byFullName0, byFullName, e, c, j)
    ensures var bf := byFullName[TomlStem(n) := LoadRecord(e, c, j, n).value];
      HoldsLocation(bf, e, c, j, todo - {n}) && OverwritesOnly(byFullName0, bf, e, c, j)
  {
    forall n' | IsCandidate(e, c, j, n') && n' !in todo ensures TomlStem(n') != TomlStem(n) || n' == n {
      assert (j, n') in done;
      if TomlStem(n') == TomlStem(n) {
        LoadedStemsAgree(e, c, j, n', j, n);
      }
    }
  }

  /**
   * Indexing one more location keeps the last location's record for every
   * full name: the new location's records overwrite, and an earlier record
   * stays unless the new location holds the same file.
   */
  lemma LastLocationStep(byFullName0: map<string, RepoMeta>, byFullName: map<string, RepoMeta>, e: Entries, c: Config, j: nat)
    requires LastLocationWins(byFullName0, e, c, j) && LoadsBefore(e, c, j)
    requires HoldsLocation(byFullName, e, c, j, {}) && OverwritesOnly(byFullName0, byFullName, e, c, j)
    ensures LastLocationWins(byFullName, e, c, j + 1)
  {
    forall n | LastHolder(e, c, n, j + 1).Some?
      ensures TomlStem(n) in byFullName && Ok(byFullName[TomlStem(n)]) == LoadRecord(e, c, LastHolder(e, c, n, j + 1).value, n)
    {
      if !IsCandidate(e, c, j, n) {
        var j' := LastHolder(e, c, n, j).value;
        EarlierRecordKept(byFullName0, byFullName, e, c, j, j', n);
      }
    }
  }

  /** A record file of a fully indexed location loads, and its record is kept under its full name. */
  lemma HeldRecordLoads(byFullName: map<string, RepoMeta>, e: Entries, c: Config, j: nat, n: string)
    requires HoldsLocation(byFullName, e, c, j, {}) && IsCandidate(e, c, j, n)
    ensures TomlStem(n) in byFullName && LoadRecord(e, c, j, n) == Ok(byFullName[TomlStem(n)])
  {
  }

  /** A record from an earlier location survives a location that does not hold its file. */
  lemma EarlierRecordKept(byFullName0: map<string, RepoMeta>, byFullName: map<string, RepoMeta>, e: Entries, c: Config, j: nat, j': nat, n: string)
    requires IsCandidate(e, c, j', n) && LoadRecord(e, c, j', n).Ok? && !IsCandidate(e, c, j, n)
    requires TomlStem(n) in byFullName0
    requires HoldsLocation(byFullName, e, c, j, {}) && OverwritesOnly(byFullName0, byFullName, e, c, j)
    ensures TomlStem(n) in byFullName && byFullName[TomlStem(n)] == byFullName0[TomlStem(n)]
  {
    var k := TomlStem(n);
    assert k in byFullName;
    if byFullName[k] != byFullName0[k] {
      var n2 :| IsCandidate(e, c, j, n2) && TomlStem(n2) == k;
      HeldRecordLoads(byFullName, e, c, j, n2);
      LoadedStemsAgree(e, c, j', n, j, n2);
      assert false;
    }
  }

  /**
   * When several locations hold the same record file, the index keeps the
   * record of the last of them: a file no later location holds is the one
   * kept under its full name.
   */
  lemma KeptRecordIsLast(meta: RepoyardMeta, e: Entries, c: Config, j: nat, n: string)
    requires LastLocationWins(meta.byFullName, e, c, |c.storageLocations|)
    requires IsCandidate(e, c, j, n) && forall j': nat :: j < j' ==> !IsCandidate(e, c, j', n)
    ensures TomlStem(n) in meta.byFullName && Ok(meta.byFullName[TomlStem(n)]) == LoadRecord(e, c, j, n)
  {
    LastHolderIsLast(e, c, n, |c.storageLocations|);
    var last := LastHolder(e, c, n, |c.storageLocations|);
    assert last.Some?;
    assert last.value == j;
  }

  /** Once every record file has been visited, an index of what was visited is an index of the store. */
  lemma IndexOverEverything(byFullName: map<string, RepoMeta>, byUlid: map<string, RepoMeta>,
                            e: Entries, c: Config, done: set<(nat, string)>)
    requires forall j: nat, n :: IsCandidate(e, c, j, n) ==> (j, n) in done
    requires IndexOver(byFullName, byUlid, e, c, done)
    ensures IsIndexOf(RepoyardMeta(byFullName, byUlid), e, c) && AllLoad(e, c)
  {
    forall k | k in byFullName
      ensures exists j: nat, n :: IsCandidate(e, c, j, n) && TomlStem(n) == k && LoadRecord(e, c, j, n) == Ok(byFullName[k])
    {
      var jn :| jn in done && IsCandidate(e, c, jn.0, jn.1) && TomlStem(jn.1) == k
                && LoadRecord(e, c, jn.0, jn.1) == Ok(byFullName[k]);
    }
  }

  /** An indexed record is keyed by its own full name and ulid, and lives in a configured location. */
  lemma IndexedRecordIsConsistent(meta: RepoyardMeta, e: Entries, c: Config, k: string)
    requires IsIndexOf(meta, e, c) && k in meta.byFullName
    ensures var m := meta.byFullName[k];
      && m.FullName() == k && WellKeyed(m)
      && m.storageLocation in c.LocationNames()
      && m.ulid in meta.byUlid && meta.byUlid[m.ulid].ulid == m.ulid
  {
    var j: nat, n :| IsCandidate(e, c, j, n) && TomlStem(n) == k && LoadRecord(e, c, j, n) == Ok(meta.byFullName[k]);
    assert c.LocationNames()[j] == meta.byFullName[k].storageLocation;
    assert WellKeyed(meta.byFullName[k]);
  }

  /** `.toml` alone has no `__`, so it never loads. */
  lemma BareSuffixHasNoSeparator()
    ensures SplitStem(TomlSuffix).None?
  {
    forall j: nat ensures !SeparatorAt(TomlSuffix, j) {
      if j + 1 < |TomlSuffix| {
        assert TomlSuffix[j] != '_' || TomlSuffix[j + 1] != '_';
      }
    }
  }

  /**
   * A saved record is indexed back to itself: the file `save` writes is a
   * record file of its location, and loading it gives the record that was saved.
   */
  lemma SavedRecordLoads(e: Entries, c: Config, m: RepoMeta, j: nat)
    requires '_' !in m.ulid
    requires j < |c.storageLocations| && c.storageLocations[j].name == m.storageLocation
    requires SyncedRecordPath(c, m) in e && e[SyncedRecordPath(c, m)] == File(RecordToml(ToPayload(m)))
    ensures IsCandidate(e, c, j, RecordFileName(m.FullName()))
    ensures LoadRecord(e, c, j, RecordFileName(m.FullName())) == Ok(m)
  {
    var n := RecordFileName(m.FullName());
    assert n[|n| - |TomlSuffix|..] == TomlSuffix;
    assert n != TomlSuffix by {
      assert |m.FullName()| >= 2;
    }
    assert TomlStem(n) == m.FullName();
    LoadSavedRecord(m);
  }

  /** The record of an index that loaded: if a full name is a key, the record saved under it is the one indexed. */
  lemma SavedRecordIndexed(meta: RepoyardMeta, e: Entries, c: Config, m: RepoMeta, j: nat)
    requires '_' !in m.ulid
    requires j < |c.storageLocations| && c.storageLocations[j].name == m.storageLocation
    requires SyncedRecordPath(c, m) in e && e[SyncedRecordPath(c, m)] == File(RecordToml(ToPayload(m)))
    requires IsIndexOf(meta, e, c)
    ensures m.FullName() in meta.byFullName
    ensures meta.byFullName[m.FullName()].FullName() == m.FullName()
  {
    SavedRecordLoads(e, c, m, j);
    IndexedRecordIsConsistent(meta, e, c, TomlStem(RecordFileName(m.FullName())));
  }

  // ------------------------------------------------------------ the cache

  /** Reading the cached index file. */
  function ReadIndex(e: Entries, p: Path): (r: Result<RepoyardMeta, IndexError>)
    ensures r.Ok? <==> p in e && e[p].File? && e[p].content.MetaJson?
    ensures r.Ok? ==> e[p] == File(MetaJson(r.value))
    ensures r.Err? ==> r.error == NotAnIndex(p)
  {
    if p in e && e[p].File? && e[p].content.MetaJson? then Ok(e[p].content.meta) else Err(NotAnIndex(p))
  }

  /**
   * `get_repoyard_meta`: rebuild and overwrite the cache file when it is
   * missing or a rebuild is forced, then read it; otherwise just read it.
   */
  method GetRepoyardMeta(fs: FileSystem, c: Config, forceCreate: bool) returns (r: Result<RepoyardMeta, IndexError>)
    requires fs.Valid()
    modifies fs
    ensures fs.Valid()
    ensures var p := c.RepoyardMetaPath();
      && (Present(old(fs.entries), p) && !forceCreate ==>
            fs.entries == old(fs.entries) && r == ReadIndex(old(fs.entries), p))
      && (!Present(old(fs.entries), p) || forceCreate ==>
            && (r.Ok? <==> AllLoad(old(fs.entries), c)
                           && (p !in old(fs.entries) || old(fs.entries)[p].File?)
                           && IsDirIn(old(fs.entries), Parent(p)))
            && (r.Ok? ==> IsIndexOf(r.value, old(fs.entries), c)
                          && LastLocationWins(r.value.byFullName, old(fs.entries), c, |c.storageLocations|)
                          && fs.entries == old(fs.entries)[p := File(MetaJson(r.value))]
                          && ReadIndex(fs.entries, p) == r)
            && (r.Err? ==> fs.entries == old(fs.entries)))
  {
    var p := c.RepoyardMetaPath();
    if !Present(fs.entries, p) || forceCreate {
      var created := CreateRepoyardMeta(fs.entries, c);
      if created.Err? {
        return Err(created.error);
      }
      var w := fs.WriteFile(p, MetaJson(created.value));
      if w.Fail? {
        return Err(CacheWriteFailed(w.error));
      }
    }
    r := ReadIndex(fs.entries, p);
  }

  // ---------------------------------------------------------- repo groups

  /** The configured groups by name; a later entry with the same name replaces an earlier one. */
  function ConfiguredGroups(gs: seq<RepoGroupConfig>): (r: map<string, RepoGroupConfig>)
    ensures forall g :: g in r ==> r[g].groupName == g
  {
    if gs == [] then map[]
    else
      var init := gs[..|gs| - 1];
      var last := gs[|gs| - 1];
      ConfiguredGroups(init)[last.groupName := last]
  }

  /** Exactly the listed names are configured. */
  lemma {:induction false} ConfiguredGroupsMembers(gs: seq<RepoGroupConfig>)
    ensures forall g :: g in ConfiguredGroups(gs) <==> exists i :: 0 <= i < |gs| && gs[i].groupName == g
  {
    if gs != [] {
      var init := gs[..|gs| - 1];
      ConfiguredGroupsMembers(init);
      assert forall i :: 0 <= i < |init| ==> init[i] == gs[i];
    }
  }

  /** The configuration kept for a name is the last one listed under that name. */
  lemma {:induction false} ConfiguredGroupIsLast(gs: seq<RepoGroupConfig>, g: string)
    requires g in ConfiguredGroups(gs)
    ensures exists i :: 0 <= i < |gs| && gs[i] == ConfiguredGroups(gs)[g]
                        && forall i' :: i < i' < |gs| ==> gs[i'].groupName != g
  {
    var init := gs[..|gs| - 1];
    var last := gs[|gs| - 1];
    if last.groupName == g {
      assert gs[|gs| - 1] == ConfiguredGroups(gs)[g];
    } else {
      assert g in ConfiguredGroups(init);
      ConfiguredGroupIsLast(init, g);
      var i :| 0 <= i < |init| && init[i] == ConfiguredGroups(init)[g]
               && forall i' :: i < i' < |init| ==> init[i'].groupName != g;
      assert gs[i] == init[i];
      forall i' | i < i' < |gs| ensures gs[i'].groupName != g {
        if i' < |init| {
          assert gs[i'] == init[i'];
        }
      }
    }
  }

  /** The groups named by included repos. */
  function IncludedGroups(e: Entries, c: Config, metas: seq<RepoMeta>): set<string> {
    if metas == [] then {}
    else
      var last := metas[|metas| - 1];
      IncludedGroups(e, c, metas[..|metas| - 1]) + (if CheckIncluded(e, c, last) then set g | g in last.groups else {})
  }

  /** A group is named by an included repo exactly when some included repo lists it. */
  lemma {:induction false} IncludedGroupsMembers(e: Entries, c: Config, metas: seq<RepoMeta>)
    ensures forall g :: g in IncludedGroups(e, c, metas) <==>
      exists i :: 0 <= i < |metas| && CheckIncluded(e, c, metas[i]) && g in metas[i].groups
  {
    if metas != [] {
      var init := metas[..|metas| - 1];
      IncludedGroupsMembers(e, c, init);
      assert forall i :: 0 <= i < |init| ==> init[i] == metas[i];
    }
  }

  /** One more repo adds its groups, if it is included. */
  lemma IncludedGroupsStep(e: Entries, c: Config, metas: seq<RepoMeta>, i: nat)
    requires i < |metas|
    ensures IncludedGroups(e, c, metas[..i + 1]) ==
      IncludedGroups(e, c, metas[..i]) + (if CheckIncluded(e, c, metas[i]) then set g | g in metas[i].groups else {})
  {
    assert metas[..i + 1][..i] == metas[..i];
  }

  /** `get_repo_group_configs` read as intended: the configured groups, plus a default one per other group an included repo names. */
  function GroupConfigs(e: Entries, c: Config, metas: seq<RepoMeta>): map<string, RepoGroupConfig> {
    var conf := ConfiguredGroups(c.repoGroups);
    map g | g in conf.Keys + IncludedGroups(e, c, metas) :: if g in conf then conf[g] else DefaultGroupConfig(g)
  }

  /** The effective groups: every configured group and every group an included repo names, each under its own name. */
  lemma GroupConfigsSpec(e: Entries, c: Config, metas: seq<RepoMeta>)
    ensures var r := GroupConfigs(e, c, metas);
      && (forall g :: g in r <==>
            || (exists i :: 0 <= i < |c.repoGroups| && c.repoGroups[i].groupName == g)
            || (exists i :: 0 <= i < |metas| && CheckIncluded(e, c, metas[i]) && g in metas[i].groups))
      && (forall g :: g in r ==> r[g].groupName == g)
      && (forall g :: g in r && g in ConfiguredGroups(c.repoGroups) ==> r[g] == ConfiguredGroups(c.repoGroups)[g])
      && (forall g :: g in r && g !in ConfiguredGroups(c.repoGroups) ==> r[g] == DefaultGroupConfig(g))
  {
    IncludedGroupsMembers(e, c, metas);
    ConfiguredGroupsMembers(c.repoGroups);
  }

  /** The loop of `get_repo_group_configs`, over the repos in order. */
  method GetRepoGroupConfigs(e: Entries, c: Config, metas: seq<RepoMeta>) returns (r: map<string, RepoGroupConfig>)
    ensures r == GroupConfigs(e, c, metas)
  {
    var conf := ConfiguredGroups(c.repoGroups);
    r := conf;
    ghost var seen: set<string> := {};
    var i := 0;
    while i < |metas|
      invariant 0 <= i <= |metas|
      invariant seen == IncludedGroups(e, c, metas[..i])
      invariant r.Keys == conf.Keys + seen
      invariant forall g :: g in r ==> r[g] == if g in conf then conf[g] else DefaultGroupConfig(g)
    {
      IncludedGroupsStep(e, c, metas, i);
      if CheckIncluded(e, c, metas[i]) {
        r := AddDefaultGroups(r, conf, metas[i].groups);
        seen := seen + set g | g in metas[i].groups;
      }
      i := i + 1;
    }
    assert metas[..i] == metas;
    GroupConfigsByKey(r, e, c, metas);
  }

  /** The inner loop of `get_repo_group_configs`: a default configuration for each group not yet known. */
  method AddDefaultGroups(r0: map<string, RepoGroupConfig>, conf: map<string, RepoGroupConfig>, groups: seq<string>)
    returns (r: map<string, RepoGroupConfig>)
    requires conf.Keys <= r0.Keys
    requires forall g :: g in r0 ==> r0[g] == if g in conf then conf[g] else DefaultGroupConfig(g)
    ensures r.Keys == r0.Keys + set g | g in groups
    ensures forall g :: g in r ==> r[g] == if g in conf then conf[g] else DefaultGroupConfig(g)
  {
    r := r0;
    var t := 0;
    while t < |groups|
      invariant 0 <= t <= |groups|
      invariant r.Keys == r0.Keys + set g | g in groups[..t]
      invariant forall g :: g in r ==> r[g] == if g in conf then conf[g] else DefaultGroupConfig(g)
    {
      if groups[t] !in r {
        r := r[groups[t] := DefaultGroupConfig(groups[t])];
      }
      assert groups[..t + 1] == groups[..t] + [groups[t]];
      t := t + 1;
    }
    assert groups[..t] == groups;
  }

  /** A map with the keys and values `GroupConfigs` describes is `GroupConfigs`. */
  lemma GroupConfigsByKey(r: map<string, RepoGroupConfig>, e: Entries, c: Config, metas: seq<RepoMeta>)
    requires var conf := ConfiguredGroups(c.repoGroups);
      && r.Keys == conf.Keys + IncludedGroups(e, c, metas)
      && (forall g :: g in r ==> r[g] == if g in conf then conf[g] else DefaultGroupConfig(g))
    ensures r == GroupConfigs(e, c, metas)
  {
  }
}
