/**
 * The group view of the included repos: under the user repo groups folder,
 * one folder per repo group holding a link to each member repo's folder in
 * the included store (`create_user_repo_group_symlinks`).
 */
module GroupLinks {
  import opened Wrappers
  import opened Paths
  import opened Records
  import opened Config
  import opened FileSystem
  import opened Repos
  import opened Symlinks

  /** Why the group view could not be made. */
  datatype GroupError =
    | MissingFilter(group: string)   // a virtual group without a filter (`KeyError`)
    | Fs(error: FsError)

  /** The membership tests of the virtual groups, by group name. */
  type Filters = map<string, RepoMeta -> bool>

  /** `get_virtual_repo_group_filters`: no virtual group has a filter yet. */
  function VirtualRepoGroupFilters(c: Config): Filters {
    map[]
  }

  /** A repo belongs to group `g`: by its filter when the group is virtual, by its own list of groups otherwise. */
  predicate InGroup(cfg: RepoGroupConfig, filters: Filters, g: string, m: RepoMeta) {
    if cfg.isVirtual then g in filters && filters[g](m) else g in m.groups
  }

  /** The full names of the included repos of group `g`. */
  function GroupNames(e: Entries, c: Config, cfg: RepoGroupConfig, filters: Filters, g: string, metas: seq<RepoMeta>): set<string> {
    if metas == [] then {}
    else
      var last := metas[|metas| - 1];
      GroupNames(e, c, cfg, filters, g, metas[..|metas| - 1])
        + (if CheckIncluded(e, c, last) && InGroup(cfg, filters, g, last) then {last.FullName()} else {})
  }

  /** A full name is in a group exactly when some included member repo has it. */
  lemma {:induction false} GroupNamesMembers(e: Entries, c: Config, cfg: RepoGroupConfig, filters: Filters, g: string, metas: seq<RepoMeta>)
    ensures forall n :: n in GroupNames(e, c, cfg, filters, g, metas) <==>
      exists i :: 0 <= i < |metas| && CheckIncluded(e, c, metas[i]) && InGroup(cfg, filters, g, metas[i]) && metas[i].FullName() == n
  {
    if metas != [] {
      var init := metas[..|metas| - 1];
      GroupNamesMembers(e, c, cfg, filters, g, init);
      assert forall i :: 0 <= i < |init| ==> init[i] == metas[i];
    }
  }

  /** One more repo adds its name when it is an included member. */
  lemma GroupNamesStep(e: Entries, c: Config, cfg: RepoGroupConfig, filters: Filters, g: string, metas: seq<RepoMeta>, i: nat)
    requires i < |metas|
    ensures GroupNames(e, c, cfg, filters, g, metas[..i + 1]) == GroupNames(e, c, cfg, filters, g, metas[..i])
      + (if CheckIncluded(e, c, metas[i]) && InGroup(cfg, filters, g, metas[i]) then {metas[i].FullName()} else {})
  {
    assert metas[..i + 1][..i] == metas[..i];
  }

  /** A prefix of the repo list yields fewer group members. */
  lemma {:induction false} GroupNamesPrefix(e: Entries, c: Config, cfg: RepoGroupConfig, filters: Filters, g: string, metas: seq<RepoMeta>, i: nat)
    requires i <= |metas|
    ensures GroupNames(e, c, cfg, filters, g, metas[..i]) <= GroupNames(e, c, cfg, filters, g, metas)
    decreases |metas| - i
  {
    if i == |metas| {
      assert metas[..i] == metas;
    } else {
      GroupNamesPrefix(e, c, cfg, filters, g, metas, i + 1);
      GroupNamesStep(e, c, cfg, filters, g, metas, i);
    }
  }

  /** Some repo of `metas` is included. */
  predicate SomeIncluded(e: Entries, c: Config, metas: seq<RepoMeta>) {
    metas != [] && (SomeIncluded(e, c, metas[..|metas| - 1]) || CheckIncluded(e, c, metas[|metas| - 1]))
  }

  /** `SomeIncluded` holds exactly when one of the repos is included. */
  lemma {:induction false} SomeIncludedMembers(e: Entries, c: Config, metas: seq<RepoMeta>)
    ensures SomeIncluded(e, c, metas) <==> exists i :: 0 <= i < |metas| && CheckIncluded(e, c, metas[i])
  {
    if metas != [] {
      var init := metas[..|metas| - 1];
      SomeIncludedMembers(e, c, init);
      assert forall i :: 0 <= i < |init| ==> init[i] == metas[i];
    }
  }

  /** One more repo. */
  lemma SomeIncludedStep(e: Entries, c: Config, metas: seq<RepoMeta>, i: nat)
    requires i < |metas|
    ensures SomeIncluded(e, c, metas[..i + 1]) <==> SomeIncluded(e, c, metas[..i]) || CheckIncluded(e, c, metas[i])
  {
    assert metas[..i + 1][..i] == metas[..i];
  }

  /** An included repo in a prefix is an included repo of the whole list. */
  lemma {:induction false} SomeIncludedPrefix(e: Entries, c: Config, metas: seq<RepoMeta>, i: nat)
    requires i <= |metas|
    ensures SomeIncluded(e, c, metas[..i]) ==> SomeIncluded(e, c, metas)
    decreases |metas| - i
  {
    if i == |metas| {
      assert metas[..i] == metas;
    } else {
      SomeIncludedPrefix(e, c, metas, i + 1);
      SomeIncludedStep(e, c, metas, i);
    }
  }

  /** A virtual group without a filter meets an included repo: the source's lookup of the filter fails. */
  predicate MissingFilterFor(e: Entries, c: Config, cfg: RepoGroupConfig, filters: Filters, g: string, metas: seq<RepoMeta>) {
    cfg.isVirtual && g !in filters && SomeIncluded(e, c, metas)
  }

  /** The link of repo `n` in group `g` can be made: its folder can be created and the link's name is free or a link. */
  predicate SlotUsable(e: Entries, groupsPath: Path, g: string, n: string) {
    CanMakeDirs(e, groupsPath + [g]) && (groupsPath + [g, n] !in e || e[groupsPath + [g, n]].Link?)
  }

  /** Every name of `names` can be linked into group `g`. */
  predicate AllUsable(e: Entries, groupsPath: Path, g: string, names: set<string>) {
    forall n :: n in names ==> SlotUsable(e, groupsPath, g, n)
  }

  /** One more usable name. */
  lemma UsableAdd(e: Entries, groupsPath: Path, g: string, names: set<string>, n: string)
    requires AllUsable(e, groupsPath, g, names) && SlotUsable(e, groupsPath, g, n)
    ensures AllUsable(e, groupsPath, g, names + {n})
  {
  }

  /** `p` is the link of one of the pairs (group, full name) of `done`. */
  predicate IsSlot(p: Path, groupsPath: Path, done: map<string, set<string>>) {
    IsGrandchild(p, groupsPath) && p[|groupsPath|] in done && p[|groupsPath| + 1] in done[p[|groupsPath|]]
  }

  /**
   * The state after linking the pairs of `done`, starting from `e0`: each
   * pair's link is in place, everything else of `e0` is as it was, and the
   * only new entries are those links and the directories made to hold them.
   */
  ghost predicate PlacedLinks(e0: Entries, e: Entries, groupsPath: Path, store: Path, done: map<string, set<string>>) {
    && (forall g, n :: g in done && n in done[g] ==> groupsPath + [g, n] in e && e[groupsPath + [g, n]] == Link(store + [n]))
    && (forall p :: p in e0 && !IsSlot(p, groupsPath, done) ==> p in e && e[p] == e0[p])
    && (forall p :: p in e && p !in e0 ==> IsSlot(p, groupsPath, done) || (e[p] == Dir && (IsPrefix(p, groupsPath) || IsChild(p, groupsPath))))
    && (forall p :: p in e0 && IsSlot(p, groupsPath, done) ==> e0[p].Link?)
  }

  /** Some pair of `done` is linked. */
  ghost predicate SomePlaced(done: map<string, set<string>>) {
    exists g :: g in done && done[g] != {}
  }

  /** `PlacedLinks`, where a directory above the groups folder is only made on the way to a link. */
  ghost predicate Placed(e0: Entries, e: Entries, groupsPath: Path, store: Path, done: map<string, set<string>>) {
    && PlacedLinks(e0, e, groupsPath, store, done)
    && (forall p :: p in e && p !in e0 && IsPrefix(p, groupsPath) ==> SomePlaced(done))
  }

  /** The recorded link paths are exactly the links of `done`. */
  ghost predicate KeepsSlots(keep: set<Path>, groupsPath: Path, done: map<string, set<string>>) {
    forall p :: p in keep <==> IsSlot(p, groupsPath, done)
  }

  /** Recording one more link path keeps the record in step with the placed pairs. */
  lemma KeepStep(keep: set<Path>, groupsPath: Path, done: map<string, set<string>>, g: string, names: set<string>, n: string)
    requires KeepsSlots(keep, groupsPath, done[g := names])
    ensures KeepsSlots(keep + {groupsPath + [g, n]}, groupsPath, done[g := names + {n}])
  {
    var slot := groupsPath + [g, n];
    var cur := done[g := names];
    var done' := done[g := names + {n}];
    assert slot[..|groupsPath|] == groupsPath && slot[|groupsPath|] == g && slot[|groupsPath| + 1] == n;
    forall p | IsSlot(p, groupsPath, done') && !IsSlot(p, groupsPath, cur) ensures p == slot {
      assert p == groupsPath + [p[|groupsPath|], p[|groupsPath| + 1]];
    }
  }

  /** Nothing is placed yet at the start. */
  lemma PlacedInitially(e0: Entries, groupsPath: Path, store: Path)
    ensures Placed(e0, e0, groupsPath, store, map[])
    ensures KeepsSlots({}, groupsPath, map[])
  {
  }

  /** The prefixes of a group folder are the groups folder's own prefixes and the group folder itself. */
  lemma PrefixOfFolder(q: Path, groupsPath: Path, g: string)
    requires IsPrefix(q, groupsPath + [g])
    ensures IsPrefix(q, groupsPath) || q == groupsPath + [g]
  {
    if |q| <= |groupsPath| {
      assert (groupsPath + [g])[..|q|] == groupsPath[..|q|];
    }
  }

  /** Placing links never changes whether a group folder can be made. */
  lemma PlacedFolders(e0: Entries, e: Entries, groupsPath: Path, store: Path, done: map<string, set<string>>, g: string)
    requires Placed(e0, e, groupsPath, store, done)
    ensures CanMakeDirs(e, groupsPath + [g]) <==> CanMakeDirs(e0, groupsPath + [g])
  {
    var f := groupsPath + [g];
    forall k | 0 < k <= |f|
      ensures (f[..k] in e && !e[f[..k]].Dir?) <==> (f[..k] in e0 && !e0[f[..k]].Dir?)
    {
      assert !IsGrandchild(f[..k], groupsPath);
    }
  }

  /** Placing links never changes which repos are included, when the store does not contain the groups folder. */
  lemma PlacedInclusion(e0: Entries, e: Entries, c: Config, done: map<string, set<string>>, m: RepoMeta)
    requires Placed(e0, e, c.userRepoGroupsPath, c.IncludedRepostorePath(), done)
    requires !IsPrefix(c.IncludedRepostorePath(), c.userRepoGroupsPath)
    ensures CheckIncluded(e, c, m) <==> CheckIncluded(e0, c, m)
  {
    var p := IncludedRepoPath(c, m);
    var i := c.IncludedRepostorePath();
    var u := c.userRepoGroupsPath;
    if IsSlot(p, u, done) {
      assert u + [p[|u|], p[|u| + 1]] == p;
    } else {
      assert IsPrefix(p, u) ==> IsPrefix(i, u);
      assert IsChild(p, u) ==> IsPrefix(i, u);
    }
  }

  /** A link's name is held by something other than a link exactly when it was at the start. */
  lemma SlotStatus(e0: Entries, e: Entries, groupsPath: Path, store: Path, done: map<string, set<string>>, g: string, n: string)
    requires Placed(e0, e, groupsPath, store, done)
    ensures var slot := groupsPath + [g, n];
      (slot in e && !e[slot].Link?) <==> (slot in e0 && !e0[slot].Link?)
  {
    var slot := groupsPath + [g, n];
    assert slot[..|groupsPath|] == groupsPath && slot[|groupsPath|] == g && slot[|groupsPath| + 1] == n;
    assert !IsPrefix(slot, groupsPath) && !IsChild(slot, groupsPath);
  }

  /** Making a group folder keeps the placed pairs placed. */
  lemma FolderStep(e0: Entries, e: Entries, groupsPath: Path, store: Path, done: map<string, set<string>>, g: string)
    requires WellFormed(e) && Placed(e0, e, groupsPath, store, done) && CanMakeDirs(e, groupsPath + [g])
    ensures PlacedLinks(e0, WithDirs(e, groupsPath + [g]), groupsPath, store, done)
  {
    var f := groupsPath + [g];
    WithDirsEffect(e, f);
    var e1 := WithDirs(e, f);
    forall p | p in e1 && p !in e ensures e1[p] == Dir && (IsPrefix(p, groupsPath) || IsChild(p, groupsPath)) {
      PrefixOfFolder(p, groupsPath, g);
    }
  }

  /** Linking `n` into the folder of group `g` extends the placed pairs by one. */
  lemma SlotStep(e0: Entries, e: Entries, groupsPath: Path, store: Path, done: map<string, set<string>>,
                 g: string, names: set<string>, n: string)
    requires PlacedLinks(e0, e, groupsPath, store, done[g := names])
    requires groupsPath + [g, n] !in e0 || e0[groupsPath + [g, n]].Link?
    ensures Placed(e0, e[groupsPath + [g, n] := Link(store + [n])], groupsPath, store, done[g := names + {n}])
  {
    var slot := groupsPath + [g, n];
    var cur := done[g := names];
    var done' := done[g := names + {n}];
    var e2 := e[slot := Link(store + [n])];
    assert slot[..|groupsPath|] == groupsPath && slot[|groupsPath|] == g && slot[|groupsPath| + 1] == n;
    assert IsSlot(slot, groupsPath, done');
    assert g in done' && n in done'[g];
    forall p | IsSlot(p, groupsPath, cur) ensures IsSlot(p, groupsPath, done') {
    }
    forall p | IsSlot(p, groupsPath, done') && !IsSlot(p, groupsPath, cur) ensures p == slot {
      assert p == groupsPath + [p[|groupsPath|], p[|groupsPath| + 1]];
    }
  }

  /**
   * One member of one group in the first pass of
   * `create_user_repo_group_symlinks`: make the group folder, record the
   * link's path, and link `n` into the folder unless the link there already
   * points at the repo's folder in the store.
   */
  method PlaceLink(fs: FileSystem, ghost e0: Entries, groupsPath: Path, store: Path, ghost done: map<string, set<string>>,
                   ghost names: set<string>, keep: set<Path>, g: string, n: string)
    returns (r: Outcome<FsError>, keep': set<Path>)
    requires fs.Valid() && Placed(e0, fs.entries, groupsPath, store, done[g := names])
    requires IsDirIn(fs.entries, store + [n])
    modifies fs
    ensures fs.Valid()
    ensures r.Pass? <==> SlotUsable(e0, groupsPath, g, n)
    ensures r.Pass? ==> Placed(e0, fs.entries, groupsPath, store, done[g := names + {n}])
    ensures r.Pass? ==> keep' == keep + {groupsPath + [g, n]}
  {
    var folder := groupsPath + [g];
    var link := folder + [n];
    var source := store + [n];
    assert link == groupsPath + [g, n];
    ghost var e := fs.entries;
    PlacedFolders(e0, e, groupsPath, store, done[g := names], g);
    keep' := keep;
    r := fs.MakeDirs(folder);
    if r.Fail? {
      return;
    }
    keep' := keep + {link};
    SlotStatus(e0, e, groupsPath, store, done[g := names], g, n);
    assert link in fs.entries <==> link in e;
    assert link in e ==> fs.entries[link] == e[link];
    r := LinkInto(fs, link, source);
    if r.Pass? {
      FolderStep(e0, e, groupsPath, store, done[g := names], g);
      SlotStep(e0, WithDirs(e, folder), groupsPath, store, done, g, names, n);
    }
  }

  /**
   * Link `link` to `source`: a link already there is kept when it points at
   * `source` and replaced otherwise; anything else there makes `symlink_to`
   * fail.
   */
  method LinkInto(fs: FileSystem, link: Path, source: Path) returns (r: Outcome<FsError>)
    requires fs.Valid() && link != [] && IsDirIn(fs.entries, Parent(link)) && !IsLinkIn(fs.entries, source)
    modifies fs
    ensures fs.Valid()
    ensures r.Pass? <==> link !in old(fs.entries) || old(fs.entries)[link].Link?
    ensures r.Pass? ==> fs.entries == old(fs.entries)[link := Link(source)]
    ensures r.Fail? ==> fs.entries == old(fs.entries)
  {
    ghost var e := fs.entries;
    if IsLinkIn(fs.entries, link) {
      if Resolve(fs.entries, link) != Resolve(fs.entries, source) {
        fs.Unlink(link);
      } else {
        // already correct
        assert fs.entries == e[link := Link(source)];
        return Pass;
      }
    }
    r := fs.SymlinkTo(link, source);
    assert r.Pass? ==> fs.entries == e[link := Link(source)];
  }

  /**
   * The inner loop of the first pass of `create_user_repo_group_symlinks`
   * for group `g`: link each included member repo into the group's folder.
   */
  method LinkGroup(fs: FileSystem, c: Config, ghost e0: Entries, filters: Filters, metas: seq<RepoMeta>,
                   g: string, cfg: RepoGroupConfig, ghost done: map<string, set<string>>, keep: set<Path>)
    returns (r: Outcome<GroupError>, keep': set<Path>)
    requires fs.Valid() && !IsPrefix(c.IncludedRepostorePath(), c.userRepoGroupsPath)
    requires Placed(e0, fs.entries, c.userRepoGroupsPath, c.IncludedRepostorePath(), done)
    requires KeepsSlots(keep, c.userRepoGroupsPath, done) && g !in done
    modifies fs
    ensures fs.Valid()
    ensures r.Pass? <==> && !MissingFilterFor(e0, c, cfg, filters, g, metas)
                         && AllUsable(e0, c.userRepoGroupsPath, g, GroupNames(e0, c, cfg, filters, g, metas))
    ensures r.Fail? && r.error.MissingFilter? ==> r.error.group == g && MissingFilterFor(e0, c, cfg, filters, g, metas)
    ensures r.Pass? ==> var done' := done[g := GroupNames(e0, c, cfg, filters, g, metas)];
      Placed(e0, fs.entries, c.userRepoGroupsPath, c.IncludedRepostorePath(), done') && KeepsSlots(keep', c.userRepoGroupsPath, done')
  {
    ghost var names: set<string> := {};
    EmptyGroupPlaced(e0, fs.entries, c.userRepoGroupsPath, c.IncludedRepostorePath(), done, g, keep);
    keep' := keep;
    r := Pass;
    var i := 0;
    while i < |metas|
      invariant 0 <= i <= |metas| && fs.Valid() && r.Pass?
      invariant names == GroupNames(e0, c, cfg, filters, g, metas[..i])
      invariant Placed(e0, fs.entries, c.userRepoGroupsPath, c.IncludedRepostorePath(), done[g := names])
      invariant KeepsSlots(keep', c.userRepoGroupsPath, done[g := names])
      invariant cfg.isVirtual && g !in filters ==> !SomeIncluded(e0, c, metas[..i])
      invariant AllUsable(e0, c.userRepoGroupsPath, g, names)
    {
      r, keep', names := LinkGroupStep(fs, c, e0, filters, metas, i, g, cfg, done, names, keep');
      if r.Fail? {
        return;
      }
      i := i + 1;
    }
    assert metas[..i] == metas;
  }

  /**
   * One turn of the inner loop: either the first `i + 1` repos are linked,
   * or the group as a whole cannot be linked.
   */
  method LinkGroupStep(fs: FileSystem, c: Config, ghost e0: Entries, filters: Filters, metas: seq<RepoMeta>, i: nat,
                       g: string, cfg: RepoGroupConfig, ghost done: map<string, set<string>>, ghost names: set<string>, keep: set<Path>)
    returns (r: Outcome<GroupError>, keep': set<Path>, ghost names': set<string>)
    requires i < |metas| && fs.Valid() && !IsPrefix(c.IncludedRepostorePath(), c.userRepoGroupsPath)
    requires names == GroupNames(e0, c, cfg, filters, g, metas[..i])
    requires Placed(e0, fs.entries, c.userRepoGroupsPath, c.IncludedRepostorePath(), done[g := names])
    requires KeepsSlots(keep, c.userRepoGroupsPath, done[g := names])
    requires cfg.isVirtual && g !in filters ==> !SomeIncluded(e0, c, metas[..i])
    requires AllUsable(e0, c.userRepoGroupsPath, g, names)
    modifies fs
    ensures fs.Valid()
    ensures r.Fail? ==> MissingFilterFor(e0, c, cfg, filters, g, metas)
                        || !AllUsable(e0, c.userRepoGroupsPath, g, GroupNames(e0, c, cfg, filters, g, metas))
    ensures r.Fail? && r.error.MissingFilter? ==> r.error.group == g && MissingFilterFor(e0, c, cfg, filters, g, metas)
    ensures r.Pass? ==> && names' == GroupNames(e0, c, cfg, filters, g, metas[..i + 1])
                        && Placed(e0, fs.entries, c.userRepoGroupsPath, c.IncludedRepostorePath(), done[g := names'])
                        && KeepsSlots(keep', c.userRepoGroupsPath, done[g := names'])
                        && (cfg.isVirtual && g !in filters ==> !SomeIncluded(e0, c, metas[..i + 1]))
                        && AllUsable(e0, c.userRepoGroupsPath, g, names')
  {
    GroupNamesStep(e0, c, cfg, filters, g, metas, i);
    SomeIncludedStep(e0, c, metas, i);
    r, keep', names' := LinkMember(fs, c, e0, filters, metas[i], g, cfg, done, names, keep);
    if r.Fail? {
      MemberBlocks(e0, c, cfg, filters, g, metas, i);
    }
  }

  /** A group with no links placed yet adds no slots. */
  lemma EmptyGroupPlaced(e0: Entries, e: Entries, groupsPath: Path, store: Path, done: map<string, set<string>>, g: string, keep: set<Path>)
    requires Placed(e0, e, groupsPath, store, done) && KeepsSlots(keep, groupsPath, done) && g !in done
    ensures Placed(e0, e, groupsPath, store, done[g := {}]) && KeepsSlots(keep, groupsPath, done[g := {}])
  {
    assert forall p :: IsSlot(p, groupsPath, done[g := {}]) <==> IsSlot(p, groupsPath, done);
    if SomePlaced(done) {
      var h :| h in done && done[h] != {};
      assert h in done[g := {}] && done[g := {}][h] != {};
    }
  }

  /** An included repo that cannot be linked into `g` makes the whole group fail. */
  lemma MemberBlocks(e0: Entries, c: Config, cfg: RepoGroupConfig, filters: Filters, g: string, metas: seq<RepoMeta>, i: nat)
    requires i < |metas| && CheckIncluded(e0, c, metas[i])
    ensures cfg.isVirtual && g !in filters ==> MissingFilterFor(e0, c, cfg, filters, g, metas)
    ensures InGroup(cfg, filters, g, metas[i]) && !SlotUsable(e0, c.userRepoGroupsPath, g, metas[i].FullName()) ==>
      !AllUsable(e0, c.userRepoGroupsPath, g, GroupNames(e0, c, cfg, filters, g, metas))
  {
    SomeIncludedStep(e0, c, metas, i);
    SomeIncludedPrefix(e0, c, metas, i + 1);
    GroupNamesStep(e0, c, cfg, filters, g, metas, i);
    GroupNamesPrefix(e0, c, cfg, filters, g, metas, i + 1);
  }

  /** One repo of the inner loop of the first pass: skipped unless included, linked when a member of `g`. */
  method LinkMember(fs: FileSystem, c: Config, ghost e0: Entries, filters: Filters, m: RepoMeta, g: string, cfg: RepoGroupConfig,
                    ghost done: map<string, set<string>>, ghost names: set<string>, keep: set<Path>)
    returns (r: Outcome<GroupError>, keep': set<Path>, ghost names': set<string>)
    requires fs.Valid() && !IsPrefix(c.IncludedRepostorePath(), c.userRepoGroupsPath)
    requires Placed(e0, fs.entries, c.userRepoGroupsPath, c.IncludedRepostorePath(), done[g := names])
    requires KeepsSlots(keep, c.userRepoGroupsPath, done[g := names]) && AllUsable(e0, c.userRepoGroupsPath, g, names)
    modifies fs
    ensures fs.Valid()
    ensures names' == names + (if CheckIncluded(e0, c, m) && InGroup(cfg, filters, g, m) then {m.FullName()} else {})
    ensures r.Pass? <==> && !(CheckIncluded(e0, c, m) && cfg.isVirtual && g !in filters)
                         && (CheckIncluded(e0, c, m) && InGroup(cfg, filters, g, m) ==> SlotUsable(e0, c.userRepoGroupsPath, g, m.FullName()))
    ensures r.Fail? && r.error.MissingFilter? ==> r.error.group == g && CheckIncluded(e0, c, m) && cfg.isVirtual && g !in filters
    ensures r.Fail? && r.error.Fs? ==>
      CheckIncluded(e0, c, m) && InGroup(cfg, filters, g, m) && !SlotUsable(e0, c.userRepoGroupsPath, g, m.FullName())
    ensures r.Pass? ==> Placed(e0, fs.entries, c.userRepoGroupsPath, c.IncludedRepostorePath(), done[g := names'])
    ensures r.Pass? ==> KeepsSlots(keep', c.userRepoGroupsPath, done[g := names']) && AllUsable(e0, c.userRepoGroupsPath, g, names')
  {
    var groupsPath := c.userRepoGroupsPath;
    var store := c.IncludedRepostorePath();
    PlacedInclusion(e0, fs.entries, c, done[g := names], m);
    names' := names;
    keep' := keep;
    r := Pass;
    if CheckIncluded(fs.entries, c, m) {
      var member: bool;
      if cfg.isVirtual {
        if g !in filters {
          return Fail(MissingFilter(g)), keep', names';
        }
        member := filters[g](m);
      } else {
        member := g in m.groups;
      }
      if member {
        var placed;
        placed, keep' := PlaceLink(fs, e0, groupsPath, store, done, names, keep', g, m.FullName());
        names' := names' + {m.FullName()};
        KeepStep(keep, groupsPath, done, g, names, m.FullName());
        if placed.Fail? {
          r := Fail(Fs(placed.error));
        } else {
          UsableAdd(e0, groupsPath, g, names, m.FullName());
        }
      }
    }
  }

  // ------------------------------------------------------------ clean-up

  /** A link the run did not record. */
  predicate Stale(e: Entries, keep: set<Path>, p: Path) {
    p in e && e[p].Link? && p !in keep
  }

  /** Everything in folder `f` is a stale link: the folder is empty once they are removed. */
  ghost predicate Emptied(e: Entries, keep: set<Path>, f: Path) {
    forall q :: q in e && IsChild(q, f) ==> Stale(e, keep, q)
  }

  /** The stale links directly inside `f`. */
  function StaleIn(e: Entries, keep: set<Path>, f: Path): (r: set<Path>)
    ensures forall q :: q in r <==> IsChild(q, f) && Stale(e, keep, q)
  {
    set q | q in e && IsChild(q, f) && e[q].Link? && q !in keep
  }

  /**
   * `e` is `e1` after the clean-up of the group folders `done`: their stale
   * links are gone, and so are the folders left empty.
   */
  ghost predicate CleanedAs(e1: Entries, e: Entries, keep: set<Path>, groupsPath: Path, done: set<Path>) {
    && (forall p :: p in e ==> p in e1 && e[p] == e1[p])
    && (forall p :: p in e1 ==>
          (p in e <==> && !(IsGrandchild(p, groupsPath) && p[..|groupsPath| + 1] in done && Stale(e1, keep, p))
                       && !(p in done && Emptied(e1, keep, p))))
  }

  /**
   * The clean-up of one group folder in `create_user_repo_group_symlinks`:
   * unlink the links in it that the run did not record, then remove the
   * folder if nothing is left in it.
   */
  method CleanFolder(fs: FileSystem, keep: set<Path>, groupsPath: Path, f: Path, ghost e1: Entries, ghost done: set<Path>)
    requires fs.Valid() && CleanedAs(e1, fs.entries, keep, groupsPath, done) && forall d :: d in done ==> IsChild(d, groupsPath)
    requires IsChild(f, groupsPath) && f in e1 && e1[f].Dir? && f !in done
    modifies fs
    ensures fs.Valid() && CleanedAs(e1, fs.entries, keep, groupsPath, done + {f})
  {
    ghost var e2 := fs.entries;
    CleanFolderChildren(e1, e2, keep, groupsPath, f, done);
    UnlinkStale(fs, keep, f);
    CleanFolderEmptied(e1, e2, keep, f);
    if Children(fs.entries, f) == {} {
      fs.Rmdir(f);
    }
    CleanFolderStep(e1, e2, fs.entries, keep, groupsPath, f, done);
  }

  /** The inner loop of the clean-up: unlink each link in `f` that the run did not record. */
  method UnlinkStale(fs: FileSystem, keep: set<Path>, f: Path)
    requires fs.Valid()
    modifies fs
    ensures fs.Valid() && fs.entries == old(fs.entries) - StaleIn(old(fs.entries), keep, f)
  {
    ghost var e := fs.entries;
    var todo := Children(fs.entries, f);
    while todo != {}
      invariant todo <= Children(e, f)
      invariant fs.Valid() && fs.entries == e - (StaleIn(e, keep, f) - todo)
    {
      var q :| q in todo;
      if IsLinkIn(fs.entries, q) && q !in keep {
        fs.Unlink(q);
      }
      todo := todo - {q};
    }
  }

  /** A folder not yet cleaned still holds what it held, and is still there. */
  lemma CleanFolderChildren(e1: Entries, e2: Entries, keep: set<Path>, groupsPath: Path, f: Path, done: set<Path>)
    requires CleanedAs(e1, e2, keep, groupsPath, done) && forall d :: d in done ==> IsChild(d, groupsPath)
    requires IsChild(f, groupsPath) && f in e1 && e1[f].Dir? && f !in done
    ensures forall q :: IsChild(q, f) ==> (q in e2 <==> q in e1)
    ensures f in e2 && e2[f] == e1[f]
  {
    forall q | IsChild(q, f) && q in e1 ensures q in e2 {
      ChildOfChild(q, f, groupsPath);
    }
  }

  /** Removing its stale links leaves a folder empty exactly when everything in it was a stale link. */
  lemma CleanFolderEmptied(e1: Entries, e2: Entries, keep: set<Path>, f: Path)
    requires forall p :: p in e2 ==> p in e1 && e2[p] == e1[p]
    requires forall q :: IsChild(q, f) ==> (q in e2 <==> q in e1)
    ensures Children(e2 - StaleIn(e2, keep, f), f) == {} <==> Emptied(e1, keep, f)
  {
    var e3 := e2 - StaleIn(e2, keep, f);
    if !Emptied(e1, keep, f) {
      var q :| q in e1 && IsChild(q, f) && !Stale(e1, keep, q);
      assert q in Children(e3, f);
    }
  }

  /** After the folder's step, the entries are those of the clean-up of one more folder. */
  lemma CleanFolderStep(e1: Entries, e2: Entries, e4: Entries, keep: set<Path>, groupsPath: Path, f: Path, done: set<Path>)
    requires CleanedAs(e1, e2, keep, groupsPath, done)
    requires IsChild(f, groupsPath) && f in e1 && e1[f].Dir? && f !in done
    requires forall q :: IsChild(q, f) ==> (q in e2 <==> q in e1)
    requires var e3 := e2 - StaleIn(e2, keep, f);
      e4 == if Emptied(e1, keep, f) then e3 - {f} else e3
    ensures CleanedAs(e1, e4, keep, groupsPath, done + {f})
  {
    var done' := done + {f};
    forall p | p in e1
      ensures p in e4 <==> && !(IsGrandchild(p, groupsPath) && p[..|groupsPath| + 1] in done' && Stale(e1, keep, p))
                           && !(p in done' && Emptied(e1, keep, p))
    {
      ChildOfChild(p, f, groupsPath);
    }
  }

  /**
   * The clean-up pass of `create_user_repo_group_symlinks`: every group
   * folder loses the links the run did not record, and is removed when that
   * leaves it empty. Anything in the groups folder that is not a directory
   * stops the pass (`iterdir` on it fails).
   */
  method CleanGroupFolders(fs: FileSystem, groupsPath: Path, keep: set<Path>) returns (r: Outcome<FsError>)
    requires fs.Valid()
    modifies fs
    ensures fs.Valid()
    ensures r.Pass? <==> forall p :: p in old(fs.entries) && IsChild(p, groupsPath) ==> old(fs.entries)[p].Dir?
    ensures r.Pass? ==> CleanedAs(old(fs.entries), fs.entries, keep, groupsPath, Children(old(fs.entries), groupsPath))
  {
    ghost var e1 := fs.entries;
    var folders := Children(fs.entries, groupsPath);
    ghost var done: set<Path> := {};
    while folders != {}
      invariant fs.Valid()
      invariant folders !! done && folders + done == Children(e1, groupsPath)
      invariant forall d :: d in done ==> e1[d].Dir?
      invariant CleanedAs(e1, fs.entries, keep, groupsPath, done)
    {
      var f :| f in folders;
      assert fs.entries[f] == e1[f] by {
        assert !IsGrandchild(f, groupsPath);
      }
      if !fs.entries[f].Dir? {
        return Fail(NotADirectory(f));
      }
      CleanFolder(fs, keep, groupsPath, f, e1, done);
      folders := folders - {f};
      done := done + {f};
    }
    r := Pass;
  }

  // ------------------------------------------------------------ the whole view

  /**
   * `e` is the group view of the pairs (group, full names) `want` made from
   * `e0`: each wanted link is in place and points at the repo's folder in the
   * store; every link left in a group folder is a wanted one; every group
   * folder left is a directory with something in it; nothing outside the
   * group folders changed, nothing but links left the group folders and
   * nothing but links entered them; the only new entries are the wanted
   * links and the folders holding them; and a directory above the groups
   * folder is only made when some group folder is left.
   */
  ghost predicate GroupViewOf(e0: Entries, e: Entries, groupsPath: Path, store: Path, want: map<string, set<string>>) {
    && (forall g, n :: g in want && n in want[g] ==> groupsPath + [g, n] in e && e[groupsPath + [g, n]] == Link(store + [n]))
    && (forall p :: p in e && IsGrandchild(p, groupsPath) && e[p].Link? ==> IsSlot(p, groupsPath, want))
    && (forall p :: p in e && IsChild(p, groupsPath) ==> e[p].Dir? && Children(e, p) != {})
    && (forall p :: p in e0 && !IsChild(p, groupsPath) && !IsGrandchild(p, groupsPath) ==> p in e && e[p] == e0[p])
    && (forall p :: p in e0 && IsGrandchild(p, groupsPath) && !e0[p].Link? ==> p in e && e[p] == e0[p])
    && (forall p :: p in e && IsGrandchild(p, groupsPath) && !e[p].Link? ==> p in e0 && e0[p] == e[p])
    && (forall p :: p in e && p !in e0 ==> IsSlot(p, groupsPath, want) || (e[p] == Dir && (IsPrefix(p, groupsPath) || IsChild(p, groupsPath))))
    && (forall p :: p in e && p !in e0 && IsPrefix(p, groupsPath) ==> Children(e, groupsPath) != {})
  }

  /** The two passes together: linking the pairs of `done`, then the clean-up, make the group view of `done`. */
  lemma GroupViewFinal(e0: Entries, e1: Entries, e: Entries, keep: set<Path>, groupsPath: Path, store: Path,
                       done: map<string, set<string>>)
    requires WellFormed(e1) && Placed(e0, e1, groupsPath, store, done) && KeepsSlots(keep, groupsPath, done)
    requires forall p :: p in e1 && IsChild(p, groupsPath) ==> e1[p].Dir?
    requires CleanedAs(e1, e, keep, groupsPath, Children(e1, groupsPath))
    ensures GroupViewOf(e0, e, groupsPath, store, done)
  {
    var folders := Children(e1, groupsPath);
    forall g, n | g in done && n in done[g]
      ensures groupsPath + [g, n] in e && e[groupsPath + [g, n]] == Link(store + [n])
    {
      var slot := groupsPath + [g, n];
      assert slot[..|groupsPath|] == groupsPath && slot[|groupsPath|] == g && slot[|groupsPath| + 1] == n;
      assert slot in keep;
    }
    forall p | p in e && IsGrandchild(p, groupsPath) && e[p].Link? ensures IsSlot(p, groupsPath, done) {
      AncestorIsDir(e1, p, |groupsPath| + 1);
      assert p[..|groupsPath| + 1] in folders;
    }
    forall p | p in e && IsChild(p, groupsPath) ensures e[p].Dir? && Children(e, p) != {} {
      assert p in folders;
      var q :| q in e1 && IsChild(q, p) && !Stale(e1, keep, q);
      ChildOfChild(q, p, groupsPath);
      assert q in Children(e, p);
    }
    FinalGrandchildren(e0, e1, e, keep, groupsPath, store, done);
    FinalPrefixes(e0, e1, e, keep, groupsPath, store, done);
  }

  /** Nothing but links entered the group folders. */
  lemma FinalGrandchildren(e0: Entries, e1: Entries, e: Entries, keep: set<Path>, groupsPath: Path, store: Path,
                           done: map<string, set<string>>)
    requires PlacedLinks(e0, e1, groupsPath, store, done)
    requires CleanedAs(e1, e, keep, groupsPath, Children(e1, groupsPath))
    ensures forall p :: p in e && IsGrandchild(p, groupsPath) && !e[p].Link? ==> p in e0 && e0[p] == e[p]
  {
    forall p | p in e && IsGrandchild(p, groupsPath) && !e[p].Link? ensures p in e0 && e0[p] == e[p] {
      assert p in e1 && e1[p] == e[p];
      if IsSlot(p, groupsPath, done) {
        assert p == groupsPath + [p[|groupsPath|], p[|groupsPath| + 1]];
      }
    }
  }

  /** A directory made above the groups folder still leads to a group folder after the clean-up. */
  lemma FinalPrefixes(e0: Entries, e1: Entries, e: Entries, keep: set<Path>, groupsPath: Path, store: Path,
                      done: map<string, set<string>>)
    requires WellFormed(e1) && Placed(e0, e1, groupsPath, store, done) && KeepsSlots(keep, groupsPath, done)
    requires CleanedAs(e1, e, keep, groupsPath, Children(e1, groupsPath))
    ensures forall p :: p in e && p !in e0 && IsPrefix(p, groupsPath) ==> Children(e, groupsPath) != {}
  {
    if exists p :: p in e && p !in e0 && IsPrefix(p, groupsPath) {
      var p :| p in e && p !in e0 && IsPrefix(p, groupsPath);
      assert p in e1;
      var g :| g in done && done[g] != {};
      var n :| n in done[g];
      var slot := groupsPath + [g, n];
      var f := groupsPath + [g];
      assert slot[..|groupsPath|] == groupsPath && slot[|groupsPath|] == g && slot[|groupsPath| + 1] == n;
      assert slot in e1 && slot in keep && Parent(slot) == f;
      assert f in Children(e1, groupsPath);
      assert IsChild(slot, f) && !Stale(e1, keep, slot);
      assert !IsGrandchild(f, groupsPath);
      assert f in Children(e, groupsPath);
    }
  }

  /** Linking never turns a child of the groups folder into something other than a directory, nor the reverse. */
  lemma PlacedFolderKinds(e0: Entries, e1: Entries, groupsPath: Path, store: Path, done: map<string, set<string>>)
    requires Placed(e0, e1, groupsPath, store, done)
    ensures (forall p :: p in e1 && IsChild(p, groupsPath) ==> e1[p].Dir?) <==>
            (forall p :: p in e0 && IsChild(p, groupsPath) ==> e0[p].Dir?)
  {
    forall p | p in e0 && IsChild(p, groupsPath) ensures p in e1 && e1[p] == e0[p] {
      assert !IsGrandchild(p, groupsPath);
    }
    forall p | p in e1 && p !in e0 && IsChild(p, groupsPath) ensures e1[p].Dir? {
      assert !IsGrandchild(p, groupsPath);
    }
  }

  /** The full names each group of `groups` should link, read from `e0`. */
  function DesiredGroups(e0: Entries, c: Config, filters: Filters, metas: seq<RepoMeta>, groups: map<string, RepoGroupConfig>): map<string, set<string>> {
    map g | g in groups :: GroupNames(e0, c, groups[g], filters, g, metas)
  }

  /**
   * When `create_user_repo_group_symlinks` succeeds on `e0`: no virtual group
   * with an included member lacks a filter, every link it wants has a usable
   * slot, and every entry of the groups folder is a directory.
   */
  predicate GroupViewPossible(e0: Entries, c: Config, filters: Filters, metas: seq<RepoMeta>) {
    var groups := GroupConfigs(e0, c, metas);
    && (forall g :: g in groups ==>
          && !MissingFilterFor(e0, c, groups[g], filters, g, metas)
          && AllUsable(e0, c.userRepoGroupsPath, g, GroupNames(e0, c, groups[g], filters, g, metas)))
    && (forall p :: p in e0 && IsChild(p, c.userRepoGroupsPath) ==> e0[p].Dir?)
  }

  /** The first pass of `create_user_repo_group_symlinks`: each group of `groups` in turn links its members. */
  method LinkGroups(fs: FileSystem, c: Config, ghost e0: Entries, filters: Filters, metas: seq<RepoMeta>,
                    groups: map<string, RepoGroupConfig>)
    returns (r: Outcome<GroupError>, keep: set<Path>, ghost done: map<string, set<string>>)
    requires fs.Valid() && !IsPrefix(c.IncludedRepostorePath(), c.userRepoGroupsPath)
    requires fs.entries == e0
    modifies fs
    ensures fs.Valid()
    ensures r.Pass? <==> forall g :: g in groups ==>
      && !MissingFilterFor(e0, c, groups[g], filters, g, metas)
      && AllUsable(e0, c.userRepoGroupsPath, g, GroupNames(e0, c, groups[g], filters, g, metas))
    ensures r.Fail? && r.error.MissingFilter? ==>
      r.error.group in groups && MissingFilterFor(e0, c, groups[r.error.group], filters, r.error.group, metas)
    ensures r.Pass? ==> done == DesiredGroups(e0, c, filters, metas, groups)
    ensures r.Pass? ==> Placed(e0, fs.entries, c.userRepoGroupsPath, c.IncludedRepostorePath(), done)
    ensures r.Pass? ==> KeepsSlots(keep, c.userRepoGroupsPath, done)
  {
    var groupsPath := c.userRepoGroupsPath;
    var store := c.IncludedRepostorePath();
    keep := {};
    done := map[];
    PlacedInitially(e0, groupsPath, store);
    var todo := groups.Keys;
    r := Pass;
    while todo != {}
      invariant fs.Valid() && r.Pass?
      invariant todo <= groups.Keys && done.Keys !! todo && done.Keys + todo == groups.Keys
      invariant forall g :: g in done ==>
        && done[g] == GroupNames(e0, c, groups[g], filters, g, metas)
        && !MissingFilterFor(e0, c, groups[g], filters, g, metas)
        && AllUsable(e0, groupsPath, g, done[g])
      invariant Placed(e0, fs.entries, groupsPath, store, done) && KeepsSlots(keep, groupsPath, done)
      decreases todo
    {
      var g :| g in todo;
      r, keep, done := LinkNextGroup(fs, c, e0, filters, metas, groups, g, done, keep);
      if r.Fail? {
        return;
      }
      todo := todo - {g};
    }
  }

  /** One step of the first pass: group `g` links its members, and joins the groups done. */
  method LinkNextGroup(fs: FileSystem, c: Config, ghost e0: Entries, filters: Filters, metas: seq<RepoMeta>,
                       groups: map<string, RepoGroupConfig>, g: string, ghost done: map<string, set<string>>, keep: set<Path>)
    returns (r: Outcome<GroupError>, keep': set<Path>, ghost done': map<string, set<string>>)
    requires fs.Valid() && !IsPrefix(c.IncludedRepostorePath(), c.userRepoGroupsPath)
    requires g in groups && g !in done
    requires Placed(e0, fs.entries, c.userRepoGroupsPath, c.IncludedRepostorePath(), done)
    requires KeepsSlots(keep, c.userRepoGroupsPath, done)
    modifies fs
    ensures fs.Valid() && done' == done[g := GroupNames(e0, c, groups[g], filters, g, metas)]
    ensures r.Pass? <==> && !MissingFilterFor(e0, c, groups[g], filters, g, metas)
                         && AllUsable(e0, c.userRepoGroupsPath, g, done'[g])
    ensures r.Fail? && r.error.MissingFilter? ==> r.error.group == g && MissingFilterFor(e0, c, groups[g], filters, g, metas)
    ensures r.Pass? ==> Placed(e0, fs.entries, c.userRepoGroupsPath, c.IncludedRepostorePath(), done')
    ensures r.Pass? ==> KeepsSlots(keep', c.userRepoGroupsPath, done')
  {
    r, keep' := LinkGroup(fs, c, e0, filters, metas, g, groups[g], done, keep);
    done' := done[g := GroupNames(e0, c, groups[g], filters, g, metas)];
  }

  /**
   * `create_user_repo_group_symlinks`: link every included repo into the
   * folder of each of its groups (virtual groups by their filter), then remove
   * the links of the group folders that were not made or confirmed, and the
   * group folders left empty.
   */
  method CreateUserRepoGroupSymlinks(fs: FileSystem, c: Config, metas: seq<RepoMeta>, filters: Filters)
    returns (r: Outcome<GroupError>)
    requires fs.Valid() && !IsPrefix(c.IncludedRepostorePath(), c.userRepoGroupsPath)
    modifies fs
    ensures fs.Valid()
    ensures r.Pass? <==> GroupViewPossible(old(fs.entries), c, filters, metas)
    ensures r.Fail? && r.error.MissingFilter? ==>
      var groups := GroupConfigs(old(fs.entries), c, metas);
      r.error.group in groups && MissingFilterFor(old(fs.entries), c, groups[r.error.group], filters, r.error.group, metas)
    ensures r.Pass? ==>
      GroupViewOf(old(fs.entries), fs.entries, c.userRepoGroupsPath, c.IncludedRepostorePath(), DesiredGroups(old(fs.entries), c, filters, metas, GroupConfigs(old(fs.entries), c, metas)))
  {
    ghost var e0 := fs.entries;
    var groups := GetRepoGroupConfigs(fs.entries, c, metas);
    var keep;
    ghost var done;
    r, keep, done := LinkGroups(fs, c, e0, filters, metas, groups);
    if r.Fail? {
      return;
    }
    ghost var e1 := fs.entries;
    PlacedFolderKinds(e0, e1, c.userRepoGroupsPath, c.IncludedRepostorePath(), done);
    var cleaned := CleanGroupFolders(fs, c.userRepoGroupsPath, keep);
    if cleaned.Fail? {
      return Fail(Fs(cleaned.error));
    }
    GroupViewFinal(e0, e1, fs.entries, keep, c.userRepoGroupsPath, c.IncludedRepostorePath(), done);
  }

  // ------------------------------------------------------------ running again

  /** A group view never changes which repos are included, when the store does not contain the groups folder. */
  lemma GroupViewInclusion(e0: Entries, e1: Entries, c: Config, want: map<string, set<string>>, m: RepoMeta)
    requires GroupViewOf(e0, e1, c.userRepoGroupsPath, c.IncludedRepostorePath(), want)
    requires !IsPrefix(c.IncludedRepostorePath(), c.userRepoGroupsPath)
    ensures CheckIncluded(e1, c, m) <==> CheckIncluded(e0, c, m)
  {
    var p := IncludedRepoPath(c, m);
    var i := c.IncludedRepostorePath();
    var u := c.userRepoGroupsPath;
    if IsSlot(p, u, want) {
      assert p == u + [p[|u|], p[|u| + 1]];
    }
  }

  /** Inclusion decides the groups and their members: the same inclusion gives the same ones. */
  lemma {:induction false} SameInclusion(e0: Entries, e1: Entries, c: Config, metas: seq<RepoMeta>)
    requires forall m :: CheckIncluded(e1, c, m) <==> CheckIncluded(e0, c, m)
    ensures IncludedGroups(e1, c, metas) == IncludedGroups(e0, c, metas)
    ensures SomeIncluded(e1, c, metas) == SomeIncluded(e0, c, metas)
    ensures forall cfg, filters, g :: GroupNames(e1, c, cfg, filters, g, metas) == GroupNames(e0, c, cfg, filters, g, metas)
    decreases |metas|
  {
    if metas != [] {
      SameInclusion(e0, e1, c, metas[..|metas| - 1]);
    }
  }

  /** A link or entry of a group folder of the first view is in a second view of the same pairs. */
  lemma GrandchildKept(e0: Entries, e1: Entries, e2: Entries, groupsPath: Path, store: Path, want: map<string, set<string>>, q: Path)
    requires GroupViewOf(e0, e1, groupsPath, store, want) && GroupViewOf(e1, e2, groupsPath, store, want)
    requires q in e1 && IsGrandchild(q, groupsPath)
    ensures q in e2 && e2[q] == e1[q]
  {
    if e1[q].Link? {
      assert q == groupsPath + [q[|groupsPath|], q[|groupsPath| + 1]];
    }
  }

  /** Everything of the first view is in a second view of the same pairs, unchanged. */
  lemma GroupViewKeeps(e0: Entries, e1: Entries, e2: Entries, groupsPath: Path, store: Path, want: map<string, set<string>>)
    requires WellFormed(e2)
    requires GroupViewOf(e0, e1, groupsPath, store, want) && GroupViewOf(e1, e2, groupsPath, store, want)
    ensures forall p :: p in e1 ==> p in e2 && e2[p] == e1[p]
  {
    forall p | p in e1 ensures p in e2 && e2[p] == e1[p] {
      if IsGrandchild(p, groupsPath) {
        GrandchildKept(e0, e1, e2, groupsPath, store, want, p);
      } else if IsChild(p, groupsPath) {
        var q :| q in Children(e1, p);
        ChildOfChild(q, p, groupsPath);
        GrandchildKept(e0, e1, e2, groupsPath, store, want, q);
        assert Parent(q) == p;
      }
    }
  }

  /** A group folder of a second view of the same pairs was already in the first. */
  lemma FolderKept(e1: Entries, e2: Entries, groupsPath: Path, want: map<string, set<string>>, f: Path)
    requires WellFormed(e1) && forall g, n :: g in want && n in want[g] ==> groupsPath + [g, n] in e1
    requires forall p :: p in e2 && p !in e1 ==>
      IsSlot(p, groupsPath, want) || (e2[p] == Dir && (IsPrefix(p, groupsPath) || IsChild(p, groupsPath)))
    requires f in e2 && IsChild(f, groupsPath) && Children(e2, f) != {}
    ensures f in e1
  {
    var q :| q in Children(e2, f);
    ChildOfChild(q, f, groupsPath);
    if IsSlot(q, groupsPath, want) {
      assert q == groupsPath + [q[|groupsPath|], q[|groupsPath| + 1]];
    }
    assert q in e1 && Parent(q) == f;
  }

  /** A second view of the same pairs adds nothing to the first. */
  lemma GroupViewAddsNothing(e0: Entries, e1: Entries, e2: Entries, groupsPath: Path, store: Path, want: map<string, set<string>>)
    requires WellFormed(e1) && WellFormed(e2)
    requires GroupViewOf(e0, e1, groupsPath, store, want) && GroupViewOf(e1, e2, groupsPath, store, want)
    ensures forall p :: p in e2 ==> p in e1
  {
    forall p | p in e2 ensures p in e1 {
      NotAdded(e1, e2, groupsPath, want, p);
    }
  }

  /** One entry of a second view of the same pairs. */
  lemma NotAdded(e1: Entries, e2: Entries, groupsPath: Path, want: map<string, set<string>>, p: Path)
    requires WellFormed(e1) && forall g, n :: g in want && n in want[g] ==> groupsPath + [g, n] in e1
    requires forall p :: p in e2 && p !in e1 ==>
      IsSlot(p, groupsPath, want) || (e2[p] == Dir && (IsPrefix(p, groupsPath) || IsChild(p, groupsPath)))
    requires forall f :: f in e2 && IsChild(f, groupsPath) ==> Children(e2, f) != {}
    requires forall p :: p in e2 && p !in e1 && IsPrefix(p, groupsPath) ==> Children(e2, groupsPath) != {}
    requires p in e2 && p != []
    ensures p in e1
  {
    if IsSlot(p, groupsPath, want) {
      assert p == groupsPath + [p[|groupsPath|], p[|groupsPath| + 1]];
    } else if IsChild(p, groupsPath) {
      FolderKept(e1, e2, groupsPath, want, p);
    } else if p !in e1 {
      var f :| f in Children(e2, groupsPath);
      FolderKept(e1, e2, groupsPath, want, f);
      assert IsPrefix(p, groupsPath) && f[..|p|] == p;
      AncestorIsDir(e1, f, |p|);
    }
  }

  /** The same inclusion asks for the same groups and members. */
  lemma SameWant(e0: Entries, e1: Entries, c: Config, filters: Filters, metas: seq<RepoMeta>)
    requires forall m :: CheckIncluded(e1, c, m) <==> CheckIncluded(e0, c, m)
    ensures GroupConfigs(e1, c, metas) == GroupConfigs(e0, c, metas)
    ensures DesiredGroups(e1, c, filters, metas, GroupConfigs(e1, c, metas)) == DesiredGroups(e0, c, filters, metas, GroupConfigs(e0, c, metas))
    ensures SomeIncluded(e1, c, metas) == SomeIncluded(e0, c, metas)
    ensures forall cfg, g :: GroupNames(e1, c, cfg, filters, g, metas) == GroupNames(e0, c, cfg, filters, g, metas)
  {
    SameInclusion(e0, e1, c, metas);
  }

  /** Every link of a group view can be made again: its folder is a directory and it is a link. */
  lemma WantedSlotUsable(e0: Entries, e1: Entries, groupsPath: Path, store: Path, want: map<string, set<string>>, g: string, n: string)
    requires WellFormed(e1) && GroupViewOf(e0, e1, groupsPath, store, want)
    requires g in want && n in want[g]
    ensures SlotUsable(e1, groupsPath, g, n)
  {
    var slot := groupsPath + [g, n];
    AncestorIsDir(e1, slot, |groupsPath| + 1);
    assert slot[..|groupsPath| + 1] == groupsPath + [g];
    WithDirsOfDir(e1, groupsPath + [g]);
  }

  /** A group view of the same pairs made from a group view is that view itself. */
  lemma GroupViewUnique(e0: Entries, e1: Entries, e2: Entries, groupsPath: Path, store: Path, want: map<string, set<string>>)
    requires WellFormed(e1) && WellFormed(e2)
    requires GroupViewOf(e0, e1, groupsPath, store, want) && GroupViewOf(e1, e2, groupsPath, store, want)
    ensures e2 == e1
  {
    GroupViewKeeps(e0, e1, e2, groupsPath, store, want);
    GroupViewAddsNothing(e0, e1, e2, groupsPath, store, want);
    assert e2.Keys == e1.Keys;
  }

  /**
   * `create_user_repo_group_symlinks` run again on its own result, with the
   * same repos, succeeds, wants the same links, and leaves the entries as
   * they are.
   */
  lemma GroupViewIdempotent(e0: Entries, e1: Entries, e2: Entries, c: Config, filters: Filters, metas: seq<RepoMeta>)
    requires WellFormed(e1) && WellFormed(e2) && !IsPrefix(c.IncludedRepostorePath(), c.userRepoGroupsPath)
    requires GroupViewPossible(e0, c, filters, metas)
    requires GroupViewOf(e0, e1, c.userRepoGroupsPath, c.IncludedRepostorePath(),
                         DesiredGroups(e0, c, filters, metas, GroupConfigs(e0, c, metas)))
    ensures GroupViewPossible(e1, c, filters, metas)
    ensures DesiredGroups(e1, c, filters, metas, GroupConfigs(e1, c, metas))
            == DesiredGroups(e0, c, filters, metas, GroupConfigs(e0, c, metas))
    ensures var want1 := DesiredGroups(e1, c, filters, metas, GroupConfigs(e1, c, metas));
      GroupViewOf(e1, e2, c.userRepoGroupsPath, c.IncludedRepostorePath(), want1) ==> e2 == e1
  {
    var u := c.userRepoGroupsPath;
    var groups := GroupConfigs(e0, c, metas);
    var want := DesiredGroups(e0, c, filters, metas, groups);
    forall m ensures CheckIncluded(e1, c, m) <==> CheckIncluded(e0, c, m) {
      GroupViewInclusion(e0, e1, c, want, m);
    }
    SameWant(e0, e1, c, filters, metas);
    forall g, n | g in want && n in want[g] ensures SlotUsable(e1, u, g, n) {
      WantedSlotUsable(e0, e1, u, c.IncludedRepostorePath(), want, g, n);
    }
    if GroupViewOf(e1, e2, u, c.IncludedRepostorePath(), want) {
      GroupViewUnique(e0, e1, e2, u, c.IncludedRepostorePath(), want);
    }
  }

  // ------------------------------------------------------------ the recorded keys as written

  /** The key the first pass records for a group link as written: the link path resolved before the link is made. */
  function RecordedKeyAsWritten(e: Entries, link: Path): (k: Path)
    ensures IsLinkIn(e, link) ==> k == e[link].target
    ensures !IsLinkIn(e, link) ==> k == link
  {
    Resolve(e, link)
  }

  /** As written, the clean-up removes a link of a group folder whose resolved target is not among the recorded keys. */
  predicate RemovedAsWritten(e: Entries, keys: set<Path>, p: Path) {
    IsLinkIn(e, p) && Resolve(e, p) !in keys
  }

  /**
   * The keys the first pass records as written, one per link it makes or
   * confirms. Each link path is visited once and nothing else writes to it
   * before its turn, so its key is read from the entries `e0` at the start.
   */
  function RecordedKeysAsWritten(e0: Entries, keep: set<Path>): (keys: set<Path>)
    ensures forall s :: s in keep ==> RecordedKeyAsWritten(e0, s) in keys
    ensures forall k :: k in keys ==> exists s :: s in keep && RecordedKeyAsWritten(e0, s) == k
  {
    set s | s in keep :: Resolve(e0, s)
  }

  /**
   * As written, a link `s` that the run made (none was there, or it pointed
   * elsewhere) survives the clean-up only when some other recorded link
   * already pointed at the same repo at the start; its own key never saves
   * it. With a single member in all groups it is therefore always removed.
   * Recording the link path, as the corrected pass does, keeps it.
   */
  lemma {:induction false} FreshGroupLinkRemovedAsWritten(e0: Entries, e1: Entries, keep: set<Path>, s: Path, source: Path)
    requires s in keep && s != source && s in e1 && e1[s] == Link(source)
    requires !(IsLinkIn(e0, s) && e0[s].target == source)
    ensures RecordedKeyAsWritten(e0, s) != source
    ensures RemovedAsWritten(e1, RecordedKeysAsWritten(e0, keep), s)
            <==> forall t :: t in keep ==> RecordedKeyAsWritten(e0, t) != source
    ensures keep == {s} ==> RemovedAsWritten(e1, RecordedKeysAsWritten(e0, keep), s)
    ensures !Stale(e1, keep, s)
  {
    var keys := RecordedKeysAsWritten(e0, keep);
    if source in keys {
      var t :| t in keep && RecordedKeyAsWritten(e0, t) == source;
    }
  }

  /**
   * As written, a link the run did not record survives the clean-up when its
   * target is a key some recorded link resolved to at the start, for example
   * a link left in a group the repo no longer belongs to while the repo is
   * still linked, and correctly, from another group. The corrected clean-up
   * removes it.
   */
  lemma StaleGroupLinkKeptAsWritten(e0: Entries, e1: Entries, keep: set<Path>, p: Path, t: Path)
    requires IsLinkIn(e1, p) && p !in keep && t in keep && IsLinkIn(e0, t) && e0[t].target == e1[p].target
    ensures !RemovedAsWritten(e1, RecordedKeysAsWritten(e0, keep), p)
    ensures Stale(e1, keep, p)
  {
  }
}
