/**
 * The two link views of the included repos: a flat folder with one link
 * per included repo, and one folder per repo group with a link per member.
 */
module Symlinks {
  import opened Wrappers
  import opened Paths
  import opened Records
  import opened Config
  import opened FileSystem
  import opened Repos

  /** `Path.resolve()`, one level deep: a link's target, any other path itself. */
  function Resolve(e: Entries, p: Path): (r: Path)
    ensures IsLinkIn(e, p) ==> r == e[p].target
    ensures !IsLinkIn(e, p) ==> r == p
  {
    if IsLinkIn(e, p) then e[p].target else p
  }

  // ------------------------------------------------------------ flat view

  /** The full names of the included repos. */
  function DesiredNames(e: Entries, c: Config, metas: seq<RepoMeta>): set<string> {
    if metas == [] then {}
    else
      var last := metas[|metas| - 1];
      DesiredNames(e, c, metas[..|metas| - 1]) + (if CheckIncluded(e, c, last) then {last.FullName()} else {})
  }

  /** A full name is desired exactly when some included repo has it. */
  lemma {:induction false} DesiredNamesMembers(e: Entries, c: Config, metas: seq<RepoMeta>)
    ensures forall n :: n in DesiredNames(e, c, metas) <==>
      exists i :: 0 <= i < |metas| && CheckIncluded(e, c, metas[i]) && metas[i].FullName() == n
  {
    if metas != [] {
      var init := metas[..|metas| - 1];
      DesiredNamesMembers(e, c, init);
      assert forall i :: 0 <= i < |init| ==> init[i] == metas[i];
    }
  }

  /** The links directly inside `d`. */
  function LinkChildren(e: Entries, d: Path): (r: set<Path>)
    ensures forall p :: p in r <==> p in e && IsChild(p, d) && e[p].Link?
  {
    set p | p in e && IsChild(p, d) && e[p].Link?
  }

  /** `e` without the links directly inside `d`. */
  function Stripped(e: Entries, d: Path): (r: Entries)
    ensures forall p :: p in r <==> p in e && !(IsChild(p, d) && e[p].Link?)
    ensures forall p :: p in r ==> r[p] == e[p]
  {
    map p | p in e && !(IsChild(p, d) && e[p].Link?) :: e[p]
  }

  /** The paths `d/n` for the names `n`. */
  function LinkPaths(d: Path, names: set<string>): (r: set<Path>)
    ensures forall p :: p in r <==> IsChild(p, d) && p[|d|] in names
  {
    assert forall n :: (d + [n])[..|d|] == d && (d + [n])[|d|] == n;
    assert forall p :: IsChild(p, d) ==> p == d + [p[|d|]];
    set n | n in names :: d + [n]
  }

  /** `e` plus, for each name `n`, a link `d/n` to `target/n`. */
  function WithLinks(e: Entries, d: Path, target: Path, names: set<string>): (r: Entries)
    ensures forall p :: p in r <==> p in e || (IsChild(p, d) && p[|d|] in names)
    ensures forall p :: IsChild(p, d) && p[|d|] in names ==> r[p] == Link(target + [p[|d|]])
    ensures forall p :: p in e && !(IsChild(p, d) && p[|d|] in names) ==> r[p] == e[p]
  {
    var links := LinkPaths(d, names);
    map p | p in e.Keys + links :: if p in links then Link(target + [p[|d|]]) else e[p]
  }

  /** The flat view the source aims for: every link in the user repos folder replaced by one link per included repo. */
  function FlatView(e: Entries, c: Config, metas: seq<RepoMeta>): Entries {
    WithLinks(Stripped(e, c.userReposPath), c.userReposPath, c.IncludedRepostorePath(), DesiredNames(e, c, metas))
  }

  /** Some name of `names` is taken inside `d` by something other than a link. */
  predicate Blocked(e: Entries, d: Path, names: set<string>) {
    exists n :: n in names && d + [n] in e && !e[d + [n]].Link?
  }

  /** The flat view can be made: no included repo, or a directory to hold the links and no name taken by a non-link. */
  predicate FlatViewPossible(e: Entries, c: Config, metas: seq<RepoMeta>) {
    var names := DesiredNames(e, c, metas);
    names == {} || (IsDirIn(e, c.userReposPath) && !Blocked(e, c.userReposPath, names))
  }

  /** Adding links at names nothing else holds does not change which paths are directories. */
  lemma LinksKeepDirs(e: Entries, d: Path, target: Path, names: set<string>, q: Path)
    requires !Blocked(e, d, names)
    ensures IsDirIn(WithLinks(e, d, target, names), q) <==> IsDirIn(e, q)
  {
    if IsChild(q, d) && q[|d|] in names {
      assert q == d + [q[|d|]];
    }
  }

  /** Removing links does not change which paths are directories. */
  lemma StrippedKeepsDirs(e: Entries, d: Path, q: Path)
    ensures IsDirIn(Stripped(e, d), q) <==> IsDirIn(e, q)
  {
  }

  /** Inclusion is the same in any state whose directories are those of `e`. */
  lemma {:induction false} SameDirsSameNames(e: Entries, e': Entries, c: Config, metas: seq<RepoMeta>)
    requires forall q :: IsDirIn(e', q) <==> IsDirIn(e, q)
    ensures DesiredNames(e', c, metas) == DesiredNames(e, c, metas)
  {
    if metas != [] {
      SameDirsSameNames(e, e', c, metas[..|metas| - 1]);
      assert IsDirIn(e', IncludedRepoPath(c, metas[|metas| - 1])) <==> IsDirIn(e, IncludedRepoPath(c, metas[|metas| - 1]));
    }
  }

  /**
   * The flat view: afterwards the links in the user repos folder are exactly
   * one per included repo, each to that repo's folder in the included store,
   * and every other entry is as it was.
   */
  lemma FlatViewExact(e: Entries, c: Config, metas: seq<RepoMeta>)
    requires FlatViewPossible(e, c, metas)
    ensures var u := c.userReposPath;
      var v := FlatView(e, c, metas);
      var names := DesiredNames(e, c, metas);
      && (forall n :: n in names ==> u + [n] in v && v[u + [n]] == Link(c.IncludedRepostorePath() + [n]))
      && (forall p :: p in v && IsChild(p, u) && v[p].Link? ==> p[|u|] in names)
      && (forall p :: p in e && !(IsChild(p, u) && e[p].Link?) ==> p in v && v[p] == e[p])
      && (forall p :: p in v && p !in e ==> IsChild(p, u) && p[|u|] in names)
  {
    var u := c.userReposPath;
    var v := FlatView(e, c, metas);
    var names := DesiredNames(e, c, metas);
    forall n | n in names ensures u + [n] in v && v[u + [n]] == Link(c.IncludedRepostorePath() + [n]) {
      assert (u + [n])[..|u|] == u && (u + [n])[|u|] == n;
    }
    forall p | p in v && p !in e ensures IsChild(p, u) && p[|u|] in names {
      if IsChild(p, u) {
        ChildIsAppend(p, u);
      }
    }
  }

  /** Making the flat view twice gives the same folder as making it once. */
  lemma FlatViewIdempotent(e: Entries, c: Config, metas: seq<RepoMeta>)
    requires FlatViewPossible(e, c, metas)
    ensures FlatViewPossible(FlatView(e, c, metas), c, metas)
    ensures FlatView(FlatView(e, c, metas), c, metas) == FlatView(e, c, metas)
  {
    var u := c.userReposPath;
    var i := c.IncludedRepostorePath();
    var names := DesiredNames(e, c, metas);
    var s := Stripped(e, u);
    var v := FlatView(e, c, metas);
    assert !Blocked(s, u, names);
    forall q ensures IsDirIn(v, q) <==> IsDirIn(e, q) {
      LinksKeepDirs(s, u, i, names, q);
      StrippedKeepsDirs(e, u, q);
    }
    SameDirsSameNames(e, v, c, metas);
    assert Stripped(v, u) == s;
  }

  /** Adding one more name adds its link and nothing else. */
  lemma WithLinksAdd(e: Entries, d: Path, target: Path, names: set<string>, n: string)
    ensures WithLinks(e, d, target, names + {n}) == WithLinks(e, d, target, names)[d + [n] := Link(target + [n])]
  {
    var l := WithLinks(e, d, target, names + {n});
    var r := WithLinks(e, d, target, names)[d + [n] := Link(target + [n])];
    WithLinksAddKeys(e, d, target, names, n);
    forall p | p in l ensures l[p] == r[p] {
      WithLinksAddValue(e, d, target, names, n, p);
    }
  }

  /** The paths of the bigger view are those of the smaller one and the new link. */
  lemma WithLinksAddKeys(e: Entries, d: Path, target: Path, names: set<string>, n: string)
    ensures forall p :: p in WithLinks(e, d, target, names + {n}) <==> p in WithLinks(e, d, target, names) || p == d + [n]
  {
    assert (d + [n])[..|d|] == d && (d + [n])[|d|] == n;
    forall p | IsChild(p, d) && p[|d|] == n ensures p == d + [n] {
      ChildIsAppend(p, d);
    }
  }

  /** Away from the new link, the bigger view agrees with the smaller one. */
  lemma WithLinksAddValue(e: Entries, d: Path, target: Path, names: set<string>, n: string, p: Path)
    requires p in WithLinks(e, d, target, names + {n})
    ensures p == d + [n] ==> WithLinks(e, d, target, names + {n})[p] == Link(target + [n])
    ensures p != d + [n] ==>
      p in WithLinks(e, d, target, names) && WithLinks(e, d, target, names + {n})[p] == WithLinks(e, d, target, names)[p]
  {
    assert (d + [n])[..|d|] == d && (d + [n])[|d|] == n;
    if IsChild(p, d) && p[|d|] == n {
      ChildIsAppend(p, d);
    }
  }

  /** The prefixes of the repo list desire fewer names, and an included repo's name is desired. */
  lemma DesiredPrefix(e: Entries, c: Config, metas: seq<RepoMeta>, i: nat)
    requires i < |metas|
    ensures DesiredNames(e, c, metas[..i + 1]) ==
      DesiredNames(e, c, metas[..i]) + (if CheckIncluded(e, c, metas[i]) then {metas[i].FullName()} else {})
    ensures DesiredNames(e, c, metas[..i + 1]) <= DesiredNames(e, c, metas)
  {
    assert metas[..i + 1][..i] == metas[..i];
    DesiredNamesMembers(e, c, metas[..i + 1]);
    DesiredNamesMembers(e, c, metas);
    forall n | n in DesiredNames(e, c, metas[..i + 1]) ensures n in DesiredNames(e, c, metas) {
      var k :| 0 <= k < i + 1 && CheckIncluded(e, c, metas[..i + 1][k]) && metas[..i + 1][k].FullName() == n;
      assert metas[..i + 1][k] == metas[k];
    }
  }

  /** The first pass of `create_user_repos_symlinks`: unlink every link directly inside `d`. */
  method UnlinkChildLinks(fs: FileSystem, d: Path)
    requires fs.Valid()
    modifies fs
    ensures fs.Valid() && fs.entries == Stripped(old(fs.entries), d)
  {
    ghost var e0 := fs.entries;
    var stale := LinkChildren(fs.entries, d);
    while stale != {}
      invariant fs.Valid()
      invariant stale <= LinkChildren(e0, d)
      invariant fs.entries == e0 - (LinkChildren(e0, d) - stale)
    {
      var p :| p in stale;
      fs.Unlink(p);
      stale := stale - {p};
    }
  }

  /**
   * One step of the second pass of `create_user_repos_symlinks`: link
   * `d/n` to `target/n`, unless this pass already did.
   */
  method LinkName(fs: FileSystem, ghost s: Entries, d: Path, target: Path, ghost names: set<string>, n: string)
    returns (r: Outcome<FsError>)
    requires fs.Valid() && fs.entries == WithLinks(s, d, target, names)
    requires forall p :: p in s && IsChild(p, d) ==> !s[p].Link?
    requires !Blocked(s, d, names) && IsDirIn(fs.entries, target + [n])
    modifies fs
    ensures fs.Valid()
    ensures r.Pass? ==> fs.entries == WithLinks(s, d, target, names + {n})
    ensures r.Fail? ==> fs.entries == old(fs.entries)
    ensures r.Fail? <==> (d + [n] in s && !s[d + [n]].Link?) || (n !in names && !IsDirIn(s, d))
  {
    var source := target + [n];
    var link := d + [n];
    assert link[..|d|] == d && link[|d|] == n && Parent(link) == d;
    if IsLinkIn(fs.entries, link) {
      // Every link left in the folder was made by this pass, for the same full name.
      assert Resolve(fs.entries, link) == Resolve(fs.entries, source);
      assert n in names && names + {n} == names;
      r := Pass;
    } else {
      assert n !in names;
      assert IsDirIn(fs.entries, d) <==> IsDirIn(s, d);
      r := fs.SymlinkTo(link, source);
      WithLinksAdd(s, d, target, names, n);
    }
  }

  /**
   * One repo of the second pass of `create_user_repos_symlinks`: link it
   * into `c.userReposPath` when it is included. `s` is the folder after the
   * first pass and the links of `metas[..i]` are in place.
   */
  method LinkRepo(fs: FileSystem, c: Config, ghost e0: Entries, ghost s: Entries, metas: seq<RepoMeta>, i: nat)
    returns (r: Outcome<FsError>)
    requires i < |metas| && fs.Valid() && s == Stripped(e0, c.userReposPath)
    requires fs.entries == WithLinks(s, c.userReposPath, c.IncludedRepostorePath(), DesiredNames(e0, c, metas[..i]))
    requires DesiredNames(e0, c, metas[..i]) == {} ||
      (IsDirIn(e0, c.userReposPath) && !Blocked(e0, c.userReposPath, DesiredNames(e0, c, metas[..i])))
    modifies fs
    ensures fs.Valid()
    ensures r.Pass? ==> fs.entries == WithLinks(s, c.userReposPath, c.IncludedRepostorePath(), DesiredNames(e0, c, metas[..i + 1]))
    ensures r.Pass? ==> (DesiredNames(e0, c, metas[..i + 1]) == {} ||
      (IsDirIn(e0, c.userReposPath) && !Blocked(e0, c.userReposPath, DesiredNames(e0, c, metas[..i + 1]))))
    ensures r.Fail? ==> fs.entries == old(fs.entries) && !FlatViewPossible(e0, c, metas)
  {
    var u := c.userReposPath;
    ghost var names := DesiredNames(e0, c, metas[..i]);
    DesiredPrefix(e0, c, metas, i);
    var m := metas[i];
    assert !Blocked(s, u, names);
    LinksKeepDirs(s, u, c.IncludedRepostorePath(), names, IncludedRepoPath(c, m));
    StrippedKeepsDirs(e0, u, IncludedRepoPath(c, m));
    ghost var names' := DesiredNames(e0, c, metas[..i + 1]);
    r := Pass;
    if CheckIncluded(fs.entries, c, m) {
      assert names' == names + {m.FullName()};
      r := LinkName(fs, s, u, c.IncludedRepostorePath(), names, m.FullName());
      if r.Fail? {
        ghost var all := DesiredNames(e0, c, metas);
        assert m.FullName() in all;
        if IsDirIn(e0, u) {
          assert u + [m.FullName()] in e0 && !e0[u + [m.FullName()]].Link?;
          assert Blocked(e0, u, all);
        }
      }
    } else {
      assert names' == names;
    }
  }

  /**
   * `create_user_repos_symlinks`: remove every link in the user repos folder,
   * then link each included repo's folder into it. A name already taken by
   * something other than a link stops the pass with an error.
   */
  method CreateUserReposSymlinks(fs: FileSystem, c: Config, metas: seq<RepoMeta>) returns (r: Outcome<FsError>)
    requires fs.Valid()
    modifies fs
    ensures fs.Valid()
    ensures r.Pass? <==> FlatViewPossible(old(fs.entries), c, metas)
    ensures r.Pass? ==> fs.entries == FlatView(old(fs.entries), c, metas)
    ensures r.Fail? ==> exists names ::
      && names <= DesiredNames(old(fs.entries), c, metas)
      && fs.entries == WithLinks(Stripped(old(fs.entries), c.userReposPath), c.userReposPath, c.IncludedRepostorePath(), names)
  {
    var u := c.userReposPath;
    ghost var e0 := fs.entries;
    UnlinkChildLinks(fs, u);
    ghost var s := fs.entries;
    r := Pass;
    var i := 0;
    while i < |metas|
      invariant 0 <= i <= |metas| && fs.Valid() && r.Pass?
      invariant fs.entries == WithLinks(s, u, c.IncludedRepostorePath(), DesiredNames(e0, c, metas[..i]))
      invariant DesiredNames(e0, c, metas[..i]) <= DesiredNames(e0, c, metas)
      invariant DesiredNames(e0, c, metas[..i]) == {} || (IsDirIn(e0, u) && !Blocked(e0, u, DesiredNames(e0, c, metas[..i])))
    {
      DesiredPrefix(e0, c, metas, i);
      r := LinkRepo(fs, c, e0, s, metas, i);
      if r.Fail? {
        return;
      }
      i := i + 1;
    }
    assert metas[..i] == metas;
  }
}
