/**
 * The repoyard to boxyard migration script: the non-clobbering rename, the
 * rewrite of the configuration file's field names, the renaming of the
 * per-repo record files in the local store, and the choice of the data
 * directory. Messages the script prints are not modelled.
 */
module Migrate {
  import opened Wrappers
  import opened Paths
  import opened FileSystem

  datatype MigrateError =
    | ReadFailed(path: Path)    // `read_text` on a directory, a link, or a file whose text is not modelled
    | FsFailed(error: FsError)

  // ------------------------------------------------------------ rename_path

  /**
   * `rename_path`: moves `src` to `dst` unless `src` is missing or `dst`
   * is taken, creating `dst`'s parent directories first; in a dry run it
   * only reports whether it would act. `Ok(true)` says it acted.
   */
  method RenamePath(fs: FileSystem, src: Path, dst: Path, dryRun: bool) returns (r: Result<bool, MigrateError>)
    requires fs.Valid()
    modifies fs
    ensures fs.Valid()
    ensures !Present(old(fs.entries), src) || Present(old(fs.entries), dst) ==> r == Ok(false) && fs.entries == old(fs.entries)
    ensures dryRun ==> fs.entries == old(fs.entries) && r == Ok(Present(old(fs.entries), src) && !Present(old(fs.entries), dst))
    ensures r.Ok? ==> r.value == (Present(old(fs.entries), src) && !Present(old(fs.entries), dst))
    ensures r == Ok(false) ==> fs.entries == old(fs.entries)
    ensures r.Err? <==> !dryRun && Present(old(fs.entries), src) && !Present(old(fs.entries), dst)
                        && (IsPrefix(src, dst) || !CanMakeDirs(old(fs.entries), Parent(dst)))
    ensures r.Err? ==> fs.entries == if src != [] && CanMakeDirs(old(fs.entries), Parent(dst))
                                     then WithDirs(old(fs.entries), Parent(dst)) else old(fs.entries)
    ensures r == Ok(true) && !dryRun ==>
      (forall q :: q in WithDirs(old(fs.entries), Parent(dst)) ==> !IsPrefix(dst, q))
      && fs.entries == Moved(WithDirs(old(fs.entries), Parent(dst)), src, dst)
    ensures r == Ok(true) && !dryRun ==> src in old(fs.entries) && dst in fs.entries && src !in fs.entries
                                         && fs.entries[dst] == old(fs.entries)[src]
  {
    if !Present(fs.entries, src) || Present(fs.entries, dst) {
      return Ok(false);
    }
    if dryRun {
      return Ok(true);
    }
    if src == [] {
      assert dst[..0] == [];
      return Err(FsFailed(InvalidRename(src, dst)));
    }
    var made := fs.MakeDirs(Parent(dst));
    if made.Fail? {
      return Err(FsFailed(made.error));
    }
    assert !Present(fs.entries, dst);
    var moved := fs.Rename(src, dst);
    if moved.Fail? {
      return Err(FsFailed(moved.error));
    }
    MovedEffect(old(fs.entries), WithDirs(old(fs.entries), Parent(dst)), src, dst);
    r := Ok(true);
  }

  /** Moving `src` to the free `dst` leaves `src`'s entry at `dst` and nothing at `src`. */
  lemma MovedEffect(e0: Entries, e: Entries, src: Path, dst: Path)
    requires src in e0 && src in e && e[src] == e0[src]
    requires forall q :: q in e ==> !IsPrefix(dst, q)
    ensures dst in Moved(e, src, dst) && Moved(e, src, dst)[dst] == e0[src]
    ensures src !in Moved(e, src, dst)
  {
    assert Relocate(src, src, dst) == dst;
  }

  // ------------------------------------------------------------ str.replace

  /** `s.replace(pat, rep)`: every occurrence of `pat`, scanning left to right without overlaps, becomes `rep`. */
  function ReplaceAll(s: string, pat: string, rep: string): string
    requires pat != ""
    decreases |s|
  {
    if |s| < |pat| then s
    else if s[..|pat|] == pat then rep + ReplaceAll(s[|pat|..], pat, rep)
    else [s[0]] + ReplaceAll(s[1..], pat, rep)
  }

  /** `s.split(sep)`: the pieces between the occurrences of `sep`. */
  function Split(s: string, sep: string): (parts: seq<string>)
    requires sep != ""
    ensures |parts| >= 1
    decreases |s|
  {
    if |s| < |sep| then [s]
    else if s[..|sep|] == sep then [""] + Split(s[|sep|..], sep)
    else
      var t := Split(s[1..], sep);
      [[s[0]] + t[0]] + t[1..]
  }

  /** `sep.join(parts)` */
  function Join(parts: seq<string>, sep: string): (s: string)
    requires |parts| >= 1
    ensures |parts| == 1 ==> s == parts[0]
    ensures |parts| > 1 ==> s == parts[0] + sep + Join(parts[1..], sep)
  {
    if |parts| == 1 then parts[0] else parts[0] + sep + Join(parts[1..], sep)
  }

  /** Python's own reading of `replace`: split at the pattern, join with the replacement. */
  lemma {:induction false} ReplaceIsSplitJoin(s: string, pat: string, rep: string)
    requires pat != ""
    ensures ReplaceAll(s, pat, rep) == Join(Split(s, pat), rep)
    decreases |s|
  {
    if |s| < |pat| {
    } else if s[..|pat|] == pat {
      ReplaceIsSplitJoin(s[|pat|..], pat, rep);
    } else {
      ReplaceIsSplitJoin(s[1..], pat, rep);
      var t := Split(s[1..], pat);
      assert Split(s, pat) == [[s[0]] + t[0]] + t[1..];
      if |t| > 1 {
        assert ([[s[0]] + t[0]] + t[1..])[1..] == t[1..];
      }
    }
  }

  /** Replacing a pattern by itself gives the text back. */
  lemma {:induction false} ReplaceBySelf(s: string, pat: string)
    requires pat != ""
    ensures ReplaceAll(s, pat, pat) == s
    decreases |s|
  {
    if |s| < |pat| {
    } else if s[..|pat|] == pat {
      var rest := s[|pat|..];
      assert ReplaceAll(s, pat, pat) == pat + ReplaceAll(rest, pat, pat);
      ReplaceBySelf(rest, pat);
      assert s == pat + rest;
    } else {
      var rest := s[1..];
      assert ReplaceAll(s, pat, pat) == [s[0]] + ReplaceAll(rest, pat, pat);
      ReplaceBySelf(rest, pat);
      assert s == [s[0]] + rest;
    }
  }

  /** Splitting and joining with the same separator is a round trip. */
  lemma SplitJoinBySelf(s: string, pat: string)
    requires pat != ""
    ensures Join(Split(s, pat), pat) == s
  {
    ReplaceBySelf(s, pat);
    ReplaceIsSplitJoin(s, pat, pat);
  }

  /** `pat` occurs in `s` starting at index `i`. */
  predicate OccursAt(s: string, pat: string, i: nat) {
    i + |pat| <= |s| && s[i..i + |pat|] == pat
  }

  /** `pat` occurs nowhere in `s`. */
  ghost predicate Absent(s: string, pat: string) {
    forall i: nat :: !OccursAt(s, pat, i)
  }

  /** A text without the pattern is left as it is. */
  lemma {:induction false} ReplaceAbsent(s: string, pat: string, rep: string)
    requires pat != "" && Absent(s, pat)
    ensures ReplaceAll(s, pat, rep) == s
    decreases |s|
  {
    if |s| >= |pat| {
      assert !OccursAt(s, pat, 0);
      assert Absent(s[1..], pat) by {
        forall i: nat ensures !OccursAt(s[1..], pat, i) {
          assert !OccursAt(s, pat, i + 1);
          if i + |pat| <= |s[1..]| {
            assert s[1..][i..i + |pat|] == s[i + 1..i + 1 + |pat|];
          }
        }
      }
      ReplaceAbsent(s[1..], pat, rep);
      assert s == [s[0]] + s[1..];
    }
  }

  // ------------------------------------------------------------ update_config_toml

  /** Every pattern of a replacement list is non-empty. */
  predicate ValidPairs(pairs: seq<(string, string)>) {
    forall i :: 0 <= i < |pairs| ==> pairs[i].0 != ""
  }

  /** The field-name replacements of `update_config_toml`, in the order they are applied. */
  function Replacements(): (pairs: seq<(string, string)>)
    ensures |pairs| == 12 && ValidPairs(pairs)
  {
    [ ("repoyard_data_path", "boxyard_data_path"),
      ("user_repo_groups_path", "user_box_groups_path"),
      ("user_repos_path", "user_boxes_path"),
      ("repo_timestamp_format", "box_timestamp_format"),
      ("default_repo_groups", "default_box_groups"),
      ("repo_subid_character_set", "box_subid_character_set"),
      ("repo_subid_length", "box_subid_length"),
      ("sync_before_new_repo", "sync_before_new_box"),
      ("[repo_groups]", "[box_groups]"),
      ("[virtual_repo_groups]", "[virtual_box_groups]"),
      ("repo_title_mode", "box_title_mode"),
      ("unique_repo_names", "unique_box_names") ]
  }

  /** The pairs applied one after the other, each to the result of the previous ones. */
  function ApplyAll(s: string, pairs: seq<(string, string)>): string
    requires ValidPairs(pairs)
    decreases |pairs|
  {
    if pairs == [] then s else ApplyAll(ReplaceAll(s, pairs[0].0, pairs[0].1), pairs[1..])
  }

  /** The configuration text after the migration's rewrite. */
  function Migrated(text: string): string {
    ApplyAll(text, Replacements())
  }

  /** A text holding none of the patterns comes through all of them unchanged. */
  lemma {:induction false} ApplyAllAbsent(s: string, pairs: seq<(string, string)>)
    requires ValidPairs(pairs) && forall i :: 0 <= i < |pairs| ==> Absent(s, pairs[i].0)
    ensures ApplyAll(s, pairs) == s
    decreases |pairs|
  {
    if pairs != [] {
      ReplaceAbsent(s, pairs[0].0, pairs[0].1);
      ApplyAllAbsent(s, pairs[1..]);
    }
  }

  /** A configuration already free of the old field names is not rewritten. */
  lemma MigratedKeepsNewConfig(text: string)
    requires forall i :: 0 <= i < 12 ==> Absent(text, Replacements()[i].0)
    ensures Migrated(text) == text
  {
    ApplyAllAbsent(text, Replacements());
  }

  /** The replacement loop of `update_config_toml`: each pair in turn, over the whole text. */
  method RewriteFieldNames(original: string) returns (content: string)
    ensures content == Migrated(original)
  {
    content := original;
    var pairs := Replacements();
    for i := 0 to |pairs|
      invariant ApplyAll(content, pairs[i..]) == Migrated(original)
    {
      assert pairs[i..][1..] == pairs[i + 1..];
      content := ReplaceAll(content, pairs[i].0, pairs[i].1);
    }
    assert pairs[|pairs|..] == [];
  }

  /**
   * `update_config_toml`: rewrite the field names of the configuration file
   * and write it back only when something changed and this is not a dry run.
   * A missing file is skipped. `Ok(true)` says the file was written.
   */
  method UpdateConfigToml(fs: FileSystem, configPath: Path, dryRun: bool) returns (r: Result<bool, MigrateError>)
    requires fs.Valid()
    modifies fs
    ensures fs.Valid()
    ensures !Present(old(fs.entries), configPath) ==> r == Ok(false)
    ensures r.Err? <==> Present(old(fs.entries), configPath) && !(configPath in old(fs.entries) && old(fs.entries)[configPath].File? && old(fs.entries)[configPath].content.Text?)
    ensures r == Ok(true) <==> && configPath in old(fs.entries) && old(fs.entries)[configPath].File?
                               && old(fs.entries)[configPath].content.Text?
                               && Migrated(old(fs.entries)[configPath].content.text) != old(fs.entries)[configPath].content.text
                               && !dryRun
    ensures r == Ok(true) ==> fs.entries == old(fs.entries)[configPath := File(Text(Migrated(old(fs.entries)[configPath].content.text)))]
    ensures r != Ok(true) ==> fs.entries == old(fs.entries)
  {
    if !Present(fs.entries, configPath) {
      return Ok(false);
    }
    if !(configPath in fs.entries && fs.entries[configPath].File? && fs.entries[configPath].content.Text?) {
      return Err(ReadFailed(configPath));
    }
    var original := fs.entries[configPath].content.text;
    var content := RewriteFieldNames(original);
    if content != original && !dryRun {
      var written := fs.WriteFile(configPath, Text(content));
      assert written.Pass?;
      return Ok(true);
    }
    return Ok(false);
  }

  // ------------------------------------------------------------ rename_repometas_in_store

  /** What `local_store_path.rglob("repometa.toml")` finds: every entry of that name below the store. */
  function RepometaFiles(e: Entries, store: Path): set<Path> {
    set p | p in e && IsStrictlyUnder(p, store) && p[|p| - 1] == "repometa.toml"
  }

  /** `repometa.parent / "boxmeta.toml"`: the new name, in the same directory. */
  function BoxmetaPath(p: Path): (q: Path)
    requires IsRepometa(p)
    ensures |q| >= 1 && Parent(q) == Parent(p) && q != p && q[|q| - 1] == "boxmeta.toml"
  {
    Parent(p) + ["boxmeta.toml"]
  }

  /** The records a dry run would report: those whose new name is still free. */
  function Renamable(e: Entries, store: Path): set<Path> {
    set p | p in RepometaFiles(e, store) && !Present(e, BoxmetaPath(p))
  }

  /** A path named `repometa.toml`. */
  predicate IsRepometa(p: Path) {
    p != [] && p[|p| - 1] == "repometa.toml"
  }

  /** Whether the rename of record `p` acts: the record is there and its new name is free. */
  predicate RenameActs(e: Entries, p: Path)
    requires IsRepometa(p)
  {
    Present(e, p) && !Present(e, BoxmetaPath(p))
  }

  /** The entries after one record's rename on a real run: moved to its new name when that acts, untouched otherwise. */
  function RenameStep(e: Entries, p: Path): (r: Entries)
    requires WellFormed(e) && IsRepometa(p)
    ensures WellFormed(r)
    ensures RenameActs(e, p) ==> p !in r && BoxmetaPath(p) in r && r[BoxmetaPath(p)] == e[p]
    ensures !RenameActs(e, p) ==> r == e
  {
    if RenameActs(e, p) then
      var b := BoxmetaPath(p);
      assert IsDirIn(e, Parent(p)) && |b| == |p|;
      MovedWellFormed(e, p, b);
      MovedEffect(e, e, p, b);
      Moved(e, p, b)
    else e
  }

  /** The entries after a real run renames the records of `order`, in that order. */
  function RunRenames(e: Entries, order: seq<Path>): (r: Entries)
    requires WellFormed(e) && forall i :: 0 <= i < |order| ==> IsRepometa(order[i])
    ensures WellFormed(r)
    decreases |order|
  {
    if order == [] then e
    else RenameStep(RunRenames(e, order[..|order| - 1]), order[|order| - 1])
  }

  /** The records of `order` whose rename acts when a real run renames them in that order. */
  function RenamedBy(e: Entries, order: seq<Path>): (r: set<Path>)
    requires WellFormed(e) && forall i :: 0 <= i < |order| ==> IsRepometa(order[i])
    ensures forall x :: x in r ==> x in order
    decreases |order|
  {
    if order == [] then {}
    else
      var k := |order| - 1;
      RenamedBy(e, order[..k]) + if RenameActs(RunRenames(e, order[..k]), order[k]) then {order[k]} else {}
  }

  /**
   * One record of `rename_repometas_in_store`. The rename cannot fail: the
   * record's directory exists and the new name differs from the old in the
   * last component only.
   */
  method RenameRepometa(fs: FileSystem, p: Path, dryRun: bool) returns (r: Result<bool, MigrateError>)
    requires fs.Valid() && IsRepometa(p)
    modifies fs
    ensures fs.Valid()
    ensures r == Ok(RenameActs(old(fs.entries), p))
    ensures fs.entries == if dryRun then old(fs.entries) else RenameStep(old(fs.entries), p)
  {
    var b := BoxmetaPath(p);
    if RenameActs(fs.entries, p) {
      assert |b| == |p| && b[..|p|] == b;
      WithDirsOfDir(fs.entries, Parent(p));
    }
    r := RenamePath(fs, p, b, dryRun);
  }

  /**
   * `rename_repometas_in_store`: rename each `repometa.toml` below the store
   * to `boxmeta.toml` beside it, counting the renames that acted. None when
   * the store does not exist. `order` is the order the records were visited
   * in and `renamed` holds the records renamed.
   */
  method RenameRepometasInStore(fs: FileSystem, store: Path, dryRun: bool)
    returns (r: Option<nat>, ghost order: seq<Path>, ghost renamed: set<Path>)
    requires fs.Valid()
    modifies fs
    ensures fs.Valid()
    ensures !Present(old(fs.entries), store) ==> r == None && fs.entries == old(fs.entries)
    ensures Present(old(fs.entries), store) ==>
      && r == Some(|renamed|)
      && (forall x :: x in order <==> x in RepometaFiles(old(fs.entries), store))
      && |order| == |RepometaFiles(old(fs.entries), store)|
    ensures forall i :: 0 <= i < |order| ==> IsRepometa(order[i])
    ensures !dryRun ==> fs.entries == RunRenames(old(fs.entries), order) && renamed == RenamedBy(old(fs.entries), order)
    ensures dryRun ==> fs.entries == old(fs.entries)
    ensures dryRun && Present(old(fs.entries), store) ==> renamed == Renamable(old(fs.entries), store)
  {
    order, renamed := [], {};
    if !Present(fs.entries, store) {
      return None, order, renamed;
    }
    ghost var e0 := fs.entries;
    var found := RepometaFiles(fs.entries, store);
    ghost var wanted := Renamable(e0, store);
    var count;
    count, order, renamed := RenameAll(fs, found, dryRun, e0, wanted);
    r := Some(count);
  }

  /** The loop of `rename_repometas_in_store` over the records `found`. */
  method RenameAll(fs: FileSystem, found: set<Path>, dryRun: bool, ghost e0: Entries, ghost wanted: set<Path>)
    returns (count: nat, ghost order: seq<Path>, ghost renamed: set<Path>)
    requires fs.Valid() && fs.entries == e0
    requires forall p :: p in found ==> IsRepometa(p) && p in e0 && (p in wanted <==> !Present(e0, BoxmetaPath(p)))
    requires wanted <= found
    modifies fs
    ensures fs.Valid() && count == |renamed|
    ensures (forall x :: x in order <==> x in found) && |order| == |found|
    ensures forall i :: 0 <= i < |order| ==> IsRepometa(order[i])
    ensures fs.entries == if dryRun then e0 else RunRenames(e0, order)
    ensures renamed == if dryRun then wanted else RenamedBy(e0, order)
  {
    order, renamed := [], {};
    var todo := found;
    count := 0;
    while todo != {}
      invariant fs.Valid() && todo <= found && count == |renamed| && renamed !! todo
      invariant (forall x :: x in found <==> x in order || x in todo) && (forall x :: x in order ==> x !in todo)
      invariant |order| + |todo| == |found|
      invariant forall i :: 0 <= i < |order| ==> IsRepometa(order[i])
      invariant !dryRun ==> fs.entries == RunRenames(e0, order) && renamed == RenamedBy(e0, order)
      invariant dryRun ==> fs.entries == e0 && forall x :: x in renamed <==> x in wanted && x !in todo
      decreases todo
    {
      var p :| p in todo;
      var acted;
      acted, count, renamed := RenameNext(fs, dryRun, e0, wanted, todo, p, count, order, renamed);
      Visit(found, order, todo, p);
      order := order + [p];
      todo := todo - {p};
    }
    assert dryRun ==> renamed == wanted;
  }

  /** One turn of the loop of `rename_repometas_in_store`: rename `p` and count it if that acted. */
  method RenameNext(fs: FileSystem, dryRun: bool, ghost e0: Entries, ghost wanted: set<Path>,
                    todo: set<Path>, p: Path, count: nat, ghost order: seq<Path>, ghost renamed: set<Path>)
    returns (acted: bool, count': nat, ghost renamed': set<Path>)
    requires fs.Valid() && WellFormed(e0) && p in todo && p in e0 && IsRepometa(p)
    requires p in wanted <==> !Present(e0, BoxmetaPath(p))
    requires forall i :: 0 <= i < |order| ==> IsRepometa(order[i])
    requires count == |renamed| && renamed !! todo
    requires !dryRun ==> fs.entries == RunRenames(e0, order) && renamed == RenamedBy(e0, order)
    requires dryRun ==> fs.entries == e0 && forall x :: x in renamed <==> x in wanted && x !in todo
    modifies fs
    ensures fs.Valid() && count' == |renamed'| && renamed' !! todo - {p}
    ensures acted == RenameActs(old(fs.entries), p)
    ensures renamed' == if acted then renamed + {p} else renamed
    ensures !dryRun ==> fs.entries == RunRenames(e0, order + [p]) && renamed' == RenamedBy(e0, order + [p])
    ensures dryRun ==> fs.entries == e0 && forall x :: x in renamed' <==> x in wanted && x !in todo - {p}
  {
    var r := RenameRepometa(fs, p, dryRun);
    acted := r.value;
    renamed', count' := renamed, count;
    if dryRun {
      TakeOne(wanted, todo, renamed, p, acted);
    }
    if acted {
      AddNew(renamed, todo, p);
      renamed' := renamed + {p};
      count' := count + 1;
    }
    assert (order + [p])[..|order|] == order;
  }

  /** Visiting `p` moves it from the work list to the end of the visiting order. */
  lemma Visit(found: set<Path>, order: seq<Path>, todo: set<Path>, p: Path)
    requires (forall x :: x in found <==> x in order || x in todo) && (forall x :: x in order ==> x !in todo)
    requires |order| + |todo| == |found| && p in todo
    requires IsRepometa(p) && forall i :: 0 <= i < |order| ==> IsRepometa(order[i])
    ensures (forall x :: x in found <==> x in order + [p] || x in todo - {p})
    ensures forall x :: x in order + [p] ==> x !in todo - {p}
    ensures |order + [p]| + |todo - {p}| == |found|
    ensures forall i :: 0 <= i < |order + [p]| ==> IsRepometa((order + [p])[i])
  {
  }

  /** Adding an element of the work list, which the done side does not hold, grows the done side by one. */
  lemma AddNew<T>(done: set<T>, todo: set<T>, p: T)
    requires done !! todo && p in todo
    ensures |done + {p}| == |done| + 1
  {
  }

  /** Taking `p` out of the work list moves it to the done side, among the acted ones exactly when it is wanted. */
  lemma TakeOne<T>(wanted: set<T>, todo: set<T>, acted: set<T>, p: T, act: bool)
    requires (forall x :: x in acted <==> x in wanted && x !in todo) && p in todo && act == (p in wanted)
    ensures forall x :: x in (if act then acted + {p} else acted) <==> x in wanted && x !in todo - {p}
  {
  }

  // ------------------------------------------------------------ the data directory

  /** `~/.repoyard`, the data directory before the migration. */
  function OldDataDir(home: Path): Path { home + [".repoyard"] }

  /** `~/.boxyard`, the data directory after it. */
  function NewDataDir(home: Path): Path { home + [".boxyard"] }

  /** The data directory the later steps use: the new one if it exists or the old one is missing, else the old one. */
  function DataDir(e: Entries, home: Path): (d: Path)
    ensures d == NewDataDir(home) <==> Present(e, NewDataDir(home)) || !Present(e, OldDataDir(home))
    ensures d == OldDataDir(home) <==> !Present(e, NewDataDir(home)) && Present(e, OldDataDir(home))
  {
    assert NewDataDir(home)[|home|] != OldDataDir(home)[|home|];
    if Present(e, NewDataDir(home)) || !Present(e, OldDataDir(home)) then NewDataDir(home) else OldDataDir(home)
  }

  /** Whenever either data directory exists, the one chosen exists. */
  lemma DataDirExists(e: Entries, home: Path)
    requires Present(e, OldDataDir(home)) || Present(e, NewDataDir(home))
    ensures Present(e, DataDir(e, home))
  {
  }
}
