# repoyard core, modelled in Dafny

repoyard keeps a set of git repositories ("repos") spread over storage
locations. Each repo has a metadata record (`RepoMeta`) whose user-facing
name is `<ulid>__<name>`. The records are synced into
`<data>/synced_repometa/<location>/<full name>.toml`. A repo whose content
is present on this machine ("included") lives at
`<data>/included_repostore/<full name>`. From these, repoyard builds:

- an index of all records by full name and by ulid, cached in
  `repoyard_meta.json`;
- a flat folder of links, one per included repo;
- a folder per repo group holding links to the group's included members.

The configuration file names the storage locations and the groups, and is
validated on load. A separate migration script renames repoyard's files and
configuration fields to their boxyard names.

The model covers all of the above:

| module | file | what it holds |
|---|---|---|
| `Paths` | `paths.dfy` | paths as sequences of components |
| `Wrappers` | `wrappers.dfy` | Option, Result and Outcome |
| `Records` | `records.dfy` | `RepoMeta`, `full_name` and its `split('__', 1)` inverse, the record-file encoding |
| `FileSystem` | `filesystem.dfy` | a map from path to directory, file or link; a `FileSystem` class with the `pathlib` calls the code makes (`unlink`, `symlink_to`, `rmdir`, `write_text`, `mkdir(parents=True, exist_ok=True)`, `rename`) |
| `Config` | `config.dfy` | the configuration, its derived paths, validation and the default configuration |
| `Repos` | `repos.dfy` | the record paths, `check_included`, `save`, the index `create_repoyard_meta`, the cache `get_repoyard_meta`, `get_repo_group_configs` |
| `Symlinks` | `symlinks.dfy` | `create_user_repos_symlinks` |
| `GroupLinks` | `groups.dfy` | `create_user_repo_group_symlinks` |
| `SubPath` | `subpath.dfy` | `get_synced_repo_full_name_from_sub_path` |
| `Migrate` | `migrate.dfy` | `rename_path`, `update_config_toml`, `rename_repometas_in_store`, the data-directory choice |

Operations that change the filesystem are methods on the `FileSystem`
object. Each is proved against a specification function or predicate of the
state before the call. For example:

- `FlatView` is the flat link folder the source aims for;
- `GroupViewOf` is the group folders it aims for;
- `Migrated` is the rewritten configuration text.

Lemmas then state what the source promises about those specifications:
exactness, idempotence of both link views, round trips and agreement of the
two index maps.

`create_repoyard_meta` raises on the first record file it cannot read, so
`Repos.CreateRepoyardMeta` returns an error for that file rather than
skipping it.

## Model

| member | source | states |
|---|---|---|
| Records.FirstSeparator | pts/mod/_repos.pct.py:83 | the result is the index of the first `"__"` in the stem, or None exactly when there is none |
| Records.SplitStem | pts/mod/_repos.pct.py:83 | the split fails exactly when the stem has no `"__"`; otherwise the two parts joined by `"__"` give the stem back, and the first part holds no separator start |
| Records.FromRecordFile | pts/mod/_repos.pct.py:82-89 | a record file loads exactly when its stem splits; the loaded record's full name is the stem, its location is the directory's name, and the rest comes from the payload |
| Records.SplitFullName | pts/mod/_repos.pct.py:34-36 | for a ulid without `_`, splitting `full_name` recovers `(ulid, name)`, even when the name contains `"__"` |
| Records.LoadSavedRecord | pts/mod/_repos.pct.py:84-89 | loading the payload `save` writes, from the file name and directory `save` uses, gives back the same record |
| Records.TrailingUnderscoreBreaksSplit | pts/mod/_repos.pct.py:83 | a ulid free of `"__"` but ending in `_` does not round-trip: `("a_", "_b")` splits as `("a", "__b")` |
| Config.DefaultGroupConfig | pts/mod/config.pct.py:44-48 | a group configuration made from a name alone is static, titled by datetime, and does not demand unique names |
| Config.Config.StorageOf | pts/mod/_repos.pct.py:55 | looking up a storage location succeeds exactly for a configured name, and gives that location's settings |
| Config.LookUp | pts/mod/_repos.pct.py:55 | the lookup succeeds exactly for a listed name, and gives the settings of the first location listed with it |
| Config.DataLayout | pts/mod/config.pct.py:61-91 | the seven derived data paths lie inside the data directory, and none is inside or equal to another |
| Config.ConfigSiblings | pts/mod/config.pct.py:81-95 | the rclone configuration and the default ignore file sit in the config file's directory and are different files |
| Config.Expanded | pts/mod/config.pct.py:97-102 | expanding the paths keeps the storage-location names, their order and the default location |
| Config.FirstInvalidName | pts/mod/config.pct.py:105-107 | the result is the first name not matching `[A-Za-z0-9_-]+`; None exactly when all names match |
| Config.Validate | pts/mod/config.pct.py:97-116 | a configuration is accepted iff every name matches, there is a location, and the default is one of the names; the checks run in the source's order: any name failing the pattern is reported first (the first such name), then an empty list, then a missing default; an accepted configuration comes back with its paths expanded |
| Config.ValidateConfig | pts/mod/config.pct.py:97-116 | the validator's loops give exactly `Validate`'s verdict |
| Config.FindInvalidName | pts/mod/config.pct.py:105-107 | the name loop stops at the first invalid name |
| Config.HasName | pts/mod/config.pct.py:113 | the scan finds the default exactly when it is among the names |
| Config.DefaultConfigIsValid | pts/mod/config.pct.py:131-156 | the default configuration passes validation, and its `"local"` location stores in the data directory's `local/repometa` and `local/repostore` |
| Repos.TomlStem | pts/mod/_repos.pct.py:82 | the stem of a `*.toml` name, put back into a record file name, gives the name |
| Repos.IncludedRepoPath | pts/mod/_repos.pct.py:51-52 | defines a repo's included folder: directly in the included store, under the repo's full name |
| Repos.LocationRecordDir | pts/mod/_repos.pct.py:80 | defines a location's record directory: directly in the synced record store, under the location's name |
| Repos.SyncedRecordPath | pts/mod/_repos.pct.py:57-58 | defines a record's file: `<full name>.toml` in its location's record directory |
| Repos.RemoteRepoPath | pts/mod/_repos.pct.py:54-55 | the remote repo path exists exactly for a configured location, and is that location's store joined with the full name |
| Repos.RemoteRecordPath | pts/mod/_repos.pct.py:60-61 | the remote record path exists exactly for a configured location, and is that location's record store joined with `<full name>.toml` |
| Repos.CheckIncluded | pts/mod/_repos.pct.py:38-41 | a repo is included exactly when its folder in the included store is a directory |
| Repos.Save | pts/mod/_repos.pct.py:43-49 | `save` makes the record directory and writes the payload without ulid and name at the record path; it fails only when the directory cannot be made or a non-file holds the path |
| Repos.RecordNames | pts/mod/_repos.pct.py:81 | the names the glob visits are exactly the `*.toml` entries directly in the location's record directory |
| Repos.LoadRecord | pts/mod/_repos.pct.py:82-89 | a loaded record is keyed by the file's stem and carries the directory's location; a failure names the offending file |
| Repos.UlidsAgreeStep | pts/mod/_repos.pct.py:90-91 | inserting a record under its full name and its ulid keeps both maps keyed by their records and in agreement |
| Repos.IndexStep | pts/mod/_repos.pct.py:90-91 | indexing one more loaded record file keeps the maps an index of exactly the files loaded so far |
| Repos.IndexStepDone | pts/mod/_repos.pct.py:90-91 | after one more insertion, every record file handled so far still loads and its full name is a key |
| Repos.IndexStepKeys | pts/mod/_repos.pct.py:90-91 | after one more insertion, every key of the full-name map still comes from a loaded record file |
| Repos.CreateRepoyardMeta | pts/mod/_repos.pct.py:73-92 | the index succeeds exactly when every record file loads; it then holds every record under its full name and ulid, only records from files, with both maps in agreement, and for a full name held by several locations the record of the last of them in configuration order; an error names a file that failed, and every location before that file's loaded |
| Repos.IndexLocation | pts/mod/_repos.pct.py:81-91 | the inner loop indexes every record file of one location under its full name, changing only those full names, or reports one that fails |
| Repos.IndexNextLocation | pts/mod/_repos.pct.py:79-91 | one turn of the outer loop: the location's records overwrite earlier ones with the same full name, and a failure comes after every earlier location loaded |
| Repos.HoldsStep | pts/mod/_repos.pct.py:90 | one more assignment keeps the records already loaded from the location and changes only its own full name |
| Repos.LastHolder | pts/mod/_repos.pct.py:79-81 | the location it gives, when any, is among those visited so far and holds the file |
| Repos.LastHolderIsLast | pts/mod/_repos.pct.py:79-81 | no later location visited so far holds the file, and there is none exactly when no visited location holds it |
| Repos.LoadedStemsAgree | pts/mod/_repos.pct.py:82-83 | two record files that load and have the same stem have the same name |
| Repos.HeldRecordLoads | pts/mod/_repos.pct.py:82-90 | once a location is fully indexed, each of its record files loads and its record is kept under its full name |
| Repos.EarlierRecordKept | pts/mod/_repos.pct.py:79-90 | a record from an earlier location survives a location that does not hold its file |
| Repos.LastLocationStep | pts/mod/_repos.pct.py:79-90 | after one more location, every full name still holds the record of the last location holding its file |
| Repos.KeptRecordIsLast | pts/mod/_repos.pct.py:79-90 | when several locations hold the same record file, the index keeps the record loaded from the last of them |
| Repos.IndexOverEverything | pts/mod/_repos.pct.py:79-92 | once every file is visited, the maps are the index of the whole store |
| Repos.IndexedRecordIsConsistent | pts/mod/_repos.pct.py:84-91 | an indexed record is stored under its own full name, lives in a configured location, and its ulid is a key of the ulid map |
| Repos.BareSuffixHasNoSeparator | pts/mod/_repos.pct.py:81-83 | a file named `.toml` alone never loads |
| Repos.SavedRecordLoads | pts/mod/_repos.pct.py:43-49 | the file `save` writes is visited by the index and loads as the saved record |
| Repos.SavedRecordIndexed | pts/mod/_repos.pct.py:73-92 | a saved record's full name is a key of any index of the store |
| Repos.ReadIndex | pts/mod/_repos.pct.py:105 | reading the cache succeeds exactly on an index file, and gives its contents |
| Repos.GetRepoyardMeta | pts/mod/_repos.pct.py:98-105 | with a cache present and no force, nothing changes and the cache is read; otherwise the index is rebuilt, written over the cache and read back, and nothing changes on failure |
| Repos.ConfiguredGroups | pts/mod/_repos.pct.py:122 | every configured group is stored under its own name |
| Repos.ConfiguredGroupsMembers | pts/mod/_repos.pct.py:122 | the configured group names are exactly the names listed |
| Repos.ConfiguredGroupIsLast | pts/mod/_repos.pct.py:122 | the configuration kept for a name is the last one listed under it |
| Repos.IncludedGroupsMembers | pts/mod/_repos.pct.py:123-127 | a group is named by an included repo exactly when some included repo lists it |
| Repos.IncludedGroupsStep | pts/mod/_repos.pct.py:123-127 | one more repo adds its groups exactly when it is included |
| Repos.GroupConfigsSpec | pts/mod/_repos.pct.py:118-128 | the effective groups are the configured ones plus every group an included repo lists; a configured group keeps its configuration, any other gets the defaults |
| Repos.GetRepoGroupConfigs | pts/mod/_repos.pct.py:118-128 | the loop over the repos builds exactly `GroupConfigs` |
| Repos.AddDefaultGroups | pts/mod/_repos.pct.py:125-127 | the inner loop adds a default configuration for each listed group not yet known, and nothing else |
| Repos.GroupConfigsByKey | pts/mod/_repos.pct.py:118-128 | a map with `GroupConfigs`'s keys and values is `GroupConfigs` |
| FileSystem.Children | pts/mod/_repos.pct.py:188 | defines the entries `iterdir` lists: exactly those directly inside the folder |
| FileSystem.FileSystem.Unlink | pts/mod/_repos.pct.py:138 | unlinking a link removes that entry and nothing else |
| FileSystem.FileSystem.SymlinkTo | pts/mod/_repos.pct.py:148 | `symlink_to` succeeds exactly on a free path whose parent is a directory, and then adds only the link |
| FileSystem.FileSystem.Rmdir | pts/mod/_repos.pct.py:189 | removing an empty directory removes that entry and nothing else |
| FileSystem.FileSystem.WriteFile | pts/mod/_repos.pct.py:49 | `write_text` succeeds exactly on a free path or a file with a directory as parent, and then sets only that file |
| FileSystem.FileSystem.MakeDirs | pts/mod/_repos.pct.py:45 | `mkdir(parents=True, exist_ok=True)` succeeds exactly when no non-directory is in the way; it then adds only directories on the path, and the path is a directory |
| FileSystem.WithDirsOfDir | repoyard_migrate.py:39 | `mkdir(parents=True, exist_ok=True)` on an existing directory of a well-formed tree succeeds and changes nothing |
| FileSystem.FileSystem.Rename | repoyard_migrate.py:40 | `rename` to a free path under an existing directory moves the whole subtree; it fails, changing nothing, when the target is inside the source |
| Symlinks.Resolve | pts/mod/_repos.pct.py:145 | defines one-step `resolve()`: a link gives its target, any other path itself |
| Symlinks.DesiredNamesMembers | pts/mod/_repos.pct.py:140-141 | a full name is linked exactly when some included repo has it |
| Symlinks.LinkChildren | pts/mod/_repos.pct.py:137-138 | defines the first pass's targets: the links directly in the folder |
| Symlinks.Stripped | pts/mod/_repos.pct.py:137-138 | defines the folder after the first pass: its direct links removed, every other entry unchanged |
| Symlinks.WithLinks | pts/mod/_repos.pct.py:140-148 | defines the second pass's result: `d/n -> target/n` added for each name, every other entry kept |
| Symlinks.SameDirsSameNames | pts/mod/_repos.pct.py:141 | inclusion depends only on which paths are directories |
| Symlinks.FlatViewExact | pts/mod/_repos.pct.py:137-148 | afterwards there is one link per included repo, `user_repos/<full name> -> included_repostore/<full name>`; every link directly in the folder is one of these; every non-link entry is as it was; nothing else is new |
| Symlinks.FlatViewIdempotent | pts/mod/_repos.pct.py:133-148 | making the flat view again is possible and changes nothing |
| Symlinks.WithLinksAdd | pts/mod/_repos.pct.py:148 | linking one more name adds exactly its link |
| Symlinks.DesiredPrefix | pts/mod/_repos.pct.py:140-141 | each repo adds its full name when included, and a prefix of the repos links no more names than all of them |
| Symlinks.UnlinkChildLinks | pts/mod/_repos.pct.py:137-138 | the first loop leaves exactly the `Stripped` folder |
| Symlinks.LinkName | pts/mod/_repos.pct.py:142-148 | one link of the second pass is made, or kept when this pass already made it; it fails exactly when a non-link holds the name or the folder is missing |
| Symlinks.LinkRepo | pts/mod/_repos.pct.py:140-148 | one repo of the second pass extends the links by its name when included; a failure means the flat view is impossible |
| Symlinks.CreateUserReposSymlinks | pts/mod/_repos.pct.py:133-148 | succeeds exactly when the flat view is possible, and then leaves exactly `FlatView`; on failure the folder holds links for some of the included repos and no others |
| GroupLinks.GroupNamesMembers | pts/mod/_repos.pct.py:163-170 | a full name is linked into a group exactly when some included repo is in the group (static: lists it; virtual: its filter accepts it) |
| GroupLinks.GroupNamesStep | pts/mod/_repos.pct.py:163-170 | one more repo adds its name exactly when it is included and in the group |
| GroupLinks.GroupNamesPrefix | pts/mod/_repos.pct.py:163-170 | a prefix of the repos links no more names into a group |
| GroupLinks.SomeIncludedMembers | pts/mod/_repos.pct.py:163-164 | `SomeIncluded` holds exactly when some repo is included |
| GroupLinks.SomeIncludedStep | pts/mod/_repos.pct.py:163-164 | one more repo makes `SomeIncluded` hold exactly when it is included or an earlier one was |
| GroupLinks.SomeIncludedPrefix | pts/mod/_repos.pct.py:163-164 | an included repo among a prefix is an included repo of the whole list |
| GroupLinks.UsableAdd | pts/mod/_repos.pct.py:173-179 | one more usable link keeps all links usable |
| GroupLinks.KeepStep | pts/mod/_repos.pct.py:174 | recording one more link path keeps the recorded paths equal to the placed links |
| GroupLinks.PlacedInitially | pts/mod/_repos.pct.py:160 | at the start, no link is placed and none is recorded |
| GroupLinks.PlacedFolders | pts/mod/_repos.pct.py:173 | placing links never changes whether a group folder can be made |
| GroupLinks.PlacedInclusion | pts/mod/_repos.pct.py:164 | placing links never changes which repos are included |
| GroupLinks.SlotStatus | pts/mod/_repos.pct.py:175-179 | a link's name is held by a non-link exactly when it was at the start |
| GroupLinks.FolderStep | pts/mod/_repos.pct.py:173 | making a group folder keeps every placed link placed and adds only directories on the way to the folder |
| GroupLinks.SlotStep | pts/mod/_repos.pct.py:175-179 | linking one repo into a group extends the placed links by exactly that link, which also accounts for any directory made above the groups folder |
| GroupLinks.PlaceLink | pts/mod/_repos.pct.py:171-179 | one member's step succeeds exactly when its folder can be made and its name is free or a link; it then places the link and records its path |
| GroupLinks.LinkInto | pts/mod/_repos.pct.py:175-179 | a correct link is kept and a wrong one replaced; this fails, changing nothing, exactly when a non-link holds the name |
| GroupLinks.LinkGroup | pts/mod/_repos.pct.py:163-179 | one group succeeds exactly when it has a filter (if virtual with included members) and all its links are usable; it then places and records exactly the group's links |
| GroupLinks.LinkGroupStep | pts/mod/_repos.pct.py:163-179 | one repo of a group's loop either extends the group's links or shows the whole group cannot be linked |
| GroupLinks.EmptyGroupPlaced | pts/mod/_repos.pct.py:162 | a group with no links yet adds no recorded paths and keeps the placed links and the rule for made directories |
| GroupLinks.MemberBlocks | pts/mod/_repos.pct.py:164-167 | an included repo met without a filter, or with an unusable link, makes the whole group fail |
| GroupLinks.LinkMember | pts/mod/_repos.pct.py:163-179 | an excluded repo changes nothing; an included member of the group gets its link; a virtual group without a filter fails (`KeyError`) |
| GroupLinks.StaleIn | pts/mod/_repos.pct.py:183-186 | defines the links a folder loses: its unrecorded direct links |
| GroupLinks.CleanFolder | pts/mod/_repos.pct.py:182-189 | cleaning one group folder removes its unrecorded links, and the folder too when that empties it |
| GroupLinks.UnlinkStale | pts/mod/_repos.pct.py:183-186 | the inner clean-up loop removes exactly the unrecorded links of the folder |
| GroupLinks.CleanFolderChildren | pts/mod/_repos.pct.py:182-189 | a folder not yet cleaned still holds what it held |
| GroupLinks.CleanFolderEmptied | pts/mod/_repos.pct.py:188-189 | a folder is empty after its clean-up exactly when it held only unrecorded links |
| GroupLinks.CleanFolderStep | pts/mod/_repos.pct.py:182-189 | one folder's clean-up extends the cleaned folders by that folder |
| GroupLinks.CleanGroupFolders | pts/mod/_repos.pct.py:182-189 | the clean-up succeeds exactly when every entry of the groups folder is a directory; it then removes every unrecorded link of a group folder and every folder this empties, and nothing else |
| GroupLinks.GroupViewFinal | pts/mod/_repos.pct.py:162-189 | linking the wanted links and then cleaning up gives the group view of those links |
| GroupLinks.FinalGrandchildren | pts/mod/_repos.pct.py:162-189 | after both passes every non-link in a group folder was there, unchanged, at the start |
| GroupLinks.FinalPrefixes | pts/mod/_repos.pct.py:173-189 | a directory made above the groups folder still leads to a group folder after the clean-up, since it was made on the way to a link the clean-up keeps |
| GroupLinks.PlacedFolderKinds | pts/mod/_repos.pct.py:182 | linking never changes whether every entry of the groups folder is a directory |
| GroupLinks.LinkGroups | pts/mod/_repos.pct.py:162-179 | the first pass succeeds exactly when no group lacks a filter it needs and all links are usable; it then places and records exactly each group's wanted links |
| GroupLinks.LinkNextGroup | pts/mod/_repos.pct.py:162-179 | one group of the first pass places its links, or fails for the group's own reason |
| GroupLinks.CreateUserRepoGroupSymlinks | pts/mod/_repos.pct.py:153-189 | succeeds exactly when the group view is possible; each included member of each effective group is then linked at `groups/<group>/<full name> -> included_repostore/<full name>`; no other link remains in a group folder; every group folder left is non-empty; non-link entries are untouched and none is added to a group folder; a directory above the groups folder is made only when a group folder is left; a missing-filter failure names a virtual group with an included repo |
| GroupLinks.GroupViewInclusion | pts/mod/_repos.pct.py:164 | a group view does not change which repos are included |
| GroupLinks.SameInclusion | pts/mod/_repos.pct.py:118-170 | the same inclusion gives the same effective groups, the same members of each group and the same answer to whether any repo is included |
| GroupLinks.SameWant | pts/mod/_repos.pct.py:158-170 | the same inclusion gives the same effective groups and the same wanted links |
| GroupLinks.WantedSlotUsable | pts/mod/_repos.pct.py:171-179 | every link of a group view can be made again: its group folder is a directory and the name holds a link |
| GroupLinks.GrandchildKept | pts/mod/_repos.pct.py:162-189 | whatever is in a group folder of a group view is kept, unchanged, by a second view of the same links |
| GroupLinks.GroupViewKeeps | pts/mod/_repos.pct.py:153-189 | every entry of a group view is kept, unchanged, by a second view of the same links |
| GroupLinks.FolderKept | pts/mod/_repos.pct.py:182-189 | a group folder of a second view was already in the first |
| GroupLinks.GroupViewAddsNothing | pts/mod/_repos.pct.py:153-189 | a second view of the same links adds no entry |
| GroupLinks.NotAdded | pts/mod/_repos.pct.py:153-189 | one entry of a second view of the same links was already in the first |
| GroupLinks.GroupViewUnique | pts/mod/_repos.pct.py:153-189 | a group view of the same links made from a group view is that view itself |
| GroupLinks.GroupViewIdempotent | pts/mod/_repos.pct.py:153-189 | running the group links again on their own result succeeds, wants the same links and leaves the entries exactly as they are |
| GroupLinks.RecordedKeyAsWritten | pts/mod/_repos.pct.py:174 | defines the key as written: the link's resolved path, that is the old link's target, or the link path itself when no link is there yet |
| GroupLinks.FreshGroupLinkRemovedAsWritten | pts/mod/_repos.pct.py:174-186 | as written, a link the run made (none there, or a wrong one) is removed by the same run's clean-up unless another recorded link already pointed at the same repo at the start; with one member in all groups it is always removed; recording the link path keeps it |
| GroupLinks.RecordedKeysAsWritten | pts/mod/_repos.pct.py:174 | as written, the recorded keys are exactly the keys of the recorded links, read from the entries at the start |
| GroupLinks.StaleGroupLinkKeptAsWritten | pts/mod/_repos.pct.py:174-186 | as written, an unrecorded link whose target another recorded link resolved to at the start survives the clean-up; the corrected clean-up removes it |
| SubPath.RelativeTo | pts/mod/_utils/base.pct.py:42 | the store followed by the relative parts is the path |
| SubPath.FullNameFromSubPathAsWritten | pts/mod/_utils/base.pct.py:29-48 | as written, the function raises exactly for a path two components below the local store |
| SubPath.FullNameFromSubPath | pts/mod/_utils/base.pct.py:29-48 | a name comes back exactly for a path at least three components below the store; it is the third component, so always a component of the path |
| SubPath.AsWrittenAgrees | pts/mod/_utils/base.pct.py:44-47 | wherever the function as written returns, it returns the corrected function's result |
| SubPath.TwoComponentsFailAsWritten | pts/mod/_utils/base.pct.py:44-47 | `<store>/local/repos` makes the function as written raise an index error, where the corrected one returns None |
| Migrate.RenamePath | repoyard_migrate.py:30-41 | missing `src` or existing `dst` gives False with no change; a dry run changes nothing and says whether it would act; True is returned exactly when it acts; a real run fails exactly when `dst` lies inside `src` or `dst`'s parent cannot be made, keeping only the directories it made; otherwise the entries are exactly those after making `dst`'s parent and moving the subtree at `src` to `dst` |
| Migrate.MovedEffect | repoyard_migrate.py:40 | moving to a free path puts the source's entry there and removes the source |
| Migrate.ReplaceIsSplitJoin | repoyard_migrate.py:70 | left-to-right replacement equals splitting at the pattern and joining with the replacement |
| Migrate.ReplaceBySelf | repoyard_migrate.py:70 | replacing a pattern by itself gives the text back |
| Migrate.SplitJoinBySelf | repoyard_migrate.py:70 | splitting at a pattern and rejoining with it gives the text back |
| Migrate.ReplaceAbsent | repoyard_migrate.py:70 | a text without the pattern is unchanged |
| Migrate.Replacements | repoyard_migrate.py:54-67 | there are twelve replacement pairs, none with an empty pattern |
| Migrate.ApplyAllAbsent | repoyard_migrate.py:69-70 | a text holding none of the patterns comes through all the replacements unchanged |
| Migrate.MigratedKeepsNewConfig | repoyard_migrate.py:53-70 | a configuration already free of the twelve old field names is not rewritten |
| Migrate.RewriteFieldNames | repoyard_migrate.py:69-70 | the loop applies the twelve pairs in order, giving `Migrated` of the original |
| Migrate.UpdateConfigToml | repoyard_migrate.py:44-77 | a missing file is skipped; a non-text file cannot be read; the file is rewritten to `Migrated` of its text exactly when that differs and this is not a dry run; otherwise nothing changes |
| Migrate.BoxmetaPath | repoyard_migrate.py:86 | the new name is `boxmeta.toml` in the same directory, and differs from the old path |
| Migrate.RenameRepometa | repoyard_migrate.py:86-88 | one record never fails: it reports exactly whether the record is there and its new name is free; a dry run changes nothing, a real run leaves exactly `RenameStep`'s entries |
| Migrate.RenameRepometasInStore | repoyard_migrate.py:80-90 | a missing store gives None with no change; otherwise every record found is visited once and the count is the number of records renamed; a real run leaves exactly the entries of renaming the records one by one in the visiting order, and the renamed records are exactly those whose rename acted at its turn; a dry run changes nothing and counts exactly the records whose new name is free |
| Migrate.RenameAll | repoyard_migrate.py:85-88 | the loop visits every record once; on a real run the entries and the renamed records are those of renaming the records one by one in the visiting order; in a dry run nothing changes and the renamed records are exactly the wanted ones; the count is the number renamed |
| Migrate.RenameNext | repoyard_migrate.py:85-88 | one turn acts exactly when its record is there and the new name is free, counts the record exactly when it acts, and extends the real run's entries and renamed records by that record |
| Migrate.RenameStep | repoyard_migrate.py:86-88 | one record's real rename: when the record is there and its new name free, the record's entry is at the new name and the old name is gone; otherwise nothing changes; the tree stays well formed |
| Migrate.RunRenames | repoyard_migrate.py:85-88 | renaming the records one by one in a given order keeps the tree well formed |
| Migrate.RenamedBy | repoyard_migrate.py:85-88 | the records renamed in a given order are among those visited |
| Migrate.Visit | repoyard_migrate.py:85 | visiting a record moves it from the records still to visit to the end of the visiting order, keeping each record visited once |
| Migrate.DataDir | repoyard_migrate.py:137 | the new data directory is chosen exactly when it exists or the old one is missing; the old one otherwise |
| Migrate.DataDirExists | repoyard_migrate.py:137 | whenever either data directory exists, the chosen one exists |

## Left out

- Serialisation: TOML and JSON texts, and pydantic validation of record fields. A record file holds a `Payload` value and the cache file a `RepoyardMeta` value. A malformed payload is a file whose content is not a record (`NotARecord`).
- ULID generation and ULID syntax: the ulid is an opaque string. The round-trip lemmas require only that it contain no `_`.
- `expanduser` and the home directory: the home directory is a parameter, and only a leading `~` component is replaced. `resolve()` looks one link deep, and the model never follows links when checking for existence or directories or when walking a path.
- Reading and writing through a link: `read_text` and `write_text` follow links, but the model does not. Writing to a link fails with `LinkNotFollowed` (`FileSystem.FileSystem.WriteFile`, so `Repos.Save` and the cache write of `Repos.GetRepoyardMeta`). A record file that is a link does not load (`NotARecord` in `Repos.LoadRecord`), and a configuration file that is a link is not read (`ReadFailed` in `Migrate.UpdateConfigToml`).
- Storage locations are a sequence in configuration order. The configuration's dict cannot repeat a name, but the model's sequence may; `Config.LookUp`, and so `Config.Config.StorageOf`, then gives the first location with that name, and the index visits that name's record directory once per entry. No configuration the program reads has a repeated name.
- The configuration of `get_synced_repo_full_name_from_sub_path` has no `local_store_path` field, so the local store path is a parameter. `get_hostname` (platform and subprocess calls) is not part of this model.
- The order of `glob`, `rglob` and dict iteration: the loops pick any remaining element. The proved results do not depend on that order, except for the by-ulid map below. The storage locations are visited in configuration order, and when two locations hold the same record file the index keeps the later location's record (`Repos.KeptRecordIsLast`).
- Repos.CreateRepoyardMeta: when two record files share a ulid, the model does not say which record the by-ulid map keeps. It proves only that the kept record is stored in the full-name map under its own full name.
- Known type errors are modelled by their evident intent:
  - `repo_metas.values()` on a list is read as iterating the list;
  - the attribute `is_included` is read as a call of `check_included`;
  - the set comprehension in `get_repo_group_configs` is read as a dict of the configured groups keyed by name, where a later entry wins.
- `get_virtual_repo_group_filters` returns no filters. `GroupLinks.CreateUserRepoGroupSymlinks` takes the filters as a parameter, so a virtual group with filters is modelled too.
- GroupLinks.CreateUserRepoGroupSymlinks requires that the included store is not the groups folder or one of its ancestors. Otherwise the method's own `mkdir` could change which repos are included during the run.
- GroupLinks.CreateUserRepoGroupSymlinks treats a group folder that is itself a link as an error (`iterdir` on a non-directory). It does not follow that link.
- GroupLinks.CreateUserRepoGroupSymlinks, Symlinks.CreateUserReposSymlinks: after a failure the partial state is specified only for the flat folder. For the group folders it is not.
- Symlinks.LinkName: the source's "link present with a wrong target" branch cannot happen in the flat pass, because the first pass removed every link. The model keeps the link found, which the same pass made for the same name.
- Migrate.UpdateConfigToml: reading a directory, a link or a non-text file is an error (`ReadFailed`) rather than an exception. The function returns whether it wrote, where the source returns nothing.
- Migrate.ReplaceAll requires a non-empty pattern: all twelve patterns are non-empty. Python's behaviour for an empty pattern is not modelled.
- Migrate.RenameRepometasInStore: a real run is specified as renaming the records one by one in the visiting order (`RunRenames`), and its count as the number of records that step renamed (`RenamedBy`). The model does not prove that a real run renames exactly the records the dry run counts, or that every renamed record is still at its new name at the end; that would need a proof that no record lies inside another record's path.
- Migrate.RenameRepometasInStore: the records are all found before the first rename, whereas `rglob` is a lazy walk that may or may not see records created during the loop.
- Migrate.RenameRepometa: operating-system errors from `mkdir` and `rename` are not modelled, so a rename that passed its checks always succeeds.
- Migrate.RenamePath: renaming the filesystem root is reported as an error.
- The orchestration of `migrate()` (the order of its steps, the configuration and rclone file renames) and everything it prints are left out, apart from the data-directory choice.
- The CLI, rclone calls, syncing, conflict detection, locking and the include/exclude commands are not part of this model.

## Findings

| source | as written | input that shows it | evidently intended | confidence | as-written member | corrected member |
|---|---|---|---|---|---|---|
| pts/mod/_repos.pct.py:174 | the first pass records `symlink_path.resolve()` before making the link, and the clean-up removes every link whose resolved target is not recorded | a group member with no link yet: the recorded key is the link path, the new link resolves to the repo's folder, and the clean-up unlinks it in the same run unless another recorded link already pointed at that repo at the start; a link with a wrong target behaves the same. Conversely, a stale link left in a group the repo no longer belongs to survives when another group's recorded link pointed at the same repo | record the link path itself, so every link made or confirmed in the run survives its clean-up | high (not executed) | GroupLinks.FreshGroupLinkRemovedAsWritten | GroupLinks.CreateUserRepoGroupSymlinks |
| pts/mod/_utils/base.pct.py:44-47 | returns None for fewer than 2 relative parts, then reads part 2 | a path `<local store>/local/repos` (2 parts) raises `IndexError` | return None unless there are at least 3 parts | high (not executed) | SubPath.TwoComponentsFailAsWritten | SubPath.FullNameFromSubPath |
