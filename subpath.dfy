/**
 * `get_synced_repo_full_name_from_sub_path`: the full name of the synced
 * repo a path lies in, read off the path's components below the local
 * store. The local store path is a parameter: the configuration the
 * function receives has no such field.
 */
module SubPath {
  import opened Wrappers
  import opened Paths
  import opened Config

  /** Reading a component past the end of the relative path's parts. */
  datatype SubPathError = IndexError(index: nat, length: nat)

  /** `p.relative_to(d)` for a `p` below `d`: the components after `d`. */
  function RelativeTo(p: Path, d: Path): (rel: Path)
    requires IsPrefix(d, p)
    ensures d + rel == p
  {
    p[|d|..]
  }

  /**
   * The function as written: it returns None for fewer than two relative
   * components but then reads the third one, so a path exactly two
   * components below the store raises an index error.
   */
  function FullNameFromSubPathAsWritten(localStorePath: Path, subPath: Path, home: Path): (r: Result<Option<string>, SubPathError>)
    ensures var p := ExpandUser(subPath, home);
      r.Err? <==> IsPrefix(localStorePath, p) && |p| == |localStorePath| + 2
  {
    var p := ExpandUser(subPath, home);
    if !IsPrefix(localStorePath, p) then Ok(None)
    else
      var rel := RelativeTo(p, localStorePath);
      if |rel| < 2 then Ok(None)
      else if |rel| <= 2 then Err(IndexError(2, |rel|))
      else Ok(Some(rel[2]))
  }

  /**
   * The function with its guard matching the component it reads: None unless
   * the path lies at least three components below the store, and then the
   * third of them.
   */
  function FullNameFromSubPath(localStorePath: Path, subPath: Path, home: Path): (r: Option<string>)
    ensures var p := ExpandUser(subPath, home);
      r.Some? <==> exists rel :: p == localStorePath + rel && |rel| >= 3
    ensures r.Some? ==> exists rel :: ExpandUser(subPath, home) == localStorePath + rel && |rel| >= 3 && rel[2] == r.value
    ensures r.Some? ==> r.value in ExpandUser(subPath, home)
  {
    var p := ExpandUser(subPath, home);
    if !IsPrefix(localStorePath, p) then None
    else
      var rel := RelativeTo(p, localStorePath);
      if |rel| < 3 then None
      else
        assert p[|localStorePath| + 2] == rel[2];
        Some(rel[2])
  }

  /** Wherever the function as written returns, it returns what the corrected one does. */
  lemma AsWrittenAgrees(localStorePath: Path, subPath: Path, home: Path)
    ensures var r := FullNameFromSubPathAsWritten(localStorePath, subPath, home);
      r.Ok? ==> r.value == FullNameFromSubPath(localStorePath, subPath, home)
  {
  }

  /** A working directory at `<store>/<location>/<folder>` makes the function as written fail. */
  lemma TwoComponentsFailAsWritten()
    ensures var store := ["/", "home", "ada", "local_store"];
      && FullNameFromSubPathAsWritten(store, store + ["local", "repos"], ["/", "home", "ada"]) == Err(IndexError(2, 2))
      && FullNameFromSubPath(store, store + ["local", "repos"], ["/", "home", "ada"]) == None
  {
    var store := ["/", "home", "ada", "local_store"];
    assert RelativeTo(store + ["local", "repos"], store) == ["local", "repos"];
  }
}
