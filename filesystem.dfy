/**
 * An abstract filesystem: a map from path to entry, where an entry is a
 * directory, a file or a symbolic link. The root (the empty path) is an
 * implicit directory. Links are never followed here: `exists`, `is_dir`
 * and path traversal look at the entry stored at the path itself.
 */
module FileSystem {
  import opened Paths
  import opened Records
  import opened Wrappers

  /** What a file holds; the TOML and JSON byte formats are not modelled. */
  datatype Content =
    | Text(text: string)
    | RecordToml(payload: Payload)
    | MetaJson(meta: RepoyardMeta)

  datatype Entry = Dir | File(content: Content) | Link(target: Path)

  type Entries = map<Path, Entry>

  datatype FsError =
    | FileExists(path: Path)
    | NoSuchDirectory(path: Path)
    | IsADirectory(path: Path)
    | NotADirectory(path: Path)
    | LinkNotFollowed(path: Path)
    | InvalidRename(src: Path, dst: Path)

  /** `p.exists()` */
  predicate Present(e: Entries, p: Path) {
    p == [] || p in e
  }

  /** `p.is_dir()` */
  predicate IsDirIn(e: Entries, p: Path) {
    p == [] || (p in e && e[p].Dir?)
  }

  /** `p.is_symlink()` */
  predicate IsLinkIn(e: Entries, p: Path) {
    p in e && e[p].Link?
  }

  /** What `d.iterdir()` lists. */
  function Children(e: Entries, d: Path): (r: set<Path>)
    ensures forall p :: p in r <==> p in e && IsChild(p, d)
  {
    set p | p in e && IsChild(p, d)
  }

  /** A tree: every entry hangs from a directory. */
  ghost predicate WellFormed(e: Entries) {
    [] !in e && forall p {:trigger Parent(p)} :: p in e ==> IsDirIn(e, Parent(p))
  }

  /** Every ancestor of an entry is a directory. */
  lemma {:induction false} AncestorIsDir(e: Entries, p: Path, k: nat)
    requires WellFormed(e) && p in e && k < |p|
    ensures IsDirIn(e, p[..k])
    decreases |p|
  {
    var q := Parent(p);
    assert q == p[..|p| - 1];
    if k < |p| - 1 {
      AncestorIsDir(e, q, k);
      assert q[..k] == p[..k];
    }
  }

  /** Whatever lies below `d` proves that `d` is a directory. */
  lemma UnderIsDir(e: Entries, d: Path, p: Path)
    requires WellFormed(e) && p in e && IsStrictlyUnder(p, d)
    ensures IsDirIn(e, d)
  {
    AncestorIsDir(e, p, |d|);
  }

  /** `mkdir(parents=True, exist_ok=True)` fails exactly when some prefix of `p` exists but is not a directory. */
  predicate CanMakeDirs(e: Entries, p: Path) {
    forall k :: 0 < k <= |p| ==> !(p[..k] in e && !e[p[..k]].Dir?)
  }

  /** The entries after `mkdir(parents=True, exist_ok=True)`: every missing prefix becomes a directory. */
  function WithDirs(e: Entries, p: Path): Entries
    decreases |p|
  {
    if p == [] then e
    else
      var e' := WithDirs(e, Parent(p));
      if p in e' then e' else e'[p := Dir]
  }

  /** Overwriting or adding one entry whose parent is a directory keeps the tree well formed, unless a directory with contents is replaced. */
  lemma UpdateWellFormed(e: Entries, p: Path, x: Entry)
    requires WellFormed(e) && p != [] && IsDirIn(e, Parent(p))
    requires p in e && e[p].Dir? && !x.Dir? ==> Children(e, p) == {}
    ensures WellFormed(e[p := x])
  {
    var r := e[p := x];
    forall q | q in r ensures IsDirIn(r, Parent(q)) {
      if q != p {
        assert IsDirIn(e, Parent(q));
        if Parent(q) == p {
          assert q in Children(e, p);
        }
      }
    }
  }

  /** Removing an entry with nothing inside it keeps the tree well formed. */
  lemma RemoveWellFormed(e: Entries, p: Path)
    requires WellFormed(e) && Children(e, p) == {}
    ensures WellFormed(e - {p})
  {
    var r := e - {p};
    forall q | q in r ensures IsDirIn(r, Parent(q)) {
      assert q !in Children(e, p);
      assert IsDirIn(e, Parent(q));
    }
  }

  /** Only a directory has something inside it. */
  lemma ChildrenOnlyInDirs(e: Entries, p: Path)
    requires WellFormed(e)
    ensures Children(e, p) != {} ==> IsDirIn(e, p)
  {
    forall q | q in e && IsChild(q, p) ensures IsDirIn(e, p) {
      assert Parent(q) == p;
    }
  }

  /** Whatever lies below `d`, at any depth, proves that `d` is a directory. */
  lemma AllUnderIsDir(e: Entries, d: Path)
    requires WellFormed(e)
    ensures forall q :: q in e && IsStrictlyUnder(q, d) ==> IsDirIn(e, d)
  {
    forall q | q in e && IsStrictlyUnder(q, d) ensures IsDirIn(e, d) {
      UnderIsDir(e, d, q);
    }
  }

  lemma PrefixOfParent(x: Path, p: Path)
    ensures p != [] && IsPrefix(x, Parent(p)) ==> IsPrefix(x, p)
  {
    if p != [] && IsPrefix(x, Parent(p)) {
      assert p[..|x|] == Parent(p)[..|x|];
    }
  }

  lemma {:induction false} WithDirsEffect(e: Entries, p: Path)
    requires WellFormed(e) && CanMakeDirs(e, p)
    ensures WellFormed(WithDirs(e, p))
    ensures IsDirIn(WithDirs(e, p), p)
    ensures forall q :: q in e ==> q in WithDirs(e, p) && WithDirs(e, p)[q] == e[q]
    ensures forall q :: q in WithDirs(e, p) && q !in e ==> WithDirs(e, p)[q] == Dir && IsPrefix(q, p)
    decreases |p|
  {
    if p != [] {
      var q := Parent(p);
      assert CanMakeDirs(e, q) by {
        forall k | 0 < k <= |q| ensures !(q[..k] in e && !e[q[..k]].Dir?) {
          assert q[..k] == p[..k];
        }
      }
      WithDirsEffect(e, q);
      var e' := WithDirs(e, q);
      assert p[..|p|] == p;
      forall x | x in e' && x !in e ensures IsPrefix(x, p) {
        PrefixOfParent(x, p);
      }
      if p !in e' {
        UpdateWellFormed(e', p, Dir);
      }
    }
  }

  /** `mkdir(parents=True, exist_ok=True)` on an existing directory succeeds and changes nothing. */
  lemma {:induction false} WithDirsOfDir(e: Entries, d: Path)
    requires WellFormed(e) && IsDirIn(e, d)
    ensures CanMakeDirs(e, d) && WithDirs(e, d) == e
    decreases |d|
  {
    if d != [] {
      forall k | 0 < k < |d| ensures IsDirIn(e, d[..k]) {
        AncestorIsDir(e, d, k);
      }
      assert d[..|d|] == d;
      WithDirsOfDir(e, Parent(d));
    }
  }

  /** Where `src.rename(dst)` puts the entry at `q`. */
  function Relocate(q: Path, src: Path, dst: Path): Path {
    if IsPrefix(src, q) then dst + q[|src|..] else q
  }

  /** The entries after moving the subtree at `src` to the free path `dst`. */
  function Moved(e: Entries, src: Path, dst: Path): (r: Entries)
    requires forall q :: q in e ==> !IsPrefix(dst, q)
    ensures forall q :: q in e ==> Relocate(q, src, dst) in r && r[Relocate(q, src, dst)] == e[q]
    ensures forall k :: k in r ==> exists q :: q in e && Relocate(q, src, dst) == k
  {
    forall q1, q2 | q1 in e && q2 in e && IsPrefix(src, q1) && IsPrefix(src, q2) && Relocate(q1, src, dst) == Relocate(q2, src, dst)
      ensures q1 == q2
    {
      assert q1 == src + q1[|src|..] && q2 == src + q2[|src|..];
      assert q1[|src|..] == (dst + q1[|src|..])[|dst|..];
    }
    forall q | q in e && IsPrefix(src, q) ensures IsPrefix(dst, Relocate(q, src, dst)) {
      assert (dst + q[|src|..])[..|dst|] == dst;
    }
    map q | q in e :: Relocate(q, src, dst) := e[q]
  }

  /** The entries `r` hold every entry of `e` at its relocated path. */
  ghost predicate HoldsRelocated(e: Entries, r: Entries, src: Path, dst: Path) {
    forall x :: x in e ==> Relocate(x, src, dst) in r && r[Relocate(x, src, dst)] == e[x]
  }

  lemma MovedRootParent(e: Entries, r: Entries, src: Path, dst: Path)
    requires HoldsRelocated(e, r, src, dst) && !IsPrefix(src, dst) && IsDirIn(e, Parent(dst))
    ensures IsDirIn(r, Parent(dst))
  {
    PrefixOfParent(src, dst);
    if Parent(dst) != [] {
      assert Relocate(Parent(dst), src, dst) == Parent(dst);
    }
  }

  lemma MovedInnerParent(e: Entries, r: Entries, src: Path, dst: Path, q: Path)
    requires WellFormed(e) && HoldsRelocated(e, r, src, dst)
    requires src in e && q in e && IsStrictlyUnder(q, src)
    ensures IsDirIn(r, Parent(Relocate(q, src, dst)))
  {
    var pq := Parent(q);
    var t := q[|src|..];
    assert pq[..|src|] == src;
    assert IsPrefix(src, pq);
    assert pq in e && e[pq].Dir?;
    assert pq[|src|..] == t[..|t| - 1];
    assert Relocate(pq, src, dst) == dst + t[..|t| - 1];
    assert Relocate(q, src, dst) == dst + t;
    assert Parent(dst + t) == dst + t[..|t| - 1];
  }

  lemma MovedOuterParent(e: Entries, r: Entries, src: Path, dst: Path, q: Path)
    requires WellFormed(e) && HoldsRelocated(e, r, src, dst)
    requires q in e && !IsPrefix(src, q)
    ensures IsDirIn(r, Parent(Relocate(q, src, dst)))
  {
    PrefixOfParent(src, q);
    assert Parent(q) == [] || Relocate(Parent(q), src, dst) == Parent(q);
  }

  /** Every entry of `r` is the relocation of some entry of `e`. */
  ghost predicate OnlyRelocated(e: Entries, r: Entries, src: Path, dst: Path) {
    forall k :: k in r ==> exists q :: q in e && Relocate(q, src, dst) == k
  }

  lemma RelocatedWellFormed(e: Entries, r: Entries, src: Path, dst: Path)
    requires WellFormed(e) && src in e && dst != []
    requires !IsPrefix(src, dst) && IsDirIn(e, Parent(dst))
    requires HoldsRelocated(e, r, src, dst) && OnlyRelocated(e, r, src, dst)
    ensures WellFormed(r)
  {
    forall k | k in r ensures IsDirIn(r, Parent(k)) {
      var q :| q in e && Relocate(q, src, dst) == k;
      if q == src {
        assert src[|src|..] == [] && k == dst;
        MovedRootParent(e, r, src, dst);
      } else if IsPrefix(src, q) {
        MovedInnerParent(e, r, src, dst, q);
      } else {
        MovedOuterParent(e, r, src, dst, q);
      }
    }
    forall q | q in e ensures Relocate(q, src, dst) != [] {
    }
  }

  /** Moving a subtree to a free path whose parent is a directory keeps the tree well formed. */
  lemma MovedWellFormed(e: Entries, src: Path, dst: Path)
    requires WellFormed(e) && src in e && !Present(e, dst)
    requires !IsPrefix(src, dst) && IsDirIn(e, Parent(dst))
    ensures forall q :: q in e ==> !IsPrefix(dst, q)
    ensures WellFormed(Moved(e, src, dst))
  {
    AllUnderIsDir(e, dst);
    forall q | q in e ensures !IsPrefix(dst, q) {
      assert q != dst;
      assert IsPrefix(dst, q) ==> IsStrictlyUnder(q, dst);
    }
    RelocatedWellFormed(e, Moved(e, src, dst), src, dst);
  }

  /** The machine's filesystem, updated in place by the operations below. */
  class FileSystem {
    var entries: Entries

    ghost predicate Valid()
      reads this
    {
      WellFormed(entries)
    }

    constructor (e: Entries)
      requires WellFormed(e)
      ensures Valid() && entries == e
    {
      entries := e;
    }

    /** `path.unlink()` on a symbolic link. */
    method Unlink(p: Path)
      requires Valid() && IsLinkIn(entries, p)
      modifies this
      ensures Valid() && entries == old(entries) - {p}
    {
      ChildrenOnlyInDirs(entries, p);
      RemoveWellFormed(entries, p);
      entries := entries - {p};
    }

    /** `path.symlink_to(target)`: refuses an occupied path or a missing parent directory. */
    method SymlinkTo(p: Path, target: Path) returns (r: Outcome<FsError>)
      requires Valid()
      modifies this
      ensures Valid()
      ensures r.Pass? <==> !Present(old(entries), p) && IsDirIn(old(entries), Parent(p))
      ensures entries == if r.Pass? then old(entries)[p := Link(target)] else old(entries)
    {
      if Present(entries, p) {
        r := Fail(FileExists(p));
      } else if !IsDirIn(entries, Parent(p)) {
        r := Fail(NoSuchDirectory(Parent(p)));
      } else {
        UpdateWellFormed(entries, p, Link(target));
        entries := entries[p := Link(target)];
        r := Pass;
      }
    }

    /** `path.rmdir()` on an empty directory. */
    method Rmdir(p: Path)
      requires Valid() && p in entries && entries[p].Dir? && Children(entries, p) == {}
      modifies this
      ensures Valid() && entries == old(entries) - {p}
    {
      RemoveWellFormed(entries, p);
      entries := entries - {p};
    }

    /** `path.write_text(...)`: creates or overwrites a regular file. */
    method WriteFile(p: Path, c: Content) returns (r: Outcome<FsError>)
      requires Valid()
      modifies this
      ensures Valid()
      ensures r.Pass? <==> (p !in old(entries) || old(entries)[p].File?) && p != [] && IsDirIn(old(entries), Parent(p))
      ensures entries == if r.Pass? then old(entries)[p := File(c)] else old(entries)
    {
      if p == [] || (p in entries && entries[p].Dir?) {
        r := Fail(IsADirectory(p));
      } else if p in entries && entries[p].Link? {
        r := Fail(LinkNotFollowed(p));
      } else if !IsDirIn(entries, Parent(p)) {
        r := Fail(NoSuchDirectory(Parent(p)));
      } else {
        UpdateWellFormed(entries, p, File(c));
        entries := entries[p := File(c)];
        r := Pass;
      }
    }

    /** `path.mkdir(parents=True, exist_ok=True)`; on failure nothing is created. */
    method MakeDirs(p: Path) returns (r: Outcome<FsError>)
      requires Valid()
      modifies this
      ensures Valid()
      ensures r.Pass? <==> CanMakeDirs(old(entries), p)
      ensures entries == if r.Pass? then WithDirs(old(entries), p) else old(entries)
      ensures r.Pass? ==> IsDirIn(entries, p)
      ensures r.Pass? ==> forall q :: q in old(entries) ==> q in entries && entries[q] == old(entries)[q]
      ensures r.Pass? ==> forall q :: q in entries && q !in old(entries) ==> entries[q] == Dir && IsPrefix(q, p)
    {
      if CanMakeDirs(entries, p) {
        WithDirsEffect(entries, p);
        entries := WithDirs(entries, p);
        r := Pass;
      } else {
        r := Fail(FileExists(p));
      }
    }

    /** `src.rename(dst)` for an existing `src` and a free `dst`: the whole subtree moves. */
    method Rename(src: Path, dst: Path) returns (r: Outcome<FsError>)
      requires Valid() && src in entries && !Present(entries, dst)
      modifies this
      ensures Valid()
      ensures r.Pass? <==> !IsPrefix(src, dst) && IsDirIn(old(entries), Parent(dst))
      ensures r.Pass? ==> (forall q :: q in old(entries) ==> !IsPrefix(dst, q)) && entries == Moved(old(entries), src, dst)
      ensures r.Fail? ==> entries == old(entries)
    {
      if IsPrefix(src, dst) {
        r := Fail(InvalidRename(src, dst));
      } else if !IsDirIn(entries, Parent(dst)) {
        r := Fail(NoSuchDirectory(Parent(dst)));
      } else {
        MovedWellFormed(entries, src, dst);
        entries := Moved(entries, src, dst);
        r := Pass;
      }
    }
  }
}
