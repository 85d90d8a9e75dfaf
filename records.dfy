/**
 * The per-repo metadata record (`RepoMeta`), its user-facing full name
 * `ulid + "__" + name`, and the record-file encoding: the file is named
 * after the full name and lives in a directory named after the storage
 * location, so the payload carries neither `ulid` nor `name`.
 */
module Records {
  import opened Wrappers

  /** `RepoMeta`: the ulid is an opaque string (ULID generation is not modelled). */
  datatype RepoMeta = RepoMeta(
    ulid: string,
    name: string,
    storageLocation: string,
    creatorHostname: string,
    groups: seq<string>)
  {
    /** `full_name`: the id, the separator, then the name. */
    function FullName(): string {
      ulid + Separator + name
    }
  }

  const Separator: string := "__"

  /** The two-map index `RepoyardMeta`. */
  datatype RepoyardMeta = RepoyardMeta(
    byFullName: map<string, RepoMeta>,
    byUlid: map<string, RepoMeta>)

  /** What `save` writes: the record's dump with `ulid` and `name` deleted. */
  datatype Payload = Payload(
    storageLocation: string,
    creatorHostname: string,
    groups: seq<string>)

  function ToPayload(m: RepoMeta): (p: Payload)
    ensures p.storageLocation == m.storageLocation
    ensures p.creatorHostname == m.creatorHostname && p.groups == m.groups
  {
    Payload(m.storageLocation, m.creatorHostname, m.groups)
  }

  /** A separator `"__"` starts at index `i` of `s`. */
  predicate SeparatorAt(s: string, i: nat) {
    i + 1 < |s| && s[i] == '_' && s[i + 1] == '_'
  }

  /** The first index at which `"__"` occurs in `s`, if any. */
  function FirstSeparator(s: string): (r: Option<nat>)
    ensures r.Some? ==> SeparatorAt(s, r.value)
    ensures r.Some? ==> forall j: nat :: j < r.value ==> !SeparatorAt(s, j)
    ensures r.None? ==> forall j: nat :: !SeparatorAt(s, j)
  {
    if |s| < 2 then None
    else if s[0] == '_' && s[1] == '_' then Some(0)
    else
      var rest := FirstSeparator(s[1..]);
      assert forall j: nat :: SeparatorAt(s[1..], j) <==> SeparatorAt(s, j + 1);
      assert forall j: nat :: j > 0 ==> (SeparatorAt(s, j) <==> SeparatorAt(s[1..], j - 1));
      match rest
      case None => None
      case Some(i) => Some(i + 1)
  }

  /**
   * `ulid, name = stem.split('__', 1)`: split at the first separator only;
   * a stem without one cannot be unpacked into two parts.
   */
  function SplitStem(stem: string): (r: Option<(string, string)>)
    ensures r.None? <==> forall j: nat :: !SeparatorAt(stem, j)
    ensures r.Some? ==> r.value.0 + Separator + r.value.1 == stem
    ensures r.Some? ==> forall j: nat :: j + 1 < |r.value.0| + 2 ==> (SeparatorAt(stem, j) <==> j == |r.value.0|)
  {
    match FirstSeparator(stem)
    case None => None
    case Some(i) =>
      assert stem[..i] + Separator + stem[i + 2..] == stem by {
        assert stem[i..i + 2] == Separator;
        assert stem == stem[..i] + stem[i..i + 2] + stem[i + 2..];
      }
      Some((stem[..i], stem[i + 2..]))
  }

  /** The loaded record is keyed consistently: splitting its full name gives back its id and name. */
  predicate WellKeyed(m: RepoMeta) {
    SplitStem(m.FullName()) == Some((m.ulid, m.name))
  }

  datatype LoadError = MalformedStem(stem: string)

  /**
   * Loading one record file: `ulid` and `name` come from the file's stem,
   * `storage_location` from the directory it was found in (overriding the
   * payload's own), the rest from the payload.
   */
  function FromRecordFile(stem: string, locationDir: string, payload: Payload): (r: Result<RepoMeta, LoadError>)
    ensures r.Err? <==> SplitStem(stem).None?
    ensures r.Ok? ==> r.value.FullName() == stem && WellKeyed(r.value)
    ensures r.Ok? ==> r.value.storageLocation == locationDir
    ensures r.Ok? ==> r.value.creatorHostname == payload.creatorHostname && r.value.groups == payload.groups
  {
    match SplitStem(stem)
    case None => Err(MalformedStem(stem))
    case Some((ulid, name)) => Ok(RepoMeta(ulid, name, locationDir, payload.creatorHostname, payload.groups))
  }

  /** Splitting the full name recovers `(ulid, name)` whenever the id has no underscore, as no ULID does. */
  lemma SplitFullName(m: RepoMeta)
    requires '_' !in m.ulid
    ensures SplitStem(m.FullName()) == Some((m.ulid, m.name))
    ensures WellKeyed(m)
  {
    var s := m.FullName();
    var k := |m.ulid|;
    assert SeparatorAt(s, k);
    forall j: nat | j < k ensures !SeparatorAt(s, j) {
      assert s[j] == m.ulid[j];
    }
    assert s[..k] == m.ulid;
    assert s[k + 2..] == m.name;
  }

  /** A record saved and loaded again from where `save` puts it is the same record. */
  lemma LoadSavedRecord(m: RepoMeta)
    requires '_' !in m.ulid
    ensures FromRecordFile(m.FullName(), m.storageLocation, ToPayload(m)) == Ok(m)
  {
    SplitFullName(m);
  }

  /**
   * Merely excluding `"__"` from the id would not be enough: an id ending in
   * an underscore moves the split point, so `(ulid, name)` does not round-trip.
   */
  lemma TrailingUnderscoreBreaksSplit()
    ensures var m := RepoMeta("a_", "_b", "local", "host", []);
      (forall j: nat :: !SeparatorAt(m.ulid, j)) && SplitStem(m.FullName()) == Some(("a", "__b"))
  {
    var s := "a____b";
    assert RepoMeta("a_", "_b", "local", "host", []).FullName() == s;
    assert SeparatorAt(s, 1);
    assert !SeparatorAt(s, 0);
    assert FirstSeparator(s) == Some(1);
    assert s[..1] == "a" && s[3..] == "__b";
  }
}
