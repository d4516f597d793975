/** The append-only evidence vault: `preserve_raw`, `verify_raw` and the runs they take part in. */
module Vault {
  import opened Basics
  import opened Json
  import CanonicalJson
  import Sorting
  import Utf8

  type Path = string

  /** The data directory: what each existing file holds. */
  type Disk = map<Path, Bytes>

  /** `sha256_of`, left abstract.  Nothing below assumes that it has no collisions. */
  type Hash = Bytes -> string

  ghost predicate IsHash(h: Hash) {
    forall b {:trigger h(b)} :: |h(b)| == 64 && Lower(h(b)) == h(b)
  }

  ghost predicate Collision(h: Hash, a: Bytes, b: Bytes) {
    a != b && h(a) == h(b)
  }

  function CaseDir(caseId: string): Path {
    "raw/" + caseId + "/"
  }

  function JsonPath(base: Path): Path {
    base + ".json"
  }

  function SidecarPath(base: Path): Path {
    base + ".sha256"
  }

  lemma PathsApart(a: Path, b: Path)
    ensures JsonPath(a) != SidecarPath(b)
    ensures JsonPath(a) == JsonPath(b) ==> a == b
    ensures SidecarPath(a) == SidecarPath(b) ==> a == b
  {
    var p, q := JsonPath(a), SidecarPath(b);
    assert p[|p| - 1] == 'n' && q[|q| - 1] == '6';
    assert JsonPath(a)[..|JsonPath(a)| - 5] == a && JsonPath(b)[..|JsonPath(b)| - 5] == b;
    assert SidecarPath(a)[..|SidecarPath(a)| - 7] == a && SidecarPath(b)[..|SidecarPath(b)| - 7] == b;
  }

  /** Every file of `before` is still there, byte for byte. */
  ghost predicate Extends(before: Disk, after: Disk) {
    forall p :: p in before ==> p in after && after[p] == before[p]
  }

  predicate Verifies(h: Hash, disk: Disk, path: Path, digest: string) {
    path in disk && h(disk[path]) == Lower(digest)
  }

  /** Every sidecar holds the hash of the JSON file beside it. */
  ghost predicate SidecarsMatch(h: Hash, disk: Disk) {
    forall base :: SidecarPath(base) in disk ==>
      JsonPath(base) in disk && disk[SidecarPath(base)] == Utf8.Encode(h(disk[JsonPath(base)]))
  }

  datatype VaultError = AlreadyExists | NotFound

  /** The name part of a path, and pathlib's `suffix` of a name. */
  function Name(path: Path): (name: string)
    ensures |name| <= |path| && path[|path| - |name|..] == name
    ensures forall i :: 0 <= i < |name| ==> name[i] != '/'
    decreases |path|
  {
    if path == [] || path[|path| - 1] == '/' then []
    else Name(path[..|path| - 1]) + [path[|path| - 1]]
  }

  function LastDot(name: string): (i: int)
    ensures -1 <= i < |name|
  {
    if name == [] then -1
    else if name[|name| - 1] == '.' then |name| - 1
    else LastDot(name[..|name| - 1])
  }

  function Suffix(name: string): string {
    if 0 < LastDot(name) < |name| - 1 then name[LastDot(name)..] else ""
  }

  class EvidenceVault {
    const sha256: Hash
    var disk: Disk

    constructor (sha256: Hash)
      ensures this.sha256 == sha256 && disk == map[]
    {
      this.sha256 := sha256;
      disk := map[];
    }

    method PreserveRaw(caseId: string, evidenceId: string, payload: Json)
      returns (r: Result<(Path, string), VaultError>)
      modifies this
      ensures var base := CaseDir(caseId) + evidenceId;
        var content := Canonicalize(payload);
        if JsonPath(base) in old(disk) then
          r == Err(AlreadyExists) && disk == old(disk)
        else
          && r == Ok((JsonPath(base), sha256(content)))
          && disk == old(disk)[JsonPath(base) := content][SidecarPath(base) := Utf8.Encode(sha256(content))]
    {
      var base := CaseDir(caseId) + evidenceId;
      var jsonPath, shaPath := JsonPath(base), SidecarPath(base);
      if jsonPath in disk {
        return Err(AlreadyExists);
      }
      var content := Canonicalize(payload);
      var digest := sha256(content);
      disk := disk[jsonPath := content];
      disk := disk[shaPath := Utf8.Encode(digest)];
      return Ok((jsonPath, digest));
    }

    method VerifyRaw(rawPath: Path, expected: string) returns (ok: bool)
      ensures ok <==> Verifies(sha256, disk, rawPath, expected)
      ensures ok <==> rawPath in disk && sha256(disk[rawPath]) == Lower(expected)
    {
      if rawPath !in disk {
        return false;
      }
      var actual := sha256(disk[rawPath]);
      ok := actual == Lower(expected);
    }

    method ReadRaw(rawPath: Path) returns (r: Result<Bytes, VaultError>)
      ensures r == if rawPath in disk then Ok(disk[rawPath]) else Err(NotFound)
    {
      if rawPath !in disk {
        return Err(NotFound);
      }
      r := Ok(disk[rawPath]);
    }

    /** The JSON files directly inside the case directory, in text order. */
    method ListCaseFiles(caseId: string) returns (paths: seq<Path>)
      ensures Sorting.SortedBy(paths, TextLe)
      ensures forall p :: p in paths <==> p in disk && InCaseDir(p, caseId) && Suffix(Name(p)) == ".json"
      ensures Sorting.Distinct(paths)
    {
      var found: seq<Path> := [];
      var rest := disk.Keys;
      while rest != {}
        invariant rest <= disk.Keys
        invariant forall p :: p in found <==>
          p in disk && p !in rest && InCaseDir(p, caseId) && Suffix(Name(p)) == ".json"
        invariant Sorting.Distinct(found)
      {
        var p :| p in rest;
        rest := rest - {p};
        if InCaseDir(p, caseId) && Suffix(Name(p)) == ".json" {
          found := found + [p];
        }
      }
      paths := Sorting.Sort(found, TextLe);
      SortedPaths(found);
    }
  }

  predicate InCaseDir(p: Path, caseId: string) {
    StartsWith(p, CaseDir(caseId)) && |Name(p)| + |CaseDir(caseId)| == |p|
  }

  lemma SortedPaths(found: seq<Path>)
    requires Sorting.Distinct(found)
    ensures var paths := Sorting.Sort(found, TextLe);
      && Sorting.SortedBy(paths, TextLe)
      && Sorting.Distinct(paths)
      && (forall p :: p in paths <==> p in found)
  {
    TextOrderTotal();
    Sorting.SortIsStable(found, TextLe);
    Sorting.PermutationDistinct(found, Sorting.Sort(found, TextLe));
  }

  lemma TextOrderTotal()
    ensures Sorting.TotalPreorder(TextLe)
  {
    forall a, b ensures TextLe(a, b) || TextLe(b, a) { CanonicalJson.TextLeTotal(a, b); }
    forall a, b, c | TextLe(a, b) && TextLe(b, c) ensures TextLe(a, c) { CanonicalJson.TextLeTransitive(a, b, c); }
  }
}
