/** The manifest builder and the `.v52.zip` packager. */
module Packaging {
  import opened Basics
  import opened Json
  import opened Vault
  import CanonicalJson
  import Sorting

  /** One member of a zip archive, in the order it was written. */
  datatype Entry = Entry(name: string, content: Bytes)

  datatype CaseInfo = CaseInfo(
    caseId: string, chainId: int, txHash: string, subject: string, claim: string,
    status: string, verdict: Option<string>, warnings: seq<string>)

  const MANIFEST := "manifest.json"

  predicate IsExcluded(path: Path) {
    var name := Lower(Name(path));
    var suffix := Lower(Suffix(Name(path)));
    StartsWith(name, ".env") || suffix == ".log" || suffix == ".pem" || suffix == ".key" || suffix == ".tmp"
  }

  lemma {:induction false} NameAfterSlash(dir: Path, name: string)
    requires dir != [] && dir[|dir| - 1] == '/' && forall i :: 0 <= i < |name| ==> name[i] != '/'
    ensures Name(dir + name) == name
    decreases |name|
  {
    if name == [] {
      assert dir + name == dir;
    } else {
      var init := name[..|name| - 1];
      assert (dir + name)[..|dir + name| - 1] == dir + init;
      NameAfterSlash(dir, init);
      assert name == init + [name[|name| - 1]];
    }
  }

  lemma {:induction false} LastDotAt(stem: string, tail: string)
    requires forall i :: 0 <= i < |tail| ==> tail[i] != '.'
    ensures LastDot(stem + "." + tail) == |stem|
    decreases |tail|
  {
    var s := stem + "." + tail;
    if tail == [] {
      assert s[|s| - 1] == '.';
    } else {
      assert s[|s| - 1] == tail[|tail| - 1];
      assert s[..|s| - 1] == stem + "." + tail[..|tail| - 1];
      LastDotAt(stem, tail[..|tail| - 1]);
    }
  }

  lemma StartsLikeEnv(stem: string, tail: string)
    requires tail != [] && LowerChar(tail[0]) != 'e'
    ensures StartsWith(Lower(stem + "." + tail), ".env") <==> StartsWith(Lower(stem), ".env")
  {
    var low := Lower(stem + "." + tail);
    assert low == Lower(stem) + Lower("." + tail) by {
      assert stem + "." + tail == stem + ("." + tail);
      LowerConcat(stem, "." + tail);
    }
    if |stem| >= 4 {
      assert low[..4] == Lower(stem)[..4];
    } else {
      var env := ".env";
      assert low[|stem|] == '.' && low[|stem| + 1] == LowerChar(tail[0]);
      if StartsWith(low, env) {
        forall i | 0 <= i < 4 ensures low[i] == env[i] { assert low[..4][i] == low[i]; }
        assert false;
      }
    }
  }

  lemma ExcludedStem(dir: Path, stem: string, tail: string)
    requires dir != [] && dir[|dir| - 1] == '/'
    requires forall i :: 0 <= i < |stem| ==> stem[i] != '/'
    requires forall i :: 0 <= i < |tail| ==> tail[i] != '/' && tail[i] != '.'
    requires |tail| >= 4 && LowerChar(tail[0]) != 'e'
    ensures IsExcluded(dir + (stem + "." + tail)) <==> StartsWith(Lower(stem), ".env")
  {
    hide Name, LastDot, StartsWith;
    var name := stem + "." + tail;
    NameAfterSlash(dir, name);
    LastDotAt(stem, tail);
    StartsLikeEnv(stem, tail);
    assert Suffix(name) == [] || |Suffix(name)| == 1 + |tail|;
  }

  /** Stored evidence is left out of a package only when its id itself looks like an environment file. */
  lemma EvidenceExcludedIff(caseId: string, evidenceId: string)
    requires forall i :: 0 <= i < |evidenceId| ==> evidenceId[i] != '/'
    ensures IsExcluded(JsonPath(CaseDir(caseId) + evidenceId)) <==> StartsWith(Lower(evidenceId), ".env")
    ensures IsExcluded(SidecarPath(CaseDir(caseId) + evidenceId)) <==> StartsWith(Lower(evidenceId), ".env")
  {
    hide IsExcluded, StartsWith, Lower;
    var dir := CaseDir(caseId);
    ExcludedStem(dir, evidenceId, "json");
    ExcludedStem(dir, evidenceId, "sha256");
    assert dir + evidenceId + ".json" == dir + (evidenceId + "." + "json");
    assert dir + evidenceId + ".sha256" == dir + (evidenceId + "." + "sha256");
  }

  lemma StartsLikeEnvStem(stem: string, tail: string)
    requires stem != []
    requires forall i :: 0 <= i < |tail| ==> tail[i] != '.'
    ensures StartsWith(Lower(stem + "." + tail), ".env") <==> StartsWith(Lower(stem), ".env")
  {
    var low, env := Lower(stem + "." + tail), ".env";
    assert low == Lower(stem) + Lower("." + tail) by {
      assert stem + "." + tail == stem + ("." + tail);
      LowerConcat(stem, "." + tail);
    }
    if |stem| >= 4 {
      assert low[..4] == Lower(stem)[..4];
    } else {
      assert low[|stem|] == '.' && env[|stem|] != '.';
      assert |low| >= 4 ==> low[..4][|stem|] != env[|stem|];
    }
  }

  lemma NoSlash(stem: string, tail: string)
    requires forall i :: 0 <= i < |stem| ==> stem[i] != '/'
    requires forall i :: 0 <= i < |tail| ==> tail[i] != '/'
    ensures var name := stem + "." + tail; forall i :: 0 <= i < |name| ==> name[i] != '/'
  {
  }

  lemma SuffixOf(stem: string, tail: string)
    requires stem != [] && forall i :: 0 <= i < |tail| ==> tail[i] != '.'
    ensures Suffix(stem + "." + tail) == if tail == [] then "" else "." + tail
  {
    hide LastDot;
    var name := stem + "." + tail;
    LastDotAt(stem, tail);
    assert |name| == |stem| + 1 + |tail|;
    assert name[|stem|..] == "." + tail;
  }

  lemma NameAndSuffix(dir: Path, stem: string, tail: string)
    requires dir != [] && dir[|dir| - 1] == '/' && stem != []
    requires forall i :: 0 <= i < |stem| ==> stem[i] != '/'
    requires forall i :: 0 <= i < |tail| ==> tail[i] != '/' && tail[i] != '.'
    ensures Name(dir + (stem + "." + tail)) == stem + "." + tail
    ensures Suffix(stem + "." + tail) == if tail == [] then "" else "." + tail
  {
    hide Name, Suffix;
    NoSlash(stem, tail);
    NameAfterSlash(dir, stem + "." + tail);
    SuffixOf(stem, tail);
  }

  /**
   Left out of a package are names that start like an environment file, and logs, keys, certificates
   and temporary files.
   */
  lemma ExcludedExactly(dir: Path, stem: string, tail: string)
    requires dir != [] && dir[|dir| - 1] == '/' && stem != []
    requires forall i :: 0 <= i < |stem| ==> stem[i] != '/'
    requires forall i :: 0 <= i < |tail| ==> tail[i] != '/' && tail[i] != '.'
    ensures IsExcluded(dir + (stem + "." + tail)) <==>
      StartsWith(Lower(stem), ".env") || Lower(tail) in {"log", "pem", "key", "tmp"}
  {
    hide Name, Suffix, StartsWith;
    NameAndSuffix(dir, stem, tail);
    StartsLikeEnvStem(stem, tail);
    LowerSuffix(tail);
  }

  lemma LowerSuffix(tail: string)
    ensures Lower(if tail == [] then "" else "." + tail) in {".log", ".pem", ".key", ".tmp"} <==>
      Lower(tail) in {"log", "pem", "key", "tmp"}
  {
    if tail == [] {
      assert |Lower(tail)| == 0;
    } else {
      LowerConcat(".", tail);
      assert Lower(".") == ".";
      DotBefore(Lower(tail));
    }
  }

  lemma DotBefore(s: string)
    ensures "." + s in {".log", ".pem", ".key", ".tmp"} <==> s in {"log", "pem", "key", "tmp"}
  {
    assert ("." + s)[1..] == s;
    assert ".log"[1..] == "log" && ".pem"[1..] == "pem" && ".key"[1..] == "key" && ".tmp"[1..] == "tmp";
    assert ".log" == "." + "log" && ".pem" == "." + "pem" && ".key" == "." + "key" && ".tmp" == "." + "tmp";
  }

  /** A case listing shows a preserved payload, and not its sidecar. */
  lemma PreservedIsListed(caseId: string, evidenceId: string)
    requires evidenceId != [] && forall i :: 0 <= i < |evidenceId| ==> evidenceId[i] != '/'
    ensures var p, q := JsonPath(CaseDir(caseId) + evidenceId), SidecarPath(CaseDir(caseId) + evidenceId);
      InCaseDir(p, caseId) && Suffix(Name(p)) == ".json" && Suffix(Name(q)) != ".json"
  {
    hide Name, Suffix, CaseDir;
    var dir := CaseDir(caseId);
    assert dir != [] && dir[|dir| - 1] == '/' by { CaseDirShape(caseId); }
    NameAndSuffix(dir, evidenceId, "json");
    NameAndSuffix(dir, evidenceId, "sha256");
    assert dir + evidenceId + ".json" == dir + (evidenceId + "." + "json");
    assert dir + evidenceId + ".sha256" == dir + (evidenceId + "." + "sha256");
    assert |"." + "json"| == 5 && |"." + "sha256"| == 7 && "." + "json" == ".json";
  }

  lemma CaseDirShape(caseId: string)
    ensures CaseDir(caseId) != [] && CaseDir(caseId)[|CaseDir(caseId)| - 1] == '/'
  {
  }

  /** What `rglob` finds for a case, minus the excluded files. */
  predicate Packaged(disk: Disk, caseId: string, path: Path) {
    path in disk && StartsWith(path, CaseDir(caseId)) && !IsExcluded(path)
  }

  /** Paths compare part by part, which is text order with the separator below every character. */
  predicate PathLe(a: Path, b: Path) {
    a == [] || (b != [] && (Rank(a[0]) < Rank(b[0]) || (a[0] == b[0] && PathLe(a[1..], b[1..]))))
  }

  function Rank(c: char): nat {
    if c == '/' then 0 else 1 + c as nat
  }

  /** The `files` dictionary: each path with the digest of its content. */
  function Declared(h: Hash, disk: Disk, paths: seq<Path>): (ms: seq<Member>)
    requires forall p <- paths :: p in disk
    ensures |ms| == |paths|
    ensures forall i :: 0 <= i < |paths| ==> ms[i] == Member(paths[i], Text(h(disk[paths[i]])))
  {
    if paths == [] then []
    else Declared(h, disk, paths[..|paths| - 1]) + [Member(paths[|paths| - 1], Text(h(disk[paths[|paths| - 1]])))]
  }

  function Texts(ss: seq<string>): (xs: seq<Json>)
    ensures |xs| == |ss| && forall i :: 0 <= i < |xs| ==> xs[i] == Text(ss[i])
  {
    seq(|ss|, i requires 0 <= i < |ss| => Text(ss[i]))
  }

  function Scope(info: CaseInfo): Json {
    Obj([Member("chain_id", Int(info.chainId)), Member("transaction_hash", Text(info.txHash)),
         Member("subject", Text(info.subject)), Member("claim", Text(info.claim))])
  }

  function Header(info: CaseInfo, generatedAt: string): seq<Member> {
    [Member("schema_version", Text("0.1.0")), Member("adapter_version", Text("0.1.0")),
     Member("generated_at", Text(generatedAt)), Member("case_id", Text(info.caseId)),
     Member("scope", Scope(info)), Member("status", Text(info.status)),
     Member("verdict", if info.verdict.Some? then Text(info.verdict.value) else Null),
     Member("warnings", Arr(Texts(info.warnings)))]
  }

  function Manifest(info: CaseInfo, generatedAt: string, files: seq<Member>): Json {
    Obj(Header(info, generatedAt) + [Member("files", Obj(files))])
  }

  /** The disk as the packager's successive accesses find it; other writers may act in between. */
  type History = nat -> Disk

  ghost predicate AppendOnly(disks: History) {
    forall t: nat :: Extends(disks(t), disks(t + 1))
  }

  lemma {:induction false} LaterExtends(disks: History, t: nat, u: nat)
    requires AppendOnly(disks) && t <= u
    ensures Extends(disks(t), disks(u))
    decreases u - t
  {
    if t < u {
      LaterExtends(disks, t, u - 1);
      assert Extends(disks(u - 1), disks((u - 1) + 1));
    }
  }

  method BuildManifest(h: Hash, info: CaseInfo, generatedAt: string, paths: seq<Path>, disks: History, start: nat)
    returns (manifest: Json, now: nat, ghost order: seq<Path>)
    requires AppendOnly(disks) && Sorting.Distinct(paths)
    requires forall p <- paths :: p in disks(start)
    ensures now >= start
    ensures multiset(order) == multiset(paths) && Sorting.Distinct(order)
    ensures forall p <- order :: p in disks(start)
    ensures manifest == Manifest(info, generatedAt, Declared(h, disks(start), order))
  {
    var sorted := Sorting.Sort(paths, PathLe);
    order := sorted;
    Sorting.SortElements(paths, PathLe);
    Sorting.PermutationDistinct(paths, order);
    var files: seq<Member> := [];
    now := start;
    for i := 0 to |sorted|
      invariant now >= start
      invariant files == Declared(h, disks(start), sorted[..i])
    {
      var path := sorted[i];
      LaterExtends(disks, start, now);
      assert path in paths;
      if path in disks(now) {
        now := now + 1;
        LaterExtends(disks, start, now);
        CanonicalJson.PutNew(files, path, Text(h(disks(now)[path])));
        assert order[..i + 1][..i] == order[..i];
        files := Put(files, path, Text(h(disks(now)[path])));
      }
      now := now + 1;
    }
    assert order[..|order|] == order;
    manifest := Manifest(info, generatedAt, files);
  }

  /** Archive copies of the given files. */
  function Copies(disk: Disk, paths: seq<Path>): (es: seq<Entry>)
    requires forall p <- paths :: p in disk
    ensures |es| == |paths|
    ensures forall i :: 0 <= i < |paths| ==> es[i] == Entry(paths[i], disk[paths[i]])
  {
    if paths == [] then []
    else Copies(disk, paths[..|paths| - 1]) + [Entry(paths[|paths| - 1], disk[paths[|paths| - 1]])]
  }

  /** `extra_data`: a dictionary from archive path to a serialisable object. */
  function Extras(extra: seq<Member>): (es: seq<Entry>)
    ensures |es| == |extra|
    ensures forall i :: 0 <= i < |extra| ==> es[i] == Entry(extra[i].key, Canonicalize(extra[i].value))
  {
    seq(|extra|, i requires 0 <= i < |extra| => Entry(extra[i].key, Canonicalize(extra[i].value)))
  }

  /** The package as if everything had been read from one disk state. */
  function Package(h: Hash, info: CaseInfo, generatedAt: string, disk: Disk, paths: seq<Path>, extra: seq<Member>)
    : seq<Entry>
    requires forall p <- paths :: p in disk
  {
    [Entry(MANIFEST, Canonicalize(Manifest(info, generatedAt, Declared(h, disk, paths))))]
    + Copies(disk, paths) + Extras(extra)
  }

  lemma SameNormalFiles(h: Hash, disk: Disk, a: seq<Path>, b: seq<Path>)
    requires Sorting.Distinct(a) && multiset(a) == multiset(b)
    requires (forall p <- a :: p in disk) && (forall p <- b :: p in disk)
    ensures Normalize(Obj(Declared(h, disk, a))) == Normalize(Obj(Declared(h, disk, b)))
  {
    hide Declared, NormalizeMembers, Sorting.Sort, Sorting.SortedBy;
    var fa, fb := Declared(h, disk, a), Declared(h, disk, b);
    Sorting.PermutationDistinct(a, b);
    SameFiles(h, disk, a, b);
    SameFiles(h, disk, b, a);
    CanonicalJson.NormalMembers(fa);
    CanonicalJson.NormalMembers(fb);
    CanonicalJson.SortedMembersUnique(Normalize(Obj(fa)).members, Normalize(Obj(fb)).members);
  }

  lemma NormalizeLast(head: seq<Member>, key: string, u: Json, v: Json)
    requires Normalize(u) == Normalize(v)
    ensures Normalize(Obj(head + [Member(key, u)])) == Normalize(Obj(head + [Member(key, v)]))
  {
    assert NormalizeMembers(head + [Member(key, u)]) == NormalizeMembers(head + [Member(key, v)]);
  }

  /** The manifest bytes do not depend on the order in which the files were visited. */
  lemma VisitOrderIrrelevant(h: Hash, info: CaseInfo, generatedAt: string, disk: Disk, a: seq<Path>, b: seq<Path>)
    requires Sorting.Distinct(a) && multiset(a) == multiset(b)
    requires (forall p <- a :: p in disk) && (forall p <- b :: p in disk)
    ensures Canonicalize(Manifest(info, generatedAt, Declared(h, disk, a)))
         == Canonicalize(Manifest(info, generatedAt, Declared(h, disk, b)))
  {
    hide Normalize, Header, Declared;
    SameNormalFiles(h, disk, a, b);
    NormalizeLast(Header(info, generatedAt), "files", Obj(Declared(h, disk, a)), Obj(Declared(h, disk, b)));
  }

  lemma SameFiles(h: Hash, disk: Disk, a: seq<Path>, b: seq<Path>)
    requires Sorting.Distinct(a) && (forall p <- a :: p in b)
    requires (forall p <- a :: p in disk) && (forall p <- b :: p in disk)
    ensures DistinctKeys(Declared(h, disk, a))
    ensures forall m <- NormalizeMembers(Declared(h, disk, a)) :: m in NormalizeMembers(Declared(h, disk, b))
  {
    var na, nb := NormalizeMembers(Declared(h, disk, a)), NormalizeMembers(Declared(h, disk, b));
    forall i | 0 <= i < |na| ensures na[i] in nb {
      assert a[i] in b;
      var j :| 0 <= j < |b| && b[j] == a[i];
      assert nb[j] == na[i];
    }
  }

  /** The `rglob` loop: the case's files that may be packaged. */
  method CollectFiles(disk: Disk, caseId: string) returns (paths: seq<Path>)
    ensures Sorting.Distinct(paths)
    ensures forall p :: p in paths <==> Packaged(disk, caseId, p)
    ensures forall p :: p in paths <==> p in disk && "raw/" + caseId + "/" <= p && !IsExcluded(p)
    ensures forall p <- paths :: p in disk
  {
    paths := [];
    var rest := disk.Keys;
    while rest != {}
      invariant rest <= disk.Keys
      invariant Sorting.Distinct(paths)
      invariant forall p :: p in paths <==> Packaged(disk, caseId, p) && p !in rest
    {
      var f :| f in rest;
      rest := rest - {f};
      if StartsWith(f, CaseDir(caseId)) && !IsExcluded(f) {
        paths := paths + [f];
      }
    }
  }

  /** The `zf.write` loop: every file is read again, from whatever the disk holds by then. */
  method CopyFiles(paths: seq<Path>, disks: History, start: nat, from: nat) returns (entries: seq<Entry>)
    requires AppendOnly(disks) && start <= from
    requires forall p <- paths :: p in disks(start)
    ensures entries == Copies(disks(start), paths)
  {
    entries := [];
    var now := from;
    for i := 0 to |paths|
      invariant now >= start
      invariant entries == Copies(disks(start), paths[..i])
    {
      LaterExtends(disks, start, now);
      assert paths[i] in paths;
      assert paths[..i + 1][..i] == paths[..i];
      entries := entries + [Entry(paths[i], disks(now)[paths[i]])];
      now := now + 1;
    }
    assert paths[..|paths|] == paths;
  }

  method AddExtras(extra: seq<Member>) returns (entries: seq<Entry>)
    ensures entries == Extras(extra)
  {
    entries := [];
    for i := 0 to |extra|
      invariant entries == Extras(extra[..i])
    {
      entries := entries + [Entry(extra[i].key, Canonicalize(extra[i].value))];
    }
    assert extra[..|extra|] == extra;
  }

  /**
   The manifest hashes each file at one moment and the archive copies it at a later one, while
   other writers append to the vault.  The package is still that of the moment of listing.
   */
  method BuildV52Zip(h: Hash, info: CaseInfo, generatedAt: string, disks: History, start: nat, extra: seq<Member>)
    returns (archive: seq<Entry>, packaged: seq<Path>)
    requires AppendOnly(disks)
    ensures Sorting.Distinct(packaged)
    ensures forall p :: p in packaged <==> Packaged(disks(start), info.caseId, p)
    ensures forall p :: p in packaged <==> p in disks(start) && "raw/" + info.caseId + "/" <= p && !IsExcluded(p)
    ensures forall p <- packaged :: p in disks(start)
    ensures archive == Package(h, info, generatedAt, disks(start), packaged, extra)
  {
    packaged := CollectFiles(disks(start), info.caseId);
    var manifest, now, order := BuildManifest(h, info, generatedAt, packaged, disks, start);
    VisitOrderIrrelevant(h, info, generatedAt, disks(start), order, packaged);
    archive := [Entry(MANIFEST, Canonicalize(manifest))];
    var copies := CopyFiles(packaged, disks, start, now);
    var extras := AddExtras(extra);
    archive := archive + copies + extras;
  }
}
