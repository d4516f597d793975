/** The evidence chain end to end: vault, packager, verifier and manifest root agree. */
module Integrity {
  import opened Basics
  import opened Json
  import opened Vault
  import opened Packaging
  import opened Verifier
  import CanonicalJson
  import Sorting
  import VaultRuns

  // ---- reading archives ----

  lemma {:induction false} ReadAppended(a: seq<Entry>, b: seq<Entry>, name: string)
    requires name in Names(a + b)
    ensures ReadLast(a + b, name) ==
      if name in Names(b) then ReadLast(b, name) else ReadLast(a, name)
    decreases |b|
  {
    if b == [] {
      assert a + b == a;
    } else {
      var init, last := b[..|b| - 1], b[|b| - 1];
      assert b == init + [last];
      assert (a + b)[..|a + b| - 1] == a + init;
      if last.name != name {
        ReadAppended(a, init, name);
      }
    }
  }

  lemma {:induction false} ReadDistinct(es: seq<Entry>, i: nat)
    requires i < |es| && forall j, k :: 0 <= j < k < |es| ==> es[j].name != es[k].name
    ensures es[i].name in Names(es) && ReadLast(es, es[i].name) == es[i].content
    decreases |es|
  {
    assert es[i] in es;
    if i < |es| - 1 {
      ReadDistinct(es[..|es| - 1], i);
    }
  }

  // ---- what a freshly built package contains ----

  lemma PackagedNotManifest(disk: Disk, caseId: string, p: Path)
    requires Packaged(disk, caseId, p)
    ensures p != MANIFEST
  {
    assert p[..|CaseDir(caseId)|][0] == 'r';
  }

  predicate Buildable(info: CaseInfo, disk: Disk, paths: seq<Path>, extra: seq<Member>) {
    && (forall i, j :: 0 <= i < j < |paths| ==> paths[i] != paths[j])
    && (forall p <- paths :: Packaged(disk, info.caseId, p))
    && DistinctKeys(extra)
    && (forall x <- extra :: WellFormed(x.value))
  }

  lemma ReadCopies(disk: Disk, paths: seq<Path>, n: string)
    requires Sorting.Distinct(paths) && forall p <- paths :: p in disk
    ensures n in Names(Copies(disk, paths)) <==> n in paths
    ensures n in paths ==> ReadLast(Copies(disk, paths), n) == disk[n]
  {
    var copies := Copies(disk, paths);
    if n in paths {
      var i :| 0 <= i < |paths| && paths[i] == n;
      assert copies[i] in copies;
      ReadDistinct(copies, i);
    }
  }

  lemma ReadExtras(extra: seq<Member>, n: string)
    requires DistinctKeys(extra)
    ensures n in Names(Extras(extra)) <==> Get(extra, n).Some?
    ensures Get(extra, n).Some? ==> ReadLast(Extras(extra), n) == Canonicalize(Get(extra, n).value)
  {
    var extras := Extras(extra);
    CanonicalJson.GetMember(extra, n);
    if Get(extra, n).Some? {
      var i :| 0 <= i < |extra| && extra[i] == Member(n, Get(extra, n).value);
      assert extras[i] in extras;
      ReadDistinct(extras, i);
    }
    assert forall i :: 0 <= i < |extras| ==> extras[i].name == extra[i].key && extra[i] in extra;
  }

  /** Every archive member read back from a package: extras shadow the manifest and the copies they name. */
  lemma PackageRead(h: Hash, info: CaseInfo, at: string, disk: Disk, paths: seq<Path>, extra: seq<Member>, n: string)
    requires Buildable(info, disk, paths, extra)
    ensures var es := Package(h, info, at, disk, paths, extra);
      && (n in Names(es) <==> n == MANIFEST || n in paths || Get(extra, n).Some?)
      && (n in Names(es) ==>
            ReadLast(es, n) ==
              if Get(extra, n).Some? then Canonicalize(Get(extra, n).value)
              else if n == MANIFEST then Canonicalize(Manifest(info, at, Declared(h, disk, paths)))
              else disk[n])
  {
    hide Copies, Extras, Declared, Manifest, Canonicalize, StartsWith, IsExcluded;
    var head := [Entry(MANIFEST, Canonicalize(Manifest(info, at, Declared(h, disk, paths))))];
    var copies, extras := Copies(disk, paths), Extras(extra);
    ReadCopies(disk, paths, n);
    ReadExtras(extra, n);
    ReadDistinct(head, 0);
    CanonicalJson.GetMember(extra, n);
    if n in paths {
      PackagedNotManifest(disk, info.caseId, n);
    }
    assert Names(head + copies) == Names(head) + Names(copies);
    assert Names(head + copies + extras) == Names(head + copies) + Names(extras);
    if n in Names(head + copies + extras) {
      ReadAppended(head + copies, extras, n);
      if n !in Names(extras) {
        ReadAppended(head, copies, n);
      }
    }
  }

  lemma ScopeWellFormed(info: CaseInfo)
    ensures WellFormed(Scope(info))
  {
    var xs := Scope(info).members;
    assert |xs[0].key| == 8 && |xs[1].key| == 16 && |xs[2].key| == 7 && |xs[3].key| == 5;
  }

  /** The eight header keys differ from each other and from "files" in length or first letter. */
  lemma HeaderKeys(info: CaseInfo, at: string)
    ensures DistinctKeys(Header(info, at) + [Member("files", Null)])
  {
    hide Scope, Texts;
    var ms := Header(info, at) + [Member("files", Null)];
    var lengths := [14, 15, 12, 7, 5, 6, 7, 8, 5];
    var letters := "sagcssvwf";
    assert |ms| == 9;
    forall i | 0 <= i < 9 ensures |ms[i].key| == lengths[i] && ms[i].key[0] == letters[i] {
    }
  }

  lemma HeaderValues(info: CaseInfo, at: string)
    ensures forall m <- Header(info, at) :: WellFormed(m.value)
  {
    hide Scope;
    ScopeWellFormed(info);
    assert WellFormed(Arr(Texts(info.warnings)));
  }

  lemma ManifestWellFormed(h: Hash, info: CaseInfo, at: string, disk: Disk, paths: seq<Path>)
    requires Sorting.Distinct(paths) && forall p <- paths :: p in disk
    ensures var m := Manifest(info, at, Declared(h, disk, paths));
      WellFormed(m) && Get(m.members, "files") == Some(Obj(Declared(h, disk, paths)))
  {
    hide Header;
    var files := Declared(h, disk, paths);
    assert WellFormed(Obj(files));
    HeaderKeys(info, at);
    HeaderValues(info, at);
    var ms := Header(info, at) + [Member("files", Obj(files))];
    var plain := Header(info, at) + [Member("files", Null)];
    assert forall i :: 0 <= i < |ms| ==> ms[i].key == plain[i].key;
    CanonicalJson.GetAt(ms, |ms| - 1);
  }

  /** The verifier reads exactly the packaged files' digests out of the packaged manifest. */
  lemma ReadsDeclaredFiles(h: Hash, info: CaseInfo, at: string, disk: Disk, paths: seq<Path>, es: seq<Entry>)
    requires Sorting.Distinct(paths) && forall p <- paths :: p in disk
    requires MANIFEST in Names(es)
    requires ReadLast(es, MANIFEST) == Canonicalize(Manifest(info, at, Declared(h, disk, paths)))
    ensures LoadManifest(es).Some? && LoadManifest(es).value.Obj?
    ensures var files := Field(LoadManifest(es).value, "files");
      && files.Obj? && |files.members| == |paths| && DistinctKeys(files.members)
      && (forall m :: m in files.members <==> m in Declared(h, disk, paths))
  {
    hide Manifest, Declared, Normalize, Canonicalize, Loads, WellFormed, NormalizeMembers, Sorting.Sort;
    var declared := Declared(h, disk, paths);
    var m := Manifest(info, at, declared);
    ManifestWellFormed(h, info, at, disk, paths);
    CanonicalJson.LoadsCanonicalize(m);
    ManifestIsObject(info, at, declared);
    CanonicalJson.NormalizedField(m, "files");
    NormalDeclared(h, disk, paths);
  }

  /** The header of a packaged manifest, member by member. */
  lemma HeaderSays(h: Hash, info: CaseInfo, at: string, disk: Disk, paths: seq<Path>)
    requires Sorting.Distinct(paths) && forall p <- paths :: p in disk
    ensures var m := Manifest(info, at, Declared(h, disk, paths));
      && m.Obj? && WellFormed(m)
      && Get(m.members, "schema_version") == Get(m.members, "adapter_version") == Some(Text("0.1.0"))
      && Get(m.members, "generated_at") == Some(Text(at)) && Get(m.members, "case_id") == Some(Text(info.caseId))
      && Get(m.members, "scope") == Some(Scope(info)) && Get(m.members, "status") == Some(Text(info.status))
      && Get(m.members, "verdict") == Some(if info.verdict.Some? then Text(info.verdict.value) else Null)
      && Get(m.members, "warnings") == Some(Arr(Texts(info.warnings)))
  {
    hide Get, Scope, Texts, Declared, WellFormed;
    ManifestWellFormed(h, info, at, disk, paths);
    HeaderKeys(info, at);
    var ms, plain := Manifest(info, at, Declared(h, disk, paths)).members, Header(info, at) + [Member("files", Null)];
    assert forall i :: 0 <= i < |ms| ==> ms[i].key == plain[i].key;
    assert DistinctKeys(ms);
    CanonicalJson.GetAt(ms, 0);
    CanonicalJson.GetAt(ms, 1);
    CanonicalJson.GetAt(ms, 2);
    CanonicalJson.GetAt(ms, 3);
    CanonicalJson.GetAt(ms, 4);
    CanonicalJson.GetAt(ms, 5);
    CanonicalJson.GetAt(ms, 6);
    CanonicalJson.GetAt(ms, 7);
  }

  lemma ScopeSays(info: CaseInfo)
    ensures var scope := Normalize(Scope(info));
      && Field(scope, "chain_id") == Int(info.chainId) && Field(scope, "transaction_hash") == Text(info.txHash)
      && Field(scope, "subject") == Text(info.subject) && Field(scope, "claim") == Text(info.claim)
  {
    hide Get;
    ScopeWellFormed(info);
    var xs := Scope(info).members;
    assert |xs[0].key| == 8 && |xs[1].key| == 16 && |xs[2].key| == 7 && |xs[3].key| == 5;
    CanonicalJson.GetAt(xs, 0);
    CanonicalJson.GetAt(xs, 1);
    CanonicalJson.GetAt(xs, 2);
    CanonicalJson.GetAt(xs, 3);
    CanonicalJson.NormalizedField(Scope(info), "chain_id");
    CanonicalJson.NormalizedField(Scope(info), "transaction_hash");
    CanonicalJson.NormalizedField(Scope(info), "subject");
    CanonicalJson.NormalizedField(Scope(info), "claim");
  }

  lemma TextsNormal(ss: seq<string>)
    ensures Normalize(Arr(Texts(ss))) == Arr(Texts(ss))
  {
    assert NormalizeItems(Texts(ss)) == Texts(ss);
  }

  /** What a reader of the packaged manifest learns about the case. */
  lemma PackagedManifestSays(h: Hash, info: CaseInfo, at: string, disk: Disk, paths: seq<Path>, es: seq<Entry>)
    requires Sorting.Distinct(paths) && forall p <- paths :: p in disk
    requires MANIFEST in Names(es)
    requires ReadLast(es, MANIFEST) == Canonicalize(Manifest(info, at, Declared(h, disk, paths)))
    ensures LoadManifest(es).Some?
    ensures var m := LoadManifest(es).value;
      && Field(m, "schema_version") == Field(m, "adapter_version") == Text("0.1.0")
      && Field(m, "generated_at") == Text(at) && Field(m, "case_id") == Text(info.caseId)
      && Field(m, "status") == Text(info.status)
      && Field(m, "verdict") == (if info.verdict.Some? then Text(info.verdict.value) else Null)
      && Field(m, "warnings") == Arr(Texts(info.warnings))
      && Field(Field(m, "scope"), "chain_id") == Int(info.chainId)
      && Field(Field(m, "scope"), "transaction_hash") == Text(info.txHash)
      && Field(Field(m, "scope"), "subject") == Text(info.subject)
      && Field(Field(m, "scope"), "claim") == Text(info.claim)
  {
    hide Manifest, Declared, Canonicalize, Loads, WellFormed, Get, Scope, Texts, Sorting.Sort;
    var m := Manifest(info, at, Declared(h, disk, paths));
    HeaderSays(h, info, at, disk, paths);
    ManifestIsObject(info, at, Declared(h, disk, paths));
    CanonicalJson.LoadsCanonicalize(m);
    ScopeSays(info);
    TextsNormal(info.warnings);
    CanonicalJson.NormalizedField(m, "schema_version");
    CanonicalJson.NormalizedField(m, "adapter_version");
    CanonicalJson.NormalizedField(m, "generated_at");
    CanonicalJson.NormalizedField(m, "case_id");
    CanonicalJson.NormalizedField(m, "scope");
    CanonicalJson.NormalizedField(m, "status");
    CanonicalJson.NormalizedField(m, "verdict");
    CanonicalJson.NormalizedField(m, "warnings");
  }

  lemma ManifestIsObject(info: CaseInfo, at: string, files: seq<Member>)
    ensures var m := Manifest(info, at, files); m.Obj? && Normalize(m).Obj?
  {
  }

  /** Sorting the keys of the `files` dictionary is all that canonicalisation does to it. */
  lemma NormalDeclared(h: Hash, disk: Disk, paths: seq<Path>)
    requires Sorting.Distinct(paths) && forall p <- paths :: p in disk
    ensures var files := Normalize(Obj(Declared(h, disk, paths)));
      && files.Obj? && |files.members| == |paths| && DistinctKeys(files.members)
      && (forall m :: m in files.members <==> m in Declared(h, disk, paths))
  {
    var declared := Declared(h, disk, paths);
    CanonicalJson.NormalMembers(declared);
    assert NormalizeMembers(declared) == declared;
  }

  /** What the archive holds under the name of an extra entry or of a packaged file. */
  function Stored(disk: Disk, extra: seq<Member>, name: string): Bytes
    requires Get(extra, name).Some? || name in disk
  {
    if Get(extra, name).Some? then Canonicalize(Get(extra, name).value) else disk[name]
  }

  /** An extra object named like the manifest declares just what is in the archive. */
  ghost predicate FakeDeclares(h: Hash, disk: Disk, paths: seq<Path>, extra: seq<Member>, files: Json)
    requires forall p <- paths :: p in disk
  {
    && files.Obj? && files.members != []
    && (forall m <- files.members ::
          && (Get(extra, m.key).Some? || m.key in paths) && m.value.Text?
          && h(Stored(disk, extra, m.key)) == Lower(m.value.s))
    && (forall p <- paths :: Get(files.members, p).Some?)
    && (forall x <- extra :: x.key != MANIFEST ==> Get(files.members, x.key).Some?)
  }

  /**
   PASS means: something was packaged, and every extra entry reproduces a packaged file's digest.
   An extra entry named like the manifest is verified in its place instead.
   */
  ghost predicate PackagePasses(h: Hash, disk: Disk, paths: seq<Path>, extra: seq<Member>, size: nat)
    requires forall p <- paths :: p in disk
  {
    && size <= MAX_UPLOAD_BYTES
    && match Get(extra, MANIFEST)
       case None => paths != [] && forall x <- extra :: x.key in paths && h(Canonicalize(x.value)) == h(disk[x.key])
       case Some(fake) => FakeDeclares(h, disk, paths, extra, Field(fake, "files"))
  }

  /** How many files a passing package declares. */
  function DeclaredCount(paths: seq<Path>, extra: seq<Member>): nat {
    match Get(extra, MANIFEST)
    case None => |paths|
    case Some(fake) => if Field(fake, "files").Obj? then |Field(fake, "files").members| else 0
  }

  lemma DeclaredMatches(h: Hash, info: CaseInfo, at: string, disk: Disk, paths: seq<Path>, extra: seq<Member>, p: Path)
    requires IsHash(h) && Buildable(info, disk, paths, extra) && p in paths
    ensures HashMatches(h, Package(h, info, at, disk, paths, extra), Member(p, Text(h(disk[p])))) <==>
      (Get(extra, p).Some? ==> h(Canonicalize(Get(extra, p).value)) == h(disk[p]))
  {
    hide Package, Canonicalize, StartsWith, IsExcluded;
    PackageRead(h, info, at, disk, paths, extra, p);
    PackagedNotManifest(disk, info.caseId, p);
  }

  lemma DeclaredMember(h: Hash, disk: Disk, paths: seq<Path>, m: Member)
    requires forall p <- paths :: p in disk
    ensures m in Declared(h, disk, paths) <==> m.key in paths && m.value == Text(h(disk[m.key]))
  {
    var ms := Declared(h, disk, paths);
    if m.key in paths {
      var i :| 0 <= i < |paths| && paths[i] == m.key;
      assert ms[i] in ms;
    }
  }

  lemma ExtraMember(extra: seq<Member>, x: Member)
    requires DistinctKeys(extra) && x in extra
    ensures Get(extra, x.key) == Some(x.value)
  {
    var i :| 0 <= i < |extra| && extra[i] == x;
    CanonicalJson.GetAt(extra, i);
  }

  lemma IntactExtras(h: Hash, info: CaseInfo, at: string, disk: Disk, paths: seq<Path>, extra: seq<Member>,
                     files: seq<Member>)
    requires IsHash(h) && Buildable(info, disk, paths, extra)
    requires Get(extra, MANIFEST).None?
    requires DistinctKeys(files) && forall m :: m in files <==> m in Declared(h, disk, paths)
    requires Intact(h, Package(h, info, at, disk, paths, extra), files)
    ensures forall x <- extra :: x.key in paths && h(Canonicalize(x.value)) == h(disk[x.key])
  {
    hide Package, Canonicalize, StartsWith, IsExcluded, Declared;
    forall x | x in extra ensures x.key in paths && h(Canonicalize(x.value)) == h(disk[x.key]) {
      ExtraMember(extra, x);
      PackageRead(h, info, at, disk, paths, extra, x.key);
      CanonicalJson.GetMember(files, x.key);
      var m := Member(x.key, Get(files, x.key).value);
      DeclaredMember(h, disk, paths, m);
      DeclaredMatches(h, info, at, disk, paths, extra, x.key);
    }
  }

  lemma ExtrasIntact(h: Hash, info: CaseInfo, at: string, disk: Disk, paths: seq<Path>, extra: seq<Member>,
                     files: seq<Member>)
    requires IsHash(h) && Buildable(info, disk, paths, extra)
    requires Get(extra, MANIFEST).None?
    requires DistinctKeys(files) && forall m :: m in files <==> m in Declared(h, disk, paths)
    requires forall x <- extra :: x.key in paths && h(Canonicalize(x.value)) == h(disk[x.key])
    ensures Intact(h, Package(h, info, at, disk, paths, extra), files)
  {
    hide Package, Canonicalize, StartsWith, IsExcluded, Declared, HashMatches;
    var es := Package(h, info, at, disk, paths, extra);
    forall m | m in files ensures HashMatches(h, es, m) {
      DeclaredMember(h, disk, paths, m);
      CanonicalJson.GetMember(extra, m.key);
      DeclaredMatches(h, info, at, disk, paths, extra, m.key);
    }
    forall name | name in Names(es) && name != MANIFEST ensures Get(files, name).Some? {
      PackageRead(h, info, at, disk, paths, extra, name);
      CanonicalJson.GetMember(extra, name);
      DeclaredMember(h, disk, paths, Member(name, Text(h(disk[name]))));
      CanonicalJson.GetMember(files, name);
    }
  }

  lemma GenuineManifest(h: Hash, info: CaseInfo, at: string, disk: Disk, paths: seq<Path>, extra: seq<Member>,
                        size: nat, v: Verdict)
    requires IsHash(h) && Buildable(info, disk, paths, extra) && Get(extra, MANIFEST).None?
    requires IsVerdict(h, Upload(size, Some(Package(h, info, at, disk, paths, extra))), v)
    ensures v.Report? && v.pass <==> PackagePasses(h, disk, paths, extra, size)
    ensures PackagePasses(h, disk, paths, extra, size) ==> v == Report(true, |paths|, [])
    ensures size <= MAX_UPLOAD_BYTES && paths == [] ==> v == Rejected(400)
  {
    hide Package, LoadManifest, Intact, Declared, Canonicalize, Manifest, IsReport, IsExcluded, StartsWith;
    var es := Package(h, info, at, disk, paths, extra);
    PackageRead(h, info, at, disk, paths, extra, MANIFEST);
    ReadsDeclaredFiles(h, info, at, disk, paths, es);
    var files := Field(LoadManifest(es).value, "files");
    assert files.Obj? && (files.members == [] <==> paths == []);
    if Intact(h, es, files.members) {
      IntactExtras(h, info, at, disk, paths, extra, files.members);
    }
    if forall x <- extra :: x.key in paths && h(Canonicalize(x.value)) == h(disk[x.key]) {
      ExtrasIntact(h, info, at, disk, paths, extra, files.members);
    }
    PassMeansIntact(h, Upload(size, Some(es)), v);
  }

  /** Sorting the keys of declarations changes neither what they declare nor how many they are. */
  lemma IntactNormalized(h: Hash, es: seq<Entry>, ms: seq<Member>)
    requires WellFormed(Obj(ms))
    ensures var ns := Normalize(Obj(ms)).members; |ns| == |ms| && (Intact(h, es, ns) <==> Intact(h, es, ms))
  {
    hide HashMatches, Normalize, NormalizeMembers, WellFormed, DistinctKeys, Get;
    NormalObject(ms);
    var ns := Normalize(Obj(ms)).members;
    CanonicalJson.NormalMembers(ms);
    MatchesNormalized(h, es, ms);
    assert (forall m <- ns :: HashMatches(h, es, m)) <==> (forall m <- NormalizeMembers(ms) :: HashMatches(h, es, m));
    forall name ensures Get(ns, name).Some? <==> Get(ms, name).Some? {
      CanonicalJson.NormalizedField(Obj(ms), name);
    }
  }

  lemma NormalObject(ms: seq<Member>)
    ensures Normalize(Obj(ms)) == Obj(Sorting.Sort(NormalizeMembers(ms), KEY_ORDER))
      && |Normalize(Obj(ms)).members| == |ms|
  {
  }

  lemma MatchesNormalized(h: Hash, es: seq<Entry>, ms: seq<Member>)
    ensures (forall m <- NormalizeMembers(ms) :: HashMatches(h, es, m)) <==> (forall m <- ms :: HashMatches(h, es, m))
  {
    hide ReadLast;
    var us := NormalizeMembers(ms);
    assert forall i :: 0 <= i < |ms| ==> (HashMatches(h, es, us[i]) <==> HashMatches(h, es, ms[i]));
    if forall m <- us :: HashMatches(h, es, m) {
      forall i | 0 <= i < |ms| ensures HashMatches(h, es, ms[i]) { assert us[i] in us; }
    }
    if forall m <- ms :: HashMatches(h, es, m) {
      forall i | 0 <= i < |us| ensures HashMatches(h, es, us[i]) { assert ms[i] in ms; }
    }
  }

  lemma FakeIntact(h: Hash, info: CaseInfo, at: string, disk: Disk, paths: seq<Path>, extra: seq<Member>,
                   files: seq<Member>)
    requires Buildable(info, disk, paths, extra) && Get(extra, MANIFEST).Some?
    requires DistinctKeys(files) && files != []
    ensures Intact(h, Package(h, info, at, disk, paths, extra), files) <==>
      FakeDeclares(h, disk, paths, extra, Obj(files))
  {
    hide Package, Canonicalize, StartsWith, IsExcluded;
    var es := Package(h, info, at, disk, paths, extra);
    forall name
      ensures name in Names(es) <==> Get(extra, name).Some? || name in paths
      ensures name in Names(es) ==> ReadLast(es, name) == Stored(disk, extra, name)
    {
      PackageRead(h, info, at, disk, paths, extra, name);
    }
    forall x | x in extra ensures Get(extra, x.key).Some? { ExtraMember(extra, x); }
    forall p | p in paths ensures p != MANIFEST { PackagedNotManifest(disk, info.caseId, p); }
    forall name | Get(extra, name).Some? ensures Member(name, Get(extra, name).value) in extra {
      CanonicalJson.GetMember(extra, name);
    }
  }

  lemma FakeManifest(h: Hash, info: CaseInfo, at: string, disk: Disk, paths: seq<Path>, extra: seq<Member>,
                     size: nat, v: Verdict)
    requires IsHash(h) && Buildable(info, disk, paths, extra) && Get(extra, MANIFEST).Some?
    requires IsVerdict(h, Upload(size, Some(Package(h, info, at, disk, paths, extra))), v)
    ensures v.Report? && v.pass <==> PackagePasses(h, disk, paths, extra, size)
    ensures PackagePasses(h, disk, paths, extra, size) ==> v == Report(true, DeclaredCount(paths, extra), [])
  {
    hide Package, LoadManifest, Intact, FakeDeclares, Declared, Canonicalize, Manifest, IsReport, IsExcluded,
      StartsWith, Normalize, NormalizeMembers, DistinctKeys;
    var es := Package(h, info, at, disk, paths, extra);
    var fake := Get(extra, MANIFEST).value;
    CanonicalJson.GetMember(extra, MANIFEST);
    assert WellFormed(fake);
    ExtraManifestWins(h, info, at, disk, paths, extra, fake);
    PassMeansIntact(h, Upload(size, Some(es)), v);
    FakeFiles(fake);
    var files := Field(fake, "files");
    if files.Obj? {
      IntactNormalized(h, es, files.members);
      if files.members != [] {
        FakeIntact(h, info, at, disk, paths, extra, files.members);
      } else {
        assert !FakeDeclares(h, disk, paths, extra, files) by { NothingDeclared(h, disk, paths, extra, files); }
      }
    } else {
      NothingDeclared(h, disk, paths, extra, files);
    }
  }

  lemma NothingDeclared(h: Hash, disk: Disk, paths: seq<Path>, extra: seq<Member>, files: Json)
    requires (forall p <- paths :: p in disk) && (!files.Obj? || files.members == [])
    ensures !FakeDeclares(h, disk, paths, extra, files)
  {
  }

  lemma FakeFiles(fake: Json)
    requires WellFormed(fake)
    ensures WellFormed(Field(fake, "files"))
    ensures Field(Normalize(fake), "files") == Normalize(Field(fake, "files"))
    ensures Field(Normalize(fake), "files").Obj? <==> Field(fake, "files").Obj?
    ensures Field(fake, "files").Obj? ==> DistinctKeys(Field(fake, "files").members)
  {
    if fake.Obj? {
      CanonicalJson.NormalizedField(fake, "files");
      CanonicalJson.GetMember(fake.members, "files");
    }
  }

  /**
   Building a package and verifying it: PASS exactly when at least one file was packaged and
   `extra_data` adds nothing undeclared or different, or when it brings a manifest of its own that
   declares the archive; all declared files have then been checked.
   */
  lemma BuildThenVerify(h: Hash, info: CaseInfo, at: string, disk: Disk, paths: seq<Path>, extra: seq<Member>,
                        size: nat, v: Verdict)
    requires IsHash(h) && Buildable(info, disk, paths, extra)
    requires IsVerdict(h, Upload(size, Some(Package(h, info, at, disk, paths, extra))), v)
    ensures v.Report? && v.pass <==> PackagePasses(h, disk, paths, extra, size)
    ensures PackagePasses(h, disk, paths, extra, size) ==> v == Report(true, DeclaredCount(paths, extra), [])
    ensures size <= MAX_UPLOAD_BYTES && Get(extra, MANIFEST).None? && paths == [] ==> v == Rejected(400)
  {
    hide Package, PackagePasses, IsVerdict, Buildable;
    if Get(extra, MANIFEST).None? {
      GenuineManifest(h, info, at, disk, paths, extra, size, v);
    } else {
      FakeManifest(h, info, at, disk, paths, extra, size, v);
    }
  }

  /** Without `extra_data`: PASS with every packaged file checked, or the empty-package refusal. */
  lemma FreshPackageVerifies(h: Hash, info: CaseInfo, at: string, disk: Disk, paths: seq<Path>, size: nat, v: Verdict)
    requires IsHash(h) && Buildable(info, disk, paths, []) && size <= MAX_UPLOAD_BYTES
    requires IsVerdict(h, Upload(size, Some(Package(h, info, at, disk, paths, []))), v)
    ensures v == if paths == [] then Rejected(400) else Report(true, |paths|, [])
  {
    BuildThenVerify(h, info, at, disk, paths, [], size, v);
  }

  /** An extra entry named like the manifest replaces it: that object is what gets verified. */
  lemma ExtraManifestWins(h: Hash, info: CaseInfo, at: string, disk: Disk, paths: seq<Path>, extra: seq<Member>,
                          fake: Json)
    requires (forall p <- paths :: p in disk) && DistinctKeys(extra)
    requires Get(extra, MANIFEST) == Some(fake) && WellFormed(fake)
    ensures LoadManifest(Package(h, info, at, disk, paths, extra)) == Some(Normalize(fake))
  {
    hide Copies, Extras, Declared, Manifest, Canonicalize, Loads;
    ReadExtras(extra, MANIFEST);
    var head := [Entry(MANIFEST, Canonicalize(Manifest(info, at, Declared(h, disk, paths))))];
    assert Names(head + Copies(disk, paths) + Extras(extra))
      == Names(head + Copies(disk, paths)) + Names(Extras(extra));
    ReadAppended(head + Copies(disk, paths), Extras(extra), MANIFEST);
    CanonicalJson.LoadsCanonicalize(fake);
  }

  // ---- one root, one package ----

  function FileMap(es: seq<Entry>): map<string, Bytes> {
    map name <- Names(es) :: ReadLast(es, name)
  }

  /**
   Two packages that pass verification and have one manifest root hold the same files, unless
   some name they share stands in them for two different contents with the same digest.
   */
  lemma SameRootSameFiles(h: Hash, a: Upload, b: Upload)
    requires Accepts(h, a) && Accepts(h, b)
    requires ManifestRoot(h, a.archive.value) == ManifestRoot(h, b.archive.value)
    ensures FileMap(a.archive.value) == FileMap(b.archive.value) || exists name ::
      && name in Names(a.archive.value) && name in Names(b.archive.value)
      && Collision(h, ReadLast(a.archive.value, name), ReadLast(b.archive.value, name))
  {
    var ea, eb := a.archive.value, b.archive.value;
    var ma, mb := ReadLast(ea, MANIFEST), ReadLast(eb, MANIFEST);
    var ra, rb := "0x" + h(ma), "0x" + h(mb);
    assert ra[2..] == h(ma) && rb[2..] == h(mb);
    if ma != mb {
      assert Collision(h, ma, mb);
    } else {
      var files := Field(LoadManifest(ea).value, "files").members;
      SameNames(h, ea, eb, files);
      SameNames(h, eb, ea, files);
      if name :| name in Names(ea) && ReadLast(ea, name) != ReadLast(eb, name) {
        CanonicalJson.GetMember(files, name);
        var m := Member(name, Get(files, name).value);
        assert HashMatches(h, ea, m) && HashMatches(h, eb, m);
        assert Collision(h, ReadLast(ea, name), ReadLast(eb, name));
      }
    }
  }

  lemma SameNames(h: Hash, a: seq<Entry>, b: seq<Entry>, files: seq<Member>)
    requires Intact(h, a, files) && Intact(h, b, files) && MANIFEST in Names(b)
    ensures Names(a) <= Names(b)
  {
    forall name | name in Names(a) ensures name in Names(b) {
      if name != MANIFEST {
        CanonicalJson.GetMember(files, name);
        assert HashMatches(h, b, Member(name, Get(files, name).value));
      }
    }
  }

  // ---- the packager reads a vault that is in use ----

  /** The disk after each event of a run, as the packager's successive reads would find it. */
  ghost function DiskDuring(h: Hash, s: VaultRuns.State, run: seq<VaultRuns.Event>): History {
    (t: nat) => VaultRuns.Exec(h, s, if t < |run| then run[..t] else run).disk
  }

  lemma {:induction false} ExecSnoc(h: Hash, s: VaultRuns.State, run: seq<VaultRuns.Event>, e: VaultRuns.Event)
    ensures VaultRuns.Exec(h, s, run + [e]) == VaultRuns.Apply(h, VaultRuns.Exec(h, s, run), e)
    ensures VaultRuns.Legal(h, s, run + [e]) <==>
      VaultRuns.Legal(h, s, run) && VaultRuns.Allowed(VaultRuns.Exec(h, s, run), e)
    decreases |run|
  {
    if run == [] {
      assert [] + [e] == [e] && [e][1..] == [];
      assert VaultRuns.Exec(h, s, [e]) == VaultRuns.Exec(h, VaultRuns.Apply(h, s, e), []);
    } else {
      assert (run + [e])[1..] == run[1..] + [e];
      ExecSnoc(h, VaultRuns.Apply(h, s, run[0]), run[1..], e);
    }
  }

  lemma {:induction false} LegalPrefix(h: Hash, s: VaultRuns.State, run: seq<VaultRuns.Event>, t: nat)
    requires VaultRuns.Legal(h, s, run) && t <= |run|
    ensures VaultRuns.Legal(h, s, run[..t])
    decreases |run|
  {
    if t == |run| {
      assert run[..t] == run;
    } else {
      var init := run[..|run| - 1];
      assert run == init + [run[|run| - 1]];
      ExecSnoc(h, s, init, run[|run| - 1]);
      LegalPrefix(h, s, init, t);
      assert run[..t] == init[..t];
    }
  }

  /** A vault in use only grows, which is all `BuildV52Zip` asks of the disk it reads. */
  lemma VaultInUseIsAppendOnly(h: Hash, s: VaultRuns.State, run: seq<VaultRuns.Event>)
    requires IsHash(h) && VaultRuns.Invariant(h, s) && VaultRuns.Legal(h, s, run)
    ensures AppendOnly(DiskDuring(h, s, run))
  {
    hide VaultRuns.Exec, VaultRuns.Legal, VaultRuns.Invariant, VaultRuns.Apply, VaultRuns.Allowed;
    var disks := DiskDuring(h, s, run);
    forall t: nat ensures Extends(disks(t), disks(t + 1)) {
      if t < |run| {
        var before := run[..t];
        assert run[..t + 1] == before + [run[t]];
        ExecSnoc(h, s, before, run[t]);
        LegalPrefix(h, s, run, t + 1);
        VaultRuns.StoredEvidenceNeverChanges(h, s, before);
        VaultRuns.StepKeeps(h, VaultRuns.Exec(h, s, before), run[t]);
        assert run[..|run|] == run;
      }
    }
  }
}
