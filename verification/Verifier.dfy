/** `POST /v1/verify`: the integrity check of an uploaded package, and the anchored manifest root. */
module Verifier {
  import opened Basics
  import opened Json
  import opened Vault
  import opened Packaging
  import CanonicalJson
  import Sorting

  const MAX_UPLOAD_BYTES := 100 * 1024 * 1024

  /** The uploaded bytes: their length, and the archive they hold if they are a zip file. */
  datatype Upload = Upload(size: nat, archive: Option<seq<Entry>>)

  datatype Reason = MissingFromZip | HashMismatch | NotDeclared

  datatype FileError = FileError(file: string, reason: Reason)

  /** `Crash` is an exception the endpoint does not catch. */
  datatype Verdict = Rejected(code: nat) | Crash | Report(pass: bool, checked: nat, errors: seq<FileError>)

  function Names(es: seq<Entry>): set<string> {
    set e <- es :: e.name
  }

  /** `zf.read(name)`: the last entry of that name. */
  function ReadLast(es: seq<Entry>, name: string): (content: Bytes)
    requires name in Names(es)
    ensures Entry(name, content) in es
  {
    var last := es[|es| - 1];
    if last.name == name then last.content
    else
      assert es == es[..|es| - 1] + [last];
      ReadLast(es[..|es| - 1], name)
  }

  predicate HashMatches(h: Hash, es: seq<Entry>, m: Member) {
    m.key in Names(es) && m.value.Text? && h(ReadLast(es, m.key)) == Lower(m.value.s)
  }

  function ErrorsFor(h: Hash, es: seq<Entry>, m: Member): seq<FileError> {
    if m.key !in Names(es) then [FileError(m.key, MissingFromZip)]
    else if HashMatches(h, es, m) then []
    else [FileError(m.key, HashMismatch)]
  }

  /** The errors of the first pass, in the order of the declarations. */
  function DeclaredErrors(h: Hash, es: seq<Entry>, files: seq<Member>): seq<FileError> {
    if files == [] then []
    else DeclaredErrors(h, es, files[..|files| - 1]) + ErrorsFor(h, es, files[|files| - 1])
  }

  function CheckedCount(es: seq<Entry>, files: seq<Member>): nat {
    if files == [] then 0
    else CheckedCount(es, files[..|files| - 1]) + (if files[|files| - 1].key in Names(es) then 1 else 0)
  }

  predicate IsUndeclared(es: seq<Entry>, files: seq<Member>, name: string) {
    name in Names(es) && name != MANIFEST && Get(files, name).None?
  }

  /** The second pass visits a set, so only the collection of its errors is determined. */
  ghost predicate UndeclaredErrors(es: seq<Entry>, files: seq<Member>, errors: seq<FileError>) {
    && Sorting.Distinct(errors)
    && forall e :: e in errors <==> e.reason == NotDeclared && IsUndeclared(es, files, e.file)
  }

  ghost predicate IsReport(h: Hash, es: seq<Entry>, files: seq<Member>, v: Verdict) {
    && v.Report?
    && v.pass == (v.errors == [])
    && v.checked == CheckedCount(es, files)
    && DeclaredErrors(h, es, files) <= v.errors
    && UndeclaredErrors(es, files, v.errors[|DeclaredErrors(h, es, files)|..])
  }

  /** A present file whose declared digest is not a string makes `.lower()` fail. */
  predicate Unreadable(es: seq<Entry>, files: seq<Member>) {
    exists m <- files :: m.key in Names(es) && !m.value.Text?
  }

  function LoadManifest(es: seq<Entry>): Option<Json> {
    if MANIFEST in Names(es) then Loads(ReadLast(es, MANIFEST)) else None
  }

  ghost predicate IsVerdict(h: Hash, up: Upload, v: Verdict) {
    if up.size > MAX_UPLOAD_BYTES then v == Rejected(413)
    else if up.archive.None? || LoadManifest(up.archive.value).None? then v == Rejected(400)
    else
      var es, manifest := up.archive.value, LoadManifest(up.archive.value).value;
      var files := Field(manifest, "files");
      if !manifest.Obj? then v == Crash
      else if !Truthy(files) then v == Rejected(400)
      else if !files.Obj? || Unreadable(es, files.members) then v == Crash
      else IsReport(h, es, files.members, v)
  }

  method VerifyPackage(h: Hash, up: Upload) returns (v: Verdict)
    ensures IsVerdict(h, up, v)
  {
    if up.size > MAX_UPLOAD_BYTES {
      return Rejected(413);
    }
    if up.archive.None? {
      return Rejected(400);
    }
    var es := up.archive.value;
    var zipNames := Names(es);
    if MANIFEST !in zipNames {
      return Rejected(400);
    }
    var loaded := Loads(ReadLast(es, MANIFEST));
    if loaded.None? {
      return Rejected(400);
    }
    var manifest := loaded.value;
    if !manifest.Obj? {
      return Crash;
    }
    var declared := Field(manifest, "files");
    if !Truthy(declared) {
      return Rejected(400);
    }
    if !declared.Obj? {
      return Crash;
    }
    v := CheckFiles(h, es, declared.members);
  }

  method CheckFiles(h: Hash, es: seq<Entry>, files: seq<Member>) returns (v: Verdict)
    ensures if Unreadable(es, files) then v == Crash else IsReport(h, es, files, v)
  {
    var zipNames := Names(es);
    var checked := 0;
    var errors: seq<FileError> := [];
    for i := 0 to |files|
      invariant !Unreadable(es, files[..i])
      invariant checked == CheckedCount(es, files[..i])
      invariant errors == DeclaredErrors(h, es, files[..i])
    {
      var m := files[i];
      assert files[..i + 1][..i] == files[..i] && files[..i + 1] == files[..i] + [m];
      if m.key !in zipNames {
        errors := errors + [FileError(m.key, MissingFromZip)];
        continue;
      }
      var actual := h(ReadLast(es, m.key));
      checked := checked + 1;
      if !m.value.Text? {
        assert m in files;
        return Crash;
      }
      if actual != Lower(m.value.s) {
        errors := errors + [FileError(m.key, HashMismatch)];
      }
    }
    assert files[..|files|] == files;
    var extra := FindUndeclared(es, files);
    errors := errors + extra;
    assert errors[|DeclaredErrors(h, es, files)|..] == extra;
    v := Report(errors == [], checked, errors);
  }

  method FindUndeclared(es: seq<Entry>, files: seq<Member>) returns (errors: seq<FileError>)
    ensures UndeclaredErrors(es, files, errors)
  {
    errors := [];
    var rest := Names(es);
    while rest != {}
      invariant rest <= Names(es)
      invariant Sorting.Distinct(errors)
      invariant forall e :: e in errors <==>
        e.reason == NotDeclared && IsUndeclared(es, files, e.file) && e.file !in rest
    {
      var name :| name in rest;
      rest := rest - {name};
      if name != MANIFEST && Get(files, name).None? {
        errors := errors + [FileError(name, NotDeclared)];
      }
    }
  }

  // ---- what a report says, file by file ----

  lemma {:induction false} DeclaredErrorsExplained(h: Hash, es: seq<Entry>, files: seq<Member>, e: FileError)
    ensures e in DeclaredErrors(h, es, files) <==> exists m <- files ::
      && e.file == m.key
      && if m.key !in Names(es) then e.reason == MissingFromZip
         else e.reason == HashMismatch && !(m.value.Text? && h(ReadLast(es, m.key)) == Lower(m.value.s))
  {
    if files != [] {
      var init, last := files[..|files| - 1], files[|files| - 1];
      assert files == init + [last];
      DeclaredErrorsExplained(h, es, init, e);
      assert e in DeclaredErrors(h, es, files) <==> e in DeclaredErrors(h, es, init) || e in ErrorsFor(h, es, last);
      assert last in files && forall m <- init :: m in files;
    }
  }

  /** The declared names that are in the archive. */
  function Present(es: seq<Entry>, files: seq<Member>): set<string> {
    set m <- files | m.key in Names(es) :: m.key
  }

  lemma {:induction false} CheckedArePresent(es: seq<Entry>, files: seq<Member>)
    requires DistinctKeys(files)
    ensures CheckedCount(es, files) == |Present(es, files)|
  {
    if files != [] {
      var init, last := files[..|files| - 1], files[|files| - 1];
      assert files == init + [last];
      CheckedArePresent(es, init);
      assert last.key !in Present(es, init);
      assert Present(es, files) == Present(es, init) + (if last.key in Names(es) then {last.key} else {});
    }
  }

  /**
   Each error names a declared file that is missing or altered, or a present one that is not declared;
   none is left out.
   */
  lemma ReportExplained(h: Hash, es: seq<Entry>, files: seq<Member>, v: Verdict, name: string)
    requires IsReport(h, es, files, v) && DistinctKeys(files)
    ensures FileError(name, MissingFromZip) in v.errors <==> Get(files, name).Some? && name !in Names(es)
    ensures FileError(name, HashMismatch) in v.errors <==>
      && Get(files, name).Some? && name in Names(es)
      && !(Get(files, name).value.Text? && h(ReadLast(es, name)) == Lower(Get(files, name).value.s))
    ensures FileError(name, NotDeclared) in v.errors <==>
      name in Names(es) && name != MANIFEST && Get(files, name).None?
    ensures v.checked == |Present(es, files)| && (v.pass <==> v.errors == [])
  {
    hide DeclaredErrors, CheckedCount;
    var declared := DeclaredErrors(h, es, files);
    var extra := v.errors[|declared|..];
    assert v.errors == declared + extra;
    CheckedArePresent(es, files);
    CanonicalJson.GetMember(files, name);
    forall m | m in files && m.key == name ensures Get(files, name) == Some(m.value) {
      var i :| 0 <= i < |files| && files[i] == m;
      CanonicalJson.GetAt(files, i);
    }
    DeclaredErrorsExplained(h, es, files, FileError(name, MissingFromZip));
    DeclaredErrorsExplained(h, es, files, FileError(name, HashMismatch));
    DeclaredErrorsExplained(h, es, files, FileError(name, NotDeclared));
    if Get(files, name).Some? {
      assert Member(name, Get(files, name).value) in files;
    }
  }

  // ---- what a verdict means ----

  /** Nothing missing, nothing altered, nothing added. */
  ghost predicate Intact(h: Hash, es: seq<Entry>, files: seq<Member>) {
    && (forall m <- files :: HashMatches(h, es, m))
    && (forall name <- Names(es) :: name != MANIFEST ==> Get(files, name).Some?)
  }

  ghost predicate Accepts(h: Hash, up: Upload) {
    && up.size <= MAX_UPLOAD_BYTES
    && up.archive.Some?
    && LoadManifest(up.archive.value).Some?
    && var files := Field(LoadManifest(up.archive.value).value, "files");
    && files.Obj? && files.members != [] && Intact(h, up.archive.value, files.members)
  }

  lemma {:induction false} NoDeclaredErrors(h: Hash, es: seq<Entry>, files: seq<Member>)
    requires !Unreadable(es, files)
    ensures DeclaredErrors(h, es, files) == [] <==> forall m <- files :: HashMatches(h, es, m)
    ensures DeclaredErrors(h, es, files) == [] ==> CheckedCount(es, files) == |files|
  {
    if files != [] {
      var init, last := files[..|files| - 1], files[|files| - 1];
      assert files == init + [last];
      assert forall m :: m in files <==> m in init || m == last;
      NoDeclaredErrors(h, es, init);
      var a, b := DeclaredErrors(h, es, init), ErrorsFor(h, es, last);
      assert a + b == [] <==> a == [] && b == [] by { assert |a + b| == |a| + |b|; }
      assert b == [] <==> HashMatches(h, es, last);
    }
  }

  lemma ReportMeansIntact(h: Hash, es: seq<Entry>, files: seq<Member>, v: Verdict)
    requires IsReport(h, es, files, v) && !Unreadable(es, files)
    ensures v.pass <==> Intact(h, es, files)
    ensures v.pass ==> v == Report(true, |files|, [])
  {
    NoDeclaredErrors(h, es, files);
    NoUndeclared(h, es, files, v);
    if forall name :: !IsUndeclared(es, files, name) {
      forall name | name in Names(es) && name != MANIFEST ensures Get(files, name).Some? {
        assert !IsUndeclared(es, files, name);
      }
    }
  }

  lemma UnreadableNotIntact(h: Hash, es: seq<Entry>, files: seq<Member>)
    requires Unreadable(es, files)
    ensures !Intact(h, es, files)
  {
    var m :| m in files && m.key in Names(es) && !m.value.Text?;
    assert !HashMatches(h, es, m);
  }

  /** The verifier reports PASS exactly for intact packages, and has then checked every declared file. */
  lemma PassMeansIntact(h: Hash, up: Upload, v: Verdict)
    requires IsVerdict(h, up, v)
    ensures v.Report? && v.pass <==> Accepts(h, up)
    ensures Accepts(h, up) ==>
      v == Report(true, |Field(LoadManifest(up.archive.value).value, "files").members|, [])
  {
    hide Intact, IsReport, Unreadable, LoadManifest;
    if up.size <= MAX_UPLOAD_BYTES && up.archive.Some? && LoadManifest(up.archive.value).Some? {
      var es := up.archive.value;
      var files := Field(LoadManifest(es).value, "files");
      if files.Obj? && files.members != [] {
        if Unreadable(es, files.members) {
          UnreadableNotIntact(h, es, files.members);
        } else {
          ReportMeansIntact(h, es, files.members, v);
        }
      }
    }
  }

  lemma NoUndeclared(h: Hash, es: seq<Entry>, files: seq<Member>, v: Verdict)
    requires IsReport(h, es, files, v)
    ensures v.pass <==> DeclaredErrors(h, es, files) == [] && forall name :: !IsUndeclared(es, files, name)
  {
    var extra := v.errors[|DeclaredErrors(h, es, files)|..];
    assert v.errors == DeclaredErrors(h, es, files) + extra;
    if extra == [] {
      forall name ensures !IsUndeclared(es, files, name) {
        assert FileError(name, NotDeclared) !in extra;
      }
    } else {
      assert extra[0] in extra;
    }
  }

  /** `manifest_root` of `anchor_case`: the digest of the manifest bytes exactly as packaged. */
  function ManifestRoot(h: Hash, es: seq<Entry>): Option<string> {
    if LoadManifest(es).Some? && LoadManifest(es).value.Obj? then Some("0x" + h(ReadLast(es, MANIFEST))) else None
  }
}
