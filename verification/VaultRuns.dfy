/**
 Runs of `preserve_raw`.  A call checks that its JSON file is absent, writes it, writes the
 sidecar and returns; other calls may act between these steps, and a call may die after any of
 them.
 */
module VaultRuns {
  import opened Basics
  import opened Vault
  import Utf8

  datatype Progress = Checked | JsonWritten | Returned | Dead

  datatype Call = Call(base: Path, content: Bytes, at: Progress)

  datatype State = State(disk: Disk, calls: seq<Call>, returned: set<(Path, string)>)

  datatype Event =
    | Begin(base: Path, content: Bytes)   // the existence check; a refused call leaves no trace
    | WriteJson(i: nat)
    | WriteSidecar(i: nat)                // and return (path, digest)
    | Crash(i: nat)

  predicate Active(c: Call) {
    c.at == Checked || c.at == JsonWritten
  }

  /** Concurrent calls use distinct ids: nobody else is between its check and its return. */
  predicate Allowed(s: State, e: Event) {
    match e
    case Begin(base, _) => forall c <- s.calls :: Active(c) ==> c.base != base
    case WriteJson(i) => i < |s.calls| && s.calls[i].at == Checked
    case WriteSidecar(i) => i < |s.calls| && s.calls[i].at == JsonWritten
    case Crash(i) => i < |s.calls| && Active(s.calls[i])
  }

  function Move(s: State, i: nat, to: Progress): seq<Call>
    requires i < |s.calls|
  {
    s.calls[i := s.calls[i].(at := to)]
  }

  function Apply(h: Hash, s: State, e: Event): State {
    match e
    case Begin(base, content) =>
      if JsonPath(base) in s.disk then s else s.(calls := s.calls + [Call(base, content, Checked)])
    case WriteJson(i) =>
      if i >= |s.calls| then s
      else State(s.disk[JsonPath(s.calls[i].base) := s.calls[i].content], Move(s, i, JsonWritten), s.returned)
    case WriteSidecar(i) =>
      if i >= |s.calls| then s
      else
        var c := s.calls[i];
        State(s.disk[SidecarPath(c.base) := Utf8.Encode(h(c.content))], Move(s, i, Returned),
              s.returned + {(JsonPath(c.base), h(c.content))})
    case Crash(i) =>
      if i >= |s.calls| then s else s.(calls := Move(s, i, Dead))
  }

  function Exec(h: Hash, s: State, run: seq<Event>): State
    decreases |run|
  {
    if run == [] then s else Exec(h, Apply(h, s, run[0]), run[1..])
  }

  ghost predicate Legal(h: Hash, s: State, run: seq<Event>)
    decreases |run|
  {
    run == [] || (Allowed(s, run[0]) && Legal(h, Apply(h, s, run[0]), run[1..]))
  }

  ghost predicate CallsMatchDisk(s: State) {
    forall c <- s.calls ::
      && (Active(c) ==> SidecarPath(c.base) !in s.disk)
      && (c.at == Checked ==> JsonPath(c.base) !in s.disk)
      && (c.at == JsonWritten ==> JsonPath(c.base) in s.disk && s.disk[JsonPath(c.base)] == c.content)
  }

  ghost predicate ActiveApart(s: State) {
    forall i, j :: 0 <= i < j < |s.calls| && Active(s.calls[i]) && Active(s.calls[j]) ==>
      s.calls[i].base != s.calls[j].base
  }

  ghost predicate ReturnedVerify(h: Hash, s: State) {
    forall r <- s.returned :: Verifies(h, s.disk, r.0, r.1)
  }

  ghost predicate Invariant(h: Hash, s: State) {
    SidecarsMatch(h, s.disk) && CallsMatchDisk(s) && ActiveApart(s) && ReturnedVerify(h, s)
  }

  lemma WriteJsonKeeps(h: Hash, s: State, i: nat)
    requires Invariant(h, s) && Allowed(s, WriteJson(i))
    ensures var t := Apply(h, s, WriteJson(i)); Invariant(h, t) && Extends(s.disk, t.disk)
  {
    var c := s.calls[i];
    assert c in s.calls;
    var t := Apply(h, s, WriteJson(i));
    forall b: Path
      ensures JsonPath(c.base) != SidecarPath(b)
      ensures JsonPath(c.base) == JsonPath(b) ==> c.base == b
    {
      PathsApart(c.base, b);
    }
    forall k | 0 <= k < |t.calls|
      ensures var d := t.calls[k];
        && (Active(d) ==> SidecarPath(d.base) !in t.disk)
        && (d.at == Checked ==> JsonPath(d.base) !in t.disk)
        && (d.at == JsonWritten ==> JsonPath(d.base) in t.disk && t.disk[JsonPath(d.base)] == d.content)
    {
      assert s.calls[k] in s.calls;
      assert k == i || t.calls[k] == s.calls[k];
    }
  }

  lemma WriteSidecarKeeps(h: Hash, s: State, i: nat)
    requires IsHash(h) && Invariant(h, s) && Allowed(s, WriteSidecar(i))
    ensures var t := Apply(h, s, WriteSidecar(i)); Invariant(h, t) && Extends(s.disk, t.disk)
  {
    var c := s.calls[i];
    assert c in s.calls;
    var t := Apply(h, s, WriteSidecar(i));
    forall b: Path
      ensures JsonPath(b) != SidecarPath(c.base)
      ensures SidecarPath(c.base) == SidecarPath(b) ==> c.base == b
    {
      PathsApart(b, c.base);
    }
    forall k | 0 <= k < |t.calls|
      ensures var d := t.calls[k];
        && (Active(d) ==> SidecarPath(d.base) !in t.disk)
        && (d.at == Checked ==> JsonPath(d.base) !in t.disk)
        && (d.at == JsonWritten ==> JsonPath(d.base) in t.disk && t.disk[JsonPath(d.base)] == d.content)
    {
      assert s.calls[k] in s.calls;
      assert k == i || t.calls[k] == s.calls[k];
    }
  }

  lemma StepKeeps(h: Hash, s: State, e: Event)
    requires IsHash(h) && Invariant(h, s) && Allowed(s, e)
    ensures var t := Apply(h, s, e);
      Invariant(h, t) && Extends(s.disk, t.disk) && s.returned <= t.returned
  {
    match e
    case Begin(base, content) =>
      if JsonPath(base) !in s.disk {
        assert SidecarPath(base) !in s.disk;
      }
    case WriteJson(i) => WriteJsonKeeps(h, s, i);
    case WriteSidecar(i) => WriteSidecarKeeps(h, s, i);
    case Crash(i) =>
      var t := Apply(h, s, e);
      forall k | 0 <= k < |t.calls| ensures t.calls[k].at == Dead || t.calls[k] in s.calls {
        assert k == i || t.calls[k] == s.calls[k];
      }
  }

  /**
   Over any run no stored file ever changes, every sidecar holds the hash of its JSON file, and
   every (path, digest) ever returned still passes `verify_raw`.
   */
  lemma {:induction false} StoredEvidenceNeverChanges(h: Hash, s: State, run: seq<Event>)
    requires IsHash(h) && Invariant(h, s) && Legal(h, s, run)
    ensures var t := Exec(h, s, run);
      && Extends(s.disk, t.disk)
      && s.returned <= t.returned
      && SidecarsMatch(h, t.disk)
      && (forall r <- t.returned :: Verifies(h, t.disk, r.0, r.1))
      && Invariant(h, t)
    decreases |run|
  {
    if run != [] {
      StepKeeps(h, s, run[0]);
      StoredEvidenceNeverChanges(h, Apply(h, s, run[0]), run[1..]);
    }
  }

  /** One call on its own takes the disk where `EvidenceVault.PreserveRaw` takes it. */
  lemma UninterruptedCall(h: Hash, s: State, base: Path, content: Bytes)
    requires JsonPath(base) !in s.disk
    ensures var n := |s.calls|; var run := [Begin(base, content), WriteJson(n), WriteSidecar(n)];
      var t := Exec(h, s, run);
      && t.disk == s.disk[JsonPath(base) := content][SidecarPath(base) := Utf8.Encode(h(content))]
      && t.returned == s.returned + {(JsonPath(base), h(content))}
  {
    var n := |s.calls|;
    var s1 := Apply(h, s, Begin(base, content));
    var s2 := Apply(h, s1, WriteJson(n));
    var s3 := Apply(h, s2, WriteSidecar(n));
    var e1, e2, e3 := Begin(base, content), WriteJson(n), WriteSidecar(n);
    assert [e1, e2, e3][1..] == [e2, e3] && [e2, e3][1..] == [e3] && [e3][1..] == [];
    assert Exec(h, s2, [e3]) == Exec(h, s3, []);
    assert Exec(h, s1, [e2, e3]) == Exec(h, s2, [e3]);
  }

  /**
   The existence check alone does not protect two concurrent calls with one id, whatever the vault
   held before: the second call overwrites the file, and the first returned pair survives exactly
   when the digests agree.
   */
  lemma SharedIdRace(h: Hash, s: State, base: Path, first: Bytes, second: Bytes)
    requires IsHash(h) && JsonPath(base) !in s.disk
    ensures var n := |s.calls|;
      var race := [Begin(base, first), Begin(base, second), WriteJson(n), WriteSidecar(n), WriteJson(n + 1)];
      var t := Exec(h, s, race);
      && (JsonPath(base), h(first)) in t.returned
      && (Verifies(h, t.disk, JsonPath(base), h(first)) <==> h(first) == h(second))
  {
    var n := |s.calls|;
    var e0, e1, e2 := Begin(base, first), Begin(base, second), WriteJson(n);
    var e3, e4 := WriteSidecar(n), WriteJson(n + 1);
    var s1 := Apply(h, s, e0);
    var s2 := Apply(h, s1, e1);
    var s3 := Apply(h, s2, e2);
    var s4 := Apply(h, s3, e3);
    var s5 := Apply(h, s4, e4);
    PathsApart(base, base);
    assert [e4][1..] == [] && [e3, e4][1..] == [e4] && [e2, e3, e4][1..] == [e3, e4];
    assert [e1, e2, e3, e4][1..] == [e2, e3, e4] && [e0, e1, e2, e3, e4][1..] == [e1, e2, e3, e4];
    assert Exec(h, s4, [e4]) == s5;
    assert Exec(h, s3, [e3, e4]) == s5;
    assert Exec(h, s2, [e2, e3, e4]) == s5;
    assert Exec(h, s1, [e1, e2, e3, e4]) == s5;
  }
}
