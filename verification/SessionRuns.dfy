/** Runs of the session store: eager purging is invisible, and every session has one consumed challenge behind it. */
module SessionRuns {
  import opened Basics
  import opened Sessions

  // ---- purging compared with a store that never purges ----

  /** One critical section, in lock order. */
  datatype Section =
    | Create(now: Time, nonce: string, record: ChallengeRecord)
    | Take(now: Time, nonce: string, message: string, signature: string)
    | Mint(digest: string, principal: WalletPrincipal)
    | Resolve(now: Time, digest: string)

  datatype Answer = Done | Judged(outcome: Outcome) | Found(principal: Option<WalletPrincipal>)

  function Purging(s: Store, e: Section, recover: Recovery): (Answer, Store) {
    match e
    case Create(now, nonce, record) => (Done, AddChallenge(Purge(s, now), nonce, record))
    case Take(now, nonce, message, signature) =>
      var p := Purge(s, now);
      (Judged(Judge(Lookup(p.challenges, nonce), now, message, signature, recover)), PopChallenge(p, nonce))
    case Mint(digest, principal) => (Done, AddSession(s, digest, principal))
    case Resolve(now, digest) => (Found(Lookup(Purge(s, now).sessions, digest)), Purge(s, now))
  }

  /** The reference: nothing is dropped, and expiry is only looked at on lookup. */
  function Keeping(s: Store, e: Section, recover: Recovery): (Answer, Store) {
    match e
    case Create(_, nonce, record) => (Done, AddChallenge(s, nonce, record))
    case Take(now, nonce, message, signature) =>
      (Judged(Judge(Lookup(s.challenges, nonce), now, message, signature, recover)), PopChallenge(s, nonce))
    case Mint(digest, principal) => (Done, AddSession(s, digest, principal))
    case Resolve(now, digest) =>
      var p := Lookup(s.sessions, digest);
      (Found(if p.Some? && p.value.expiresAt > now then p else None), s)
  }

  function PurgingAnswers(s: Store, run: seq<Section>, recover: Recovery): seq<Answer>
    decreases |run|
  {
    if run == [] then []
    else
      var (a, t) := Purging(s, run[0], recover);
      [a] + PurgingAnswers(t, run[1..], recover)
  }

  function KeepingAnswers(s: Store, run: seq<Section>, recover: Recovery): seq<Answer>
    decreases |run|
  {
    if run == [] then []
    else
      var (a, t) := Keeping(s, run[0], recover);
      [a] + KeepingAnswers(t, run[1..], recover)
  }

  function ClockAfter(clock: Time, e: Section): Time {
    if e.Mint? then clock else e.now
  }

  /** Clock readings do not decrease in lock order. */
  predicate Monotone(clock: Time, run: seq<Section>)
    decreases |run|
  {
    run == [] || (ClockAfter(clock, run[0]) >= clock && Monotone(ClockAfter(clock, run[0]), run[1..]))
  }

  /** The purged store holds nothing else, and everything not yet expired. */
  ghost predicate Within(p: Store, k: Store) {
    && (forall n :: n in p.challenges ==> n in k.challenges && p.challenges[n] == k.challenges[n])
    && (forall d :: d in p.sessions ==> d in k.sessions && p.sessions[d] == k.sessions[d])
  }

  ghost predicate HoldsUnexpired(p: Store, k: Store, clock: Time) {
    && (forall n :: n in k.challenges && k.challenges[n].expiresAt > clock ==> n in p.challenges)
    && (forall d :: d in k.sessions && k.sessions[d].expiresAt > clock ==> d in p.sessions)
  }

  /** Looking up after a purge is looking up what has not expired. */
  lemma LookupsAgree(p: Store, k: Store, clock: Time, now: Time, key: string)
    requires Within(p, k) && HoldsUnexpired(p, k, clock) && now >= clock
    ensures var c, d := Lookup(Purge(p, now).challenges, key), Lookup(k.challenges, key);
      c == if d.Some? && d.value.expiresAt > now then d else None
    ensures var c, d := Lookup(Purge(p, now).sessions, key), Lookup(k.sessions, key);
      c == if d.Some? && d.value.expiresAt > now then d else None
    ensures Within(Purge(p, now), k) && HoldsUnexpired(Purge(p, now), k, now)
  {
  }

  lemma SectionAgrees(p: Store, k: Store, clock: Time, e: Section, recover: Recovery)
    requires Within(p, k) && HoldsUnexpired(p, k, clock) && ClockAfter(clock, e) >= clock
    ensures Purging(p, e, recover).0 == Keeping(k, e, recover).0
    ensures Within(Purging(p, e, recover).1, Keeping(k, e, recover).1)
    ensures HoldsUnexpired(Purging(p, e, recover).1, Keeping(k, e, recover).1, ClockAfter(clock, e))
  {
    hide Ascii, Purge, Lookup;
    match e
    case Create(now, nonce, _) => LookupsAgree(p, k, clock, now, nonce);
    case Take(now, nonce, _, _) => LookupsAgree(p, k, clock, now, nonce);
    case Mint(_, _) =>
    case Resolve(now, digest) => LookupsAgree(p, k, clock, now, digest);
  }

  /** In lock-order-monotone runs the purging store answers every request as the reference does. */
  lemma {:induction false} PurgingIsInvisible(p: Store, k: Store, clock: Time, run: seq<Section>, recover: Recovery)
    requires Within(p, k) && HoldsUnexpired(p, k, clock) && Monotone(clock, run)
    ensures PurgingAnswers(p, run, recover) == KeepingAnswers(k, run, recover)
    decreases |run|
  {
    hide Purging, Keeping, Within, HoldsUnexpired;
    if run != [] {
      SectionAgrees(p, k, clock, run[0], recover);
      PurgingIsInvisible(Purging(p, run[0], recover).1, Keeping(k, run[0], recover).1, ClockAfter(clock, run[0]),
                         run[1..], recover);
    }
  }

  /** `a` is what the reference says, or a refusal. */
  predicate NoMoreThan(a: Answer, b: Answer) {
    a == b || a == Judged(Refused) || a == Found(None)
  }

  lemma SectionGrantsNoMore(p: Store, k: Store, e: Section, recover: Recovery)
    requires Within(p, k)
    ensures NoMoreThan(Purging(p, e, recover).0, Keeping(k, e, recover).0)
    ensures Within(Purging(p, e, recover).1, Keeping(k, e, recover).1)
  {
    hide Ascii;
  }

  /** Whatever the clocks do, purging never grants what the reference would refuse. */
  lemma {:induction false} PurgingGrantsNoMore(p: Store, k: Store, run: seq<Section>, recover: Recovery)
    requires Within(p, k)
    ensures var a, b := PurgingAnswers(p, run, recover), KeepingAnswers(k, run, recover);
      |a| == |b| && forall i :: 0 <= i < |a| ==> NoMoreThan(a[i], b[i])
    decreases |run|
  {
    hide Purging, Keeping, Within, NoMoreThan;
    if run != [] {
      SectionGrantsNoMore(p, k, run[0], recover);
      PurgingGrantsNoMore(Purging(p, run[0], recover).1, Keeping(k, run[0], recover).1, run[1..], recover);
    }
  }

  // ---- when purging shows ----

  const NOTHING := Store(map[], map[])

  function PurgingState(s: Store, run: seq<Section>, recover: Recovery): Store
    decreases |run|
  {
    if run == [] then s else PurgingState(Purging(s, run[0], recover).1, run[1..], recover)
  }

  function KeepingState(s: Store, run: seq<Section>, recover: Recovery): Store
    decreases |run|
  {
    if run == [] then s else KeepingState(Keeping(s, run[0], recover).1, run[1..], recover)
  }

  lemma {:induction false} PurgingSnoc(s: Store, run: seq<Section>, e: Section, recover: Recovery)
    ensures PurgingState(s, run + [e], recover) == Purging(PurgingState(s, run, recover), e, recover).1
    ensures PurgingAnswers(s, run + [e], recover)
         == PurgingAnswers(s, run, recover) + [Purging(PurgingState(s, run, recover), e, recover).0]
    decreases |run|
  {
    hide Purging;
    if run == [] {
      assert [] + [e] == [e] && [e][1..] == [];
      assert PurgingState(s, [e], recover) == PurgingState(Purging(s, e, recover).1, [], recover);
      assert PurgingAnswers(s, [e], recover)
        == [Purging(s, e, recover).0] + PurgingAnswers(Purging(s, e, recover).1, [], recover);
    } else {
      assert (run + [e])[1..] == run[1..] + [e];
      PurgingSnoc(Purging(s, run[0], recover).1, run[1..], e, recover);
    }
  }

  lemma {:induction false} KeepingSnoc(s: Store, run: seq<Section>, e: Section, recover: Recovery)
    ensures KeepingState(s, run + [e], recover) == Keeping(KeepingState(s, run, recover), e, recover).1
    ensures KeepingAnswers(s, run + [e], recover)
         == KeepingAnswers(s, run, recover) + [Keeping(KeepingState(s, run, recover), e, recover).0]
    decreases |run|
  {
    hide Keeping;
    if run == [] {
      assert [] + [e] == [e] && [e][1..] == [];
      assert KeepingState(s, [e], recover) == KeepingState(Keeping(s, e, recover).1, [], recover);
      assert KeepingAnswers(s, [e], recover)
        == [Keeping(s, e, recover).0] + KeepingAnswers(Keeping(s, e, recover).1, [], recover);
    } else {
      assert (run + [e])[1..] == run[1..] + [e];
      KeepingSnoc(Keeping(s, run[0], recover).1, run[1..], e, recover);
    }
  }

  /** Where in a run the challenge was issued that the reference still holds for a nonce. */
  function IssuedAt(run: seq<Section>, nonce: string): (at: Option<nat>)
    ensures at.Some? ==> at.value < |run| && run[at.value].Create? && run[at.value].nonce == nonce
  {
    if run == [] then None
    else
      var last := run[|run| - 1];
      if last.Create? && last.nonce == nonce then Some(|run| - 1)
      else if last.Take? && last.nonce == nonce then None
      else IssuedAt(run[..|run| - 1], nonce)
  }

  /** Where in a run the session was minted that is held for a digest. */
  function MintedAt(run: seq<Section>, digest: string): (at: Option<nat>)
    ensures at.Some? ==> at.value < |run| && run[at.value].Mint? && run[at.value].digest == digest
  {
    if run == [] then None
    else
      var last := run[|run| - 1];
      if last.Mint? && last.digest == digest then Some(|run| - 1) else MintedAt(run[..|run| - 1], digest)
  }

  /** Some reading after position `j` has reached the time `t`. */
  ghost predicate ReachedSince(run: seq<Section>, j: nat, t: Time) {
    exists m: nat :: j < m < |run| && Reads(run[m], t)
  }

  predicate Reads(e: Section, t: Time) {
    !e.Mint? && e.now >= t
  }

  lemma ReachedSnoc(run: seq<Section>, e: Section, j: nat, t: Time)
    requires j < |run|
    ensures ReachedSince(run + [e], j, t) <==> ReachedSince(run, j, t) || Reads(e, t)
  {
    assert (run + [e])[|run|] == e;
    if m: nat :| j < m < |run| && Reads(run[m], t) {
      assert Reads((run + [e])[m], t);
    }
  }

  lemma NothingAfterLast(run: seq<Section>, e: Section, t: Time)
    ensures !ReachedSince(run + [e], |run|, t)
  {
  }

  /** What a store holds for a nonce: the challenge stored last, if `kept` or not reached since. */
  ghost predicate HoldsChallenge(s: Store, run: seq<Section>, nonce: string, kept: bool) {
    Lookup(s.challenges, nonce) == match IssuedAt(run, nonce)
      case Some(j) => if kept || !ReachedSince(run, j, run[j].record.expiresAt) then Some(run[j].record) else None
      case None => None
  }

  ghost predicate HoldsSession(s: Store, run: seq<Section>, digest: string, kept: bool) {
    Lookup(s.sessions, digest) == match MintedAt(run, digest)
      case Some(j) => if kept || !ReachedSince(run, j, run[j].principal.expiresAt) then Some(run[j].principal) else None
      case None => None
  }

  lemma ChallengeStep(p: Store, k: Store, run: seq<Section>, e: Section, recover: Recovery, nonce: string)
    requires HoldsChallenge(p, run, nonce, false) && HoldsChallenge(k, run, nonce, true)
    ensures HoldsChallenge(Purging(p, e, recover).1, run + [e], nonce, false)
    ensures HoldsChallenge(Keeping(k, e, recover).1, run + [e], nonce, true)
  {
    hide Judge, ReachedSince;
    assert (run + [e])[..|run|] == run;
    if IssuedAt(run, nonce).Some? {
      var j := IssuedAt(run, nonce).value;
      ReachedSnoc(run, e, j, run[j].record.expiresAt);
    }
    if e.Create? {
      NothingAfterLast(run, e, e.record.expiresAt);
    }
  }

  lemma SessionStep(p: Store, k: Store, run: seq<Section>, e: Section, recover: Recovery, digest: string)
    requires HoldsSession(p, run, digest, false) && HoldsSession(k, run, digest, true)
    ensures HoldsSession(Purging(p, e, recover).1, run + [e], digest, false)
    ensures HoldsSession(Keeping(k, e, recover).1, run + [e], digest, true)
  {
    hide Judge, ReachedSince;
    assert (run + [e])[..|run|] == run;
    if MintedAt(run, digest).Some? {
      var j := MintedAt(run, digest).value;
      ReachedSnoc(run, e, j, run[j].principal.expiresAt);
    }
    if e.Mint? {
      NothingAfterLast(run, e, e.principal.expiresAt);
    }
  }

  /**
   In any clock order, the reference holds what was stored last, and the purging store holds of
   that what no later reading had reached the expiry of.
   */
  lemma {:induction false} PurgedIsWhatWasReached(run: seq<Section>, recover: Recovery)
    ensures forall nonce :: HoldsChallenge(PurgingState(NOTHING, run, recover), run, nonce, false)
    ensures forall nonce :: HoldsChallenge(KeepingState(NOTHING, run, recover), run, nonce, true)
    ensures forall digest :: HoldsSession(PurgingState(NOTHING, run, recover), run, digest, false)
    ensures forall digest :: HoldsSession(KeepingState(NOTHING, run, recover), run, digest, true)
    decreases |run|
  {
    if run != [] {
      hide Purging, Keeping, HoldsChallenge, HoldsSession;
      var init, e := run[..|run| - 1], run[|run| - 1];
      assert run == init + [e];
      PurgedIsWhatWasReached(init, recover);
      PurgingSnoc(NOTHING, init, e, recover);
      KeepingSnoc(NOTHING, init, e, recover);
      var p, k := PurgingState(NOTHING, init, recover), KeepingState(NOTHING, init, recover);
      forall nonce
        ensures HoldsChallenge(Purging(p, e, recover).1, run, nonce, false)
        ensures HoldsChallenge(Keeping(k, e, recover).1, run, nonce, true)
      {
        ChallengeStep(p, k, init, e, recover, nonce);
      }
      forall digest
        ensures HoldsSession(Purging(p, e, recover).1, run, digest, false)
        ensures HoldsSession(Keeping(k, e, recover).1, run, digest, true)
      {
        SessionStep(p, k, init, e, recover, digest);
      }
    }
  }

  /**
   The lookup finds an entry that its own reading does not see expired but an earlier one, taken
   since it was stored, did; and it would not have been refused for another reason.
   */
  ghost predicate Misses(before: seq<Section>, e: Section, recover: Recovery) {
    match e
    case Take(now, nonce, message, signature) =>
      IssuedAt(before, nonce).Some? &&
      var j := IssuedAt(before, nonce).value;
      var record := before[j].record;
      && record.expiresAt > now && ReachedSince(before, j, record.expiresAt)
      && Judge(Some(record), now, message, signature, recover) != Refused
    case Resolve(now, digest) =>
      MintedAt(before, digest).Some? &&
      var j := MintedAt(before, digest).value;
      before[j].principal.expiresAt > now && ReachedSince(before, j, before[j].principal.expiresAt)
    case _ => false
  }

  lemma AnswerDiffersIffMissed(p: Store, k: Store, before: seq<Section>, e: Section, recover: Recovery)
    requires forall nonce :: HoldsChallenge(p, before, nonce, false) && HoldsChallenge(k, before, nonce, true)
    requires forall digest :: HoldsSession(p, before, digest, false) && HoldsSession(k, before, digest, true)
    ensures Purging(p, e, recover).0 == Keeping(k, e, recover).0 <==> !Misses(before, e, recover)
  {
    hide ReachedSince, Ascii;
    match e
    case Take(now, nonce, message, signature) =>
      assert HoldsChallenge(p, before, nonce, false) && HoldsChallenge(k, before, nonce, true);
    case Resolve(now, digest) =>
      assert HoldsSession(p, before, digest, false) && HoldsSession(k, before, digest, true);
    case _ =>
  }

  ghost predicate NoneMisses(run: seq<Section>, recover: Recovery) {
    forall i: nat :: i < |run| ==> !Misses(run[..i], run[i], recover)
  }

  lemma NoneMissesSnoc(run: seq<Section>, e: Section, recover: Recovery)
    ensures NoneMisses(run + [e], recover) <==> NoneMisses(run, recover) && !Misses(run, e, recover)
  {
    hide Misses;
    var more := run + [e];
    assert more[..|run|] == run && more[|run|] == e;
    forall i: nat | i < |run| ensures Misses(more[..i], more[i], recover) <==> Misses(run[..i], run[i], recover) {
      assert more[..i] == run[..i];
    }
  }

  lemma SnocEqual(a: seq<Answer>, x: Answer, b: seq<Answer>, y: Answer)
    requires |a| == |b|
    ensures a + [x] == b + [y] <==> a == b && x == y
  {
    assert a + [x] == b + [y] ==> (a + [x])[..|a|] == (b + [y])[..|a|] && (a + [x])[|a|] == (b + [y])[|a|];
  }

  /** Over any run and in any clock order, all answers agree exactly when no lookup misses. */
  lemma {:induction false} PurgingShowsIffMissed(run: seq<Section>, recover: Recovery)
    ensures PurgingAnswers(NOTHING, run, recover) == KeepingAnswers(NOTHING, run, recover) <==> NoneMisses(run, recover)
    decreases |run|
  {
    if run != [] {
      hide Purging, Keeping, Misses, NoneMisses, HoldsChallenge, HoldsSession, PurgingAnswers, KeepingAnswers;
      var init, e := run[..|run| - 1], run[|run| - 1];
      assert run == init + [e];
      var p, k := PurgingState(NOTHING, init, recover), KeepingState(NOTHING, init, recover);
      PurgingShowsIffMissed(init, recover);
      NoneMissesSnoc(init, e, recover);
      PurgedIsWhatWasReached(init, recover);
      AnswerDiffersIffMissed(p, k, init, e, recover);
      PurgingSnoc(NOTHING, init, e, recover);
      KeepingSnoc(NOTHING, init, e, recover);
      SameLengths(NOTHING, NOTHING, init, recover);
      SnocEqual(PurgingAnswers(NOTHING, init, recover), Purging(p, e, recover).0,
                KeepingAnswers(NOTHING, init, recover), Keeping(k, e, recover).0);
    }
  }

  lemma {:induction false} SameLengths(p: Store, k: Store, run: seq<Section>, recover: Recovery)
    ensures |PurgingAnswers(p, run, recover)| == |KeepingAnswers(k, run, recover)| == |run|
    decreases |run|
  {
    hide Purging, Keeping;
    if run != [] {
      SameLengths(Purging(p, run[0], recover).1, Keeping(k, run[0], recover).1, run[1..], recover);
    }
  }

  /** A run on which purging shows: a late reading removes a session that an earlier one still asks for. */
  lemma LateReadingPurges(principal: WalletPrincipal, digest: string, recover: Recovery)
    ensures var t := principal.expiresAt;
      var run := [Mint(digest, principal), Resolve(t, digest), Resolve(t - 1, digest)];
      && Misses(run[..2], run[2], recover)
      && PurgingAnswers(NOTHING, run, recover) != KeepingAnswers(NOTHING, run, recover)
  {
    var t := principal.expiresAt;
    var run := [Mint(digest, principal), Resolve(t, digest), Resolve(t - 1, digest)];
    var before := run[..2];
    assert before[..1] == [run[0]] && before[0] == run[0] && before[1] == run[1];
    assert MintedAt(before[..1], digest) == Some(0);
    assert MintedAt(before, digest) == Some(0);
    assert Reads(before[1], t);
    PurgingShowsIffMissed(run, recover);
  }

  // ---- interleaved verifications ----

  datatype Issue = Issue(record: ChallengeRecord, issuedAt: Time)

  datatype Grant = Grant(principal: WalletPrincipal, message: string, signature: string)

  /**
   The store together with what has happened: challenges ever issued (by nonce), challenges
   consumed by a successful check, checks whose session is not minted yet, and sessions ever
   minted (digest to nonce).
   */
  datatype World = World(
    store: Store, issued: map<string, Issue>, granted: map<string, Grant>, pending: set<string>,
    minted: map<string, string>)

  /** Any number of `verify_challenge` calls may be between their two critical sections, or die there. */
  datatype Event =
    | CreateChallenge(now: Time, nonce: string, address: string, chainId: int, message: string)
    | TakeChallenge(now: Time, nonce: string, message: string, signature: string)
    | MintSession(nonce: string, digest: string)
    | Abandon(nonce: string)
    | ResolveSession(now: Time, digest: string)

  /** Nonces and tokens are drawn fresh; a session is minted only by a call whose check succeeded. */
  predicate Allowed(w: World, e: Event) {
    match e
    case CreateChallenge(_, nonce, _, _, _) => nonce !in w.issued
    case MintSession(nonce, digest) => nonce in w.pending && nonce in w.granted && digest !in w.minted
    case _ => true
  }

  function Apply(w: World, e: Event, recover: Recovery): World {
    match e
    case CreateChallenge(now, nonce, address, chainId, message) =>
      var record := ChallengeRecord(Lower(address), chainId, message, now + CHALLENGE_TTL);
      w.(store := AddChallenge(Purge(w.store, now), nonce, record), issued := w.issued[nonce := Issue(record, now)])
    case TakeChallenge(now, nonce, message, signature) =>
      var p := Purge(w.store, now);
      var outcome := Judge(Lookup(p.challenges, nonce), now, message, signature, recover);
      if outcome.Granted? then
        w.(store := PopChallenge(p, nonce), pending := w.pending + {nonce},
           granted := w.granted[nonce := Grant(outcome.principal, message, signature)])
      else w.(store := PopChallenge(p, nonce))
    case MintSession(nonce, digest) =>
      if nonce in w.granted then
        w.(store := AddSession(w.store, digest, w.granted[nonce].principal), pending := w.pending - {nonce},
           minted := w.minted[digest := nonce])
      else w
    case Abandon(nonce) => w.(pending := w.pending - {nonce})
    case ResolveSession(now, _) => w.(store := Purge(w.store, now))
  }

  function Exec(w: World, run: seq<Event>, recover: Recovery): World
    decreases |run|
  {
    if run == [] then w else Exec(Apply(w, run[0], recover), run[1..], recover)
  }

  ghost predicate Legal(w: World, run: seq<Event>, recover: Recovery)
    decreases |run|
  {
    run == [] || (Allowed(w, run[0]) && Legal(Apply(w, run[0], recover), run[1..], recover))
  }

  /** A granted principal is that of its challenge, for the right message and signer, and not for longer. */
  ghost predicate Justified(issued: map<string, Issue>, nonce: string, g: Grant, recover: Recovery) {
    && nonce in issued
    && var i := issued[nonce];
    && g.principal.address == i.record.address && g.principal.chainId == i.record.chainId
    && g.message == i.record.message
    && recover(g.message, g.signature).Some? && Lower(recover(g.message, g.signature).value) == i.record.address
    && g.principal.expiresAt < i.issuedAt + CHALLENGE_TTL + SESSION_TTL
  }

  ghost predicate ChallengesOpen(w: World) {
    forall n :: n in w.store.challenges ==>
      && n in w.issued && n !in w.granted && w.store.challenges[n] == w.issued[n].record
      && w.issued[n].record.expiresAt == w.issued[n].issuedAt + CHALLENGE_TTL
  }

  ghost predicate SessionsMinted(w: World) {
    forall d :: d in w.store.sessions ==>
      d in w.minted && w.minted[d] in w.granted && w.store.sessions[d] == w.granted[w.minted[d]].principal
  }

  ghost predicate MintedOnce(w: World) {
    && w.pending <= w.granted.Keys
    && (forall d :: d in w.minted ==> w.minted[d] in w.granted && w.minted[d] !in w.pending)
    && (forall d, e :: d in w.minted && e in w.minted && w.minted[d] == w.minted[e] ==> d == e)
  }

  ghost predicate Counted(w: World) {
    |w.minted.Keys| + |w.pending| <= |w.granted.Keys|
  }

  ghost predicate Invariant(w: World, recover: Recovery) {
    && ChallengesOpen(w) && SessionsMinted(w) && MintedOnce(w) && Counted(w)
    && (forall n :: n in w.granted ==> Justified(w.issued, n, w.granted[n], recover))
  }

  lemma GrantedMeans(record: Option<ChallengeRecord>, now: Time, message: string, signature: string, recover: Recovery)
    requires Judge(record, now, message, signature, recover).Granted?
    ensures record.Some? && record.value.expiresAt > now && record.value.message == message
    ensures recover(message, signature).Some? && Lower(recover(message, signature).value) == record.value.address
    ensures Judge(record, now, message, signature, recover).principal ==
      WalletPrincipal(record.value.address, record.value.chainId, now + SESSION_TTL)
  {
  }

  lemma TakeKeepsOpen(w: World, now: Time, nonce: string, message: string, signature: string, recover: Recovery)
    requires ChallengesOpen(w)
    ensures ChallengesOpen(Apply(w, TakeChallenge(now, nonce, message, signature), recover))
  {
    hide Judge;
  }

  lemma AddOne<T>(s: set<T>, x: T)
    ensures x !in s ==> |s + {x}| == |s| + 1
    ensures x in s ==> |s - {x}| == |s| - 1
    ensures x !in s ==> s - {x} == s
  {
  }

  /** A check that succeeds consumes a challenge nobody consumed before. */
  lemma TakeConsumes(w: World, now: Time, nonce: string, message: string, signature: string, recover: Recovery)
    requires ChallengesOpen(w)
    ensures var t := Apply(w, TakeChallenge(now, nonce, message, signature), recover);
      && t.minted == w.minted
      && ((t.granted == w.granted && t.pending == w.pending)
          || (nonce !in w.granted && t.pending == w.pending + {nonce}
              && t.granted.Keys == w.granted.Keys + {nonce}
              && forall n :: n in w.granted ==> t.granted[n] == w.granted[n]))
      && (forall d :: d in t.store.sessions ==> d in w.store.sessions && t.store.sessions[d] == w.store.sessions[d])
  {
    hide Judge;
    var record := Lookup(Purge(w.store, now).challenges, nonce);
    if Judge(record, now, message, signature, recover).Granted? {
      GrantedMeans(record, now, message, signature, recover);
      assert nonce in w.store.challenges;
    }
  }

  lemma TakeKeepsSessions(w: World, now: Time, nonce: string, message: string, signature: string, recover: Recovery)
    requires ChallengesOpen(w) && SessionsMinted(w) && MintedOnce(w)
    ensures var t := Apply(w, TakeChallenge(now, nonce, message, signature), recover);
      SessionsMinted(t) && MintedOnce(t)
  {
    hide Apply;
    TakeConsumes(w, now, nonce, message, signature, recover);
  }

  lemma TakeKeepsCount(w: World, now: Time, nonce: string, message: string, signature: string, recover: Recovery)
    requires ChallengesOpen(w) && MintedOnce(w) && Counted(w)
    ensures Counted(Apply(w, TakeChallenge(now, nonce, message, signature), recover))
  {
    hide Apply, ChallengesOpen;
    var t := Apply(w, TakeChallenge(now, nonce, message, signature), recover);
    TakeConsumes(w, now, nonce, message, signature, recover);
    if t.granted != w.granted {
      assert t.granted.Keys == w.granted.Keys + {nonce};
      AddOne(w.granted.Keys, nonce);
      AddOne(w.pending, nonce);
    }
  }

  lemma TakeKeepsJustified(w: World, now: Time, nonce: string, message: string, signature: string, recover: Recovery)
    requires ChallengesOpen(w) && forall n :: n in w.granted ==> Justified(w.issued, n, w.granted[n], recover)
    ensures var t := Apply(w, TakeChallenge(now, nonce, message, signature), recover);
      forall n :: n in t.granted ==> Justified(t.issued, n, t.granted[n], recover)
  {
    hide Judge;
    var record := Lookup(Purge(w.store, now).challenges, nonce);
    var t := Apply(w, TakeChallenge(now, nonce, message, signature), recover);
    if Judge(record, now, message, signature, recover).Granted? {
      GrantedMeans(record, now, message, signature, recover);
      assert nonce in w.store.challenges;
    }
    forall n | n in t.granted ensures Justified(t.issued, n, t.granted[n], recover) {
      assert n == nonce || n in w.granted;
    }
  }

  lemma MintKeepsSessions(w: World, nonce: string, digest: string, recover: Recovery)
    requires SessionsMinted(w) && MintedOnce(w) && Counted(w) && Allowed(w, MintSession(nonce, digest))
    ensures var t := Apply(w, MintSession(nonce, digest), recover); SessionsMinted(t) && MintedOnce(t) && Counted(t)
  {
    var t := Apply(w, MintSession(nonce, digest), recover);
    assert t.minted.Keys == w.minted.Keys + {digest};
    AddOne(w.minted.Keys, digest);
    AddOne(w.pending, nonce);
  }

  lemma CreateKeeps(w: World, now: Time, nonce: string, address: string, chainId: int, message: string,
                    recover: Recovery)
    requires Invariant(w, recover) && nonce !in w.issued
    ensures Invariant(Apply(w, CreateChallenge(now, nonce, address, chainId, message), recover), recover)
  {
    var t := Apply(w, CreateChallenge(now, nonce, address, chainId, message), recover);
    forall n | n in t.granted ensures Justified(t.issued, n, t.granted[n], recover) {
      assert Justified(w.issued, n, w.granted[n], recover);
    }
  }

  lemma AbandonKeepsCount(w: World, nonce: string, recover: Recovery)
    requires MintedOnce(w) && Counted(w)
    ensures var t := Apply(w, Abandon(nonce), recover); MintedOnce(t) && Counted(t)
  {
    AddOne(w.pending, nonce);
  }

  lemma AbandonKeeps(w: World, nonce: string, recover: Recovery)
    requires Invariant(w, recover)
    ensures Invariant(Apply(w, Abandon(nonce), recover), recover)
  {
    hide Justified, MintedOnce, Counted;
    AbandonKeepsCount(w, nonce, recover);
  }

  lemma MintKeepsOpen(w: World, nonce: string, digest: string, recover: Recovery)
    requires Invariant(w, recover) && Allowed(w, MintSession(nonce, digest))
    ensures var t := Apply(w, MintSession(nonce, digest), recover);
      ChallengesOpen(t) && forall n :: n in t.granted ==> Justified(t.issued, n, t.granted[n], recover)
  {
    hide Justified, SessionsMinted, MintedOnce;
  }

  lemma ResolveKeeps(w: World, now: Time, digest: string, recover: Recovery)
    requires Invariant(w, recover)
    ensures Invariant(Apply(w, ResolveSession(now, digest), recover), recover)
  {
    hide Justified;
  }

  lemma StepKeeps(w: World, e: Event, recover: Recovery)
    requires Invariant(w, recover) && Allowed(w, e)
    ensures Invariant(Apply(w, e, recover), recover)
  {
    hide Apply, Justified, SessionsMinted, MintedOnce, ChallengesOpen, Counted;
    match e
    case CreateChallenge(now, nonce, address, chainId, message) =>
      CreateKeeps(w, now, nonce, address, chainId, message, recover);
    case TakeChallenge(now, nonce, message, signature) =>
      TakeKeepsOpen(w, now, nonce, message, signature, recover);
      TakeKeepsSessions(w, now, nonce, message, signature, recover);
      TakeKeepsCount(w, now, nonce, message, signature, recover);
      TakeKeepsJustified(w, now, nonce, message, signature, recover);
    case MintSession(nonce, digest) =>
      MintKeepsSessions(w, nonce, digest, recover);
      MintKeepsOpen(w, nonce, digest, recover);
    case Abandon(nonce) => AbandonKeeps(w, nonce, recover);
    case ResolveSession(now, digest) => ResolveKeeps(w, now, digest, recover);
  }

  lemma {:induction false} InvariantHolds(w: World, run: seq<Event>, recover: Recovery)
    requires Invariant(w, recover) && Legal(w, run, recover)
    ensures Invariant(Exec(w, run, recover), recover)
    decreases |run|
  {
    if run != [] {
      StepKeeps(w, run[0], recover);
      InvariantHolds(Apply(w, run[0], recover), run[1..], recover);
    }
  }

  const EMPTY := World(Store(map[], map[]), map[], map[], {}, map[])

  /**
   However verifications interleave: sessions never outnumber challenges, one challenge mints at
   most one session, and a resolved principal is unexpired, carries the address and chain of a
   consumed challenge whose message and signer matched, and ends within 8 h 5 min of its issue.
   */
  lemma SessionsAreJustified(run: seq<Event>, now: Time, digest: string, recover: Recovery)
    requires Legal(EMPTY, run, recover)
    ensures var w := Exec(EMPTY, run, recover);
      && |w.minted.Keys| <= |w.issued.Keys|
      && (forall d, e :: d in w.minted && e in w.minted && w.minted[d] == w.minted[e] ==> d == e)
      && var found := Lookup(Purge(w.store, now).sessions, digest);
      found.Some? ==>
        && found.value.expiresAt > now
        && digest in w.minted && w.minted[digest] in w.granted
        && w.minted[digest] !in w.store.challenges
        && var nonce := w.minted[digest];
        && found.value == w.granted[nonce].principal
        && Justified(w.issued, nonce, w.granted[nonce], recover)
  {
    InvariantHolds(EMPTY, run, recover);
    var w := Exec(EMPTY, run, recover);
    forall n | n in w.granted ensures n in w.issued { assert Justified(w.issued, n, w.granted[n], recover); }
    assert w.granted.Keys <= w.issued.Keys;
    SubsetSize(w.granted.Keys, w.issued.Keys);
  }

  lemma {:induction false} SubsetSize<T>(a: set<T>, b: set<T>)
    requires a <= b
    ensures |a| <= |b|
  {
    assert b == a + (b - a);
  }

  // ---- good verifications succeed ----

  lemma {:induction false} ExecSnoc(w: World, run: seq<Event>, e: Event, recover: Recovery)
    ensures Exec(w, run + [e], recover) == Apply(Exec(w, run, recover), e, recover)
    ensures Legal(w, run + [e], recover) <==> Legal(w, run, recover) && Allowed(Exec(w, run, recover), e)
    decreases |run|
  {
    hide Apply, Allowed;
    if run == [] {
      assert [] + [e] == [e] && [e][1..] == [];
      assert Exec(w, [e], recover) == Exec(Apply(w, e, recover), [], recover);
    } else {
      assert (run + [e])[1..] == run[1..] + [e];
      ExecSnoc(Apply(w, run[0], recover), run[1..], e, recover);
    }
  }

  lemma {:induction false} LegalPrefix(run: seq<Event>, m: nat, recover: Recovery)
    requires Legal(EMPTY, run, recover) && m <= |run|
    ensures Legal(EMPTY, run[..m], recover)
    decreases |run|
  {
    hide Legal, Exec;
    if m < |run| {
      var init := run[..|run| - 1];
      assert run == init + [run[|run| - 1]];
      ExecSnoc(EMPTY, init, run[|run| - 1], recover);
      LegalPrefix(init, m, recover);
      assert run[..m] == init[..m];
    } else {
      assert run[..m] == run;
    }
  }

  /** The world after the first `m` events. */
  function At(run: seq<Event>, m: nat, recover: Recovery): World
    requires m <= |run|
  {
    Exec(EMPTY, run[..m], recover)
  }

  lemma OneStep(run: seq<Event>, m: nat, recover: Recovery)
    requires Legal(EMPTY, run, recover) && m < |run|
    ensures At(run, m + 1, recover) == Apply(At(run, m, recover), run[m], recover)
    ensures Allowed(At(run, m, recover), run[m]) && Invariant(At(run, m, recover), recover)
  {
    hide Exec, Legal, Apply, Allowed, Invariant;
    assert run[..m + 1] == run[..m] + [run[m]];
    LegalPrefix(run, m, recover);
    LegalPrefix(run, m + 1, recover);
    ExecSnoc(EMPTY, run[..m], run[m], recover);
    EmptyInvariant(recover);
    InvariantHolds(EMPTY, run[..m], recover);
  }

  lemma EmptyInvariant(recover: Recovery)
    ensures Invariant(EMPTY, recover)
  {
  }

  predicate TakesReading(e: Event) {
    e.CreateChallenge? || e.TakeChallenge? || e.ResolveSession?
  }

  /** Clock readings do not decrease, and none is later than `now`. */
  ghost predicate ReadingsUpTo(run: seq<Event>, now: Time) {
    && (forall a, b :: 0 <= a < b < |run| && TakesReading(run[a]) && TakesReading(run[b]) ==> run[a].now <= run[b].now)
    && (forall a :: 0 <= a < |run| && TakesReading(run[a]) ==> run[a].now <= now)
  }

  lemma IssuedStays(w: World, e: Event, nonce: string, recover: Recovery)
    requires nonce in w.issued && Allowed(w, e)
    ensures var t := Apply(w, e, recover); nonce in t.issued && t.issued[nonce] == w.issued[nonce]
  {
    hide Judge;
  }

  /** An issued challenge is held until it is taken or a reading reaches its expiry. */
  lemma HeldStays(w: World, e: Event, nonce: string, record: ChallengeRecord, recover: Recovery)
    requires Allowed(w, e) && nonce in w.issued
    requires nonce in w.store.challenges && w.store.challenges[nonce] == record
    requires !(e.TakeChallenge? && e.nonce == nonce) && (TakesReading(e) ==> e.now < record.expiresAt)
    ensures var t := Apply(w, e, recover); nonce in t.store.challenges && t.store.challenges[nonce] == record
  {
    hide Judge;
  }

  lemma {:induction false} HeldUntilTaken(run: seq<Event>, i: nat, m: nat, nonce: string, record: ChallengeRecord,
                                          recover: Recovery)
    requires Legal(EMPTY, run, recover) && i < m <= |run|
    requires run[i].CreateChallenge? && run[i].nonce == nonce
    requires record == ChallengeRecord(Lower(run[i].address), run[i].chainId, run[i].message,
                                       run[i].now + CHALLENGE_TTL)
    requires forall a :: i < a < m ==> !(run[a].TakeChallenge? && run[a].nonce == nonce)
    requires forall a :: i < a < m && TakesReading(run[a]) ==> run[a].now < record.expiresAt
    ensures var w := At(run, m, recover);
      nonce in w.issued && nonce in w.store.challenges && w.store.challenges[nonce] == record
    decreases m
  {
    hide Apply, Allowed, Invariant, At;
    OneStep(run, m - 1, recover);
    var w := At(run, m - 1, recover);
    if m - 1 == i {
      Created(w, run[i].now, nonce, run[i].address, run[i].chainId, run[i].message, recover);
    } else {
      HeldUntilTaken(run, i, m - 1, nonce, record, recover);
      IssuedStays(w, run[m - 1], nonce, recover);
      HeldStays(w, run[m - 1], nonce, record, recover);
    }
  }

  lemma Created(w: World, now: Time, nonce: string, address: string, chainId: int, message: string, recover: Recovery)
    ensures var t := Apply(w, CreateChallenge(now, nonce, address, chainId, message), recover);
      && nonce in t.issued && nonce in t.store.challenges
      && t.store.challenges[nonce] == ChallengeRecord(Lower(address), chainId, message, now + CHALLENGE_TTL)
  {
  }

  lemma TakenGrants(w: World, now: Time, nonce: string, message: string, signature: string, recover: Recovery)
    requires nonce in w.store.challenges && RightlySigned(w.store.challenges[nonce], now, message, signature, recover)
    ensures var t := Apply(w, TakeChallenge(now, nonce, message, signature), recover);
      var record := w.store.challenges[nonce];
      nonce in t.granted
      && t.granted[nonce].principal == WalletPrincipal(record.address, record.chainId, now + SESSION_TTL)
  {
    hide Ascii;
  }

  /** What is granted once is never granted differently. */
  lemma GrantStays(w: World, e: Event, nonce: string, recover: Recovery)
    requires Invariant(w, recover) && Allowed(w, e) && nonce in w.granted
    ensures var t := Apply(w, e, recover); nonce in t.granted && t.granted[nonce] == w.granted[nonce]
  {
    hide Judge, Justified, Invariant;
    if e.TakeChallenge? {
      assert ChallengesOpen(w) by { InvariantOpen(w, recover); }
      TakeConsumes(w, e.now, e.nonce, e.message, e.signature, recover);
    }
  }

  lemma InvariantOpen(w: World, recover: Recovery)
    requires Invariant(w, recover)
    ensures ChallengesOpen(w)
  {
    hide Justified, ChallengesOpen, SessionsMinted, MintedOnce, Counted;
  }

  lemma {:induction false} GrantedUntil(run: seq<Event>, j: nat, m: nat, nonce: string, g: Grant, recover: Recovery)
    requires Legal(EMPTY, run, recover) && j <= m <= |run|
    requires nonce in At(run, j, recover).granted && At(run, j, recover).granted[nonce] == g
    ensures nonce in At(run, m, recover).granted && At(run, m, recover).granted[nonce] == g
    decreases m
  {
    hide Apply, Allowed, Invariant, At;
    if j < m {
      OneStep(run, m - 1, recover);
      GrantedUntil(run, j, m - 1, nonce, g, recover);
      GrantStays(At(run, m - 1, recover), run[m - 1], nonce, recover);
    }
  }

  /** A session is held until a reading reaches its expiry. */
  lemma SessionStays(w: World, e: Event, digest: string, p: WalletPrincipal, recover: Recovery)
    requires Allowed(w, e) && digest in w.minted
    requires digest in w.store.sessions && w.store.sessions[digest] == p
    requires TakesReading(e) ==> e.now < p.expiresAt
    ensures var t := Apply(w, e, recover);
      digest in t.minted && digest in t.store.sessions && t.store.sessions[digest] == p
  {
    hide Judge;
  }

  lemma {:induction false} SessionUntil(run: seq<Event>, k: nat, m: nat, digest: string, p: WalletPrincipal,
                                        recover: Recovery)
    requires Legal(EMPTY, run, recover) && k < m <= |run|
    requires run[k].MintSession? && run[k].digest == digest
    requires run[k].nonce in At(run, k, recover).granted && At(run, k, recover).granted[run[k].nonce].principal == p
    requires forall a :: k < a < m && TakesReading(run[a]) ==> run[a].now < p.expiresAt
    ensures var w := At(run, m, recover);
      digest in w.minted && digest in w.store.sessions && w.store.sessions[digest] == p
    decreases m
  {
    hide Apply, Allowed, Invariant, At;
    OneStep(run, m - 1, recover);
    var w := At(run, m - 1, recover);
    if m - 1 == k {
      Minted(w, run[k].nonce, digest, recover);
    } else {
      SessionUntil(run, k, m - 1, digest, p, recover);
      SessionStays(w, run[m - 1], digest, p, recover);
    }
  }

  lemma Minted(w: World, nonce: string, digest: string, recover: Recovery)
    requires nonce in w.granted
    ensures var t := Apply(w, MintSession(nonce, digest), recover);
      && digest in t.minted && digest in t.store.sessions && t.store.sessions[digest] == w.granted[nonce].principal
  {
  }

  /**
   With readings monotone, a challenge that is first taken within five minutes of its issue, with
   its exact message and the owner's signature, gives a session that resolves for eight hours.
   */
  lemma GoodVerificationResolves(run: seq<Event>, i: nat, j: nat, k: nat, now: Time, recover: Recovery)
    requires Legal(EMPTY, run, recover) && ReadingsUpTo(run, now) && i < j < k < |run|
    requires run[i].CreateChallenge? && run[j].TakeChallenge? && run[k].MintSession?
    requires run[i].nonce == run[j].nonce == run[k].nonce && run[j].message == run[i].message
    requires forall a :: i < a < j ==> !(run[a].TakeChallenge? && run[a].nonce == run[j].nonce)
    requires run[j].now < run[i].now + 300000000 && now < run[j].now + 28800000000
    requires recover(run[j].message, run[j].signature).Some?
    requires Lower(recover(run[j].message, run[j].signature).value) == Lower(run[i].address)
    requires Ascii(run[i].message) && Ascii(Lower(run[i].address))
    ensures Lookup(Purge(Exec(EMPTY, run, recover).store, now).sessions, run[k].digest)
      == Some(WalletPrincipal(Lower(run[i].address), run[i].chainId, run[j].now + 28800000000))
  {
    hide Apply, Allowed, Invariant, At, Exec, Legal;
    var nonce := run[j].nonce;
    var record := ChallengeRecord(Lower(run[i].address), run[i].chainId, run[i].message, run[i].now + CHALLENGE_TTL);
    HeldUntilTaken(run, i, j, nonce, record, recover);
    OneStep(run, j, recover);
    TakenGrants(At(run, j, recover), run[j].now, nonce, run[j].message, run[j].signature, recover);
    var g := At(run, j + 1, recover).granted[nonce];
    GrantedUntil(run, j + 1, k, nonce, g, recover);
    SessionUntil(run, k, |run|, run[k].digest, g.principal, recover);
    assert At(run, |run|, recover) == Exec(EMPTY, run, recover) by { WholeRun(run, recover); }
  }

  lemma WholeRun(run: seq<Event>, recover: Recovery)
    ensures At(run, |run|, recover) == Exec(EMPTY, run, recover)
  {
    assert run[..|run|] == run;
  }
}
