/** The in-memory store of single-use wallet challenges and browser sessions. */
module Sessions {
  import opened Basics

  /** Clock readings in microseconds. */
  type Time = int

  const CHALLENGE_TTL: Time := 5 * 60 * 1000000
  const SESSION_TTL: Time := 8 * 3600 * 1000000

  datatype ChallengeRecord = ChallengeRecord(address: string, chainId: int, message: string, expiresAt: Time)

  datatype WalletPrincipal = WalletPrincipal(address: string, chainId: int, expiresAt: Time)

  datatype Store = Store(challenges: map<string, ChallengeRecord>, sessions: map<string, WalletPrincipal>)

  /** Refused is a 401; Crashed is the `TypeError` of comparing text that is not ASCII. */
  datatype Outcome = Refused | Crashed | Granted(principal: WalletPrincipal)

  /** Signer recovery: the address that signed a message, if the signature is well formed. */
  type Recovery = (string, string) -> Option<string>

  predicate Ascii(s: string) {
    forall i :: 0 <= i < |s| ==> s[i] as int < 128
  }

  /** The checks of `verify_challenge` between its two critical sections. */
  function Judge(record: Option<ChallengeRecord>, now: Time, message: string, signature: string, recover: Recovery)
    : Outcome
  {
    if record.None? || record.value.expiresAt <= now then Refused
    else if !Ascii(record.value.message) || !Ascii(message) then Crashed
    else if record.value.message != message then Refused
    else if recover(message, signature).None? then Refused
    else
      var recovered := Lower(recover(message, signature).value);
      if !Ascii(recovered) || !Ascii(record.value.address) then Crashed
      else if recovered != record.value.address then Refused
      else Granted(WalletPrincipal(record.value.address, record.value.chainId, now + SESSION_TTL))
  }

  /** The challenge is unexpired, its message is the one given, and the address signed it. */
  predicate RightlySigned(record: ChallengeRecord, now: Time, message: string, signature: string, recover: Recovery) {
    && now < record.expiresAt
    && record.message == message && Ascii(message)
    && recover(message, signature).Some?
    && Lower(recover(message, signature).value) == record.address && Ascii(record.address)
  }

  /** A comparison is reached of which one side is not ASCII. */
  predicate FailsToCompare(record: ChallengeRecord, now: Time, message: string, signature: string, recover: Recovery) {
    && now < record.expiresAt
    && (|| !Ascii(record.message) || !Ascii(message)
        || (record.message == message && recover(message, signature).Some?
            && (!Ascii(Lower(recover(message, signature).value)) || !Ascii(record.address))))
  }

  // ---- the critical sections as functions of the store ----

  function Lookup<V>(m: map<string, V>, key: string): Option<V> {
    if key in m then Some(m[key]) else None
  }

  function Purge(s: Store, now: Time): Store {
    Store(map k | k in s.challenges && s.challenges[k].expiresAt > now :: s.challenges[k],
          map k | k in s.sessions && s.sessions[k].expiresAt > now :: s.sessions[k])
  }

  function AddChallenge(s: Store, nonce: string, record: ChallengeRecord): Store {
    s.(challenges := s.challenges[nonce := record])
  }

  function PopChallenge(s: Store, nonce: string): Store {
    s.(challenges := s.challenges - {nonce})
  }

  function AddSession(s: Store, digest: string, principal: WalletPrincipal): Store {
    s.(sessions := s.sessions[digest := principal])
  }

  class WalletSessionStore {
    const digestOf: string -> string
    const recover: Recovery
    var challenges: map<string, ChallengeRecord>
    var sessions: map<string, WalletPrincipal>

    constructor (digestOf: string -> string, recover: Recovery)
      ensures this.digestOf == digestOf && this.recover == recover && State() == Store(map[], map[])
    {
      this.digestOf := digestOf;
      this.recover := recover;
      challenges, sessions := map[], map[];
    }

    function State(): Store
      reads this
    {
      Store(challenges, sessions)
    }

    method PurgeExpired(now: Time)
      modifies this
      ensures State() == Purge(old(State()), now)
    {
      challenges := map k | k in challenges && challenges[k].expiresAt > now :: challenges[k];
      sessions := map k | k in sessions && sessions[k].expiresAt > now :: sessions[k];
    }

    /** The nonce is drawn, and the message composed, before the lock is taken. */
    method CreateChallenge(now: Time, nonce: string, address: string, chainId: int, message: string)
      returns (expiresAt: Time)
      modifies this
      ensures expiresAt == now + CHALLENGE_TTL
      ensures State() == AddChallenge(Purge(old(State()), now), nonce,
                                      ChallengeRecord(Lower(address), chainId, message, expiresAt))
    {
      expiresAt := now + CHALLENGE_TTL;
      PurgeExpired(now);
      challenges := challenges[nonce := ChallengeRecord(Lower(address), chainId, message, expiresAt)];
    }

    /** First critical section of `verify_challenge`. */
    method TakeChallenge(now: Time, nonce: string) returns (record: Option<ChallengeRecord>)
      modifies this
      ensures record == Lookup(Purge(old(State()), now).challenges, nonce)
      ensures State() == PopChallenge(Purge(old(State()), now), nonce)
    {
      PurgeExpired(now);
      record := if nonce in challenges then Some(challenges[nonce]) else None;
      challenges := challenges - {nonce};
    }

    /** Second critical section. */
    method MintSession(token: string, principal: WalletPrincipal)
      modifies this
      ensures State() == AddSession(old(State()), digestOf(token), principal)
    {
      sessions := sessions[digestOf(token) := principal];
    }

    method VerifyChallenge(now: Time, nonce: string, message: string, signature: string, token: string)
      returns (outcome: Outcome)
      modifies this
      ensures outcome == Judge(Lookup(Purge(old(State()), now).challenges, nonce), now, message, signature, recover)
      ensures outcome.Granted? <==>
        && nonce in old(challenges)
        && RightlySigned(old(challenges)[nonce], now, message, signature, recover)
      ensures outcome.Granted? ==>
        var record := old(challenges)[nonce];
        outcome.principal == WalletPrincipal(record.address, record.chainId, now + 28800000000)
      ensures outcome.Crashed? <==>
        && nonce in old(challenges)
        && FailsToCompare(old(challenges)[nonce], now, message, signature, recover)
      ensures var taken := PopChallenge(Purge(old(State()), now), nonce);
        State() == if outcome.Granted? then AddSession(taken, digestOf(token), outcome.principal) else taken
    {
      var record := TakeChallenge(now, nonce);
      outcome := Judge(record, now, message, signature, recover);
      if outcome.Granted? {
        MintSession(token, outcome.principal);
      }
    }

    method Resolve(now: Time, token: string) returns (principal: Option<WalletPrincipal>)
      modifies this
      ensures principal == Lookup(Purge(old(State()), now).sessions, digestOf(token))
      ensures State() == Purge(old(State()), now)
    {
      PurgeExpired(now);
      principal := if digestOf(token) in sessions then Some(sessions[digestOf(token)]) else None;
    }
  }
}
