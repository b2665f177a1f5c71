/** Single-use wallet nonces, src/lib/walletNonce.ts: one mutation of the `walletAuth` section. */
module WalletNonce {
  import opened Text
  import opened PayRecords

  const WALLET_AUTH_TOLERANCE_SECONDS: int := 300
  const WALLET_NONCE_RETENTION_SECONDS: int := WALLET_AUTH_TOLERANCE_SECONDS + 60

  /** `merchant:nonce`, both in lower case. */
  datatype NonceKey = NonceKey(merchant: string, nonce: string)

  /** When each consumed nonce may be forgotten. */
  type Nonces = map<NonceKey, int>

  predicate IsWalletNonce(nonce: string)
  {
    IsHex(nonce, 64)
  }

  function KeyOf(merchant: string, nonce: string): NonceKey
  {
    NonceKey(Lower(merchant), Lower(nonce))
  }

  function Pruned(nonces: Nonces, now: int): Nonces
  {
    map k | k in nonces && nonces[k] > now :: nonces[k]
  }

  predicate Consumes(nonces: Nonces, key: NonceKey, now: int)
  {
    !(key in nonces && nonces[key] > now)
  }

  function Consumed(nonces: Nonces, key: NonceKey, now: int): Nonces
  {
    if Consumes(nonces, key, now) then Pruned(nonces, now)[key := now + WALLET_NONCE_RETENTION_SECONDS] else Pruned(nonces, now)
  }

  class WalletAuthSection {
    var nonces: Nonces

    constructor (nonces: Nonces)
      ensures this.nonces == nonces
    {
      this.nonces := nonces;
    }

    /** `pruneExpired`; the other branch of the mutation drops the same entries. */
    method PruneExpired(now: int)
      modifies this
      ensures nonces == Pruned(old(nonces), now)
    {
      var rest := nonces.Keys;
      while rest != {}
        invariant rest <= old(nonces).Keys
        invariant forall k :: k in nonces <==> k in old(nonces) && (k in rest || old(nonces)[k] > now)
        invariant forall k | k in nonces :: nonces[k] == old(nonces)[k]
        decreases rest
      {
        var k :| k in rest;
        if nonces[k] <= now { nonces := nonces - {k}; }
        rest := rest - {k};
      }
    }

    /** The mutation of `consumeWalletNonce`. */
    method Consume(merchant: string, nonce: string, now: int) returns (consumed: bool)
      modifies this
      ensures nonces == if IsWalletNonce(nonce) then Consumed(old(nonces), KeyOf(merchant, nonce), now) else old(nonces)
      ensures consumed == (IsWalletNonce(nonce) && Consumes(old(nonces), KeyOf(merchant, nonce), now))
    {
      if !IsWalletNonce(nonce) { return false; }
      var key := KeyOf(merchant, nonce);
      PruneExpired(now);
      if key in nonces && nonces[key] > now { return false; }
      nonces := nonces[key := now + WALLET_NONCE_RETENTION_SECONDS];
      return true;
    }
  }
}

/** Sign-in with a sealed challenge, src/lib/workspaceSession.ts: each challenge makes at most one session. */
module WorkspaceLogin {
  import opened Text
  import opened WalletNonce

  const WORKSPACE_CHALLENGE_TTL_SECONDS: int := 300

  /** The payload the server sealed; only the server can make one. */
  datatype Challenge = Challenge(domain: string, origin: string, address: string, nonce: string, iat: int, exp: int)

  /** One use of the nonce section, in commit order. `signer` is the address recovered from the signature. */
  datatype Op =
    | Login(challenge: Challenge, host: string, origin: string, signer: Option<string>, now: int)
    | Other(merchant: string, nonce: string, now: int)

  /** The checks before the nonce is touched. */
  predicate Accepts(op: Op)
    requires op.Login?
  {
    && op.challenge.exp > op.now
    && op.challenge.iat <= op.now + 60 && op.challenge.exp - op.challenge.iat <= WORKSPACE_CHALLENGE_TTL_SECONDS
    && op.challenge.domain == op.host && op.challenge.origin == op.origin
    && op.signer == Some(op.challenge.address)
  }

  function Nonce(op: Op): string
  {
    if op.Login? then "0x" + op.challenge.nonce else op.nonce
  }

  predicate Reaches(op: Op)
  {
    (op.Login? ==> Accepts(op)) && IsWalletNonce(Nonce(op))
  }

  function Key(op: Op): NonceKey
  {
    KeyOf(if op.Login? then op.challenge.address else op.merchant, Nonce(op))
  }

  function At(ops: seq<Op>, n: nat): Nonces
    requires n <= |ops|
  {
    if n == 0 then map[]
    else if Reaches(ops[n - 1]) then Consumed(At(ops, n - 1), Key(ops[n - 1]), ops[n - 1].now)
    else At(ops, n - 1)
  }

  /** The operation takes its nonce; for a login, a session is created. */
  predicate Takes(ops: seq<Op>, i: nat)
    requires i < |ops|
  {
    Reaches(ops[i]) && Consumes(At(ops, i), Key(ops[i]), ops[i].now)
  }

  ghost predicate Ordered(ops: seq<Op>)
  {
    forall i, j | 0 <= i < j < |ops| :: ops[i].now <= ops[j].now
  }

  /** A challenge that is accepted is forgotten by everyone before its nonce is. */
  lemma {:induction false} RetentionCovers(op: Op)
    requires op.Login? && Accepts(op)
    ensures op.challenge.exp <= op.now + WALLET_NONCE_RETENTION_SECONDS
  {
  }

  /** A taken nonce stays for as long as no later operation runs at or after its expiry. */
  lemma {:induction false} StaysTaken(ops: seq<Op>, i: nat, j: nat)
    requires i < j <= |ops| && Takes(ops, i)
    requires forall k | i < k < j && Reaches(ops[k]) :: ops[k].now < ops[i].now + WALLET_NONCE_RETENTION_SECONDS
    ensures Key(ops[i]) in At(ops, j) && At(ops, j)[Key(ops[i])] >= ops[i].now + WALLET_NONCE_RETENTION_SECONDS
    decreases j
  {
    hide Reaches, Key;
    if i + 1 < j {
      StaysTaken(ops, i, j - 1);
    }
  }

  /** With a clock that does not go back, no challenge makes two sessions. */
  lemma SingleUse(ops: seq<Op>, i: nat, j: nat)
    requires Ordered(ops) && i < j < |ops| && ops[i].Login? && ops[j].Login? && ops[i].challenge == ops[j].challenge
    requires Takes(ops, i)
    ensures !Takes(ops, j)
  {
    hide At;
    if Reaches(ops[j]) {
      RetentionCovers(ops[i]);
      StaysTaken(ops, i, j);
    }
  }

  /** A stored nonce was put there by some taker, for 360 seconds. */
  lemma {:induction false} StoredByTaker(ops: seq<Op>, n: nat, key: NonceKey)
    requires n <= |ops| && key in At(ops, n)
    ensures exists h :: 0 <= h < n && Takes(ops, h) && Key(ops[h]) == key && At(ops, n)[key] == ops[h].now + 360
    decreases n
  {
    hide Reaches, Key;
    if Takes(ops, n - 1) && Key(ops[n - 1]) == key {
    } else {
      StoredByTaker(ops, n - 1, key);
    }
  }

  /**
    With a clock that does not go back, a login makes a session if and only if its challenge is for
    this host and origin, not expired, no longer than five minutes and no more than one ahead, signed
    by its address, and its nonce is well formed and was not taken in the 360 seconds before.
  */
  lemma {:induction false} LoginSucceedsExactly(ops: seq<Op>, i: nat)
    requires Ordered(ops) && i < |ops| && ops[i].Login?
    ensures var op, c := ops[i], ops[i].challenge;
            Takes(ops, i) <==>
              && op.now < c.exp <= c.iat + 300 && c.iat - 60 <= op.now
              && c.domain == op.host && c.origin == op.origin && op.signer == Some(c.address)
              && IsWalletNonce("0x" + c.nonce)
              && forall h | 0 <= h < i && Takes(ops, h) && Key(ops[h]) == KeyOf(c.address, "0x" + c.nonce) :: ops[h].now + 360 <= op.now
  {
    hide At, IsWalletNonce, KeyOf;
    var key := Key(ops[i]);
    if key in At(ops, i) && At(ops, i)[key] > ops[i].now {
      StoredByTaker(ops, i, key);
    }
    if h :| 0 <= h < i && Takes(ops, h) && Key(ops[h]) == key && ops[h].now + 360 > ops[i].now {
      StaysTaken(ops, h, i);
    }
  }

  /** Until its own replay nobody else uses this nonce. */
  ghost predicate OnlyUsers(ops: seq<Op>, i: nat, j: nat)
    requires i < j < |ops|
  {
    forall k | i < k < j && Reaches(ops[k]) :: Key(ops[k]) != Key(ops[i])
  }

  /**
    When commits may land out of clock order: a second accepted login with the same challenge takes
    the nonce again exactly when some commit in between carried a clock at or past its expiry.
  */
  lemma ReplayedExactly(ops: seq<Op>, i: nat, j: nat)
    requires i < j < |ops| && ops[i].Login? && ops[j].Login? && ops[i].challenge == ops[j].challenge
    requires Takes(ops, i) && Reaches(ops[j]) && OnlyUsers(ops, i, j)
    ensures Takes(ops, j) <==>
            exists k :: i < k < j && Reaches(ops[k]) && ops[k].now >= ops[i].now + WALLET_NONCE_RETENTION_SECONDS
  {
    hide At;
    if k :| i < k < j && Reaches(ops[k]) && ops[k].now >= ops[i].now + WALLET_NONCE_RETENTION_SECONDS {
      Forgotten(ops, i, k, j);
    } else {
      RetentionCovers(ops[i]);
      StaysTaken(ops, i, j);
    }
  }

  lemma {:induction false} TakenOrGone(ops: seq<Op>, i: nat, j: nat)
    requires i < j < |ops| && Takes(ops, i) && OnlyUsers(ops, i, j)
    ensures Key(ops[i]) in At(ops, j) ==> At(ops, j)[Key(ops[i])] == ops[i].now + WALLET_NONCE_RETENTION_SECONDS
    decreases j
  {
    hide Reaches, Key;
    if i + 1 < j {
      TakenOrGone(ops, i, j - 1);
    }
  }

  lemma {:induction false} Forgotten(ops: seq<Op>, i: nat, k: nat, j: nat)
    requires i < k < j < |ops| && Takes(ops, i) && OnlyUsers(ops, i, j)
    requires Reaches(ops[k]) && ops[k].now >= ops[i].now + WALLET_NONCE_RETENTION_SECONDS
    ensures Key(ops[i]) !in At(ops, j)
    decreases j
  {
    hide Reaches, Key;
    if k + 1 < j {
      Forgotten(ops, i, k, j - 1);
    } else {
      TakenOrGone(ops, i, k);
    }
  }

  /** A login that was slow to commit replays its challenge after another wallet's commit pruned the nonce. */
  lemma SlowReplay()
    ensures var hex := seq(64, _ => 'a'); var c := Challenge("h", "o", "0xa", hex, 60, 360);
            var ops := [Login(c, "h", "o", Some("0xa"), 0), Other("0xb", "0x" + hex, 360), Login(c, "h", "o", Some("0xa"), 359)];
            Takes(ops, 0) && Takes(ops, 2)
  {
    var hex := seq(64, _ => 'a');
    var c := Challenge("h", "o", "0xa", hex, 60, 360);
    var ops := [Login(c, "h", "o", Some("0xa"), 0), Other("0xb", "0x" + hex, 360), Login(c, "h", "o", Some("0xa"), 359)];
    assert Lower("0xa")[2] != Lower("0xb")[2];
    assert Takes(ops, 0) && OnlyUsers(ops, 0, 2);
    assert Reaches(ops[1]) && ops[1].now >= ops[0].now + WALLET_NONCE_RETENTION_SECONDS;
    ReplayedExactly(ops, 0, 2);
  }
}
