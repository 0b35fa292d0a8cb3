/** The post-quantum ratchet of a session: a rotating local key with a bounded history, and the
    encapsulations against the latest key of the other side. */
module PqRatchet {
  import opened Core
  import opened Bytes
  import opened KeyAgreement
  import opened Modular

  datatype PqState = PqState(
    interval: nat,
    local: KeyPair,
    remote: seq<byte>,
    history: seq<KeyPair>,
    maxHistory: nat,
    lastUpdate: nat)

  /** What a message carries for the ratchet: a ciphertext, the hash of the key it is meant for, and
      the sender's next public key. */
  datatype PqStep = PqStep(ct: seq<byte>, target: seq<byte>, next: seq<byte>)

  type Hash = seq<byte> -> seq<byte>

  predicate ShouldStep(s: PqState, num: nat) {
    s.interval > 0 && (num + 1) % s.interval == 0
  }

  function FirstN<T>(q: seq<T>, n: nat): seq<T> {
    if |q| <= n then q else q[..n]
  }

  function Rotate(s: PqState, pair: KeyPair): PqState {
    s.(local := pair, history := FirstN([s.local] + s.history, s.maxHistory))
  }

  function UpdateRemote(s: PqState, public: seq<byte>, num: nat): PqState {
    if num >= s.lastUpdate then s.(remote := public, lastUpdate := num) else s
  }

  /** The secret of the first key whose public key has the given hash. */
  function FindSecret(hash: Hash, keys: seq<KeyPair>, target: seq<byte>): Option<seq<byte>> {
    if keys == [] then None
    else if hash(keys[0].public) == target then Some(keys[0].secret)
    else FindSecret(hash, keys[1..], target)
  }

  function SelectSecret(hash: Hash, s: PqState, target: seq<byte>): Option<seq<byte>> {
    FindSecret(hash, [s.local] + s.history, target)
  }

  /** The step a sender makes with message `num`, if any: encapsulate, then generate the next key. */
  function SenderStep(k: KeyRoutines, hash: Hash, s: PqState, num: nat, coins: seq<byte>, secret: seq<byte>)
    : Result<Option<(PqStep, seq<byte>, PqState)>>
  {
    if !ShouldStep(s, num) then Ok(None)
    else
      var capsule := k.encapsulate(s.remote, coins);
      var _ :- Need(capsule.Some? && k.kemSecret(secret), KemOperation);
      var (ct, ss) := capsule.value;
      var pair := KeyPair(k.kemPublic(secret), secret);
      Ok(Some((PqStep(ct, hash(s.remote), pair.public), ss, Rotate(s, pair))))
  }

  /** The shared secret and the state after a received step. */
  function ReceiverStep(k: KeyRoutines, hash: Hash, s: PqState, step: PqStep, num: nat): Result<(seq<byte>, PqState)> {
    var secret := SelectSecret(hash, s, step.target);
    var _ :- Need(secret.Some?, MessageParsing);
    var ss := k.decapsulate(secret.value, step.ct);
    var _ :- Need(ss.Some?, KemOperation);
    Ok((ss.value, UpdateRemote(s, step.next, num)))
  }

  // ------------------------------------------------------------ in place

  class PqRatchetState {
    const interval: nat
    const maxHistory: nat
    var local: KeyPair
    var remote: seq<byte>
    var history: seq<KeyPair>
    var lastUpdate: nat

    constructor (s: PqState)
      ensures View() == s
    {
      interval, maxHistory := s.interval, s.maxHistory;
      local, remote, history, lastUpdate := s.local, s.remote, s.history, s.lastUpdate;
    }

    function View(): PqState
      reads this
    {
      PqState(interval, local, remote, history, maxHistory, lastUpdate)
    }

    method CommitLocalKeyRotation(pair: KeyPair)
      modifies this
      ensures View() == Rotate(old(View()), pair)
    {
      history := [local] + history;
      ghost var all := history;
      while |history| > maxHistory
        invariant history <= all && FirstN(history, maxHistory) == FirstN(all, maxHistory)
        decreases |history|
        modifies `history
      {
        history := history[..|history| - 1];
      }
      local := pair;
    }

    method ApplyRemotePublicKeyUpdate(public: seq<byte>, num: nat)
      modifies this
      ensures View() == UpdateRemote(old(View()), public, num)
    {
      if num >= lastUpdate {
        remote := public;
        lastUpdate := num;
      }
    }

    method ResetRemoteUpdateTracking()
      modifies this
      ensures View() == old(View()).(lastUpdate := 0)
    {
      lastUpdate := 0;
    }

    method SelectLocalSecretKey(hash: Hash, target: seq<byte>) returns (secret: Option<seq<byte>>)
      ensures secret == SelectSecret(hash, View(), target)
    {
      assert ([local] + history)[1..] == history;
      if hash(local.public) == target {
        return Some(local.secret);
      }
      assert history[0..] == history;
      for i := 0 to |history|
        invariant SelectSecret(hash, View(), target) == FindSecret(hash, history[i..], target)
      {
        assert history[i..][0] == history[i] && history[i..][1..] == history[i + 1..];
        if hash(history[i].public) == target {
          return Some(history[i].secret);
        }
      }
      secret := None;
    }
  }

  // ------------------------------------------------------------ which keys are still there

  /** The last n keys made, latest first. */
  function Recent(made: seq<KeyPair>, n: nat): seq<KeyPair> {
    if made == [] || n == 0 then [] else [made[|made| - 1]] + Recent(made[..|made| - 1], n - 1)
  }

  /** `made` are all local keys ever made, oldest first. */
  ghost predicate Keyring(made: seq<KeyPair>, s: PqState) {
    [s.local] + s.history == Recent(made, s.maxHistory + 1)
  }

  /** How many rotations ago the latest key with the given hash was made. */
  function Age(hash: Hash, made: seq<KeyPair>, target: seq<byte>): Option<nat> {
    if made == [] then None
    else if hash(made[|made| - 1].public) == target then Some(0)
    else
      match Age(hash, made[..|made| - 1], target)
      case None => None
      case Some(n) => Some(n + 1)
  }

  lemma {:induction false} RecentPrefix(made: seq<KeyPair>, n: nat)
    ensures FirstN(Recent(made, n + 1), n) == Recent(made, n)
  {
    if made != [] && n > 0 {
      RecentPrefix(made[..|made| - 1], n - 1);
    }
  }

  lemma RotateKeepsKeyring(made: seq<KeyPair>, s: PqState, pair: KeyPair)
    requires Keyring(made, s)
    ensures Keyring(made + [pair], Rotate(s, pair))
  {
    RecentPrefix(made, s.maxHistory);
    assert (made + [pair])[..|made|] == made;
  }

  lemma {:induction false} RecentFinds(hash: Hash, made: seq<KeyPair>, n: nat, target: seq<byte>)
    ensures FindSecret(hash, Recent(made, n), target).Some? <==>
            Age(hash, made, target).Some? && Age(hash, made, target).value < n
  {
    if made != [] && n > 0 {
      var front := made[..|made| - 1];
      RecentFinds(hash, front, n - 1, target);
      assert Recent(made, n)[1..] == Recent(front, n - 1);
    }
  }

  /** A local key can be selected if and only if it was made at most `maxHistory` rotations ago. */
  lemma SelectsExactly(hash: Hash, made: seq<KeyPair>, s: PqState, target: seq<byte>)
    requires Keyring(made, s)
    ensures SelectSecret(hash, s, target).Some? <==>
            Age(hash, made, target).Some? && Age(hash, made, target).value <= s.maxHistory
  {
    RecentFinds(hash, made, s.maxHistory + 1, target);
  }

  /** Steps are made at every interval-th message: numbers interval - 1, 2 * interval - 1, and so on. */
  lemma StepsAtMultiples(s: PqState, num: nat)
    ensures ShouldStep(s, num) <==> exists m: nat :: m > 0 && s.interval > 0 && num + 1 == m * s.interval
  {
    if s.interval > 0 {
      var m := (num + 1) / s.interval;
      assert num + 1 == m * s.interval + (num + 1) % s.interval;
      if n: nat :| n > 0 && num + 1 == n * s.interval {
        MultipleModulo(n, s.interval);
      }
    }
  }
}
