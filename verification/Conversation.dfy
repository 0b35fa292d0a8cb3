/** Two sessions started from one handshake, over a network that may delay, drop, repeat and reorder
    messages: which deliveries open, over every run. */
module Conversation {
  import opened Core
  import opened Bytes
  import opened KeyAgreement
  import opened Ratchet
  import opened Session
  import opened PqRatchet
  import opened DirectSession

  // ------------------------------------------------------------ runs

  /** A message on its way, with what was sealed in it. */
  datatype Letter = Letter(wire: Wire, external: seq<byte>, plaintext: seq<byte>)

  /** One side: its session, all post-quantum keys it ever made, what became of each number it spent,
      the numbers delivered to it, and those of them that opened, in order. */
  datatype Side = Side(party: Party, made: seq<KeyPair>, sent: seq<Option<Letter>>, got: seq<nat>, unsealed: seq<nat>)

  datatype World = World(a: Side, b: Side)

  datatype Event =
    | Send(byA: bool, plaintext: seq<byte>, external: seq<byte>, draw: Draw)
    | Deliver(toA: bool, index: nat, pair: KeyPair)

  /** The new key of a step that a sender makes. */
  function MadeBy(x: Suite, p: Party, draw: Draw): seq<KeyPair> {
    match SenderStep(x.keys, x.lib.sha256, p.pq, p.sendNext, draw.coins, draw.secret)
    case Ok(Some((_, _, pq))) => [pq.local]
    case _ => []
  }

  function SendFrom(x: Suite, s: Side, plaintext: seq<byte>, external: seq<byte>, draw: Draw): Side {
    if s.party.sendNext == U32_MAX then s
    else
      var (wire, party) := Encrypt(x, s.party, plaintext, external, draw);
      var letter := if wire.Some? then Some(Letter(wire.value, external, plaintext)) else None;
      Side(party, s.made + MadeBy(x, s.party, draw), s.sent + [letter], s.got, s.unsealed)
  }

  /** Hands over any message ever sent by the other side. */
  function DeliverTo(x: Suite, s: Side, sender: Side, i: nat, pair: KeyPair): Side {
    if i >= |sender.sent| || sender.sent[i].None? then s
    else
      var letter := sender.sent[i].value;
      var (r, party) := Decrypt(x, s.party, letter.wire, letter.external, pair);
      s.(party := party, got := s.got + [i], unsealed := if r.Ok? then s.unsealed + [i] else s.unsealed)
  }

  function Step(x: Suite, w: World, e: Event): World {
    match e
    case Send(byA, plaintext, external, draw) =>
      if byA then w.(a := SendFrom(x, w.a, plaintext, external, draw))
          else w.(b := SendFrom(x, w.b, plaintext, external, draw))
    case Deliver(toA, i, pair) =>
      if toA then w.(a := DeliverTo(x, w.a, w.b, i, pair)) else w.(b := DeliverTo(x, w.b, w.a, i, pair))
  }

  function Execute(x: Suite, w: World, events: seq<Event>): World {
    if events == [] then w else Step(x, Execute(x, w, events[..|events| - 1]), events[|events| - 1])
  }

  // ------------------------------------------------------------ keys

  ghost predicate GoodPair(k: KeyRoutines, pair: KeyPair) {
    k.kemSecret(pair.secret) && pair.public == k.kemPublic(pair.secret)
  }

  /** The keys made are well-formed, and the session holds the last ones. */
  ghost predicate GoodKeys(x: Suite, s: Side) {
    Keyring(s.made, s.party.pq) && forall t :: 0 <= t < |s.made| ==> GoodPair(x.keys, s.made[t])
  }

  ghost predicate PublicOf(made: seq<KeyPair>, public: seq<byte>) {
    exists t :: 0 <= t < |made| && made[t].public == public
  }

  /** A step meant for a key of the receiver. */
  ghost predicate Aimed(x: Suite, made: seq<KeyPair>, step: PqStep) {
    exists public, coins ::
      && x.keys.encapsulate(public, coins).Some? && x.keys.encapsulate(public, coins).value.0 == step.ct
      && PublicOf(made, public) && x.lib.sha256(public) == step.target
  }

  lemma PublicOfMore(made: seq<KeyPair>, more: seq<KeyPair>, public: seq<byte>)
    requires PublicOf(made, public)
    ensures PublicOf(made + more, public)
  {
    var t :| 0 <= t < |made| && made[t].public == public;
    assert (made + more)[t].public == public;
  }

  lemma AimedMore(x: Suite, made: seq<KeyPair>, more: seq<KeyPair>, step: PqStep)
    requires Aimed(x, made, step)
    ensures Aimed(x, made + more, step)
  {
    var public, coins :|
      && x.keys.encapsulate(public, coins).Some? && x.keys.encapsulate(public, coins).value.0 == step.ct
      && PublicOf(made, public) && x.lib.sha256(public) == step.target;
    PublicOfMore(made, more, public);
  }

  lemma {:induction false} PublicHasAge(hash: Hash, made: seq<KeyPair>, public: seq<byte>)
    requires PublicOf(made, public)
    ensures Age(hash, made, hash(public)).Some?
  {
    var t :| 0 <= t < |made| && made[t].public == public;
    if t < |made| - 1 {
      assert made[..|made| - 1][t].public == public;
      PublicHasAge(hash, made[..|made| - 1], public);
    }
  }

  lemma {:induction false} FoundIsMade(hash: Hash, made: seq<KeyPair>, n: nat, target: seq<byte>) returns (t: nat)
    requires FindSecret(hash, Recent(made, n), target).Some?
    ensures t < |made| && made[t].secret == FindSecret(hash, Recent(made, n), target).value
            && hash(made[t].public) == target
  {
    var front, recent := made[..|made| - 1], Recent(made, n);
    if hash(recent[0].public) == target {
      t := |made| - 1;
    } else {
      assert recent[1..] == Recent(front, n - 1);
      t := FoundIsMade(hash, front, n - 1, target);
    }
  }

  /** A step meant for a key of the receiver succeeds if and only if that key was made at most
      `maxHistory` rotations ago. */
  lemma StepExactly(x: Suite, s: Side, step: PqStep, num: nat)
    requires GoodKeys(x, s) && Aimed(x, s.made, step)
    ensures Age(x.lib.sha256, s.made, step.target).Some?
    ensures ReceiverStep(x.keys, x.lib.sha256, s.party.pq, step, num).Ok? <==>
            Age(x.lib.sha256, s.made, step.target).value <= s.party.pq.maxHistory
  {
    var hash, pq := x.lib.sha256, s.party.pq;
    var public, coins :|
      && x.keys.encapsulate(public, coins).Some? && x.keys.encapsulate(public, coins).value.0 == step.ct
      && PublicOf(s.made, public) && hash(public) == step.target;
    PublicHasAge(hash, s.made, public);
    SelectsExactly(hash, s.made, pq, step.target);
    if SelectSecret(hash, pq, step.target).Some? {
      var t := FoundIsMade(hash, s.made, pq.maxHistory + 1, step.target);
    }
  }

  // ------------------------------------------------------------ one direction

  /** Message i of the chain from `root`, sealed under its key; its step is meant for a key of the
      receiver and announces a key of the sender. */
  ghost predicate GoodLetter(x: Suite, root: Key, pub: PublicKey, i: nat, letter: Letter, from: seq<KeyPair>,
                             dest: seq<KeyPair>) {
    var w := letter.wire;
    && i < U32_MAX
    && Sealed(x, Header(pub, i, 0), w.step, SenderKey(x.chainStep, root, i), w.nonce, letter.external,
              letter.plaintext) == Some(w)
    && (w.step.Some? ==> Aimed(x, dest, w.step.value) && PublicOf(from, w.step.value.next))
  }

  ghost predicate Sends(x: Suite, root: Key, sender: Side, dest: seq<KeyPair>) {
    var p := sender.party;
    && p.sendNext == |sender.sent| && p.sendKey == ChainAt(x.chainStep, root, |sender.sent|) && p.prevLen == 0
    && PublicOf(dest, p.pq.remote)
    && forall i :: 0 <= i < |sender.sent| && sender.sent[i].Some? ==>
         GoodLetter(x, root, p.local.public, i, sender.sent[i].value, sender.made, dest)
  }

  /** The receiver is where the deliveries lead it on the sender's chain. */
  ghost predicate Receives(x: Suite, root: Key, pub: PublicKey, max: nat, receiver: Side, limit: nat) {
    && limit <= U32_MAX && (forall n :: n in receiver.got ==> n < limit)
    && receiver.party.recv == Run(x.chainStep, Receiver(pub, root, 0, max, []), receiver.got)
    && receiver.party.recv.pub == pub
  }

  ghost predicate Direction(x: Suite, root: Key, max: nat, sender: Side, receiver: Side) {
    && Sends(x, root, sender, receiver.made)
    && Receives(x, root, sender.party.local.public, max, receiver, |sender.sent|)
  }

  // -- sending

  lemma EncryptShape(x: Suite, p: Party, plaintext: seq<byte>, external: seq<byte>, draw: Draw)
    requires p.sendNext < U32_MAX
    ensures var q := Encrypt(x, p, plaintext, external, draw).1;
            && q.sendKey == x.chainStep(p.sendKey).1 && q.sendNext == p.sendNext + 1 && q.prevLen == p.prevLen
            && q.local == p.local && q.recv == p.recv
            && q.pq.remote == p.pq.remote && q.pq.maxHistory == p.pq.maxHistory
            && q.pq == if MadeBy(x, p, draw) == [] then p.pq else Rotate(p.pq, MadeBy(x, p, draw)[0])
  {
  }

  /** A step sent is meant for the remote key and announces the key just made. */
  lemma EncryptStep(x: Suite, p: Party, plaintext: seq<byte>, external: seq<byte>, draw: Draw, dest: seq<KeyPair>)
    requires p.sendNext < U32_MAX && PublicOf(dest, p.pq.remote)
    requires Encrypt(x, p, plaintext, external, draw).0.Some?
    ensures var w, key := Encrypt(x, p, plaintext, external, draw).0.value, x.chainStep(p.sendKey).0;
            && Sealed(x, Header(p.local.public, p.sendNext, p.prevLen), w.step, key, w.nonce, external, plaintext)
                == Some(w)
            && (w.step.Some? ==> Aimed(x, dest, w.step.value) && PublicOf(MadeBy(x, p, draw), w.step.value.next))
  {
    var w := Encrypt(x, p, plaintext, external, draw).0.value;
    if w.step.Some? {
      assert x.keys.encapsulate(p.pq.remote, draw.coins).value.0 == w.step.value.ct;
      assert MadeBy(x, p, draw)[0].public == w.step.value.next;
    }
  }

  lemma LetterMore(x: Suite, root: Key, pub: PublicKey, i: nat, letter: Letter,
                   from: seq<KeyPair>, dest: seq<KeyPair>, more: seq<KeyPair>)
    requires GoodLetter(x, root, pub, i, letter, from, dest)
    ensures GoodLetter(x, root, pub, i, letter, from + more, dest)
            && GoodLetter(x, root, pub, i, letter, from, dest + more)
  {
    if letter.wire.step.Some? {
      PublicOfMore(from, more, letter.wire.step.value.next);
      AimedMore(x, dest, more, letter.wire.step.value);
    }
  }

  /** The letter just written is a good one. */
  lemma NewLetter(x: Suite, root: Key, s: Side, dest: seq<KeyPair>, plaintext: seq<byte>, external: seq<byte>,
                  draw: Draw)
    requires Sends(x, root, s, dest) && s.party.sendNext < U32_MAX
    requires Encrypt(x, s.party, plaintext, external, draw).0.Some?
    ensures var letter := Letter(Encrypt(x, s.party, plaintext, external, draw).0.value, external, plaintext);
            GoodLetter(x, root, s.party.local.public, |s.sent|, letter, s.made + MadeBy(x, s.party, draw), dest)
  {
    var p, more := s.party, MadeBy(x, s.party, draw);
    EncryptStep(x, p, plaintext, external, draw, dest);
    var step := Encrypt(x, p, plaintext, external, draw).0.value.step;
    if step.Some? {
      var m :| 0 <= m < |more| && more[m].public == step.value.next;
      assert (s.made + more)[|s.made| + m].public == step.value.next;
    }
  }

  lemma SendForward(x: Suite, root: Key, s: Side, dest: seq<KeyPair>, plaintext: seq<byte>, external: seq<byte>,
                    draw: Draw)
    requires Sends(x, root, s, dest) && s.party.sendNext < U32_MAX
    ensures Sends(x, root, SendFrom(x, s, plaintext, external, draw), dest)
  {
    var p, t := s.party, SendFrom(x, s, plaintext, external, draw);
    EncryptShape(x, p, plaintext, external, draw);
    forall i | 0 <= i < |t.sent| && t.sent[i].Some?
      ensures GoodLetter(x, root, p.local.public, i, t.sent[i].value, t.made, dest)
    {
      if i < |s.sent| {
        LetterMore(x, root, p.local.public, i, s.sent[i].value, s.made, dest, MadeBy(x, p, draw));
      } else {
        NewLetter(x, root, s, dest, plaintext, external, draw);
      }
    }
  }

  /** The other direction only sees more keys of the one who sends. */
  lemma SendBackward(x: Suite, root: Key, r: Side, s: Side, plaintext: seq<byte>, external: seq<byte>, draw: Draw)
    requires Sends(x, root, r, s.made)
    ensures Sends(x, root, r, SendFrom(x, s, plaintext, external, draw).made)
  {
    var more := MadeBy(x, s.party, draw);
    PublicOfMore(s.made, more, r.party.pq.remote);
    forall i | 0 <= i < |r.sent| && r.sent[i].Some?
      ensures GoodLetter(x, root, r.party.local.public, i, r.sent[i].value, r.made, s.made + more)
    {
      LetterMore(x, root, r.party.local.public, i, r.sent[i].value, r.made, s.made, more);
    }
  }

  lemma SendKeys(x: Suite, s: Side, plaintext: seq<byte>, external: seq<byte>, draw: Draw)
    requires GoodKeys(x, s)
    ensures GoodKeys(x, SendFrom(x, s, plaintext, external, draw))
  {
    if s.party.sendNext < U32_MAX {
      EncryptShape(x, s.party, plaintext, external, draw);
      var more := MadeBy(x, s.party, draw);
      if more == [] {
        assert s.made + more == s.made;
      } else {
        RotateKeepsKeyring(s.made, s.party.pq, more[0]);
      }
    }
  }

  // -- delivering

  /** A message of the current ratchet key changes the receiving chain, and with the post-quantum step
      the root and the remote key. */
  lemma DecryptShape(x: Suite, p: Party, w: Wire, external: seq<byte>, pair: KeyPair)
    requires w.header.pub == p.recv.pub
    ensures var q := Decrypt(x, p, w, external, pair).1;
            && q.recv == Receive(x.chainStep, p.recv, w.header.num).1
            && q.local == p.local && q.sendKey == p.sendKey && q.sendNext == p.sendNext && q.prevLen == p.prevLen
            && q.pq.local == p.pq.local && q.pq.history == p.pq.history && q.pq.maxHistory == p.pq.maxHistory
            && (q.pq.remote == p.pq.remote || (w.step.Some? && q.pq.remote == w.step.value.next))
  {
  }

  /** Only a message that opens changes what is known of the other side's keys. */
  lemma DecryptPq(x: Suite, p: Party, w: Wire, external: seq<byte>, pair: KeyPair)
    requires w.header.pub == p.recv.pub
    ensures var (r, q) := Decrypt(x, p, w, external, pair);
            q.pq == if r.Ok? && w.step.Some? then UpdateRemote(p.pq, w.step.value.next, w.header.num) else p.pq
  {
  }

  lemma {:induction false} RunKeepsPub(kdf: Kdf, r: Receiver, ns: seq<nat>)
    ensures Run(kdf, r, ns).pub == r.pub
  {
    if ns != [] {
      RunKeepsPub(kdf, r, ns[..|ns| - 1]);
      SkipKeepsPub(kdf, Run(kdf, r, ns[..|ns| - 1]), ns[|ns| - 1]);
    }
  }

  lemma {:induction false} SkipKeepsPub(kdf: Kdf, r: Receiver, n: nat)
    ensures SkipUntil(kdf, r, n).pub == r.pub
    decreases n - r.next
  {
    if r.next < n {
      SkipKeepsPub(kdf, Skip(kdf, r), n);
    }
  }

  lemma DeliverForward(x: Suite, root: Key, max: nat, s: Side, r: Side, i: nat, pair: KeyPair)
    requires Direction(x, root, max, s, r) && i < |s.sent| && s.sent[i].Some?
    ensures Direction(x, root, max, s, DeliverTo(x, r, s, i, pair))
  {
    var letter, start := s.sent[i].value, Receiver(s.party.local.public, root, 0, max, []);
    DecryptShape(x, r.party, letter.wire, letter.external, pair);
    assert (r.got + [i])[..|r.got|] == r.got;
    RunKeepsPub(x.chainStep, start, r.got + [i]);
  }

  lemma DeliverBackward(x: Suite, root: Key, root': Key, max: nat, s: Side, r: Side, i: nat, pair: KeyPair)
    requires Direction(x, root, max, s, r) && Sends(x, root', r, s.made) && i < |s.sent| && s.sent[i].Some?
    ensures Sends(x, root', DeliverTo(x, r, s, i, pair), s.made)
  {
    var letter := s.sent[i].value;
    DecryptShape(x, r.party, letter.wire, letter.external, pair);
  }

  // ------------------------------------------------------------ what a delivery does

  /** Delivering message i: it opens if and only if it was not delivered before, its number was spared
      at every delivery so far, and the key its step is meant for was made at most `maxHistory`
      rotations ago; and it opens to what was sealed. */
  ghost predicate OpensExactly(x: Suite, sender: Side, receiver: Side, i: nat, pair: KeyPair)
    requires i < |sender.sent| && sender.sent[i].Some?
  {
    var letter, p := sender.sent[i].value, receiver.party;
    var step, r := letter.wire.step, Decrypt(x, p, letter.wire, letter.external, pair).0;
    && (step.Some? ==> Age(x.lib.sha256, receiver.made, step.value.target).Some?)
    && (r.Ok? <==>
          && i !in receiver.got && Spared(receiver.got, i, p.recv.max)
          && (step.Some? ==> Age(x.lib.sha256, receiver.made, step.value.target).value <= p.pq.maxHistory))
    && (r.Ok? ==> r.value == letter.plaintext)
  }

  lemma SealedUnseals(x: Suite, w: Wire, key: Key, external: seq<byte>, plaintext: seq<byte>)
    requires Sealed(x, w.header, w.step, key, w.nonce, external, plaintext) == Some(w)
    ensures Unseal(x, w, key, external) == Ok(plaintext)
  {
  }

  lemma DirectionOpens(x: Suite, root: Key, max: nat, s: Side, r: Side, i: nat, pair: KeyPair)
    requires Direction(x, root, max, s, r) && GoodKeys(x, r) && i < |s.sent| && s.sent[i].Some?
    ensures OpensExactly(x, s, r, i, pair) && r.party.recv.max == max
  {
    var letter, start := s.sent[i].value, Receiver(s.party.local.public, root, 0, max, []);
    RunKeeps(x.chainStep, start, r.got);
    AnyOrderDelivery(x.chainStep, start, r.got, i);
    SealedUnseals(x, letter.wire, SenderKey(x.chainStep, root, i), letter.external, letter.plaintext);
    if letter.wire.step.Some? {
      StepExactly(x, r, letter.wire.step.value, i);
    }
  }

  // ------------------------------------------------------------ every run

  /** Each side starts from a well-formed key that the other one knows. */
  ghost predicate Matching(k: KeyRoutines, pqA: PqState, pqB: PqState) {
    && GoodPair(k, pqA.local) && GoodPair(k, pqB.local) && pqA.history == pqB.history == []
    && pqA.remote == pqB.local.public && pqB.remote == pqA.local.public
  }

  function NewSide(p: Party): Side {
    Side(p, [p.pq.local], [], [], [])
  }

  function Start(x: Suite, root: Key, a: KeyPair, b: KeyPair, maxA: nat, maxB: nat, pqA: PqState, pqB: PqState): World {
    World(NewSide(FromHandshake(x, true, root, a, b.public, maxA, pqA)),
          NewSide(FromHandshake(x, false, root, b, a.public, maxB, pqB)))
  }

  ghost predicate Synchronised(x: Suite, start: World, w: World) {
    && Direction(x, start.a.party.sendKey, start.b.party.recv.max, w.a, w.b)
    && Direction(x, start.b.party.sendKey, start.a.party.recv.max, w.b, w.a)
    && GoodKeys(x, w.a) && GoodKeys(x, w.b)
    && w.a.party.local == start.a.party.local && w.b.party.local == start.b.party.local
    && w.a.party.pq.maxHistory == start.a.party.pq.maxHistory && w.b.party.pq.maxHistory == start.b.party.pq.maxHistory
  }

  /** Sending by s in a pair of directions. */
  lemma SendKeeps(x: Suite, root: Key, root': Key, max: nat, max': nat, s: Side, r: Side,
                  plaintext: seq<byte>, external: seq<byte>, draw: Draw)
    requires Direction(x, root, max, s, r) && Direction(x, root', max', r, s) && GoodKeys(x, s)
    ensures var t := SendFrom(x, s, plaintext, external, draw);
            && Direction(x, root, max, t, r) && Direction(x, root', max', r, t) && GoodKeys(x, t)
            && t.party.local == s.party.local && t.party.pq.maxHistory == s.party.pq.maxHistory
  {
    SendKeys(x, s, plaintext, external, draw);
    if s.party.sendNext < U32_MAX {
      EncryptShape(x, s.party, plaintext, external, draw);
      SendForward(x, root, s, r.made, plaintext, external, draw);
      SendBackward(x, root', r, s, plaintext, external, draw);
    }
  }

  lemma DeliverKeys(x: Suite, s: Side, r: Side, i: nat, pair: KeyPair)
    requires i < |s.sent| && s.sent[i].Some? && s.sent[i].value.wire.header.pub == r.party.recv.pub
    ensures var t := DeliverTo(x, r, s, i, pair);
            && (GoodKeys(x, r) ==> GoodKeys(x, t)) && t.made == r.made && t.sent == r.sent
            && t.party.local == r.party.local && t.party.pq.maxHistory == r.party.pq.maxHistory
  {
    var letter := s.sent[i].value;
    DecryptShape(x, r.party, letter.wire, letter.external, pair);
  }

  lemma DeliverKeeps(x: Suite, root: Key, root': Key, max: nat, max': nat, s: Side, r: Side, i: nat, pair: KeyPair)
    requires Direction(x, root, max, s, r) && Direction(x, root', max', r, s) && GoodKeys(x, r)
    ensures var t := DeliverTo(x, r, s, i, pair);
            && Direction(x, root, max, s, t) && Direction(x, root', max', t, s) && GoodKeys(x, t)
            && t.party.local == r.party.local && t.party.pq.maxHistory == r.party.pq.maxHistory
  {
    if i < |s.sent| && s.sent[i].Some? {
      DeliverKeys(x, s, r, i, pair);
      DeliverForward(x, root, max, s, r, i, pair);
      DeliverBackward(x, root, root', max, s, r, i, pair);
    }
  }

  lemma StepKeeps(x: Suite, start: World, w: World, e: Event)
    requires Synchronised(x, start, w)
    ensures Synchronised(x, start, Step(x, w, e))
  {
    var rootA, rootB := start.a.party.sendKey, start.b.party.sendKey;
    var maxA, maxB := start.b.party.recv.max, start.a.party.recv.max;
    match e
    case Send(byA, plaintext, external, draw) =>
      if byA {
        SendKeeps(x, rootA, rootB, maxA, maxB, w.a, w.b, plaintext, external, draw);
      } else {
        SendKeeps(x, rootB, rootA, maxB, maxA, w.b, w.a, plaintext, external, draw);
      }
    case Deliver(toA, i, pair) =>
      if toA {
        DeliverKeeps(x, rootB, rootA, maxB, maxA, w.b, w.a, i, pair);
      } else {
        DeliverKeeps(x, rootA, rootB, maxA, maxB, w.a, w.b, i, pair);
      }
  }

  lemma StartIsSynchronised(x: Suite, root: Key, a: KeyPair, b: KeyPair, maxA: nat, maxB: nat, pqA: PqState,
                            pqB: PqState)
    requires Matching(x.keys, pqA, pqB)
    ensures var start := Start(x, root, a, b, maxA, maxB, pqA, pqB); Synchronised(x, start, start)
  {
    var start := Start(x, root, a, b, maxA, maxB, pqA, pqB);
    assert start.a.made[0].public == pqB.remote && start.b.made[0].public == pqA.remote;
    assert [pqA.local] + pqA.history == Recent([pqA.local], pqA.maxHistory + 1);
    assert [pqB.local] + pqB.history == Recent([pqB.local], pqB.maxHistory + 1);
  }

  lemma {:induction false} EveryRunIsSynchronised(x: Suite, start: World, events: seq<Event>)
    requires Synchronised(x, start, start)
    ensures Synchronised(x, start, Execute(x, start, events))
  {
    if events != [] {
      EveryRunIsSynchronised(x, start, events[..|events| - 1]);
      StepKeeps(x, start, Execute(x, start, events[..|events| - 1]), events[|events| - 1]);
    }
  }

  /** In every state of every run, whatever was sent, lost, repeated or reordered before, delivering
      any message to either side opens it exactly under the condition above. No message of the run
      ever turns the Diffie-Hellman ratchet: both sides keep their key pairs. */
  lemma ConversationOpens(x: Suite, root: Key, a: KeyPair, b: KeyPair, maxA: nat, maxB: nat, pqA: PqState, pqB: PqState,
                          events: seq<Event>, i: nat, pair: KeyPair)
    requires Matching(x.keys, pqA, pqB)
    ensures var w := Execute(x, Start(x, root, a, b, maxA, maxB, pqA, pqB), events);
            && (i < |w.a.sent| && w.a.sent[i].Some? ==> OpensExactly(x, w.a, w.b, i, pair))
            && (i < |w.b.sent| && w.b.sent[i].Some? ==> OpensExactly(x, w.b, w.a, i, pair))
            && w.a.party.local == a && w.b.party.local == b
            && w.a.party.pq.maxHistory == pqA.maxHistory && w.b.party.pq.maxHistory == pqB.maxHistory
  {
    var start := Start(x, root, a, b, maxA, maxB, pqA, pqB);
    var w := Execute(x, start, events);
    StartIsSynchronised(x, root, a, b, maxA, maxB, pqA, pqB);
    EveryRunIsSynchronised(x, start, events);
    if i < |w.a.sent| && w.a.sent[i].Some? {
      DirectionOpens(x, start.a.party.sendKey, start.b.party.recv.max, w.a, w.b, i, pair);
    }
    if i < |w.b.sent| && w.b.sent[i].Some? {
      DirectionOpens(x, start.b.party.sendKey, start.a.party.recv.max, w.b, w.a, i, pair);
    }
  }

  lemma CapacityKept(x: Suite, root: Key, max: nat, s: Side, r: Side)
    requires Direction(x, root, max, s, r)
    ensures r.party.recv.max == max
  {
    RunKeeps(x.chainStep, Receiver(s.party.local.public, root, 0, max, []), r.got);
  }

  /** In every state of every run a side can still open numbers it skipped, as many as its setting says but
      at most 2,048. */
  lemma CapacityIsCapped(x: Suite, root: Key, a: KeyPair, b: KeyPair, maxA: nat, maxB: nat, pqA: PqState, pqB: PqState,
                         events: seq<Event>)
    requires Matching(x.keys, pqA, pqB)
    ensures var w := Execute(x, Start(x, root, a, b, maxA, maxB, pqA, pqB), events);
            && w.a.party.recv.max <= 2048 && w.a.party.recv.max <= maxA
            && (w.a.party.recv.max == 2048 || w.a.party.recv.max == maxA)
            && w.b.party.recv.max <= 2048 && w.b.party.recv.max <= maxB
            && (w.b.party.recv.max == 2048 || w.b.party.recv.max == maxB)
  {
    var start := Start(x, root, a, b, maxA, maxB, pqA, pqB);
    var w := Execute(x, start, events);
    StartIsSynchronised(x, root, a, b, maxA, maxB, pqA, pqB);
    EveryRunIsSynchronised(x, start, events);
    CapacityKept(x, start.a.party.sendKey, start.b.party.recv.max, w.a, w.b);
    CapacityKept(x, start.b.party.sendKey, start.a.party.recv.max, w.b, w.a);
  }

  // ------------------------------------------------------------ an answer that comes too late

  predicate SentByA(events: seq<Event>) {
    forall i :: 0 <= i < |events| ==> events[i].Send? && events[i].byA
  }

  lemma {:induction false} OnlyASends(x: Suite, start: World, events: seq<Event>)
    requires SentByA(events)
    ensures var w := Execute(x, start, events);
            w.b == start.b && w.a.party.recv == start.a.party.recv && start.a.made <= w.a.made
  {
    if events != [] {
      var before, e := events[..|events| - 1], events[|events| - 1];
      OnlyASends(x, start, before);
      var s := Execute(x, start, before).a;
      if s.party.sendNext < U32_MAX {
        EncryptShape(x, s.party, e.plaintext, e.external, e.draw);
      }
    }
  }

  /** A key with a hash of its own is as old as the number of keys made after it. */
  lemma {:induction false} AgeOfFirst(hash: Hash, made: seq<KeyPair>)
    requires made != [] && forall t :: 0 < t < |made| ==> hash(made[t].public) != hash(made[0].public)
    ensures Age(hash, made, hash(made[0].public)) == Some(|made| - 1)
  {
    if |made| > 1 {
      AgeOfFirst(hash, made[..|made| - 1]);
    }
  }

  lemma FirstKeyIsThere(x: Suite, p: Party, h: Header, pair: KeyPair)
    requires h.pub == p.recv.pub && h.num == 0 == p.recv.next
    ensures SelectKey(x, p, h, pair).0.Some?
  {
  }

  /** The first message B sends is meant for the first key of A. */
  lemma FirstAnswer(x: Suite, root: Key, a: KeyPair, b: KeyPair, maxA: nat, maxB: nat, pqA: PqState, pqB: PqState,
                    middle: World, answer: Event)
    requires Matching(x.keys, pqA, pqB) && answer.Send? && !answer.byA
    requires middle.b == Start(x, root, a, b, maxA, maxB, pqA, pqB).b
    ensures var w := Step(x, middle, answer);
            && w.a == middle.a && |w.b.sent| == 1
            && (w.b.sent[0].Some? ==>
                  && w.b.sent[0].value.wire.header == Header(b.public, 0, 0)
                  && (w.b.sent[0].value.wire.step.Some? ==>
                        w.b.sent[0].value.wire.step.value.target == x.lib.sha256(pqA.local.public)))
  {
  }

  /** A sends first, B answers without having received any of it: once A has rotated its key more than
      `maxHistory` times the answer is refused, although its message key is found and spent. */
  lemma OvertakenAnswerIsLost(x: Suite, root: Key, a: KeyPair, b: KeyPair, maxA: nat, maxB: nat, pqA: PqState,
                              pqB: PqState,
                              sends: seq<Event>, answer: Event, pair: KeyPair)
    requires Matching(x.keys, pqA, pqB) && SentByA(sends) && answer.Send? && !answer.byA
    requires var w := Execute(x, Start(x, root, a, b, maxA, maxB, pqA, pqB), sends + [answer]);
             && w.b.sent != [] && w.b.sent[0].Some? && w.b.sent[0].value.wire.step.Some?
             && |w.a.made| > pqA.maxHistory + 1
             && forall t :: 0 < t < |w.a.made| ==> x.lib.sha256(w.a.made[t].public) != x.lib.sha256(pqA.local.public)
    ensures var w := Execute(x, Start(x, root, a, b, maxA, maxB, pqA, pqB), sends + [answer]);
            var letter := w.b.sent[0].value;
            && SelectKey(x, w.a.party, letter.wire.header, pair).0.Some?
            && Decrypt(x, w.a.party, letter.wire, letter.external, pair).0.Err?
  {
    var start := Start(x, root, a, b, maxA, maxB, pqA, pqB);
    var middle, w := Execute(x, start, sends), Execute(x, start, sends + [answer]);
    assert (sends + [answer])[..|sends|] == sends;
    OnlyASends(x, start, sends);
    FirstAnswer(x, root, a, b, maxA, maxB, pqA, pqB, middle, answer);
    FirstKeyIsThere(x, w.a.party, w.b.sent[0].value.wire.header, pair);
    assert w.a.made[0] == pqA.local;
    AgeOfFirst(x.lib.sha256, w.a.made);
    ConversationOpens(x, root, a, b, maxA, maxB, pqA, pqB, sends + [answer], 0, pair);
  }

  /** The random values of a send let its step succeed. */
  predicate Works(x: Suite, remote: seq<byte>, e: Event)
    requires e.Send?
  {
    x.keys.encapsulate(remote, e.draw.coins).Some? && x.keys.kemSecret(e.draw.secret)
  }

  lemma {:induction false} SendsRotate(x: Suite, start: World, events: seq<Event>)
    requires SentByA(events) && |events| < U32_MAX && start.a.party.sendNext == 0 && start.a.party.pq.interval == 1
    requires forall i :: 0 <= i < |events| ==> Works(x, start.a.party.pq.remote, events[i])
    ensures var s := Execute(x, start, events).a;
            && |s.made| == |start.a.made| + |events| && s.party.sendNext == |events|
            && s.party.pq.interval == 1 && s.party.pq.remote == start.a.party.pq.remote
  {
    if events != [] {
      SendsRotate(x, start, events[..|events| - 1]);
    }
  }

  /** With the shipped interval 1 and history of 4 keys, five messages of A are enough. */
  lemma FiveSendsLoseTheAnswer(x: Suite, root: Key, a: KeyPair, b: KeyPair, maxA: nat, maxB: nat, pqA: PqState,
                               pqB: PqState,
                               sends: seq<Event>, answer: Event, pair: KeyPair)
    requires Matching(x.keys, pqA, pqB) && pqA.interval == pqB.interval == 1 && pqA.maxHistory == 4
    requires |sends| == 5 && SentByA(sends) && forall i :: 0 <= i < 5 ==> Works(x, pqA.remote, sends[i])
    requires answer.Send? && !answer.byA && Works(x, pqB.remote, answer)
    requires var w := Execute(x, Start(x, root, a, b, maxA, maxB, pqA, pqB), sends + [answer]);
             && w.b.sent != [] && w.b.sent[0].Some?
             && forall t :: 0 < t < |w.a.made| ==> x.lib.sha256(w.a.made[t].public) != x.lib.sha256(pqA.local.public)
    ensures var w := Execute(x, Start(x, root, a, b, maxA, maxB, pqA, pqB), sends + [answer]);
            var letter := w.b.sent[0].value;
            && SelectKey(x, w.a.party, letter.wire.header, pair).0.Some?
            && Decrypt(x, w.a.party, letter.wire, letter.external, pair).0.Err?
  {
    var start := Start(x, root, a, b, maxA, maxB, pqA, pqB);
    assert (sends + [answer])[..|sends|] == sends;
    SendsRotate(x, start, sends);
    OnlyASends(x, start, sends);
    OvertakenAnswerIsLost(x, root, a, b, maxA, maxB, pqA, pqB, sends, answer, pair);
  }

  // ------------------------------------------------------------ roots

  predicate SameHash(x: Suite, a: KeyPair, b: KeyPair) {
    x.lib.sha256(a.public) == x.lib.sha256(b.public)
  }

  /** Keys with the same hash are the same key. */
  ghost predicate NoClash(x: Suite, made: seq<KeyPair>) {
    forall s, t :: 0 <= s < |made| && 0 <= t < |made| && SameHash(x, made[s], made[t]) ==> made[s] == made[t]
  }

  /** A step received gives the secret that was encapsulated. */
  lemma StepSharesSecret(x: Suite, r: Side, step: PqStep, num: nat, public: seq<byte>, coins: seq<byte>)
    requires GoodKeys(x, r) && NoClash(x, r.made) && PublicOf(r.made, public)
    requires x.keys.encapsulate(public, coins).Some? && x.keys.encapsulate(public, coins).value.0 == step.ct
    requires x.lib.sha256(public) == step.target && ReceiverStep(x.keys, x.lib.sha256, r.party.pq, step, num).Ok?
    ensures ReceiverStep(x.keys, x.lib.sha256, r.party.pq, step, num).value.0
            == x.keys.encapsulate(public, coins).value.1
  {
    var u :| 0 <= u < |r.made| && r.made[u].public == public;
    var t := FoundIsMade(x.lib.sha256, r.made, r.party.pq.maxHistory + 1, step.target);
    assert r.made[t] == r.made[u];
  }

  /** A message delivered right after it was sent leaves both sides with equal roots if they had equal
      roots before. */
  lemma PromptDeliveryKeepsRoots(x: Suite, root: Key, max: nat, s: Side, r: Side,
                                 plaintext: seq<byte>, external: seq<byte>, draw: Draw, pair: KeyPair)
    requires Direction(x, root, max, s, r) && GoodKeys(x, r) && NoClash(x, r.made) && s.party.root == r.party.root
    requires s.party.sendNext < U32_MAX
    requires var t := SendFrom(x, s, plaintext, external, draw);
             t.sent[|s.sent|].Some? && Decrypt(x, r.party, t.sent[|s.sent|].value.wire, external, pair).0.Ok?
    ensures var t := SendFrom(x, s, plaintext, external, draw);
            DeliverTo(x, r, t, |s.sent|, pair).party.root == t.party.root
  {
    var t := SendFrom(x, s, plaintext, external, draw);
    var w := t.sent[|s.sent|].value.wire;
    if w.step.Some? {
      StepSharesSecret(x, r, w.step.value, w.header.num, s.party.pq.remote, draw.coins);
    }
  }
}
