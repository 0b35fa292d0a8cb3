/** The roots of the two sessions: in runs that take turns they meet whenever nothing is under way,
    having mixed in the same secrets in the same order. */
module SharedRoots {
  import opened Core
  import opened Bytes
  import opened KeyAgreement
  import opened Ratchet
  import opened Session
  import opened PqRatchet
  import opened DirectSession
  import opened Conversation
  import opened RemoteKeys

  /** The root after the secret that `key` finds in the letter, if it carries one. */
  function MixLetter(x: Suite, root: Key, key: KeyPair, letter: Option<Letter>): Key {
    if letter.None? || letter.value.wire.step.None? then root
    else
      match x.keys.decapsulate(key.secret, letter.value.wire.step.value.ct)
      case None => root
      case Some(ss) => x.mix(root, ss)
  }

  function MixLetters(x: Suite, root: Key, key: KeyPair, letters: seq<Option<Letter>>): Key
    decreases |letters|
  {
    if letters == [] then root else MixLetters(x, MixLetter(x, root, key, letters[0]), key, letters[1..])
  }

  lemma {:induction false} MixOneMore(x: Suite, root: Key, key: KeyPair, letters: seq<Option<Letter>>,
                                      last: Option<Letter>)
    ensures MixLetters(x, root, key, letters + [last]) == MixLetter(x, MixLetters(x, root, key, letters), key, last)
    decreases |letters|
  {
    if letters != [] {
      assert (letters + [last])[1..] == letters[1..] + [last];
      MixOneMore(x, MixLetter(x, root, key, letters[0]), key, letters[1..], last);
    }
  }

  /** Sending mixes in the secret that the receiver's key will find. */
  lemma SentRoot(x: Suite, p: Party, plaintext: seq<byte>, external: seq<byte>, draw: Draw, key: KeyPair)
    requires p.sendNext < U32_MAX && Encrypt(x, p, plaintext, external, draw).0.Some?
    requires p.pq.remote == key.public && GoodPair(x.keys, key)
    ensures var (wire, q) := Encrypt(x, p, plaintext, external, draw);
            q.root == MixLetter(x, p.root, key, Some(Letter(wire.value, external, plaintext)))
  {
  }

  /** Opening mixes in the secret that the newest key finds, if the letter is meant for it. */
  lemma OpenedRoot(x: Suite, p: Party, letter: Letter, pair: KeyPair)
    requires letter.wire.header.pub == p.recv.pub
    requires Decrypt(x, p, letter.wire, letter.external, pair).0.Ok?
    requires letter.wire.step.Some? ==> letter.wire.step.value.target == x.lib.sha256(p.pq.local.public)
    ensures Decrypt(x, p, letter.wire, letter.external, pair).1.root == MixLetter(x, p.root, p.pq.local, Some(letter))
  {
  }

  function Last(made: seq<KeyPair>): KeyPair
    requires made != []
  {
    made[|made| - 1]
  }

  /** The sender is ahead of the receiver by the secrets of the letters under way. */
  ghost predicate Ahead(x: Suite, s: Side, r: Side) {
    && r.made != [] && |r.got| <= |s.sent|
    && s.party.root == MixLetters(x, r.party.root, Last(r.made), s.sent[|r.got|..])
  }

  ghost predicate RootsFlow(x: Suite, s: Side, r: Side) {
    (|s.got| == |r.sent| ==> Ahead(x, s, r)) && (|r.got| == |s.sent| ==> Ahead(x, r, s))
  }

  lemma SendRoots(x: Suite, first: seq<byte>, first': seq<byte>, s: Side, r: Side, plaintext: seq<byte>,
                  external: seq<byte>, draw: Draw)
    requires Flows(x, first, s, r) && Flows(x, first', r, s) && GoodKeys(x, r) && RootsFlow(x, s, r)
    requires |s.got| == |r.sent| && s.party.sendNext < U32_MAX && Encrypt(x, s.party, plaintext, external, draw).0.Some?
    ensures RootsFlow(x, SendFrom(x, s, plaintext, external, draw), r)
  {
    var t := SendFrom(x, s, plaintext, external, draw);
    var letter := t.sent[|s.sent|];
    assert r.sent[..|s.got|] == r.sent;
    SentRoot(x, s.party, plaintext, external, draw, Last(r.made));
    assert t.sent[|r.got|..] == s.sent[|r.got|..] + [letter];
    MixOneMore(x, r.party.root, Last(r.made), s.sent[|r.got|..], letter);
  }

  lemma NewestIsLocal(made: seq<KeyPair>, s: PqState)
    requires Keyring(made, s) && made != []
    ensures s.local == Last(made)
  {
    assert ([s.local] + s.history)[0] == Recent(made, s.maxHistory + 1)[0];
  }

  lemma NextAhead(x: Suite, s: Side, r: Side, i: nat, t: Side)
    requires Ahead(x, s, r) && i == |r.got| < |s.sent| && t.got == r.got + [i] && t.made == r.made
    requires t.party.root == MixLetter(x, r.party.root, Last(r.made), s.sent[i])
    ensures Ahead(x, s, t)
  {
    assert s.sent[i..][0] == s.sent[i] && s.sent[i..][1..] == s.sent[i + 1..];
  }

  lemma DeliveredRoot(x: Suite, root: Key, max: nat, first: seq<byte>, s: Side, r: Side, i: nat, pair: KeyPair)
    requires Direction(x, root, max, s, r) && GoodKeys(x, r) && Flows(x, first, s, r) && i == |r.got| < |s.sent|
    requires r.party.pq.local == Last(r.made)
    ensures DeliverTo(x, r, s, i, pair).party.root == MixLetter(x, r.party.root, Last(r.made), s.sent[i])
  {
    NextOpens(x, root, max, first, s, r, i, pair);
    OpenedRoot(x, r.party, s.sent[i].value, pair);
  }

  lemma DeliverRoots(x: Suite, root: Key, max: nat, first: seq<byte>, s: Side, r: Side, i: nat, pair: KeyPair)
    requires Direction(x, root, max, s, r) && GoodKeys(x, r) && Flows(x, first, s, r)
    requires i == |r.got| < |s.sent| && |s.got| == |r.sent| && s.made != [] && RootsFlow(x, s, r)
    ensures RootsFlow(x, s, DeliverTo(x, r, s, i, pair))
  {
    var t := DeliverTo(x, r, s, i, pair);
    NewestIsLocal(r.made, r.party.pq);
    DeliveredRoot(x, root, max, first, s, r, i, pair);
    NextAhead(x, s, r, i, t);
    if |t.got| == |s.sent| {
      assert s.sent[|t.got|..] == [] && t.sent[|s.got|..] == [];
    }
  }

  lemma FlowSwaps(x: Suite, s: Side, r: Side)
    ensures RootsFlow(x, s, r) <==> RootsFlow(x, r, s)
  {
  }

  lemma TurnKeepsRoots(x: Suite, start: World, w: World, e: Event)
    requires Synchronised(x, start, w) && TakesTurns(x, start, w) && InTurn(x, w, e) && RootsFlow(x, w.a, w.b)
    ensures RootsFlow(x, Step(x, w, e).a, Step(x, w, e).b)
  {
    var a, b := start.a.party, start.b.party;
    FlowSwaps(x, w.a, w.b);
    match e
    case Send(byA, plaintext, external, draw) =>
      if byA {
        SendRoots(x, b.pq.remote, a.pq.remote, w.a, w.b, plaintext, external, draw);
      } else {
        SendRoots(x, a.pq.remote, b.pq.remote, w.b, w.a, plaintext, external, draw);
        FlowSwaps(x, Step(x, w, e).a, w.b);
      }
    case Deliver(toA, i, pair) =>
      if toA {
        DeliverRoots(x, b.sendKey, a.recv.max, a.pq.remote, w.b, w.a, i, pair);
      } else {
        DeliverRoots(x, a.sendKey, b.recv.max, b.pq.remote, w.a, w.b, i, pair);
      }
  }

  lemma {:induction false} TurnsKeepRoots(x: Suite, start: World, events: seq<Event>)
    requires Synchronised(x, start, start) && TakesTurns(x, start, start) && TurnByTurn(x, start, events)
    requires RootsFlow(x, start.a, start.b)
    ensures RootsFlow(x, Execute(x, start, events).a, Execute(x, start, events).b)
  {
    if events != [] {
      var before := events[..|events| - 1];
      TurnsKeepRoots(x, start, before);
      TurnsKeep(x, start, before);
      EveryRunIsSynchronised(x, start, before);
      TurnKeepsRoots(x, start, Execute(x, start, before), events[|events| - 1]);
    }
  }

  /** When the sides take turns, their roots are equal whenever nothing is under way, and otherwise the
      sender's is the receiver's with the secrets under way mixed in, in order. */
  lemma TurnsShareRoots(x: Suite, root: Key, a: KeyPair, b: KeyPair, maxA: nat, maxB: nat, pqA: PqState, pqB: PqState,
                        events: seq<Event>)
    requires Matching(x.keys, pqA, pqB) && pqA.lastUpdate == pqB.lastUpdate == 0
    requires TurnByTurn(x, Start(x, root, a, b, maxA, maxB, pqA, pqB), events)
    ensures var w := Execute(x, Start(x, root, a, b, maxA, maxB, pqA, pqB), events);
            && (|w.a.got| == |w.b.sent| && |w.b.got| == |w.a.sent| ==> w.a.party.root == w.b.party.root)
            && (|w.a.got| == |w.b.sent| ==> Ahead(x, w.a, w.b)) && (|w.b.got| == |w.a.sent| ==> Ahead(x, w.b, w.a))
  {
    var start := Start(x, root, a, b, maxA, maxB, pqA, pqB);
    StartIsSynchronised(x, root, a, b, maxA, maxB, pqA, pqB);
    TurnsKeepRoots(x, start, events);
    var w := Execute(x, start, events);
    assert w.a.sent[|w.a.sent|..] == [];
  }
}
