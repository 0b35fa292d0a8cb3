/** Which key of the other side a session encapsulates to: over every run the one announced last, and
    in runs that take turns always the newest one, so that every message opens. */
module RemoteKeys {
  import opened Core
  import opened Bytes
  import opened KeyAgreement
  import opened Ratchet
  import opened Session
  import opened PqRatchet
  import opened DirectSession
  import opened Conversation

  // ------------------------------------------------------------ over every run

  /** Message k announces a key of its sender. */
  predicate Announces(sent: seq<Option<Letter>>, k: nat) {
    k < |sent| && sent[k].Some? && sent[k].value.wire.step.Some?
  }

  predicate Counts(start: PqState, sent: seq<Option<Letter>>, unsealed: seq<nat>, k: nat) {
    k in unsealed && Announces(sent, k) && k >= start.lastUpdate
  }

  /** The remote key is the one announced by the highest-numbered message that opened, or the one the
      session started with if no message counts. */
  ghost predicate RemoteIsLatest(start: PqState, sent: seq<Option<Letter>>, unsealed: seq<nat>, s: PqState) {
    if exists k: nat :: Counts(start, sent, unsealed, k) then
      && Counts(start, sent, unsealed, s.lastUpdate) && s.remote == sent[s.lastUpdate].value.wire.step.value.next
      && forall k: nat :: Counts(start, sent, unsealed, k) ==> k <= s.lastUpdate
    else s.remote == start.remote && s.lastUpdate == start.lastUpdate
  }

  lemma SendKeepsRemote(start: PqState, sent: seq<Option<Letter>>, more: Option<Letter>, unsealed: seq<nat>, s: PqState)
    requires RemoteIsLatest(start, sent, unsealed, s) && forall k :: k in unsealed ==> k < |sent|
    ensures RemoteIsLatest(start, sent + [more], unsealed, s)
  {
    assert forall k: nat :: Counts(start, sent, unsealed, k) <==> Counts(start, sent + [more], unsealed, k);
  }

  lemma OpenKeepsRemote(start: PqState, sent: seq<Option<Letter>>, unsealed: seq<nat>, s: PqState, i: nat)
    requires RemoteIsLatest(start, sent, unsealed, s) && i < |sent| && sent[i].Some?
    ensures var step := sent[i].value.wire.step;
            RemoteIsLatest(start, sent, unsealed + [i], if step.Some? then UpdateRemote(s, step.value.next, i) else s)
  {
    var after := unsealed + [i];
    assert forall k: nat :: Counts(start, sent, after, k) <==>
      Counts(start, sent, unsealed, k) || (k == i && Announces(sent, i) && i >= start.lastUpdate);
  }

  /** The receiver knows what was announced last. */
  ghost predicate Knows(start: PqState, s: Side, r: Side) {
    RemoteIsLatest(start, s.sent, r.unsealed, r.party.pq) && forall k :: k in r.unsealed ==> k < |s.sent|
  }

  ghost predicate RemotesAreLatest(start: World, w: World) {
    Knows(start.b.party.pq, w.a, w.b) && Knows(start.a.party.pq, w.b, w.a)
  }

  lemma SendStepKeeps(x: Suite, startS: PqState, startR: PqState, s: Side, r: Side,
                      plaintext: seq<byte>, external: seq<byte>, draw: Draw)
    requires Knows(startR, s, r) && Knows(startS, r, s)
    ensures var t := SendFrom(x, s, plaintext, external, draw); Knows(startR, t, r) && Knows(startS, r, t)
  {
    var t := SendFrom(x, s, plaintext, external, draw);
    if s.party.sendNext < U32_MAX {
      EncryptShape(x, s.party, plaintext, external, draw);
      SendKeepsRemote(startR, s.sent, t.sent[|s.sent|], r.unsealed, r.party.pq);
    }
  }

  /** What a delivery changes besides the receiving chain and the root. */
  lemma DeliverChanges(x: Suite, s: Side, r: Side, i: nat, letter: Letter, pair: KeyPair)
    requires i < |s.sent| && s.sent[i] == Some(letter)
    requires letter.wire.header.pub == r.party.recv.pub && letter.wire.header.num == i
    ensures var t := DeliverTo(x, r, s, i, pair);
            var ok := Decrypt(x, r.party, letter.wire, letter.external, pair).0.Ok?;
            && t.sent == r.sent && t.made == r.made && t.got == r.got + [i]
            && t.unsealed == (if ok then r.unsealed + [i] else r.unsealed)
            && t.party.pq == if ok && letter.wire.step.Some?
                             then UpdateRemote(r.party.pq, letter.wire.step.value.next, i) else r.party.pq
  {
    DecryptPq(x, r.party, letter.wire, letter.external, pair);
  }

  lemma LetterHeader(x: Suite, root: Key, max: nat, s: Side, r: Side, i: nat)
    requires Direction(x, root, max, s, r) && i < |s.sent| && s.sent[i].Some?
    ensures s.sent[i].value.wire.header.pub == r.party.recv.pub && s.sent[i].value.wire.header.num == i
  {
  }

  lemma DeliverStepKeeps(x: Suite, startR: PqState, startS: PqState, s: Side, r: Side, i: nat, pair: KeyPair)
    requires Knows(startR, s, r) && Knows(startS, r, s)
    requires i < |s.sent| && s.sent[i].Some? ==>
               s.sent[i].value.wire.header.pub == r.party.recv.pub && s.sent[i].value.wire.header.num == i
    ensures var t := DeliverTo(x, r, s, i, pair); Knows(startR, s, t) && Knows(startS, t, s)
  {
    if i < |s.sent| && s.sent[i].Some? {
      DeliverChanges(x, s, r, i, s.sent[i].value, pair);
      OpenKeepsRemote(startR, s.sent, r.unsealed, r.party.pq, i);
    }
  }

  lemma StepKeepsRemotes(x: Suite, start: World, w: World, e: Event)
    requires Synchronised(x, start, w) && RemotesAreLatest(start, w)
    ensures RemotesAreLatest(start, Step(x, w, e))
  {
    var a, b := start.a.party, start.b.party;
    match e
    case Send(byA, plaintext, external, draw) =>
      if byA {
        SendStepKeeps(x, a.pq, b.pq, w.a, w.b, plaintext, external, draw);
      } else {
        SendStepKeeps(x, b.pq, a.pq, w.b, w.a, plaintext, external, draw);
      }
    case Deliver(toA, i, pair) =>
      if toA {
        if i < |w.b.sent| && w.b.sent[i].Some? { LetterHeader(x, b.sendKey, a.recv.max, w.b, w.a, i); }
        DeliverStepKeeps(x, a.pq, b.pq, w.b, w.a, i, pair);
      } else {
        if i < |w.a.sent| && w.a.sent[i].Some? { LetterHeader(x, a.sendKey, b.recv.max, w.a, w.b, i); }
        DeliverStepKeeps(x, b.pq, a.pq, w.a, w.b, i, pair);
      }
  }

  lemma {:induction false} RunKeepsRemotes(x: Suite, start: World, events: seq<Event>)
    requires Synchronised(x, start, start) && RemotesAreLatest(start, start)
    ensures RemotesAreLatest(start, Execute(x, start, events))
  {
    if events != [] {
      var before := events[..|events| - 1];
      RunKeepsRemotes(x, start, before);
      EveryRunIsSynchronised(x, start, before);
      StepKeepsRemotes(x, start, Execute(x, start, before), events[|events| - 1]);
    }
  }

  /** In every state of every run each side encapsulates to the key announced by the highest-numbered
      message it opened, or to the key it started with. */
  lemma RemoteKeyIsLatest(x: Suite, root: Key, a: KeyPair, b: KeyPair, maxA: nat, maxB: nat, pqA: PqState, pqB: PqState,
                          events: seq<Event>)
    requires Matching(x.keys, pqA, pqB)
    ensures var w := Execute(x, Start(x, root, a, b, maxA, maxB, pqA, pqB), events);
            && RemoteIsLatest(pqA, w.b.sent, w.a.unsealed, w.a.party.pq)
            && RemoteIsLatest(pqB, w.a.sent, w.b.unsealed, w.b.party.pq)
  {
    var start := Start(x, root, a, b, maxA, maxB, pqA, pqB);
    StartIsSynchronised(x, root, a, b, maxA, maxB, pqA, pqB);
    RunKeepsRemotes(x, start, events);
  }

  // ------------------------------------------------------------ runs that take turns

  /** The latest key that the messages announce, starting from `first`. */
  function Newest(sent: seq<Option<Letter>>, first: seq<byte>): seq<byte> {
    if sent == [] then first
    else if Announces(sent, |sent| - 1) then sent[|sent| - 1].value.wire.step.value.next
    else Newest(sent[..|sent| - 1], first)
  }

  function Latest(made: seq<KeyPair>): seq<byte>
    requires made != []
  {
    made[|made| - 1].public
  }

  /** A side sends only when it has received everything sent to it so far, the message fits the wire, and
      messages are delivered in the order they were sent. */
  ghost predicate InTurn(x: Suite, w: World, e: Event) {
    match e
    case Send(byA, plaintext, external, draw) =>
      var s, r := if byA then w.a else w.b, if byA then w.b else w.a;
      && |s.got| == |r.sent| && s.party.sendNext < U32_MAX
      && Encrypt(x, s.party, plaintext, external, draw).0.Some?
    case Deliver(toA, i, _) =>
      var s, r := if toA then w.b else w.a, if toA then w.a else w.b;
      i == |r.got| < |s.sent|
  }

  ghost predicate TurnByTurn(x: Suite, start: World, events: seq<Event>) {
    events == [] ||
    var before := events[..|events| - 1];
    TurnByTurn(x, start, before) && InTurn(x, Execute(x, start, before), events[|events| - 1])
  }

  /** One direction of such a run: everything delivered, in order, has opened; what is under way is meant
      for the receiver's newest key; and the receiver knows the newest key announced to it. */
  ghost predicate Flows(x: Suite, first: seq<byte>, s: Side, r: Side) {
    && s.made != [] && r.made != [] && |r.got| <= |s.sent|
    && (forall i :: 0 <= i < |r.got| ==> r.got[i] == i) && r.unsealed == r.got
    && (forall i :: 0 <= i < |s.sent| ==> s.sent[i].Some?)
    && Latest(s.made) == Newest(s.sent, first)
    && r.party.pq.remote == Newest(s.sent[..|r.got|], first) && r.party.pq.lastUpdate <= |r.got|
    && forall i :: |r.got| <= i < |s.sent| && Announces(s.sent, i) ==>
         s.sent[i].value.wire.step.value.target == x.lib.sha256(Latest(r.made))
  }

  lemma SendFlows(x: Suite, first: seq<byte>, first': seq<byte>, s: Side, r: Side,
                  plaintext: seq<byte>, external: seq<byte>, draw: Draw)
    requires Flows(x, first, s, r) && Flows(x, first', r, s) && |s.got| == |r.sent| && s.party.sendNext < U32_MAX
    requires Encrypt(x, s.party, plaintext, external, draw).0.Some?
    ensures Flows(x, first, SendFrom(x, s, plaintext, external, draw), r)
  {
    var t := SendFrom(x, s, plaintext, external, draw);
    assert r.sent[..|s.got|] == r.sent;
    assert t.sent[..|s.sent|] == s.sent && t.sent[..|r.got|] == s.sent[..|r.got|];
    SentStep(x, s.party, plaintext, external, draw);
  }

  /** What a message sent carries: the hash of the remote key, and the key just made. */
  lemma SentStep(x: Suite, p: Party, plaintext: seq<byte>, external: seq<byte>, draw: Draw)
    requires p.sendNext < U32_MAX && Encrypt(x, p, plaintext, external, draw).0.Some?
    ensures var step := Encrypt(x, p, plaintext, external, draw).0.value.step;
            if step.Some?
            then MadeBy(x, p, draw) != [] && step.value.target == x.lib.sha256(p.pq.remote)
                 && |MadeBy(x, p, draw)| == 1 && step.value.next == MadeBy(x, p, draw)[0].public
            else MadeBy(x, p, draw) == []
  {
  }

  /** The other direction has nothing under way. */
  lemma SendFlowsBack(x: Suite, first: seq<byte>, r: Side, s: Side,
                      plaintext: seq<byte>, external: seq<byte>, draw: Draw)
    requires Flows(x, first, r, s) && |s.got| == |r.sent| && s.party.sendNext < U32_MAX
    ensures Flows(x, first, r, SendFrom(x, s, plaintext, external, draw))
  {
    EncryptShape(x, s.party, plaintext, external, draw);
  }

  /** The next message under way opens. */
  lemma NextOpens(x: Suite, root: Key, max: nat, first: seq<byte>, s: Side, r: Side, i: nat, pair: KeyPair)
    requires Direction(x, root, max, s, r) && GoodKeys(x, r) && Flows(x, first, s, r) && i == |r.got| < |s.sent|
    ensures Decrypt(x, r.party, s.sent[i].value.wire, s.sent[i].value.external, pair).0 == Ok(s.sent[i].value.plaintext)
    ensures Announces(s.sent, i) ==> Age(x.lib.sha256, r.made, s.sent[i].value.wire.step.value.target) == Some(0)
  {
    DirectionOpens(x, root, max, s, r, i, pair);
    assert forall m :: m in r.got ==> m < i;
    WindowIsSpared(r.got, i, max);
  }

  lemma FlowsOn(x: Suite, first: seq<byte>, s: Side, r: Side, i: nat, t: Side)
    requires Flows(x, first, s, r) && i == |r.got| < |s.sent|
    requires t.made == r.made && t.got == r.got + [i] && t.unsealed == r.unsealed + [i]
    requires var step := s.sent[i].value.wire.step;
             t.party.pq == if step.Some? then UpdateRemote(r.party.pq, step.value.next, i) else r.party.pq
    ensures Flows(x, first, s, t)
  {
    assert s.sent[..i + 1][..i] == s.sent[..i] && s.sent[..i + 1][i] == s.sent[i];
  }

  lemma DeliverFlows(x: Suite, root: Key, max: nat, first: seq<byte>, s: Side, r: Side, i: nat, pair: KeyPair)
    requires Direction(x, root, max, s, r) && GoodKeys(x, r) && Flows(x, first, s, r) && i == |r.got| < |s.sent|
    ensures Flows(x, first, s, DeliverTo(x, r, s, i, pair))
  {
    NextOpens(x, root, max, first, s, r, i, pair);
    DeliverChanges(x, s, r, i, s.sent[i].value, pair);
    FlowsOn(x, first, s, r, i, DeliverTo(x, r, s, i, pair));
  }

  lemma DeliverFlowsBack(x: Suite, root: Key, max: nat, first: seq<byte>, s: Side, r: Side, i: nat, pair: KeyPair)
    requires Direction(x, root, max, s, r) && Flows(x, first, r, s)
    ensures Flows(x, first, DeliverTo(x, r, s, i, pair), s)
  {
  }

  /** Both directions flow, and at most one of them has messages under way. */
  ghost predicate TakesTurns(x: Suite, start: World, w: World) {
    && Flows(x, start.b.party.pq.remote, w.a, w.b) && Flows(x, start.a.party.pq.remote, w.b, w.a)
    && (|w.a.got| == |w.b.sent| || |w.b.got| == |w.a.sent|)
  }

  lemma SendKeepsTurns(x: Suite, first: seq<byte>, first': seq<byte>, s: Side, r: Side,
                       plaintext: seq<byte>, external: seq<byte>, draw: Draw)
    requires Flows(x, first, s, r) && Flows(x, first', r, s) && |s.got| == |r.sent| && s.party.sendNext < U32_MAX
    requires Encrypt(x, s.party, plaintext, external, draw).0.Some?
    ensures var t := SendFrom(x, s, plaintext, external, draw);
            Flows(x, first, t, r) && Flows(x, first', r, t) && |t.got| == |r.sent|
  {
    SendFlows(x, first, first', s, r, plaintext, external, draw);
    SendFlowsBack(x, first', r, s, plaintext, external, draw);
  }

  lemma DeliverKeepsTurns(x: Suite, root: Key, max: nat, first: seq<byte>, first': seq<byte>, s: Side, r: Side,
                          i: nat, pair: KeyPair)
    requires Direction(x, root, max, s, r) && GoodKeys(x, r) && i == |r.got| < |s.sent|
    requires Flows(x, first, s, r) && Flows(x, first', r, s)
    ensures var t := DeliverTo(x, r, s, i, pair);
            Flows(x, first, s, t) && Flows(x, first', t, s) && t.sent == r.sent
  {
    DeliverFlows(x, root, max, first, s, r, i, pair);
    DeliverFlowsBack(x, root, max, first', s, r, i, pair);
  }

  lemma TurnKeeps(x: Suite, start: World, w: World, e: Event)
    requires Synchronised(x, start, w) && TakesTurns(x, start, w) && InTurn(x, w, e)
    ensures TakesTurns(x, start, Step(x, w, e))
  {
    var a, b := start.a.party, start.b.party;
    match e
    case Send(byA, plaintext, external, draw) =>
      if byA {
        SendKeepsTurns(x, b.pq.remote, a.pq.remote, w.a, w.b, plaintext, external, draw);
      } else {
        SendKeepsTurns(x, a.pq.remote, b.pq.remote, w.b, w.a, plaintext, external, draw);
      }
    case Deliver(toA, i, pair) =>
      if toA {
        DeliverKeepsTurns(x, b.sendKey, a.recv.max, a.pq.remote, b.pq.remote, w.b, w.a, i, pair);
      } else {
        DeliverKeepsTurns(x, a.sendKey, b.recv.max, b.pq.remote, a.pq.remote, w.a, w.b, i, pair);
      }
  }

  lemma {:induction false} TurnsKeep(x: Suite, start: World, events: seq<Event>)
    requires Synchronised(x, start, start) && TakesTurns(x, start, start) && TurnByTurn(x, start, events)
    ensures TakesTurns(x, start, Execute(x, start, events))
  {
    if events != [] {
      var before := events[..|events| - 1];
      TurnsKeep(x, start, before);
      EveryRunIsSynchronised(x, start, before);
      TurnKeeps(x, start, Execute(x, start, before), events[|events| - 1]);
    }
  }

  /** When the sides take turns, every message opens, however long the turns are and however often the
      keys rotate: each is meant for the newest key of its receiver. */
  lemma TurnsAlwaysOpen(x: Suite, root: Key, a: KeyPair, b: KeyPair, maxA: nat, maxB: nat, pqA: PqState, pqB: PqState,
                        events: seq<Event>)
    requires Matching(x.keys, pqA, pqB) && pqA.lastUpdate == pqB.lastUpdate == 0
    requires TurnByTurn(x, Start(x, root, a, b, maxA, maxB, pqA, pqB), events)
    ensures var w := Execute(x, Start(x, root, a, b, maxA, maxB, pqA, pqB), events);
            && w.a.unsealed == w.a.got && w.b.unsealed == w.b.got
            && (|w.a.got| == |w.b.sent| ==> w.b.made != [] && w.a.party.pq.remote == Latest(w.b.made))
            && (|w.b.got| == |w.a.sent| ==> w.a.made != [] && w.b.party.pq.remote == Latest(w.a.made))
  {
    var start := Start(x, root, a, b, maxA, maxB, pqA, pqB);
    StartIsSynchronised(x, root, a, b, maxA, maxB, pqA, pqB);
    TurnsKeep(x, start, events);
    var w := Execute(x, start, events);
    assert w.a.sent[..|w.a.sent|] == w.a.sent && w.b.sent[..|w.b.sent|] == w.b.sent;
  }

  lemma SentOpens(x: Suite, root: Key, max: nat, first: seq<byte>, s: Side, r: Side,
                  plaintext: seq<byte>, external: seq<byte>, draw: Draw, pair: KeyPair)
    requires s.party.sendNext < U32_MAX && Encrypt(x, s.party, plaintext, external, draw).0.Some?
    requires var t := SendFrom(x, s, plaintext, external, draw);
             Direction(x, root, max, t, r) && GoodKeys(x, r) && Flows(x, first, t, r) && |r.got| == |s.sent|
    ensures var wire := Encrypt(x, s.party, plaintext, external, draw).0.value;
            && (wire.step.Some? ==> Age(x.lib.sha256, r.made, wire.step.value.target) == Some(0))
            && Decrypt(x, r.party, wire, external, pair).0 == Ok(plaintext)
  {
    NextOpens(x, root, max, first, SendFrom(x, s, plaintext, external, draw), r, |r.got|, pair);
  }

  lemma AfterOneMore(x: Suite, start: World, events: seq<Event>, e: Event)
    requires Synchronised(x, start, start) && TakesTurns(x, start, start) && TurnByTurn(x, start, events)
    requires InTurn(x, Execute(x, start, events), e)
    ensures var w := Step(x, Execute(x, start, events), e); Synchronised(x, start, w) && TakesTurns(x, start, w)
  {
    var all := events + [e];
    assert all[..|events|] == events;
    TurnsKeep(x, start, all);
    EveryRunIsSynchronised(x, start, all);
  }

  /** In such a run, once everything sent was delivered, the next message of either side is meant for the
      newest key of the other one and opens when it is delivered. */
  lemma AnswerOpens(x: Suite, root: Key, a: KeyPair, b: KeyPair, maxA: nat, maxB: nat, pqA: PqState, pqB: PqState,
                    events: seq<Event>, answer: Event, pair: KeyPair)
    requires Matching(x.keys, pqA, pqB) && pqA.lastUpdate == pqB.lastUpdate == 0
    requires TurnByTurn(x, Start(x, root, a, b, maxA, maxB, pqA, pqB), events)
    requires var w := Execute(x, Start(x, root, a, b, maxA, maxB, pqA, pqB), events);
             && |w.b.got| == |w.a.sent| && |w.a.got| == |w.b.sent|
             && answer.Send?
             && var p := if answer.byA then w.a.party else w.b.party;
                p.sendNext < U32_MAX && Encrypt(x, p, answer.plaintext, answer.external, answer.draw).0.Some?
    ensures var w := Execute(x, Start(x, root, a, b, maxA, maxB, pqA, pqB), events);
            var (s, r) := if answer.byA then (w.a, w.b) else (w.b, w.a);
            var wire := Encrypt(x, s.party, answer.plaintext, answer.external, answer.draw).0.value;
            && (wire.step.Some? ==> Age(x.lib.sha256, r.made, wire.step.value.target) == Some(0))
            && Decrypt(x, r.party, wire, answer.external, pair).0 == Ok(answer.plaintext)
  {
    var start := Start(x, root, a, b, maxA, maxB, pqA, pqB);
    StartIsSynchronised(x, root, a, b, maxA, maxB, pqA, pqB);
    AfterOneMore(x, start, events, answer);
    var w, p, q := Execute(x, start, events), start.a.party, start.b.party;
    if answer.byA {
      SentOpens(x, p.sendKey, q.recv.max, q.pq.remote, w.a, w.b, answer.plaintext, answer.external, answer.draw, pair);
    } else {
      SentOpens(x, q.sendKey, p.recv.max, p.pq.remote, w.b, w.a, answer.plaintext, answer.external, answer.draw, pair);
    }
  }
}
