/** From the prekey bundle through the handshake into the conversation. */
module EndToEnd {
  import opened Core
  import opened Bytes
  import opened Text
  import opened Library
  import opened KeyAgreement
  import opened PqRatchet
  import opened DirectSession
  import opened Conversation
  import Handshake

  const PQ_INTERVAL: nat := 1
  const PQ_KEY_HISTORY: nat := 4

  /** The post-quantum state every shipped session starts with. */
  function MandatoryPq(local: KeyPair, remote: seq<byte>): PqState {
    PqState(PQ_INTERVAL, local, remote, [], PQ_KEY_HISTORY, 0)
  }

  /** What the two sides bring: Alice her identity and post-quantum prekey, Bob his identity, signed
      prekey and post-quantum prekey, and the one-time prekey published in his bundle, if any. */
  datatype Keyset = Keyset(alice: KeyPair, alicePq: KeyPair, bob: KeyPair, spk: KeyPair, bobPq: KeyPair,
                           bundled: Option<seq<byte>>)

  ghost predicate GoodKeyset(k: KeyRoutines, ks: Keyset, b: Handshake.Bundle) {
    && Handshake.BundleOf(k, b, ks.bob, ks.spk.secret, ks.bobPq.secret, ks.bundled)
    && ks.alice.public == k.dhPublic(ks.alice.secret) && ks.spk.public == k.dhPublic(ks.spk.secret)
    && GoodPair(k, ks.alicePq) && GoodPair(k, ks.bobPq)
  }

  /** The sessions both sides set up after the handshake: the initiator with its identity key against
      the signed prekey, the responder with the signed prekey against the initiator's identity key;
      the post-quantum ratchet between the two post-quantum prekeys. */
  function AfterHandshake(x: Suite, ks: Keyset, b: Handshake.Bundle, out: Handshake.InitiatorOutput,
                          got: Handshake.ResponderOutput, maxA: nat, maxB: nat): World
  {
    World(NewSide(FromHandshake(x, true, out.sessionKey, ks.alice, b.signedPrekey, maxA,
                                MandatoryPq(ks.alicePq, b.pqSignedPrekey))),
          NewSide(FromHandshake(x, false, got.sessionKey, ks.spk, out.message.ikA, maxB,
                                MandatoryPq(ks.bobPq, out.message.pqRatchetPub))))
  }

  /** Alice's message to a bundle of Bob's keys: Bob reads it if and only if the one-time prekey is used
      by both or by neither; and then, in every state of every run of the sessions set up from it, a
      delivered message opens exactly as in a synchronised conversation. */
  lemma HandshakeThenConversation(x: Suite, ks: Keyset, aliceId: Str, bobId: Str, bundle: Handshake.Bundle,
                                  payload: seq<byte>, ekSecret: seq<byte>, coins: seq<byte>, nonce: seq<byte>,
                                  out: Handshake.InitiatorOutput, used: Option<seq<byte>>,
                                  maxA: nat, maxB: nat, events: seq<Event>, i: nat, pair: KeyPair)
    requires BindingLaws(x.lib) && GoodKeyset(x.keys, ks, bundle)
             && (used.Some? && ks.bundled.Some? ==> used == ks.bundled)
    requires Handshake.Initiate(x.lib, x.keys, aliceId, bobId, ks.alice, ks.alicePq.public, bundle, payload,
                                ekSecret, coins, nonce)
             == Ok(out)
    ensures var got := Handshake.Receive(x.lib, x.keys, ks.bob, ks.spk.secret, ks.bobPq.secret, used, out.message);
            && (got.Ok? <==> used == ks.bundled)
            && (got.Ok? ==>
                  && got.value.plaintext == payload
                  && var w := Execute(x, AfterHandshake(x, ks, bundle, out, got.value, maxA, maxB), events);
                     && (i < |w.a.sent| && w.a.sent[i].Some? ==> OpensExactly(x, w.a, w.b, i, pair))
                     && (i < |w.b.sent| && w.b.sent[i].Some? ==> OpensExactly(x, w.b, w.a, i, pair)))
  {
    var lib: Binding := x.lib;
    Handshake.AcceptsExactly(lib, x.keys, aliceId, bobId, ks.alice, ks.alicePq.public, bundle, payload, ekSecret,
                             coins, nonce, out,
                             ks.bob, ks.spk.secret, ks.bobPq.secret, ks.bundled, used);
    if used == ks.bundled {
      SessionsMatch(x, ks, aliceId, bobId, bundle, payload, ekSecret, coins, nonce, out, maxA, maxB);
      ConversationOpens(x, out.sessionKey, ks.alice, ks.spk, maxA, maxB, MandatoryPq(ks.alicePq, bundle.pqSignedPrekey),
                        MandatoryPq(ks.bobPq, out.message.pqRatchetPub), events, i, pair);
    }
  }

  lemma SessionsMatch(x: Suite, ks: Keyset, aliceId: Str, bobId: Str, bundle: Handshake.Bundle, payload: seq<byte>,
                      ekSecret: seq<byte>, coins: seq<byte>, nonce: seq<byte>, out: Handshake.InitiatorOutput,
                      maxA: nat, maxB: nat)
    requires GoodKeyset(x.keys, ks, bundle)
    requires Handshake.Initiate(x.lib, x.keys, aliceId, bobId, ks.alice, ks.alicePq.public, bundle, payload,
                                ekSecret, coins, nonce)
             == Ok(out)
    ensures var pqA, pqB := MandatoryPq(ks.alicePq, bundle.pqSignedPrekey),
            MandatoryPq(ks.bobPq, out.message.pqRatchetPub);
            && Matching(x.keys, pqA, pqB)
            && AfterHandshake(x, ks, bundle, out, Handshake.ResponderOutput(payload, out.sessionKey), maxA, maxB)
               == Start(x, out.sessionKey, ks.alice, ks.spk, maxA, maxB, pqA, pqB)
  {
    Handshake.InitiateSeals(x.lib, x.keys, aliceId, bobId, ks.alice, ks.alicePq.public, bundle, payload, ekSecret,
                            coins, nonce, out);
  }

  /** A receiver that never uses a one-time prekey reads exactly the messages to bundles without one. */
  lemma ReceiverWithoutPrekey(x: Suite, ks: Keyset, aliceId: Str, bobId: Str, bundle: Handshake.Bundle,
                              payload: seq<byte>, ekSecret: seq<byte>, coins: seq<byte>, nonce: seq<byte>,
                              out: Handshake.InitiatorOutput)
    requires BindingLaws(x.lib) && GoodKeyset(x.keys, ks, bundle)
    requires Handshake.Initiate(x.lib, x.keys, aliceId, bobId, ks.alice, ks.alicePq.public, bundle, payload,
                                ekSecret, coins, nonce)
             == Ok(out)
    ensures Handshake.Receive(x.lib, x.keys, ks.bob, ks.spk.secret, ks.bobPq.secret, None, out.message).Ok?
            <==> bundle.oneTimePrekey.None?
  {
    var lib: Binding := x.lib;
    Handshake.AcceptsExactly(lib, x.keys, aliceId, bobId, ks.alice, ks.alicePq.public, bundle, payload, ekSecret,
                             coins, nonce, out,
                             ks.bob, ks.spk.secret, ks.bobPq.secret, ks.bundled, None);
  }
}
