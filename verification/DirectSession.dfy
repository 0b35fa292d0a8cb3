/** A session: sending and receiving chains, the Diffie-Hellman ratchet and the post-quantum
    ratchet; encrypting and decrypting one message of wire version 1. */
module DirectSession {
  import opened Core
  import opened Bytes
  import opened Library
  import opened KeyAgreement
  import opened Tlv
  import opened Ratchet
  import opened Session
  import opened PqRatchet

  /** What a session computes with: sealing and hashing, key agreement, the chain step, the root step,
      the mixing of a KEM secret into the root, and the labels of the initial chains. */
  datatype Suite = Suite(
    lib: Sealing,
    keys: Keys,
    version: u16,
    suiteId: u16,
    chainStep: Kdf,
    rootStep: (Key, Key) -> (Key, Key),
    mix: (Key, Key) -> Key,
    initiatorSend: Key -> Key,
    initiatorReceive: Key -> Key)

  datatype Party = Party(root: Key, local: KeyPair, sendKey: Key, sendNext: u32, prevLen: u32, recv: Receiver,
                         pq: PqState)

  datatype Wire = Wire(header: Header, step: Option<PqStep>, nonce: seq<byte>, ciphertext: seq<byte>)

  /** The random values of one encryption. */
  datatype Draw = Draw(nonce: seq<byte>, coins: seq<byte>, secret: seq<byte>)

  function FromHandshake(x: Suite, initiator: bool, root: Key, local: KeyPair, remote: PublicKey, maxSkipped: nat,
                         pq: PqState)
    : Party
  {
    var (send, receive) :=
      if initiator then (x.initiatorSend(root), x.initiatorReceive(root))
      else (x.initiatorReceive(root), x.initiatorSend(root));
    Party(root, local, send, 0, 0, Receiver(remote, receive, 0, Clamp(maxSkipped), []), pq)
  }

  function SessionRecords(x: Suite, h: Header, step: Option<PqStep>, external: seq<byte>): seq<TlvRecord> {
    [TlvRecord(CriticalType(0x1101), Be16(x.version)),
     TlvRecord(CriticalType(0x1102), Be16(x.suiteId)),
     TlvRecord(CriticalType(0x1104), h.pub),
     TlvRecord(CriticalType(0x1105), Be32(h.num)),
     TlvRecord(CriticalType(0x1106), Be32(h.prevLen)),
     TlvRecord(CriticalType(0x1103), external)]
    + match step
      case None => []
      case Some(s) =>
        [TlvRecord(CriticalType(0x1107), s.ct),
         TlvRecord(CriticalType(0x1108), s.target),
         TlvRecord(CriticalType(0x1109), s.next)]
  }

  function SessionAd(x: Suite, h: Header, step: Option<PqStep>, external: seq<byte>): Result<seq<byte>> {
    Encode(SessionRecords(x, h, step, external))
  }

  /** Sealing a message, or no message if a field does not fit the wire. */
  function Sealed(x: Suite, h: Header, step: Option<PqStep>, key: Key, nonce: seq<byte>, external: seq<byte>,
                  plaintext: seq<byte>)
    : Option<Wire>
  {
    match SessionAd(x, h, step, external)
    case Err(_) => None
    case Ok(ad) =>
      var ciphertext := x.lib.seal(key, nonce, ad, plaintext);
      if |ciphertext| > U16_MAX then None else Some(Wire(h, step, nonce, ciphertext))
  }

  /** The message, if there is one, and the state after it. Whatever fails after the chain step leaves
      the number spent. */
  function Encrypt(x: Suite, p: Party, plaintext: seq<byte>, external: seq<byte>, draw: Draw): (Option<Wire>, Party) {
    if p.sendNext == U32_MAX then (None, p)
    else
      var (key, next) := x.chainStep(p.sendKey);
      var advanced := p.(sendKey := next, sendNext := p.sendNext + 1);
      EncryptUnder(x, advanced, Header(p.local.public, p.sendNext, p.prevLen), key, plaintext, external, draw)
  }

  /** Encrypting under a message key: the post-quantum step, then sealing. */
  function EncryptUnder(x: Suite, p: Party, h: Header, key: Key, plaintext: seq<byte>, external: seq<byte>, draw: Draw)
    : (Option<Wire>, Party)
  {
    match SenderStep(x.keys, x.lib.sha256, p.pq, h.num, draw.coins, draw.secret)
    case Err(_) => (None, p)
    case Ok(None) => (Sealed(x, h, None, key, draw.nonce, external, plaintext), p)
    case Ok(Some((step, ss, pq))) =>
      (Sealed(x, h, Some(step), key, draw.nonce, external, plaintext), p.(root := x.mix(p.root, ss), pq := pq))
  }

  /** Selecting the message key, turning the Diffie-Hellman ratchet first if the header asks for it;
      `pair` is the key pair generated then. */
  function SelectKey(x: Suite, p: Party, h: Header, pair: KeyPair): (Option<Key>, Party) {
    var (root1, receiveKey) := x.rootStep(p.root, x.keys.dh(p.local.secret, h.pub));
    var (key, recv) := Select(x.chainStep, p.recv, h, receiveKey);
    if h.pub == p.recv.pub then (key, p.(recv := recv))
    else
      var (root2, sendKey) := x.rootStep(root1, x.keys.dh(pair.secret, h.pub));
      (key, Party(root2, pair, sendKey, 0, p.sendNext, recv, p.pq.(lastUpdate := 0)))
  }

  function Unseal(x: Suite, w: Wire, key: Key, external: seq<byte>): Result<seq<byte>> {
    var ad :- SessionAd(x, w.header, w.step, external);
    match x.lib.open(key, w.nonce, ad, w.ciphertext)
    case None => Err(AeadOperation)
    case Some(plaintext) => Ok(plaintext)
  }

  /** The plaintext comes only after the post-quantum step succeeded; the key is spent in any case. */
  function Decrypt(x: Suite, p: Party, w: Wire, external: seq<byte>, pair: KeyPair): (Result<seq<byte>>, Party) {
    var (key, q) := SelectKey(x, p, w.header, pair);
    if key.None? then (Err(MessageKeyUnavailable), q)
    else
      match Unseal(x, w, key.value, external)
      case Err(e) => (Err(e), q)
      case Ok(plaintext) =>
        if w.step.None? then (Ok(plaintext), q)
        else
          match ReceiverStep(x.keys, x.lib.sha256, q.pq, w.step.value, w.header.num)
          case Err(e) => (Err(e), q)
          case Ok((ss, pq)) => (Ok(plaintext), q.(root := x.mix(q.root, ss), pq := pq))
  }

  // ------------------------------------------------------------ in place

  class SessionState {
    var root: Key
    var local: KeyPair
    var sendKey: Key
    var sendNext: u32
    var prevLen: u32
    const recv: ReceivingSession
    const pq: PqRatchetState

    ghost predicate Valid()
      reads this, recv, recv.skipped, pq
    {
      recv.Valid()
    }

    ghost function View(): Party
      requires Valid()
      reads this, recv, recv.skipped, pq
    {
      Party(root, local, sendKey, sendNext, prevLen, recv.View(), pq.View())
    }

    constructor (x: Suite, initiator: bool, handshakeRoot: Key, pair: KeyPair, remote: PublicKey, maxSkipped: nat,
                 pqState: PqState)
      ensures Valid() && fresh(recv) && fresh(recv.skipped) && fresh(pq)
      ensures View() == FromHandshake(x, initiator, handshakeRoot, pair, remote, maxSkipped, pqState)
    {
      var send, receive := x.initiatorSend(handshakeRoot), x.initiatorReceive(handshakeRoot);
      if !initiator {
        send, receive := receive, send;
      }
      root, local, sendKey, sendNext, prevLen := handshakeRoot, pair, send, 0, 0;
      recv := new ReceivingSession(remote, receive, maxSkipped);
      pq := new PqRatchetState(pqState);
    }

    /** One step of the sending chain. */
    method AdvanceSending(x: Suite) returns (key: Key)
      requires Valid() && sendNext < U32_MAX
      modifies `sendKey, `sendNext
      ensures Valid() && key == x.chainStep(old(sendKey)).0
      ensures View() == old(View()).(sendKey := x.chainStep(old(sendKey)).1, sendNext := old(sendNext) + 1)
    {
      var (messageKey, next) := x.chainStep(sendKey);
      sendKey, sendNext := next, sendNext + 1;
      key := messageKey;
    }

    /** The post-quantum part of encrypting: the step to send along, or the error. */
    method SendStep(x: Suite, num: u32, draw: Draw) returns (r: Result<Option<PqStep>>)
      requires Valid()
      modifies `root, pq
      ensures Valid() && View() == old(View()).(root := root, pq := pq.View())
      ensures match SenderStep(x.keys, x.lib.sha256, old(pq.View()), num, draw.coins, draw.secret)
              case Err(e) => r == Err(e) && root == old(root) && pq.View() == old(pq.View())
              case Ok(None) => r == Ok(None) && root == old(root) && pq.View() == old(pq.View())
              case Ok(Some((step, ss, next))) =>
                r == Ok(Some(step)) && root == x.mix(old(root), ss) && pq.View() == next
    {
      if !ShouldStep(pq.View(), num) {
        return Ok(None);
      }
      var capsule := x.keys.encapsulate(pq.remote, draw.coins);
      if capsule.None? || !x.keys.kemSecret(draw.secret) {
        return Err(KemOperation);
      }
      var (ct, ss) := capsule.value;
      var next := KeyPair(x.keys.kemPublic(draw.secret), draw.secret);
      root := x.mix(root, ss);
      r := Ok(Some(PqStep(ct, x.lib.sha256(pq.remote), next.public)));
      pq.CommitLocalKeyRotation(next);
    }

    method EncryptMessage(x: Suite, plaintext: seq<byte>, external: seq<byte>, draw: Draw) returns (wire: Option<Wire>)
      requires Valid()
      modifies this, pq
      ensures Valid() && (wire, View()) == Encrypt(x, old(View()), plaintext, external, draw)
    {
      if sendNext == U32_MAX {
        return None;
      }
      var h := Header(local.public, sendNext, prevLen);
      var key := AdvanceSending(x);
      wire := SealMessage(x, h, key, plaintext, external, draw);
    }

    method SealMessage(x: Suite, h: Header, key: Key, plaintext: seq<byte>, external: seq<byte>, draw: Draw)
      returns (wire: Option<Wire>)
      requires Valid()
      modifies `root, pq
      ensures Valid() && (wire, View()) == EncryptUnder(x, old(View()), h, key, plaintext, external, draw)
    {
      var step := SendStep(x, h.num, draw);
      if step.Err? {
        return None;
      }
      wire := Sealed(x, h, step.value, key, draw.nonce, external, plaintext);
    }

    method FindKey(x: Suite, h: Header, pair: KeyPair) returns (key: Option<Key>)
      requires Valid()
      modifies this, recv, recv.skipped, pq
      ensures Valid() && (key, View()) == SelectKey(x, old(View()), h, pair)
    {
      var turns := h.pub != recv.pub;
      var (root1, receiveKey) := x.rootStep(root, x.keys.dh(local.secret, h.pub));
      key := recv.MessageKey(x.chainStep, h, receiveKey);
      if turns {
        var (root2, chain) := x.rootStep(root1, x.keys.dh(pair.secret, h.pub));
        prevLen := sendNext;
        root, local, sendKey, sendNext := root2, pair, chain, 0;
        pq.ResetRemoteUpdateTracking();
      }
    }

    /** The post-quantum part of decrypting. */
    method ReceiveStep(x: Suite, step: PqStep, num: u32) returns (r: Result<Unit>)
      requires Valid()
      modifies `root, pq
      ensures Valid() && View() == old(View()).(root := root, pq := pq.View())
      ensures match ReceiverStep(x.keys, x.lib.sha256, old(pq.View()), step, num)
              case Err(e) => r == Err(e) && root == old(root) && pq.View() == old(pq.View())
              case Ok((ss, next)) => r == Ok(Unit) && root == x.mix(old(root), ss) && pq.View() == next
    {
      var secret := pq.SelectLocalSecretKey(x.lib.sha256, step.target);
      if secret.None? {
        return Err(MessageParsing);
      }
      var ss := x.keys.decapsulate(secret.value, step.ct);
      if ss.None? {
        return Err(KemOperation);
      }
      root := x.mix(root, ss.value);
      pq.ApplyRemotePublicKeyUpdate(step.next, num);
      r := Ok(Unit);
    }

    method DecryptMessage(x: Suite, w: Wire, external: seq<byte>, pair: KeyPair) returns (r: Result<seq<byte>>)
      requires Valid()
      modifies this, recv, recv.skipped, pq
      ensures Valid() && (r, View()) == Decrypt(x, old(View()), w, external, pair)
    {
      var key := FindKey(x, w.header, pair);
      if key.None? {
        return Err(MessageKeyUnavailable);
      }
      r := Unseal(x, w, key.value, external);
      if r.Ok? && w.step.Some? {
        var stepped := ReceiveStep(x, w.step.value, w.header.num);
        if stepped.Err? {
          r := Err(stepped.error);
        }
      }
    }
  }

  // ------------------------------------------------------------ what an accepted message was

  /** Associated data determines version, suite, header, post-quantum step and external data. */
  lemma SessionAdInjective(x: Suite, h: Header, step: Option<PqStep>, external: seq<byte>,
                           x': Suite, h': Header, step': Option<PqStep>, external': seq<byte>)
    requires SessionAd(x, h, step, external).Ok?
    requires SessionAd(x, h, step, external) == SessionAd(x', h', step', external')
    ensures x.version == x'.version && x.suiteId == x'.suiteId
    ensures h == h' && step == step' && external == external'
  {
    var a, b := SessionRecords(x, h, step, external), SessionRecords(x', h', step', external');
    StreamInjective(a, b);
    assert a[0].value == b[0].value && a[1].value == b[1].value && a[2].value == b[2].value;
    assert a[3].value == b[3].value && a[4].value == b[4].value && a[5].value == b[5].value;
    if step.Some? {
      assert a[6].value == b[6].value && a[7].value == b[7].value && a[8].value == b[8].value;
    }
    Be16RoundTrip(x.version);
    Be16RoundTrip(x'.version);
    Be16RoundTrip(x.suiteId);
    Be16RoundTrip(x'.suiteId);
    Be32RoundTrip(h.num);
    Be32RoundTrip(h'.num);
    Be32RoundTrip(h.prevLen);
    Be32RoundTrip(h'.prevLen);
  }

  /** With binding routines: what unseals with the nonce and ciphertext of a sealed message is that
      message, under its key and external data, and gives its plaintext. */
  lemma UnsealedIsSealed(x: Suite, h: Header, step: Option<PqStep>, key: Key, nonce: seq<byte>, external: seq<byte>,
                         plaintext: seq<byte>, w: Wire, key': Key, external': seq<byte>)
    requires BindingLaws(x.lib) && Sealed(x, h, step, key, nonce, external, plaintext).Some?
    requires var sent := Sealed(x, h, step, key, nonce, external, plaintext).value;
             w.nonce == sent.nonce && w.ciphertext == sent.ciphertext
    requires Unseal(x, w, key', external').Ok?
    ensures w == Wire(h, step, nonce, w.ciphertext) && key' == key && external' == external
    ensures Unseal(x, w, key', external') == Ok(plaintext)
  {
    var ad, ad' := SessionAd(x, h, step, external).value, SessionAd(x, w.header, w.step, external').value;
    var opened' := x.lib.open(key', w.nonce, ad', w.ciphertext).value;
    assert x.lib.seal(key', w.nonce, ad', opened') == x.lib.seal(key, nonce, ad, plaintext);
    SessionAdInjective(x, h, step, external, x, w.header, w.step, external');
  }

  /** A message is sent if and only if the chain is not exhausted, the post-quantum step works where one is
      due, and all fields fit the wire. */
  lemma SendsExactly(x: Suite, p: Party, plaintext: seq<byte>, external: seq<byte>, draw: Draw, w: Wire)
    ensures Encrypt(x, p, plaintext, external, draw).0 == Some(w) <==>
            && p.sendNext < U32_MAX && w.header == Header(p.local.public, p.sendNext, p.prevLen)
            && (w.step.Some? <==> ShouldStep(p.pq, p.sendNext))
            && (w.step.Some? ==>
                  && x.keys.encapsulate(p.pq.remote, draw.coins).Some? && x.keys.kemSecret(draw.secret)
                  && w.step.value.ct == x.keys.encapsulate(p.pq.remote, draw.coins).value.0
                  && w.step.value.target == x.lib.sha256(p.pq.remote)
                  && w.step.value.next == x.keys.kemPublic(draw.secret))
            && SessionAd(x, w.header, w.step, external).Ok? && w.nonce == draw.nonce && |w.ciphertext| <= U16_MAX
            && w.ciphertext == x.lib.seal(x.chainStep(p.sendKey).0, draw.nonce,
                                          SessionAd(x, w.header, w.step, external).value, plaintext)
  {
  }

  /** Any message whatsoever opens to a plaintext if and only if a message key is selected for it that opens
      it to that plaintext, and its post-quantum step, if it has one, is meant for a key still held and
      decapsulates. */
  lemma DecryptsExactly(x: Suite, p: Party, w: Wire, external: seq<byte>, pair: KeyPair, plaintext: seq<byte>)
    ensures Decrypt(x, p, w, external, pair).0 == Ok(plaintext) <==>
            && SelectKey(x, p, w.header, pair).0.Some? && SessionAd(x, w.header, w.step, external).Ok?
            && x.lib.open(SelectKey(x, p, w.header, pair).0.value, w.nonce,
                          SessionAd(x, w.header, w.step, external).value, w.ciphertext) == Some(plaintext)
            && (w.step.Some? ==>
                  && SelectSecret(x.lib.sha256, p.pq, w.step.value.target).Some?
                  && x.keys.decapsulate(SelectSecret(x.lib.sha256, p.pq, w.step.value.target).value,
                                        w.step.value.ct).Some?)
  {
  }

  /** Whoever decrypts a message with the nonce and ciphertext of one sent, with whatever header, step and
      external data and in whatever state, has the message as it was sent, its plaintext, and the message
      key of the sender. */
  lemma DecryptedIsSent(x: Suite, p: Party, plaintext: seq<byte>, external: seq<byte>, draw: Draw,
                        q: Party, w: Wire, external': seq<byte>, pair: KeyPair)
    requires BindingLaws(x.lib) && Encrypt(x, p, plaintext, external, draw).0.Some?
    requires var sent := Encrypt(x, p, plaintext, external, draw).0.value;
             w.nonce == sent.nonce && w.ciphertext == sent.ciphertext
    requires Decrypt(x, q, w, external', pair).0.Ok?
    ensures w == Encrypt(x, p, plaintext, external, draw).0.value && external' == external
    ensures Decrypt(x, q, w, external', pair).0 == Ok(plaintext)
    ensures SelectKey(x, q, w.header, pair).0 == Some(x.chainStep(p.sendKey).0)
  {
    var sent := Encrypt(x, p, plaintext, external, draw).0.value;
    SentIsSealed(x, p, plaintext, external, draw);
    DecryptsExactly(x, q, w, external', pair, Decrypt(x, q, w, external', pair).0.value);
    UnsealedIsSealed(x, sent.header, sent.step, x.chainStep(p.sendKey).0, draw.nonce, external, plaintext, w,
                     SelectKey(x, q, w.header, pair).0.value, external');
  }

  lemma SentIsSealed(x: Suite, p: Party, plaintext: seq<byte>, external: seq<byte>, draw: Draw)
    requires Encrypt(x, p, plaintext, external, draw).0.Some?
    ensures var w := Encrypt(x, p, plaintext, external, draw).0.value;
            && w.header == Header(p.local.public, p.sendNext, p.prevLen)
            && Sealed(x, w.header, w.step, x.chainStep(p.sendKey).0, draw.nonce, external, plaintext) == Some(w)
  {
    SendsExactly(x, p, plaintext, external, draw, Encrypt(x, p, plaintext, external, draw).0.value);
  }

  // ------------------------------------------------------------ a turn of the Diffie-Hellman ratchet

  /** After a header with a new ratchet key turned the ratchet, the next message carries the new key pair's
      public key, number 0 and the length of the chain it ends; and the owner of the other ratchet key,
      having made the first root step too, selects for it the key it was sealed under. The next
      post-quantum key announced counts, whatever its number. */
  lemma TurnAgrees(x: Suite, p: Party, h: Header, pair: KeyPair, q: Party, next: KeyPair)
    requires h.pub != p.recv.pub && h.num < U32_MAX && pair.public == x.keys.dhPublic(pair.secret)
    requires q.local.public == h.pub == x.keys.dhPublic(q.local.secret) && q.recv.pub != pair.public
    requires q.root == x.rootStep(p.root, x.keys.dh(p.local.secret, h.pub)).0
    ensures var turned := SelectKey(x, p, h, pair).1;
            var header := Header(turned.local.public, turned.sendNext, turned.prevLen);
            && header == Header(pair.public, 0, p.sendNext)
            && SelectKey(x, q, header, next).0 == Some(x.chainStep(turned.sendKey).0)
            && SelectKey(x, q, header, next).1.recv.pub == pair.public
            && forall public, num: nat :: UpdateRemote(turned.pq, public, num).remote == public
  {
    var turned := SelectKey(x, p, h, pair).1;
    var header := Header(turned.local.public, turned.sendNext, turned.prevLen);
    OtherChainStartsOver(x.chainStep, q.recv, header, turned.sendKey);
  }
}
