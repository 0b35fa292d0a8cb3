/** Blinded contact discovery: blind the handles, let the server multiply by its key, check the
    per-element proofs, unblind. Points of the prime-order group are given by their discrete
    logarithms to the base point, so the base point is 1 and scalar multiplication is
    multiplication modulo the group order. */
module Discovery {
  import opened Core
  import opened Bytes
  import opened Text
  import opened Library
  import opened Modular
  import opened PrimeField

  /** Encodings and hashes of the group, as parameters. */
  datatype CurveRoutines = CurveRoutines(
    q: nat,
    compress: nat -> seq<byte>,
    decompress: seq<byte> -> Option<nat>,
    scalarBytes: nat -> seq<byte>,
    scalarOf: seq<byte> -> nat,
    hashToPoint: seq<byte> -> nat,
    challenge: (nat, nat, nat, nat, nat) -> nat,
    token: nat -> seq<byte>)

  ghost predicate CurveLaws(c: CurveRoutines) {
    && Prime(c.q)
    && (forall p: nat :: p < c.q ==> |c.compress(p)| == 32 && c.decompress(c.compress(p)) == Some(p))
    && (forall b :: c.decompress(b).Some? ==> c.decompress(b).value < c.q)
    && (forall s: nat :: s < c.q ==> |c.scalarBytes(s)| == 32 && c.scalarOf(c.scalarBytes(s)) == s)
    && (forall b :: c.scalarOf(b) < c.q)
    && (forall b :: c.hashToPoint(b) < c.q)
    && (forall a, b, d, e, f :: c.challenge(a, b, d, e, f) < c.q)
  }

  ghost const sampleCurve: CurveRoutines := CurveRoutines(
    2,
    p => if p < 2 then seq(32, _ => p) else [],
    b => if |b| == 32 && b[0] < 2 then Some(b[0]) else None,
    p => if p < 2 then seq(32, _ => p) else [],
    b => if b != [] && b[0] == 1 then 1 else 0,
    b => 0,
    (a, b, d, e, f) => 0,
    p => [])

  lemma SampleCurveIsLawful()
    ensures CurveLaws(sampleCurve)
  {
  }

  type Curve = c: CurveRoutines | CurveLaws(c) ghost witness (SampleCurveIsLawful(); sampleCurve)

  // ------------------------------------------------------------ hexadecimal handles

  function HexDecode(s: Str): (r: seq<byte>)
    requires |s| % 2 == 0 && AllHex(s)
    ensures |r| == |s| / 2
  {
    if s == [] then [] else [HexValue(s[0]) * 16 + HexValue(s[1])] + HexDecode(s[2..])
  }

  function DecodeHex32(lib: Routines, s: Str): Result<seq<byte>> {
    var t := lib.trim(s);
    if |t| == 64 && AllHex(t) then Ok(HexDecode(t)) else Err(MessageParsing)
  }

  method DecodeHexLoop(lib: Routines, s: Str) returns (r: Result<seq<byte>>)
    ensures r == DecodeHex32(lib, s)
  {
    var t := lib.trim(s);
    if |t| != 64 || !AllHex(t) {
      return Err(MessageParsing);
    }
    var decoded := new byte[32](_ => 0);
    for i := 0 to 32
      invariant forall j :: 0 <= j < i ==> decoded[j] == HexDecode(t)[j]
    {
      decoded[i] := HexValue(t[2 * i]) * 16 + HexValue(t[2 * i + 1]);
      HexDecodeAt(t, i);
    }
    assert decoded[..] == HexDecode(t);
    r := Ok(decoded[..]);
  }

  lemma {:induction false} HexDecodeAt(s: Str, j: nat)
    requires |s| % 2 == 0 && AllHex(s) && 2 * j + 1 < |s|
    ensures HexDecode(s)[j] == HexValue(s[2 * j]) * 16 + HexValue(s[2 * j + 1])
  {
    if j > 0 {
      HexDecodeAt(s[2..], j - 1);
    }
  }

  lemma {:induction false} HexRoundTrip(s: seq<byte>)
    ensures HexDecode(HexEncode(s)) == s
  {
    if s != [] {
      var h := HexEncode(s);
      assert h[2..] == HexEncode(s[1..]);
      HexRoundTrip(s[1..]);
    }
  }

  lemma DigitsOfByte(a: byte, b: byte)
    requires IsHexDigit(a) && IsHexDigit(b)
    ensures var v := HexValue(a) * 16 + HexValue(b); HexDigit(v / 16) == Lower(a) && HexDigit(v % 16) == Lower(b)
  {
  }

  lemma LoweredPair(s: Str)
    requires |s| >= 2
    ensures Lowered(s) == [Lower(s[0]), Lower(s[1])] + Lowered(s[2..])
  {
  }

  /** Encoding what was decoded gives the digits back, in lower case. */
  lemma {:induction false} EncodeOfHexDecode(s: Str)
    requires |s| % 2 == 0 && AllHex(s)
    ensures HexEncode(HexDecode(s)) == Lowered(s)
  {
    if s != [] {
      EncodeOfHexDecode(s[2..]);
      assert HexDecode(s)[1..] == HexDecode(s[2..]);
      DigitsOfByte(s[0], s[1]);
      LoweredPair(s);
    }
  }

  /** Hex decoding undoes hex encoding of any 32 bytes. */
  lemma DecodeHexOfEncode(lib: Library, s: seq<byte>)
    requires |s| == 32
    ensures DecodeHex32(lib, HexEncode(s)) == Ok(s)
  {
    HexRoundTrip(s);
  }

  // ------------------------------------------------------------ the client

  datatype Proof = Proof(challenge: seq<byte>, response: seq<byte>, commitmentBase: seq<byte>,
                         commitmentBlinded: seq<byte>)

  datatype Response = Response(mode: string, evaluated: seq<seq<byte>>, proofs: seq<Proof>)

  datatype BlindRequest = BlindRequest(blinded: seq<seq<byte>>, scalars: seq<seq<byte>>)

  const MAX_HANDLES: nat := 2048
  const PROOF_MODE := "dleq_per_element_v1"

  function HandlePoint(c: CurveRoutines, lib: Routines, handle: Str): Result<nat> {
    var bytes :- DecodeHex32(lib, handle);
    Ok(c.hashToPoint(bytes))
  }

  /** The points of all handles, or the first error. */
  function HandlePoints(c: CurveRoutines, lib: Routines, handles: seq<Str>): (r: Result<seq<nat>>)
    ensures r.Ok? ==> |r.value| == |handles|
  {
    Collect(seq(|handles|, i requires 0 <= i < |handles| => HandlePoint(c, lib, handles[i])))
  }

  /** The request; `blinds` are the non-zero scalars drawn, one per handle. */
  method PrepareBlindRequest(c: Curve, lib: Routines, handles: seq<Str>, blinds: seq<nat>)
      returns (r: Result<BlindRequest>)
    requires |blinds| == |handles| && forall i :: 0 <= i < |blinds| ==> 0 < blinds[i] < c.q
    ensures r.Ok? <==> |handles| <= MAX_HANDLES && HandlePoints(c, lib, handles).Ok?
    ensures r.Ok? ==> r.value == Blinded(c, HandlePoints(c, lib, handles).value, blinds)
  {
    if |handles| > MAX_HANDLES {
      return Err(PolicyViolation("too many handles"));
    }
    var elements: seq<seq<byte>> := [];
    var scalars: seq<seq<byte>> := [];
    ghost var points: seq<nat> := [];
    for i := 0 to |handles|
      invariant |elements| == |scalars| == |points| == i
      invariant PointsUpTo(c, lib, handles, points)
      invariant BlindedUpTo(c, points, blinds, elements, scalars)
    {
      var point := HandlePoint(c, lib, handles[i]);
      if point.Err? {
        PointsMeaning(c, lib, handles);
        return Err(point.error);
      }
      points := points + [point.value];
      elements := elements + [c.compress(Mul(point.value, blinds[i], c.q))];
      scalars := scalars + [c.scalarBytes(blinds[i])];
    }
    PointsAre(c, lib, handles, points);
    BlindedIs(c, points, blinds, elements, scalars);
    r := Ok(BlindRequest(elements, scalars));
  }

  ghost predicate PointsUpTo(c: CurveRoutines, lib: Routines, handles: seq<Str>, points: seq<nat>) {
    |points| <= |handles| && forall j :: 0 <= j < |points| ==> HandlePoint(c, lib, handles[j]) == Ok(points[j])
  }

  ghost predicate BlindedUpTo(c: Curve, points: seq<nat>, blinds: seq<nat>, elements: seq<seq<byte>>,
                              scalars: seq<seq<byte>>) {
    && |points| == |elements| == |scalars| <= |blinds|
    && (forall j :: 0 <= j < |points| ==> elements[j] == c.compress(Mul(points[j], blinds[j], c.q)))
    && (forall j :: 0 <= j < |points| ==> scalars[j] == c.scalarBytes(blinds[j]))
  }

  lemma PointsAre(c: CurveRoutines, lib: Routines, handles: seq<Str>, points: seq<nat>)
    ensures HandlePoints(c, lib, handles) == Ok(points) <==>
            |points| == |handles| && forall i :: 0 <= i < |handles| ==> HandlePoint(c, lib, handles[i]) == Ok(points[i])
  {
    CollectExactly(seq(|handles|, i requires 0 <= i < |handles| => HandlePoint(c, lib, handles[i])), points);
  }

  lemma BlindedIs(c: Curve, points: seq<nat>, blinds: seq<nat>, elements: seq<seq<byte>>, scalars: seq<seq<byte>>)
    requires BlindedUpTo(c, points, blinds, elements, scalars) && |points| == |blinds|
    ensures BlindRequest(elements, scalars) == Blinded(c, points, blinds)
  {
  }

  lemma PointsMeaning(c: CurveRoutines, lib: Routines, handles: seq<Str>)
    ensures HandlePoints(c, lib, handles).Ok? <==>
            forall i :: 0 <= i < |handles| ==> HandlePoint(c, lib, handles[i]).Ok?
    ensures HandlePoints(c, lib, handles).Ok? ==>
              var ps := HandlePoints(c, lib, handles).value;
              |ps| == |handles| && forall i :: 0 <= i < |handles| ==> HandlePoint(c, lib, handles[i]) == Ok(ps[i])
  {
    if HandlePoints(c, lib, handles).Ok? {
      PointsAre(c, lib, handles, HandlePoints(c, lib, handles).value);
    } else if forall i :: 0 <= i < |handles| ==> HandlePoint(c, lib, handles[i]).Ok? {
      PointsAre(c, lib, handles, seq(|handles|, i requires 0 <= i < |handles| =>
                                   match HandlePoint(c, lib, handles[i]) case Ok(p) => p case Err(_) => 0));
    }
  }

  function Blinded(c: Curve, points: seq<nat>, blinds: seq<nat>): (r: BlindRequest)
    requires |points| == |blinds|
    ensures |r.blinded| == |r.scalars| == |points|
  {
    BlindRequest(seq(|points|, i requires 0 <= i < |points| => c.compress(Mul(points[i], blinds[i], c.q))),
                 seq(|points|, i requires 0 <= i < |points| => c.scalarBytes(blinds[i])))
  }

  function Read32(b: seq<byte>): Result<seq<byte>> {
    if |b| == 32 then Ok(b) else Err(MessageParsing)
  }

  function ReadPoint(c: CurveRoutines, b: seq<byte>): Result<nat> {
    var x :- Read32(b);
    match c.decompress(x)
    case Some(p) => Ok(p)
    case None => Err(MessageParsing)
  }

  function ReadScalar(c: CurveRoutines, b: seq<byte>): Result<nat> {
    var x :- Read32(b);
    Ok(c.scalarOf(x))
  }

  /** Evaluated point times the inverse of the blind, then hashed. */
  function Unblind(c: Curve, evaluated: nat, scalar: seq<byte>): Result<seq<byte>> {
    var blind :- ReadScalar(c, scalar);
    if blind == 0 then Err(PolicyViolation("blinding scalar is zero"))
    else Ok(c.token(Mul(evaluated, Inverse(blind, c.q), c.q)))
  }

  /** The two verification equations for proof (challenge, response) and commitments (a, b). */
  predicate DleqHolds(q: nat, pub: nat, blinded: nat, evaluated: nat, challenge: nat, response: nat, a: nat, b: nat)
    requires q > 0
  {
    && Mul(1, response, q) == Plus(a, Mul(pub, challenge, q), q)
    && Mul(blinded, response, q) == Plus(b, Mul(evaluated, challenge, q), q)
  }

  function CheckElement(c: Curve, pub: nat, blinded: nat, evaluated: nat, proof: Proof): Result<Unit> {
    var challenge :- ReadScalar(c, proof.challenge);
    var response :- ReadScalar(c, proof.response);
    var a :- ReadPoint(c, proof.commitmentBase);
    var b :- ReadPoint(c, proof.commitmentBlinded);
    var _ :- Need(challenge == c.challenge(pub, blinded, evaluated, a, b), PolicyViolation("challenge mismatch"));
    var _ :- Need(Mul(1, response, c.q) == Plus(a, Mul(pub, challenge, c.q), c.q),
                  PolicyViolation("base equation failed"));
    Need(Mul(blinded, response, c.q) == Plus(b, Mul(evaluated, challenge, c.q), c.q),
         PolicyViolation("blinded equation failed"))
  }

  function VerifyElement(c: Curve, pub: nat, blinded: seq<byte>, evaluated: seq<byte>, proof: Proof,
                         scalar: seq<byte>): Result<seq<byte>> {
    var p :- ReadPoint(c, blinded);
    var z :- ReadPoint(c, evaluated);
    var _ :- CheckElement(c, pub, p, z, proof);
    Unblind(c, z, scalar)
  }

  /** The verdict on each element. */
  function Verdicts(c: Curve, pub: nat, blinded: seq<seq<byte>>, evaluated: seq<seq<byte>>, proofs: seq<Proof>,
                    scalars: seq<seq<byte>>): (r: seq<Result<seq<byte>>>)
    requires |blinded| == |evaluated| == |proofs| == |scalars|
    ensures |r| == |blinded|
  {
    seq(|blinded|, i requires 0 <= i < |blinded| =>
      VerifyElement(c, pub, blinded[i], evaluated[i], proofs[i], scalars[i]))
  }

  function VerifyAndFinalize(c: Curve, blinded: seq<seq<byte>>, scalars: seq<seq<byte>>, r: Response,
                             pubBytes: seq<byte>): Result<seq<seq<byte>>> {
    var _ :- Need(r.mode == PROOF_MODE, PolicyViolation("unsupported proof mode"));
    if !(|blinded| == |r.evaluated| == |r.proofs| == |scalars|) then Err(PolicyViolation("proof count mismatch"))
    else
      var pub :- ReadPoint(c, pubBytes);
      Collect(Verdicts(c, pub, blinded, r.evaluated, r.proofs, scalars))
  }

  method VerifyAndFinalizeLoop(c: Curve, blinded: seq<seq<byte>>, scalars: seq<seq<byte>>, response: Response,
                               pubBytes: seq<byte>)
    returns (r: Result<seq<seq<byte>>>)
    ensures r == VerifyAndFinalize(c, blinded, scalars, response, pubBytes)
  {
    if response.mode != PROOF_MODE {
      return Err(PolicyViolation("unsupported proof mode"));
    }
    if |blinded| != |response.evaluated| || |blinded| != |response.proofs| || |blinded| != |scalars| {
      return Err(PolicyViolation("proof count mismatch"));
    }
    var pub := ReadPoint(c, pubBytes);
    if pub.Err? {
      return Err(pub.error);
    }
    var tokens: seq<seq<byte>> := [];
    ghost var verdicts := Verdicts(c, pub.value, blinded, response.evaluated, response.proofs, scalars);
    for i := 0 to |scalars|
      invariant |tokens| == i && forall j :: 0 <= j < i ==> verdicts[j] == Ok(tokens[j])
    {
      var t := VerifyElement(c, pub.value, blinded[i], response.evaluated[i], response.proofs[i], scalars[i]);
      assert verdicts[i] == t;
      if t.Err? {
        CollectStops(verdicts, i);
        return Err(t.error);
      }
      tokens := tokens + [t.value];
    }
    CollectExactly(verdicts, tokens);
    r := Ok(tokens);
  }

  // ------------------------------------------------------------ an honest server

  /** Evaluation by k with commitment nonce n. */
  function HonestProof(c: Curve, k: nat, p: nat, n: nat): Proof {
    var a, b := Mul(1, n, c.q), Mul(p, n, c.q);
    var challenge := c.challenge(Mul(1, k, c.q), p, Mul(p, k, c.q), a, b);
    Proof(c.scalarBytes(challenge), c.scalarBytes(Plus(n, challenge * k, c.q)), c.compress(a), c.compress(b))
  }

  function HonestResponse(c: Curve, k: nat, points: seq<nat>, nonces: nat -> nat): Response {
    Response(PROOF_MODE,
             seq(|points|, i requires 0 <= i < |points| => c.compress(Mul(points[i], k, c.q))),
             seq(|points|, i requires 0 <= i < |points| => HonestProof(c, k, points[i], nonces(i))))
  }

  lemma HonestEquation(q: nat, x: nat, n: nat, ch: nat, k: nat)
    requires q > 0
    ensures Mul(x, Plus(n, ch * k, q), q) == Plus(Mul(x, n, q), Mul(Mul(x, k, q), ch, q), q)
  {
    var s := n + ch * k;
    CongruentMod(s, q);
    CongruentScale(s % q, s, x, q);
    assert (s % q) * x == x * (s % q);
    var left := x * n;
    var right := x * k * ch;
    assert s * x == left + right by {
      assert (n + ch * k) * x == n * x + ch * k * x;
      Reorder(ch, k, x);
      Reorder(x, k, ch);
    }
    CongruentMod(left, q);
    CongruentMod(x * k, q);
    CongruentScale(Mul(x, k, q), x * k, ch, q);
    CongruentMod(Mul(x, k, q) * ch, q);
    CongruentAdd(Mul(x, n, q), left, Mul(Mul(x, k, q), ch, q), right, q);
  }

  lemma PointReads(c: Curve, p: nat)
    requires p < c.q
    ensures ReadPoint(c, c.compress(p)) == Ok(p) && ReadScalar(c, c.scalarBytes(p)) == Ok(p)
  {
  }

  lemma HonestProofChecks(c: Curve, k: nat, p: nat, n: nat)
    requires k < c.q && p < c.q
    ensures CheckElement(c, Mul(1, k, c.q), p, Mul(p, k, c.q), HonestProof(c, k, p, n)).Ok?
  {
    var q := c.q;
    var pub, z, a, b := Mul(1, k, q), Mul(p, k, q), Mul(1, n, q), Mul(p, n, q);
    var ch := c.challenge(pub, p, z, a, b);
    var response := Plus(n, ch * k, q);
    PointReads(c, ch);
    PointReads(c, response);
    PointReads(c, a);
    PointReads(c, b);
    HonestEquation(q, 1, n, ch, k);
    HonestEquation(q, p, n, ch, k);
  }

  /** Unblinding an honestly evaluated blinded point gives the token of k times the original point,
      whatever the blind. */
  lemma UnblindHonest(c: Curve, k: nat, h: nat, blind: nat)
    requires k < c.q && h < c.q && 0 < blind < c.q
    ensures Unblind(c, Mul(Mul(h, blind, c.q), k, c.q), c.scalarBytes(blind)) == Ok(c.token(Mul(h, k, c.q)))
  {
    var q := c.q;
    MulAssoc(h, blind, k, q);
    MulComm(blind, k, q);
    MulAssoc(h, k, blind, q);
    MulInverse(Mul(h, k, q), blind, q);
    PointReads(c, blind);
  }

  /** The points the request carries. */
  function BlindedPoints(c: Curve, points: seq<nat>, blinds: seq<nat>): (r: seq<nat>)
    requires |points| == |blinds|
    ensures |r| == |points|
  {
    seq(|points|, i requires 0 <= i < |points| => Mul(points[i], blinds[i], c.q))
  }

  function Tokens(c: Curve, points: seq<nat>, k: nat): (r: seq<seq<byte>>)
    ensures |r| == |points|
  {
    seq(|points|, j requires 0 <= j < |points| => c.token(Mul(points[j], k, c.q)))
  }

  lemma HonestElement(c: Curve, k: nat, h: nat, blind: nat, n: nat)
    requires k < c.q && h < c.q && 0 < blind < c.q
    ensures var p := Mul(h, blind, c.q);
            VerifyElement(c, Mul(1, k, c.q), c.compress(p), c.compress(Mul(p, k, c.q)), HonestProof(c, k, p, n),
                          c.scalarBytes(blind))
            == Ok(c.token(Mul(h, k, c.q)))
  {
    var p := Mul(h, blind, c.q);
    PointReads(c, p);
    PointReads(c, Mul(p, k, c.q));
    HonestProofChecks(c, k, p, n);
    UnblindHonest(c, k, h, blind);
  }

  /** What the i-th places of the request and the honest response hold. */
  lemma HonestAt(c: Curve, points: seq<nat>, blinds: seq<nat>, k: nat, nonces: nat -> nat, i: nat)
    requires |points| == |blinds| && i < |points|
    ensures var req := Blinded(c, points, blinds);
            var resp := HonestResponse(c, k, BlindedPoints(c, points, blinds), nonces);
            var p := Mul(points[i], blinds[i], c.q);
            && |resp.evaluated| == |resp.proofs| == |points|
            && req.blinded[i] == c.compress(p) && req.scalars[i] == c.scalarBytes(blinds[i])
            && resp.evaluated[i] == c.compress(Mul(p, k, c.q)) && resp.proofs[i] == HonestProof(c, k, p, nonces(i))
  {
  }

  /** For every list of handle points, all non-zero blinds and an honest server with key k, the
      verification loop accepts and token i is the hash of k times point i: the blinds leave no
      trace. */
  lemma HonestRunYieldsTokens(c: Curve, points: seq<nat>, blinds: seq<nat>, k: nat, nonces: nat -> nat)
    requires |points| == |blinds| && k < c.q
    requires forall j :: 0 <= j < |points| ==> points[j] < c.q && 0 < blinds[j] < c.q
    ensures var req := Blinded(c, points, blinds);
            var resp := HonestResponse(c, k, BlindedPoints(c, points, blinds), nonces);
            VerifyAndFinalize(c, req.blinded, req.scalars, resp, c.compress(Mul(1, k, c.q))) == Ok(Tokens(c, points, k))
  {
    var req := Blinded(c, points, blinds);
    var resp := HonestResponse(c, k, BlindedPoints(c, points, blinds), nonces);
    var pub, tokens := Mul(1, k, c.q), Tokens(c, points, k);
    PointReads(c, pub);
    forall j | 0 <= j < |points|
      ensures VerifyElement(c, pub, req.blinded[j], resp.evaluated[j], resp.proofs[j], req.scalars[j]) == Ok(tokens[j])
    {
      HonestAt(c, points, blinds, k, nonces, j);
      HonestElement(c, k, points[j], blinds[j], nonces(j));
    }
    FinalizesExactly(c, req.blinded, req.scalars, resp, c.compress(pub), tokens);
  }

  /** The points of handles are below the group order. */
  lemma HandlePointsInGroup(c: Curve, lib: Routines, handles: seq<Str>)
    requires HandlePoints(c, lib, handles).Ok?
    ensures var ps := HandlePoints(c, lib, handles).value;
            && |ps| == |handles|
            && forall j :: 0 <= j < |ps| ==> HandlePoint(c, lib, handles[j]) == Ok(ps[j]) && ps[j] < c.q
  {
    PointsMeaning(c, lib, handles);
    var ps := HandlePoints(c, lib, handles).value;
    forall j | 0 <= j < |ps| ensures ps[j] < c.q {
      assert HandlePoint(c, lib, handles[j]) == Ok(ps[j]);
    }
  }

  /** A whole discovery with an honest server: prepare the request, have it evaluated under key k, verify
      and finalise. It succeeds exactly for at most 2,048 well-formed handles, and then token i is the
      hash of k times the point of handle i. */
  method DiscoverHonestly(c: Curve, lib: Routines, handles: seq<Str>, blinds: seq<nat>, k: nat, nonces: nat -> nat)
    returns (r: Result<seq<seq<byte>>>)
    requires |blinds| == |handles| && k < c.q && forall i :: 0 <= i < |blinds| ==> 0 < blinds[i] < c.q
    ensures r.Ok? <==> |handles| <= MAX_HANDLES && forall i :: 0 <= i < |handles| ==>
            HandlePoint(c, lib, handles[i]).Ok?
    ensures r.Ok? ==> |r.value| == |handles|
    ensures r.Ok? ==> forall i :: 0 <= i < |handles| ==>
                        HandlePoint(c, lib, handles[i]).Ok?
                        && r.value[i] == c.token(Mul(HandlePoint(c, lib, handles[i]).value, k, c.q))
  {
    PointsMeaning(c, lib, handles);
    var request := PrepareBlindRequest(c, lib, handles, blinds);
    if request.Err? {
      return Err(request.error);
    }
    ghost var points := HandlePoints(c, lib, handles).value;
    HandlePointsInGroup(c, lib, handles);
    HonestRunYieldsTokens(c, points, blinds, k, nonces);
    var evaluated := EvaluateHonestly(c, request.value.blinded, k, nonces);
    EvaluatesRequest(c, points, blinds, k, nonces);
    r := VerifyAndFinalizeLoop(c, request.value.blinded, request.value.scalars, evaluated, c.compress(Mul(1, k, c.q)));
  }

  /** The server: read each point and answer with the evaluation and its proof. */
  function EvaluateHonestly(c: Curve, blinded: seq<seq<byte>>, k: nat, nonces: nat -> nat): Response {
    var points := seq(|blinded|, i requires 0 <= i < |blinded| =>
      match c.decompress(blinded[i]) case Some(p) => p case None => 0);
    HonestResponse(c, k, points, nonces)
  }

  lemma EvaluatesRequest(c: Curve, points: seq<nat>, blinds: seq<nat>, k: nat, nonces: nat -> nat)
    requires |points| == |blinds|
    ensures EvaluateHonestly(c, Blinded(c, points, blinds).blinded, k, nonces)
            == HonestResponse(c, k, BlindedPoints(c, points, blinds), nonces)
  {
    var blinded, ps := Blinded(c, points, blinds).blinded, BlindedPoints(c, points, blinds);
    assert forall i :: 0 <= i < |ps| ==> c.decompress(blinded[i]) == Some(ps[i]);
    assert ps == seq(|blinded|, i requires 0 <= i < |blinded| =>
      match c.decompress(blinded[i]) case Some(p) => p case None => 0);
  }

  // ------------------------------------------------------------ what the proof forces

  /** Two accepted transcripts with the same commitments and different challenges force the
      evaluated point to be k times the blinded one, where k is the key in the public key. */
  lemma TwoTranscriptsForceEvaluation(q: nat, k: nat, p: nat, z: nat, a: nat, b: nat, ch: nat, s: nat, ch': nat,
                                      s': nat)
    requires Prime(q) && z < q && ch < q && ch' < q && ch != ch'
    requires DleqHolds(q, k, p, z, ch, s, a, b) && DleqHolds(q, k, p, z, ch', s', a, b)
    ensures z == Mul(k, p, q)
  {
    var dc, ds := ch - ch', s - s';
    Difference(q, 1, k, a, ch, s, ch', s');
    Difference(q, p, z, b, ch, s, ch', s');
    assert Congruent(ds, dc * k, q);
    assert Congruent(p * ds, dc * z, q);
    CongruentScale(ds, dc * k, p, q);
    assert ds * p == p * ds;
    Reorder(dc, k, p);
    assert dc * k * p == dc * (k * p);
    assert Congruent(dc * (k * p), dc * z, q);
    assert dc % q != 0 by {
      if dc > 0 { DivModUnique(dc, q, 0, dc); } else { DivModUnique(dc, q, -1, dc + q); }
    }
    Cancel(dc, k * p, z, q);
    DivModUnique(z, q, 0, z);
  }

  /** The same client run twice up to the challenge hash. */
  ghost predicate Forked(c: Curve, c': Curve, proof: Proof, proof': Proof) {
    && c' == c.(challenge := c'.challenge)
    && proof.commitmentBase == proof'.commitmentBase && proof.commitmentBlinded == proof'.commitmentBlinded
    && c.scalarOf(proof.challenge) != c.scalarOf(proof'.challenge)
  }

  lemma CheckedProofHolds(c: Curve, pub: nat, p: nat, z: nat, proof: Proof)
    requires CheckElement(c, pub, p, z, proof).Ok?
    ensures ReadPoint(c, proof.commitmentBase).Ok? && ReadPoint(c, proof.commitmentBlinded).Ok?
    ensures DleqHolds(c.q, pub, p, z, c.scalarOf(proof.challenge), c.scalarOf(proof.response),
                      ReadPoint(c, proof.commitmentBase).value, ReadPoint(c, proof.commitmentBlinded).value)
  {
  }

  /** A server whose proof is accepted under two challenge hashes with the same commitments cannot
      have evaluated under another key: the client's token is the hash of k times the handle's
      point, whatever the evaluated bytes are. */
  lemma ForkedProofFixesToken(c: Curve, c': Curve, k: nat, h: nat, blind: nat, evaluated: seq<byte>, proof: Proof,
                              proof': Proof)
    requires Forked(c, c', proof, proof') && k < c.q && h < c.q && 0 < blind < c.q
    requires VerifyElement(c, k, c.compress(Mul(h, blind, c.q)), evaluated, proof, c.scalarBytes(blind)).Ok?
    requires VerifyElement(c', k, c.compress(Mul(h, blind, c.q)), evaluated, proof', c.scalarBytes(blind)).Ok?
    ensures VerifyElement(c, k, c.compress(Mul(h, blind, c.q)), evaluated, proof, c.scalarBytes(blind))
            == Ok(c.token(Mul(h, k, c.q)))
  {
    var p := Mul(h, blind, c.q);
    PointReads(c, p);
    var z := ReadPoint(c, evaluated).value;
    CheckedProofHolds(c, k, p, z, proof);
    CheckedProofHolds(c', k, p, z, proof');
    var a, b := ReadPoint(c, proof.commitmentBase).value, ReadPoint(c, proof.commitmentBlinded).value;
    TwoTranscriptsForceEvaluation(c.q, k, p, z, a, b, c.scalarOf(proof.challenge), c.scalarOf(proof.response),
                                  c.scalarOf(proof'.challenge), c.scalarOf(proof'.response));
    MulComm(k, p, c.q);
    UnblindHonest(c, k, h, blind);
  }

  /** An element is accepted, with a given token, if and only if all its bytes read, the challenge is the
      hash of this very transcript, both equations hold and the blind is not zero. */
  lemma VerifiesExactly(c: Curve, pub: nat, blinded: seq<byte>, evaluated: seq<byte>, proof: Proof, scalar: seq<byte>,
                        token: seq<byte>)
    ensures VerifyElement(c, pub, blinded, evaluated, proof, scalar) == Ok(token) <==>
            && ReadPoint(c, blinded).Ok? && ReadPoint(c, evaluated).Ok?
            && ReadPoint(c, proof.commitmentBase).Ok? && ReadPoint(c, proof.commitmentBlinded).Ok?
            && |proof.challenge| == 32 && |proof.response| == 32 && |scalar| == 32
            && var p, z, a, b := ReadPoint(c, blinded).value, ReadPoint(c, evaluated).value,
                   ReadPoint(c, proof.commitmentBase).value, ReadPoint(c, proof.commitmentBlinded).value;
               && c.scalarOf(proof.challenge) == c.challenge(pub, p, z, a, b)
               && DleqHolds(c.q, pub, p, z, c.challenge(pub, p, z, a, b), c.scalarOf(proof.response), a, b)
               && c.scalarOf(scalar) != 0 && token == c.token(Mul(z, Inverse(c.scalarOf(scalar), c.q), c.q))
  {
  }

  /** A response is accepted, with given tokens, if and only if it names the per-element mode, the four
      counts agree, the public key reads, and every element is accepted with its token. */
  lemma FinalizesExactly(c: Curve, blinded: seq<seq<byte>>, scalars: seq<seq<byte>>, r: Response, pubBytes: seq<byte>,
                         tokens: seq<seq<byte>>)
    ensures VerifyAndFinalize(c, blinded, scalars, r, pubBytes) == Ok(tokens) <==>
            && r.mode == PROOF_MODE && |blinded| == |r.evaluated| == |r.proofs| == |scalars| == |tokens|
            && ReadPoint(c, pubBytes).Ok?
            && forall j :: 0 <= j < |blinded| ==>
                 VerifyElement(c, ReadPoint(c, pubBytes).value, blinded[j], r.evaluated[j], r.proofs[j], scalars[j])
                 == Ok(tokens[j])
  {
    if |blinded| == |r.evaluated| == |r.proofs| == |scalars| && ReadPoint(c, pubBytes).Ok? {
      CollectExactly(Verdicts(c, ReadPoint(c, pubBytes).value, blinded, r.evaluated, r.proofs, scalars), tokens);
    }
  }

  /** If the evaluated point is not k times the blinded one, at most one challenge can be answered with
      given commitments. */
  lemma WrongEvaluationHasOneChallenge(q: nat, k: nat, p: nat, z: nat, a: nat, b: nat, ch: nat, s: nat)
    requires Prime(q) && z < q && ch < q && z != Mul(k, p, q) && DleqHolds(q, k, p, z, ch, s, a, b)
    ensures forall ch', s' :: 0 <= ch' < q && 0 <= s' && DleqHolds(q, k, p, z, ch', s', a, b) ==> ch' == ch
  {
    forall ch', s' | 0 <= ch' < q && 0 <= s' && DleqHolds(q, k, p, z, ch', s', a, b) ensures ch' == ch {
      if ch' != ch {
        TwoTranscriptsForceEvaluation(q, k, p, z, a, b, ch, s, ch', s');
      }
    }
  }

  /** One accepted element, whatever server sent it: either its token is the hash of k times the handle's
      point, or the hash of its transcript hit the one and only challenge that any response could answer
      with these commitments. */
  lemma AcceptedTokenIsRight(c: Curve, k: nat, h: nat, blind: nat, evaluated: seq<byte>, proof: Proof)
    requires k < c.q && h < c.q && 0 < blind < c.q
    requires VerifyElement(c, k, c.compress(Mul(h, blind, c.q)), evaluated, proof, c.scalarBytes(blind)).Ok?
    ensures ReadPoint(c, evaluated).Ok? && ReadPoint(c, proof.commitmentBase).Ok?
            && ReadPoint(c, proof.commitmentBlinded).Ok?
    ensures var p, z, a, b := Mul(h, blind, c.q), ReadPoint(c, evaluated).value,
                ReadPoint(c, proof.commitmentBase).value, ReadPoint(c, proof.commitmentBlinded).value;
            || VerifyElement(c, k, c.compress(p), evaluated, proof, c.scalarBytes(blind)) == Ok(c.token(Mul(h, k, c.q)))
            || forall ch, s :: 0 <= ch < c.q && 0 <= s && DleqHolds(c.q, k, p, z, ch, s, a, b) ==>
                 ch == c.challenge(k, p, z, a, b)
  {
    var p := Mul(h, blind, c.q);
    PointReads(c, p);
    var z := ReadPoint(c, evaluated).value;
    CheckedProofHolds(c, k, p, z, proof);
    if z == Mul(k, p, c.q) {
      MulComm(k, p, c.q);
      UnblindHonest(c, k, h, blind);
    } else {
      WrongEvaluationHasOneChallenge(c.q, k, p, z, ReadPoint(c, proof.commitmentBase).value,
                                     ReadPoint(c, proof.commitmentBlinded).value, c.scalarOf(proof.challenge),
                                     c.scalarOf(proof.response));
    }
  }

  /** Subtracting two equations x * s == c + y * ch gives x * (s - s') == (ch - ch') * y. */
  lemma Difference(q: nat, x: int, y: int, c: int, ch: int, s: int, ch': int, s': int)
    requires q > 0
    requires Mul(x, s, q) == Plus(c, Mul(y, ch, q), q) && Mul(x, s', q) == Plus(c, Mul(y, ch', q), q)
    ensures Congruent(x * (s - s'), (ch - ch') * y, q)
  {
    Expand(q, x, y, c, ch, s);
    Expand(q, x, y, c, ch', s');
    CongruentScale(x * s', c + y * ch', -1, q);
    CongruentAdd(x * s, c + y * ch, x * s' * -1, (c + y * ch') * -1, q);
    assert x * (s - s') == x * s + x * s' * -1;
    assert (ch - ch') * y == (c + y * ch) + (c + y * ch') * -1;
  }

  lemma Expand(q: nat, x: int, y: int, c: int, ch: int, s: int)
    requires q > 0 && Mul(x, s, q) == Plus(c, Mul(y, ch, q), q)
    ensures Congruent(x * s, c + y * ch, q)
  {
    CongruentMod(y * ch, q);
    CongruentAdd(c, c, Mul(y, ch, q), y * ch, q);
  }
}
