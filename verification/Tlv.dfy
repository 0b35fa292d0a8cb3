/** The type-length-value layer: a two-byte type, a two-byte length, then the value. */
module Tlv {
  import opened Core
  import opened Bytes

  datatype TlvRecord = TlvRecord(ty: u16, value: seq<byte>)

  const CRITICAL_BIT: int := 0x8000

  function CriticalType(base: int): u16
    requires 0 <= base < CRITICAL_BIT
  {
    base + CRITICAL_BIT
  }

  predicate IsCritical(ty: u16) {
    ty >= CRITICAL_BIT
  }

  // ------------------------------------------------------------ specification

  predicate Fits(rs: seq<TlvRecord>) {
    forall i :: 0 <= i < |rs| ==> |rs[i].value| <= U16_MAX
  }

  function RecordBytes(r: TlvRecord): (s: seq<byte>)
    requires |r.value| <= U16_MAX
    ensures |s| == 4 + |r.value|
  {
    Be16(r.ty) + Be16(|r.value|) + r.value
  }

  function StreamBytes(rs: seq<TlvRecord>): seq<byte>
    requires Fits(rs)
  {
    if rs == [] then [] else RecordBytes(rs[0]) + StreamBytes(rs[1..])
  }

  function Encode(rs: seq<TlvRecord>): (r: Result<seq<byte>>)
    ensures r.Ok? <==> Fits(rs)
  {
    if Fits(rs) then Ok(StreamBytes(rs)) else Err(InvalidLength)
  }

  function HeadType(input: seq<byte>): u16
    requires |input| >= 4
  {
    FromBe16(input[0..2])
  }

  function HeadLength(input: seq<byte>): u16
    requires |input| >= 4
  {
    FromBe16(input[2..4])
  }

  /** What the decoding loop returns from a position whose remaining bytes are `input`,
      having already met the types in `seen`. */
  function Parse(input: seq<byte>, known: set<u16>, seen: set<u16>): Result<seq<TlvRecord>>
    decreases |input|
  {
    if input == [] then Ok([])
    else if |input| < 4 then Err(InvalidTlv)
    else
      var ty := HeadType(input);
      var len := HeadLength(input);
      if |input| - 4 < len then Err(InvalidTlv)
      else if ty !in known && IsCritical(ty) then Err(UnknownCriticalTlv(ty))
      else if ty in seen then Err(DuplicateTlv(ty))
      else
        var rest :- Parse(input[4 + len..], known, seen + {ty});
        Ok([TlvRecord(ty, input[4..4 + len])] + rest)
  }

  function DecodeStrict(input: seq<byte>, known: set<u16>): Result<seq<TlvRecord>> {
    Parse(input, known, {})
  }

  /** The value of the first record of type `ty`. */
  function Find(rs: seq<TlvRecord>, ty: u16): Option<seq<byte>> {
    if rs == [] then None
    else if rs[0].ty == ty then Some(rs[0].value)
    else Find(rs[1..], ty)
  }

  function Require(rs: seq<TlvRecord>, ty: u16): Result<seq<byte>> {
    match Find(rs, ty)
    case Some(v) => Ok(v)
    case None => Err(MissingField)
  }

  // ------------------------------------------------------------ the loops

  method EncodeLoop(rs: seq<TlvRecord>) returns (r: Result<seq<byte>>)
    ensures r == Encode(rs)
  {
    var out: seq<byte> := [];
    for i := 0 to |rs|
      invariant Fits(rs[..i])
      invariant out == StreamBytes(rs[..i])
    {
      if |rs[i].value| > U16_MAX {
        return Err(InvalidLength);
      }
      out := out + Be16(rs[i].ty);
      out := out + Be16(|rs[i].value|);
      out := out + rs[i].value;
      assert rs[..i + 1] == rs[..i] + [rs[i]];
      StreamAppend(rs[..i], [rs[i]]);
      assert StreamBytes([rs[i]]) == RecordBytes(rs[i]);
    }
    assert rs[..|rs|] == rs;
    r := Ok(out);
  }

  method DecodeLoop(input: seq<byte>, known: set<u16>) returns (r: Result<seq<TlvRecord>>)
    ensures r == DecodeStrict(input, known)
  {
    var cursor := 0;
    var records: seq<TlvRecord> := [];
    var seen: set<u16> := {};
    assert input[0..] == input;
    PrefixedStep([], [], DecodeStrict(input, known));
    while cursor < |input|
      invariant 0 <= cursor <= |input|
      invariant DecodeStrict(input, known) == Prefixed(records, Parse(input[cursor..], known, seen))
    {
      ghost var here := input[cursor..];
      if |input| - cursor < 4 {
        return Err(InvalidTlv);
      }
      var ty := FromBe16(input[cursor..cursor + 2]);
      var len := FromBe16(input[cursor + 2..cursor + 4]);
      assert here[0..2] == input[cursor..cursor + 2] && here[2..4] == input[cursor + 2..cursor + 4];
      cursor := cursor + 4;
      if |input| - cursor < len {
        return Err(InvalidTlv);
      }
      if ty !in known && IsCritical(ty) {
        return Err(UnknownCriticalTlv(ty));
      }
      if ty in seen {
        return Err(DuplicateTlv(ty));
      }
      seen := seen + {ty};
      var value := input[cursor..cursor + len];
      cursor := cursor + len;
      assert here[4 + len..] == input[cursor..] && here[4..4 + len] == value;
      PrefixedStep(records, [TlvRecord(ty, value)], Parse(input[cursor..], known, seen));
      records := records + [TlvRecord(ty, value)];
    }
    PrefixedStep(records, [], Ok([]));
    r := Ok(records);
  }

  // ------------------------------------------------------------ properties

  lemma StreamCons(r: TlvRecord, rest: seq<TlvRecord>)
    requires |r.value| <= U16_MAX && Fits(rest)
    ensures Fits([r] + rest) && StreamBytes([r] + rest) == RecordBytes(r) + StreamBytes(rest)
  {
    assert ([r] + rest)[1..] == rest;
  }

  lemma {:induction false} StreamAppend(a: seq<TlvRecord>, b: seq<TlvRecord>)
    requires Fits(a) && Fits(b)
    ensures Fits(a + b) && StreamBytes(a + b) == StreamBytes(a) + StreamBytes(b)
  {
    if a == [] {
      assert a + b == b;
    } else {
      StreamAppend(a[1..], b);
      StreamCons(a[0], a[1..] + b);
      StreamCons(a[0], a[1..]);
      assert [a[0]] + (a[1..] + b) == a + b && [a[0]] + a[1..] == a;
    }
  }

  /** Types are pairwise different, none was met before, and every critical one is known. */
  predicate Admissible(rs: seq<TlvRecord>, known: set<u16>, seen: set<u16>) {
    && (forall i, j :: 0 <= i < j < |rs| ==> rs[i].ty != rs[j].ty)
    && (forall i :: 0 <= i < |rs| ==> rs[i].ty !in seen && (IsCritical(rs[i].ty) ==> rs[i].ty in known))
  }

  lemma HeadOfStream(r: TlvRecord, tail: seq<byte>)
    requires |r.value| <= U16_MAX
    ensures var s := RecordBytes(r) + tail;
            && HeadType(s) == r.ty && HeadLength(s) == |r.value|
            && s[4..4 + |r.value|] == r.value && s[4 + |r.value|..] == tail
  {
  }

  /** Decoding an encoded list gives that list back exactly when its types are admissible,
      and is an error otherwise. */
  lemma {:induction false} DecodeOfEncode(rs: seq<TlvRecord>, known: set<u16>, seen: set<u16>)
    requires Fits(rs)
    ensures Admissible(rs, known, seen) ==> Parse(StreamBytes(rs), known, seen) == Ok(rs)
    ensures !Admissible(rs, known, seen) ==> Parse(StreamBytes(rs), known, seen).Err?
    decreases |rs|
  {
    if rs != [] {
      var r, rest := rs[0], rs[1..];
      HeadOfStream(r, StreamBytes(rest));
      DecodeOfEncode(rest, known, seen + {r.ty});
      assert rs == [r] + rest;
      if Admissible(rs, known, seen) {
        assert Admissible(rest, known, seen + {r.ty}) by {
          forall i, j | 0 <= i < j < |rest| ensures rest[i].ty != rest[j].ty {
            assert rs[i + 1].ty != rs[j + 1].ty;
          }
        }
      } else if Admissible(rest, known, seen + {r.ty}) && r.ty !in seen && (IsCritical(r.ty) ==> r.ty in known) {
        AdmissibleCons(rs, known, seen);
        assert false;
      }
    }
  }

  lemma AdmissibleCons(rs: seq<TlvRecord>, known: set<u16>, seen: set<u16>)
    requires rs != []
    requires Admissible(rs[1..], known, seen + {rs[0].ty})
    requires rs[0].ty !in seen && (IsCritical(rs[0].ty) ==> rs[0].ty in known)
    ensures Admissible(rs, known, seen)
  {
  }

  /** Whatever the decoder accepts is the encoding of what it returns, so no two byte
      strings decode to the same list. */
  lemma {:induction false} EncodeOfDecode(input: seq<byte>, known: set<u16>, seen: set<u16>)
    requires Parse(input, known, seen).Ok?
    ensures var rs := Parse(input, known, seen).value;
            Fits(rs) && StreamBytes(rs) == input && Admissible(rs, known, seen)
    decreases |input|
  {
    if input != [] {
      var ty, len := HeadType(input), HeadLength(input);
      var rs := Parse(input, known, seen).value;
      EncodeOfDecode(input[4 + len..], known, seen + {ty});
      assert rs[1..] == Parse(input[4 + len..], known, seen + {ty}).value;
      assert input == input[0..2] + input[2..4] + input[4..4 + len] + input[4 + len..];
      AdmissibleCons(rs, known, seen);
    }
  }

  /** Equal streams come from equal record lists, whatever the types are. */
  lemma {:induction false} StreamInjective(a: seq<TlvRecord>, b: seq<TlvRecord>)
    requires Fits(a) && Fits(b) && StreamBytes(a) == StreamBytes(b)
    ensures a == b
    decreases |a|
  {
    if a != [] && b != [] {
      HeadOfStream(a[0], StreamBytes(a[1..]));
      HeadOfStream(b[0], StreamBytes(b[1..]));
      StreamInjective(a[1..], b[1..]);
      assert a == [a[0]] + a[1..] && b == [b[0]] + b[1..];
    }
  }

  // ------------------------------------------------------------ building and searching lists

  function OptionalRecord(ty: u16, v: Option<seq<byte>>): seq<TlvRecord> {
    match v
    case Some(value) => [TlvRecord(ty, value)]
    case None => []
  }

  lemma {:induction false} FindAppend(a: seq<TlvRecord>, b: seq<TlvRecord>, ty: u16)
    ensures Find(a + b, ty) == if Find(a, ty).Some? then Find(a, ty) else Find(b, ty)
  {
    if a == [] {
      assert a + b == b;
    } else {
      assert (a + b)[1..] == a[1..] + b;
      FindAppend(a[1..], b, ty);
    }
  }

  lemma {:induction false} FindAt(rs: seq<TlvRecord>, i: nat)
    requires i < |rs| && forall j :: 0 <= j < i ==> rs[j].ty != rs[i].ty
    ensures Find(rs, rs[i].ty) == Some(rs[i].value)
  {
    if i > 0 {
      assert rs[0].ty != rs[i].ty;
      FindAt(rs[1..], i - 1);
    }
  }

  lemma {:induction false} FindAbsent(rs: seq<TlvRecord>, ty: u16)
    requires forall j :: 0 <= j < |rs| ==> rs[j].ty != ty
    ensures Find(rs, ty) == None
  {
    if rs != [] {
      FindAbsent(rs[1..], ty);
    }
  }

  lemma AdmissibleAppend(a: seq<TlvRecord>, b: seq<TlvRecord>, known: set<u16>)
    requires Admissible(a, known, {}) && Admissible(b, known, {})
    requires forall i, j :: 0 <= i < |a| && 0 <= j < |b| ==> a[i].ty != b[j].ty
    ensures Admissible(a + b, known, {})
  {
  }

  lemma FitsAppend(a: seq<TlvRecord>, b: seq<TlvRecord>)
    ensures Fits(a + b) <==> Fits(a) && Fits(b)
  {
    if Fits(a + b) {
      assert forall i :: 0 <= i < |a| ==> a[i] == (a + b)[i];
      assert forall i :: 0 <= i < |b| ==> b[i] == (a + b)[|a| + i];
    }
  }
}
