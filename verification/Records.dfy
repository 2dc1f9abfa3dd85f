/** The record layer of the Protocol Buffers encoding: a message is a sequence
    of key-payload records ("Message Structure", "Length-Delimited Records"). */
module Records {
  import opened Bytes

  datatype Payload = VInt(n: u64) | Fixed64(w: u64) | Delimited(s: seq<byte>) {
    function WireType(): (t: nat)
      ensures t <= 2
    {
      match this case VInt(_) => 0 case Fixed64(_) => 1 case Delimited(_) => 2
    }
  }

  datatype Rec = Rec(field: nat, payload: Payload)

  function KeyBytes(field: nat, wireType: nat): (s: seq<byte>)
    ensures |s| >= 1
  {
    Varint(field * 8 + wireType)
  }

  function PayloadSer(p: Payload): seq<byte> {
    match p
    case VInt(n) => Varint(n)
    case Fixed64(w) => LE(w, 8)
    case Delimited(s) => Varint(|s|) + s
  }

  function RecSer(r: Rec): seq<byte> { KeyBytes(r.field, r.payload.WireType()) + PayloadSer(r.payload) }

  function Ser(rs: seq<Rec>): seq<byte> {
    if rs == [] then [] else RecSer(rs[0]) + Ser(rs[1..])
  }

  function ParsePayload(wireType: nat, s: seq<byte>): (r: Option<(Payload, seq<byte>)>)
    ensures r.Some? ==> |r.value.1| <= |s| && (r.value.0.Delimited? ==> |r.value.0.s| <= |s|)
  {
    if wireType == 0 then
      match ParseVarint(s)
      case None => None
      case Some((n, rest)) => if n < TWO64 then Some((VInt(n), rest)) else None
    else if wireType == 1 then
      if |s| < 8 || FromLE(s[..8]) >= TWO64 then None else Some((Fixed64(FromLE(s[..8])), s[8..]))
    else if wireType == 2 then
      match ParseVarint(s)
      case None => None
      case Some((n, rest)) => if n > |rest| then None else Some((Delimited(rest[..n]), rest[n..]))
    else None
  }

  function ParseRec(s: seq<byte>): (r: Option<(Rec, seq<byte>)>)
    ensures r.Some? ==> |r.value.1| < |s|
    ensures r.Some? && r.value.0.payload.Delimited? ==> |r.value.0.payload.s| < |s|
  {
    match ParseVarint(s)
    case None => None
    case Some((key, rest)) =>
      if key / 8 == 0 then None else
      match ParsePayload(key % 8, rest)
      case None => None
      case Some((p, tail)) => Some((Rec(key / 8, p), tail))
  }

  predicate Within(rs: seq<Rec>, bound: nat) {
    forall r | r in rs :: r.payload.Delimited? ==> |r.payload.s| < bound
  }

  lemma WithinTail(rs: seq<Rec>, bound: nat)
    requires Within(rs, bound) && rs != []
    ensures Within(rs[1..], bound)
    ensures rs[0].payload.Delimited? ==> |rs[0].payload.s| < bound
  {
    assert rs[0] in rs;
  }

  function ParseRecs(s: seq<byte>): (r: Option<seq<Rec>>)
    ensures r.Some? ==> Within(r.value, |s|)
    decreases |s|
  {
    if s == [] then Some([]) else
    match ParseRec(s)
    case None => None
    case Some((rec, rest)) =>
      match ParseRecs(rest)
      case None => None
      case Some(rs) => Some([rec] + rs)
  }

  lemma ParsePayloadInverts(p: Payload, rest: seq<byte>)
    ensures ParsePayload(p.WireType(), PayloadSer(p) + rest) == Some((p, rest))
  {
    var s := PayloadSer(p) + rest;
    match p {
      case VInt(n) => ParseVarintInverts(n, rest);
      case Fixed64(w) =>
        assert s[..8] == LE(w, 8) && s[8..] == rest;
        Pow256At8();
        FromLEInverts(w, 8);
      case Delimited(x) =>
        Assoc(Varint(|x|), x, rest);
        ParseVarintInverts(|x|, x + rest);
        assert (x + rest)[..|x|] == x && (x + rest)[|x|..] == rest;
    }
  }

  lemma ParseRecInverts(r: Rec, rest: seq<byte>)
    requires r.field >= 1
    ensures ParseRec(RecSer(r) + rest) == Some((r, rest))
  {
    var key := r.field * 8 + r.payload.WireType();
    Assoc(KeyBytes(r.field, r.payload.WireType()), PayloadSer(r.payload), rest);
    ParseVarintInverts(key, PayloadSer(r.payload) + rest);
    assert key / 8 == r.field && key % 8 == r.payload.WireType();
    ParsePayloadInverts(r.payload, rest);
  }

  /** Parsing what was serialized gives the records back. */
  lemma {:induction false} ParseSer(rs: seq<Rec>)
    requires forall r | r in rs :: r.field >= 1
    ensures ParseRecs(Ser(rs)) == Some(rs)
  {
    if rs != [] {
      ParseRecInverts(rs[0], Ser(rs[1..]));
      ParseSer(rs[1..]);
      assert rs == [rs[0]] + rs[1..];
    }
  }

  lemma {:induction false} SerConcat(a: seq<Rec>, b: seq<Rec>)
    ensures Ser(a + b) == Ser(a) + Ser(b)
  {
    hide RecSer;
    if a == [] {
      assert a + b == b;
    } else {
      var (first, rest) := (a[0], a[1..]);
      SerConcat(rest, b);
      assert a + b == [first] + (rest + b);
      ConsSer(first, rest + b);
      assert a == [first] + rest;
      ConsSer(first, rest);
      Assoc(RecSer(first), Ser(rest), Ser(b));
    }
  }

  lemma ConsSer(r: Rec, rs: seq<Rec>)
    ensures Ser([r] + rs) == RecSer(r) + Ser(rs)
  {
    assert ([r] + rs)[1..] == rs;
  }

  lemma SerOne(r: Rec)
    ensures Ser([r]) == RecSer(r)
  {
    assert Ser([r]) == RecSer(r) + Ser([]);
  }

  /** The key's length does not depend on the wire type. */
  lemma KeyLenExact(field: nat, wireType: nat)
    requires wireType < 8
    ensures |KeyBytes(field, wireType)| == VarintLen(field * 8)
  {
    VarintLenExact(field * 8 + wireType);
    if field >= 16 {
      assert (field * 8 + wireType) / 128 == field / 16 == field * 8 / 128;
    }
  }
}
