/** The writers as they run: a hasher and a buffer are both byte sinks appended to
    step by step, and construction sorts a message's fields in place. Each method
    is held to the function that specifies the bytes or the state. */
module Sinks {
  import opened Bytes
  import opened Records
  import opened Schemas
  import opened Canonicalization
  import V = Values
  import VO = ValueOrder
  import VD = ValueDigest
  import VW = ValueWire

  class Sink {
    var bytes: seq<byte>

    constructor ()
      ensures bytes == []
    {
      bytes := [];
    }

    method Write(b: seq<byte>)
      modifies this
      ensures bytes == old(bytes) + b
    {
      bytes := bytes + b;
    }

    // --- The hasher's vocabulary (`model/src/canonical.rs`) ---

    method End()
      modifies this
      ensures bytes == old(bytes) + VD.End()
    {
      Write(LE(0, 4));
    }

    method Tag(field: u32)
      modifies this
      ensures bytes == old(bytes) + VD.Tag(field)
    {
      Write(LE(field, 4));
    }

    method Count(length: u64)
      modifies this
      ensures bytes == old(bytes) + VD.Count(length)
    {
      Write(LE(length, 8));
    }

    method BlobValue(s: seq<byte>)
      requires |s| < TWO64
      modifies this
      ensures bytes == old(bytes) + VD.BlobBytes(s)
    {
      Count(|s|);
      Write(s);
      Assoc(old(bytes), VD.Count(|s|), s);
    }

    method DigestTime(t: V.Timestamp)
      modifies this
      ensures bytes == old(bytes) + VD.TimeBytes(t)
    {
      var seconds, nanos := LE(Unsigned64(t.seconds), 8), LE(t.nanos, 4);
      Tag(1);
      Write(seconds);
      Tag(2);
      Write(nanos);
      End();
      var start := old(bytes);
      Assoc(((start + VD.Tag(1)) + seconds) + VD.Tag(2), nanos, VD.End());
      Assoc((start + VD.Tag(1)) + seconds, VD.Tag(2), nanos + VD.End());
      Assoc(start + VD.Tag(1), seconds, VD.Tag(2) + (nanos + VD.End()));
      Assoc(start, VD.Tag(1), seconds + (VD.Tag(2) + (nanos + VD.End())));
    }

    /** A map: count, then each key and value in key order. */
    method MapValue(entries: seq<V.Entry>)
      requires V.ValidMap(entries)
      modifies this
      ensures bytes == old(bytes) + VD.MapBytes(entries)
      decreases entries, 1
    {
      hide VD.ValueBytes, V.Valid, VD.BlobBytes;
      Count(|entries|);
      ghost var start := bytes;
      for i := 0 to |entries|
        invariant bytes + VD.EntriesBytes(entries[i..]) == start + VD.EntriesBytes(entries)
      {
        var e := entries[i];
        assert e in entries && entries[i..][0] == e && entries[i..][1..] == entries[i + 1..];
        ghost var here := bytes;
        BlobValue(e.key);
        DigestValue(e.value);
        var rest := VD.EntriesBytes(entries[i + 1..]);
        Assoc(here + VD.BlobBytes(e.key), VD.ValueBytes(e.value), rest);
        Assoc(here, VD.BlobBytes(e.key), VD.ValueBytes(e.value) + rest);
      }
      assert entries[|entries|..] == [] && bytes + [] == bytes && entries[0..] == entries;
      Assoc(old(bytes), VD.Count(|entries|), VD.EntriesBytes(entries));
    }

    method ListValue(values: seq<V.Value>)
      requires |values| < TWO64 && forall x | x in values :: V.Valid(x)
      modifies this
      ensures bytes == old(bytes) + (VD.Count(|values|) + VD.ValuesBytes(values))
      decreases values, 1
    {
      hide VD.ValueBytes, V.Valid;
      Count(|values|);
      ghost var start := bytes;
      for i := 0 to |values|
        invariant bytes + VD.ValuesBytes(values[i..]) == start + VD.ValuesBytes(values)
      {
        var v := values[i];
        assert v in values && values[i..][0] == v && values[i..][1..] == values[i + 1..];
        ghost var here := bytes;
        DigestValue(v);
        Assoc(here, VD.ValueBytes(v), VD.ValuesBytes(values[i + 1..]));
      }
      assert values[|values|..] == [] && bytes + [] == bytes && values[0..] == values;
      Assoc(old(bytes), VD.Count(|values|), VD.ValuesBytes(values));
    }

    /** Arm number, then the payload. */
    method DigestValue(v: V.Value)
      requires V.Valid(v)
      modifies this
      ensures bytes == old(bytes) + VD.ValueBytes(v)
      decreases v, 0
    {
      Tag(VO.Arm(v.repr));
      match v.repr {
        case Null =>
        case Bool(b) => Write(VD.BoolBytes(b));
        case Int(i) => Write(LE(Unsigned64(i), 8));
        case Uint(u) => Write(LE(u, 8));
        case Double(d) => Write(LE(d, 8));
        case Text(s) => BlobValue(s);
        case Blob(s) => BlobValue(s);
        case Time(t) => DigestTime(t);
        case List(values) => ListValue(values);
        case Map(entries) => MapValue(entries);
      }
      Assoc(old(bytes), VD.Tag(VO.Arm(v.repr)), VD.PayloadBytes(v));
    }

    // --- The emitter (`model/src/encode.rs`) ---

    method EncodeKey(field: nat, wireType: nat)
      modifies this
      ensures bytes == old(bytes) + KeyBytes(field, wireType)
    {
      Write(KeyBytes(field, wireType));
    }

    method EncodeVarint(n: nat)
      modifies this
      ensures bytes == old(bytes) + Varint(n)
    {
      Write(Varint(n));
    }

    /** A message-typed field: the length is computed before the body is written. */
    method Nested(field: nat, v: V.Value)
      modifies this
      ensures bytes == old(bytes) + VW.Prefixed(field, VW.Len(v), VW.Emit(v))
      decreases v, 1
    {
      var length := VW.Len(v);
      EncodeKey(field, 2);
      EncodeVarint(length);
      EmitValue(v);
      Prefixing(old(bytes), field, length, VW.Emit(v));
    }

    lemma Prefixing(start: seq<byte>, field: nat, length: nat, body: seq<byte>)
      ensures ((start + KeyBytes(field, 2)) + Varint(length)) + body == start + VW.Prefixed(field, length, body)
    {
      Assoc(start + KeyBytes(field, 2), Varint(length), body);
      Assoc(start, KeyBytes(field, 2), Varint(length) + body);
    }

    method MapField(field: nat, entries: seq<V.Entry>)
      modifies this
      ensures bytes == old(bytes) + VW.EmitMapField(field, entries)
      decreases entries, 1
    {
      hide VW.Emit, VW.Len, VW.EmitEntry;
      var body := VW.MapBodyLen(entries);
      EncodeKey(field, 2);
      EncodeVarint(body);
      ghost var start := bytes;
      for i := 0 to |entries|
        invariant bytes + VW.EmitMapBody(entries[i..]) == start + VW.EmitMapBody(entries)
      {
        var e := entries[i];
        assert e in entries && entries[i..][0] == e && entries[i..][1..] == entries[i + 1..];
        ghost var here := bytes;
        MapEntry(e);
        Assoc(here, VW.Prefixed(1, VW.EntryLen(e), VW.EmitEntry(e)), VW.EmitMapBody(entries[i + 1..]));
      }
      assert entries[|entries|..] == [] && bytes + [] == bytes && entries[0..] == entries;
      Prefixing(old(bytes), field, body, VW.EmitMapBody(entries));
    }

    method MapEntry(e: V.Entry)
      modifies this
      ensures bytes == old(bytes) + VW.Prefixed(1, VW.EntryLen(e), VW.EmitEntry(e))
      decreases e, 2
    {
      var length := VW.EntryLen(e);
      EncodeKey(1, 2);
      EncodeVarint(length);
      ghost var start := bytes;
      Write(VW.EmitBlob(1, e.key));
      Nested(2, e.value);
      Assoc(start, VW.EmitBlob(1, e.key), VW.Prefixed(2, VW.Len(e.value), VW.Emit(e.value)));
      Prefixing(old(bytes), 1, length, VW.EmitEntry(e));
    }

    method ListField(values: seq<V.Value>)
      modifies this
      ensures bytes == old(bytes) + VW.Prefixed(9, VW.ListLen(values), VW.EmitList(values))
      decreases values, 1
    {
      hide VW.Emit, VW.Len;
      var body := VW.ListLen(values);
      EncodeKey(9, 2);
      EncodeVarint(body);
      ghost var start := bytes;
      for i := 0 to |values|
        invariant bytes + VW.EmitList(values[i..]) == start + VW.EmitList(values)
      {
        var v := values[i];
        assert v in values && values[i..][0] == v && values[i..][1..] == values[i + 1..];
        ghost var here := bytes;
        Nested(1, v);
        Assoc(here, VW.Prefixed(1, VW.Len(v), VW.Emit(v)), VW.EmitList(values[i + 1..]));
      }
      assert values[|values|..] == [] && bytes + [] == bytes && values[0..] == values;
      Prefixing(old(bytes), 9, body, VW.EmitList(values));
    }

    method EmitValue(v: V.Value)
      modifies this
      ensures bytes == old(bytes) + VW.Emit(v)
      decreases v, 0
    {
      match v.repr {
        case Null =>
          EncodeKey(1, 2);
          EncodeVarint(0);
          Assoc(old(bytes), KeyBytes(1, 2), Varint(0));
        case Bool(b) => Write(VW.EmitVarint(2, if b then 1 else 0));
        case Int(i) => Write(VW.EmitVarint(3, Zigzag(i)));
        case Uint(u) => Write(VW.EmitVarint(4, u));
        case Double(d) => Write(VW.EmitDouble(5, d));
        case Text(s) => Write(VW.EmitBlob(6, s));
        case Blob(s) => Write(VW.EmitBlob(7, s));
        case Time(t) =>
          EncodeKey(8, 2);
          EncodeVarint(VW.LenTime(t));
          Write(VW.EmitTime(t));
          Prefixing(old(bytes), 8, VW.LenTime(t), VW.EmitTime(t));
        case List(values) => ListField(values);
        case Map(entries) => MapField(10, entries);
      }
    }
  }

  // --- Reading, as it runs (`model/src/value.rs`) ---

  method ReadValue(w: V.WValue) returns (r: V.Result<V.Value>)
    ensures r == V.TryValue(w)
    decreases w, 1
  {
    match w.kind {
      case None => return V.Err(V.Absent);
      case Some(kind) =>
        match kind {
          case WNull => return V.Ok(V.Scalar(V.Null));
          case WBool(b) => return V.Ok(V.Scalar(V.Bool(b)));
          case WInt(i) => return V.Ok(V.Scalar(V.Repr.Int(i)));
          case WUint(u) => return V.Ok(V.Scalar(V.Repr.Uint(u)));
          case WDouble(bits) => return V.NewDouble(bits);
          case WText(s) => return V.NewText(s);
          case WBlob(s) => return V.NewBlob(s);
          case WTime(t) =>
            var t' := V.TryTimestamp(t);
            return if t'.Err? then V.Err(t'.violation) else V.Ok(V.Scalar(V.Time(t'.value)));
          case WList(ws) =>
            var values := ReadValues(ws);
            return if values.Err? then V.Err(values.violation) else V.NewList(values.value);
          case WMap(ws) =>
            var entries := ReadEntries(ws);
            if entries.Err? {
              return V.Err(entries.violation);
            }
            var m := Collect(entries.value);
            if m.Err? {
              return V.Err(m.violation);
            }
            var depth := V.ContainerDepth(V.Children(m.value));
            return if depth.Err? then V.Err(depth.violation) else V.Ok(V.Value(V.Map(m.value), depth.value));
        }
    }
  }

  method ReadValues(ws: seq<V.WValue>) returns (r: V.Result<seq<V.Value>>)
    ensures r == V.TryValues([], ws)
    decreases ws, 0
  {
    hide V.TryValue;
    var values: seq<V.Value> := [];
    for i := 0 to |ws|
      invariant V.TryValues(values, ws[i..]) == V.TryValues([], ws)
    {
      assert ws[i..][0] == ws[i] && ws[i..][1..] == ws[i + 1..];
      var v := ReadValue(ws[i]);
      if v.Err? {
        return V.Err(v.violation);
      }
      values := values + [v.value];
    }
    return V.Ok(values);
  }

  method ReadEntries(ws: seq<V.WEntry>) returns (r: V.Result<seq<V.Entry>>)
    ensures r == V.TryEntries([], ws)
    decreases ws, 0
  {
    hide V.TryValue;
    var entries: seq<V.Entry> := [];
    for i := 0 to |ws|
      invariant V.TryEntries(entries, ws[i..]) == V.TryEntries([], ws)
    {
      var w := ws[i];
      assert ws[i..][0] == w && ws[i..][1..] == ws[i + 1..];
      if w.key.None? || w.value.None? {
        return V.Err(V.Absent);
      }
      assert w.value.value < w.value < w && w in ws;
      var v := ReadValue(w.value.value);
      if v.Err? {
        return V.Err(v.violation);
      }
      entries := entries + [V.Entry(w.key.value, v.value)];
    }
    return V.Ok(entries);
  }

  method Collect(entries: seq<V.Entry>) returns (r: V.Result<seq<V.Entry>>)
    ensures r == V.CollectMap([], entries)
  {
    var m: seq<V.Entry> := [];
    for i := 0 to |entries|
      invariant V.CollectMap(m, entries[i..]) == V.CollectMap([], entries)
    {
      var e := entries[i];
      assert entries[i..][0] == e && entries[i..][1..] == entries[i + 1..];
      if e.key == [] {
        return V.Err(V.Empty);
      }
      if |e.key| > V.MAX_KEY {
        return V.Err(V.TooLong);
      }
      if V.HasKey(m, e.key) {
        return V.Err(V.Duplicate);
      }
      m := V.Insert(m, e);
    }
    return if |m| > V.MAX_ENTRIES then V.Err(V.TooMany) else V.Ok(m);
  }

  // --- Construction, in place ---

  class Built {
    var slots: seq<Slot>

    constructor (slots: seq<Slot>)
      ensures this.slots == slots
    {
      this.slots := slots;
    }

    /** Sorts every sortable field, one after another. */
    method Canonicalize(plans: seq<Plan>)
      requires |plans| == |slots|
      modifies this
      ensures slots == CanonicalSlots(plans, old(slots))
    {
      for i := 0 to |plans|
        invariant |slots| == |plans|
        invariant forall k | 0 <= k < i :: slots[k] == CanonicalSlot(plans[k], old(slots)[k])
        invariant forall k | i <= k < |plans| :: slots[k] == old(slots)[k]
      {
        if plans[i].sortable && plans[i].shape.Repeated? && slots[i].Many? {
          slots := slots[i := Many(SortBy(plans[i].shape.t, slots[i].ds))];
        }
      }
    }
  }
}
