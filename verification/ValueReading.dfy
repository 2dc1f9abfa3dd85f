/** What reading a wire value accepts and yields: exactly the wire trees the
    schema allows, with the true depth cached and nothing but representation
    changed; and reading back what a validated value writes is the identity. */
module ValueReading {
  import opened Bytes
  import opened Orders
  import opened Values

  // --- Collecting entries into a sorted map ---

  lemma ConsSorted(e: Entry, rest: seq<Entry>)
    requires SortedKeys(rest) && forall x | x in rest :: CmpInts(e.key, x.key) == Less
    ensures SortedKeys([e] + rest)
  {
  }

  lemma {:induction false} InsertContents(m: seq<Entry>, e: Entry)
    ensures multiset(Insert(m, e)) == multiset(m) + multiset{e}
    ensures |Insert(m, e)| == |m| + 1
    ensures forall x :: x in Insert(m, e) <==> x in m || x == e
  {
    if m != [] {
      assert m == [m[0]] + m[1..];
      InsertContents(m[1..], e);
    }
  }

  lemma {:induction false} InsertKeeps(m: seq<Entry>, e: Entry)
    requires SortedKeys(m) && !HasKey(m, e.key)
    ensures SortedKeys(Insert(m, e))
  {
    if m != [] {
      var (first, rest) := (m[0], m[1..]);
      assert forall x | x in rest :: x in m && CmpInts(first.key, x.key) == Less;
      if CmpInts(e.key, first.key) == Less {
        forall x | x in m ensures CmpInts(e.key, x.key) == Less {
          if x != first {
            CmpIntsTransitive(e.key, first.key, x.key);
          }
        }
        ConsSorted(e, m);
      } else {
        assert first in m;
        CmpIntsEqual(e.key, first.key);
        CmpIntsFlip(e.key, first.key);
        InsertKeeps(rest, e);
        InsertContents(rest, e);
        ConsSorted(first, Insert(rest, e));
      }
    }
  }

  /** Collecting succeeds exactly when the keys are nonempty, bounded, new and
      pairwise distinct and the total fits; the result is sorted and holds the
      entries given, no more and no fewer. */
  lemma {:induction false} CollectExact(m: seq<Entry>, entries: seq<Entry>)
    requires SortedKeys(m)
    ensures CollectMap(m, entries).Ok? <==> Collectable(m, entries)
    ensures CollectMap(m, entries).Ok? ==>
              var r := CollectMap(m, entries).value;
              SortedKeys(r) && |r| == |m| + |entries| && multiset(r) == multiset(m) + multiset(entries)
    decreases |entries|
  {
    if entries != [] {
      var (e, rest) := (entries[0], entries[1..]);
      assert entries == [e] + rest;
      if KeyOk(e.key) && !HasKey(m, e.key) {
        InsertKeeps(m, e);
        InsertContents(m, e);
        var m' := Insert(m, e);
        CollectExact(m', rest);
        CollectableStep(m, m', entries);
      } else {
        assert e in entries;
        if HasKey(m, e.key) {
          assert !Collectable(m, entries);
        }
      }
    }
  }

  predicate Collectable(m: seq<Entry>, entries: seq<Entry>) {
    && |m| + |entries| <= MAX_ENTRIES
    && (forall e | e in entries :: KeyOk(e.key) && !HasKey(m, e.key))
    && forall i, j | 0 <= i < j < |entries| :: entries[i].key != entries[j].key
  }

  lemma CollectableStep(m: seq<Entry>, m': seq<Entry>, entries: seq<Entry>)
    requires entries != [] && KeyOk(entries[0].key) && !HasKey(m, entries[0].key)
    requires |m'| == |m| + 1
    requires forall x :: x in m' <==> x in m || x == entries[0]
    ensures Collectable(m, entries) <==> Collectable(m', entries[1..])
  {
    var (e, rest) := (entries[0], entries[1..]);
    assert forall key :: HasKey(m', key) <==> HasKey(m, key) || key == e.key by {
      assert e in m';
    }
    if Collectable(m', rest) {
      assert forall x | x in entries :: x == e || x in rest;
      forall i, j | 0 <= i < j < |entries| ensures entries[i].key != entries[j].key {
        assert entries[j] == rest[j - 1] && rest[j - 1] in rest;
        if i > 0 {
          assert entries[i] == rest[i - 1];
        }
      }
    }
    if Collectable(m, entries) {
      forall x | x in rest ensures KeyOk(x.key) && !HasKey(m', x.key) {
        var k :| 0 <= k < |rest| && rest[k] == x;
        assert entries[k + 1] == x;
      }
    }
  }

  /** Entries already in order are collected as they stand. */
  lemma {:induction false} CollectSorted(m: seq<Entry>, entries: seq<Entry>)
    requires SortedKeys(m + entries) && |m + entries| <= MAX_ENTRIES
    requires forall e | e in entries :: KeyOk(e.key)
    ensures CollectMap(m, entries) == Ok(m + entries)
    decreases |entries|
  {
    if entries == [] {
      assert m + entries == m;
    } else {
      var all := m + entries;
      var e := entries[0];
      assert all[|m|] == e;
      forall x | x in m ensures CmpInts(x.key, e.key) == Less {
        var k :| 0 <= k < |m| && m[k] == x;
        assert all[k] == x;
      }
      forall x | x in m ensures x.key != e.key { CmpIntsEqual(x.key, e.key); }
      InsertLast(m, e);
      assert (m + [e]) + entries[1..] == all;
      CollectSorted(m + [e], entries[1..]);
    }
  }

  lemma {:induction false} InsertLast(m: seq<Entry>, e: Entry)
    requires forall x | x in m :: CmpInts(x.key, e.key) == Less
    ensures Insert(m, e) == m + [e]
  {
    if m != [] {
      CmpIntsFlip(e.key, m[0].key);
      InsertLast(m[1..], e);
      assert m == [m[0]] + m[1..];
    }
  }

  // --- Depth ---

  lemma {:induction false} CachedIsTrue(values: seq<Value>)
    requires forall x | x in values :: x.depth == Nesting(x)
    ensures DeepestCached(values) == DeepestValue(values)
  {
    if values != [] {
      CachedIsTrue(values[1..]);
    }
  }

  lemma {:induction false} ChildrenDeepest(entries: seq<Entry>)
    ensures DeepestValue(Children(entries)) == DeepestEntry(entries)
  {
    if entries != [] {
      ChildrenDeepest(entries[1..]);
      assert Children(entries)[1..] == Children(entries[1..]);
    }
  }

  lemma ChildrenCached(entries: seq<Entry>)
    requires forall e | e in entries :: Valid(e.value)
    ensures DeepestCached(Children(entries)) == DeepestEntry(entries)
  {
    assert forall x | x in Children(entries) :: x.depth == Nesting(x);
    CachedIsTrue(Children(entries));
    ChildrenDeepest(entries);
  }

  lemma {:induction false} DeepestBounds(entries: seq<Entry>, bound: nat)
    ensures DeepestEntry(entries) <= bound <==> forall e | e in entries :: Nesting(e.value) <= bound
  {
    if entries != [] {
      DeepestBounds(entries[1..], bound);
      assert entries == [entries[0]] + entries[1..];
    }
  }

  lemma {:induction false} DeepestWireBounds(ws: seq<WEntry>, bound: nat)
    requires forall w | w in ws :: w.value.Some?
    ensures DeepestWireEntry(ws) <= bound <==> forall w | w in ws :: WNesting(w.value.value) <= bound
  {
    if ws != [] {
      DeepestWireBounds(ws[1..], bound);
      assert ws == [ws[0]] + ws[1..];
    }
  }

  /** Reordering entries does not move the deepest. */
  lemma DeepestOfPermutation(a: seq<Entry>, b: seq<Entry>)
    requires multiset(a) == multiset(b)
    ensures DeepestEntry(a) == DeepestEntry(b)
  {
    assert forall e :: e in a <==> e in b by {
      assert forall e :: e in a <==> e in multiset(a);
      assert forall e :: e in b <==> e in multiset(b);
    }
    DeepestBounds(a, DeepestEntry(b));
    DeepestBounds(b, DeepestEntry(b));
    DeepestBounds(b, DeepestEntry(a));
    DeepestBounds(a, DeepestEntry(a));
  }

  // --- Reading is exact ---

  ghost predicate ReadsAs(w: WValue, v: Value) {
    Valid(v) && v.depth == WNesting(w) && Denotes(w, v)
  }

  /** Accepted exactly when acceptable; and what is built is valid, caches the
      wire tree's true nesting, and denotes what the wire said. */
  lemma {:induction false} TryValueExact(w: WValue)
    ensures TryValue(w).Ok? <==> Acceptable(w)
    ensures TryValue(w).Ok? ==> ReadsAs(w, TryValue(w).value)
    decreases w, 1
  {
    match w.kind {
      case Some(WList(ws)) => TryListExact(w, ws);
      case Some(WMap(ws)) => TryMapValueExact(w, ws);
      case _ =>
    }
  }

  lemma TryListExact(w: WValue, ws: seq<WValue>)
    requires w.kind == Some(WList(ws))
    ensures TryValue(w).Ok? <==> Acceptable(w)
    ensures TryValue(w).Ok? ==> ReadsAs(w, TryValue(w).value)
    decreases w, 0
  {
    TryValuesExact([], ws);
    ContainerSteps(w, Scalar(Null));
    DeepestWireList(ws, MAX_DEPTH - 1);
    hide TryValue, TryValues, NewList, DeepestWire, ReadsAs, Denotes;
    if TryValues([], ws).Ok? {
      var values := TryValues([], ws).value;
      forall i | 0 <= i < |ws| ensures ReadsAs(ws[i], values[i]) {
        assert ReadsAs(ws[i], values[0 + i]);
      }
      ListBuilt(w, ws, values);
    }
  }

  lemma ListBuilt(w: WValue, ws: seq<WValue>, values: seq<Value>)
    requires w.kind == Some(WList(ws))
    requires |ws| == |values| && forall i | 0 <= i < |ws| :: ReadsAs(ws[i], values[i])
    ensures NewList(values).Ok? <==> |ws| <= MAX_ITEMS && WNesting(w) <= MAX_DEPTH
    ensures NewList(values).Ok? ==> ReadsAs(w, NewList(values).value)
  {
    assert forall x | x in values :: Valid(x);
    CachedIsTrue(values);
    DeepestMatches(ws, values);
  }

  lemma {:induction false} DeepestWireList(ws: seq<WValue>, bound: nat)
    ensures DeepestWire(ws) <= bound <==> forall x | x in ws :: WNesting(x) <= bound
  {
    if ws != [] {
      var rest := ws[1..];
      DeepestWireList(rest, bound);
      assert DeepestWire(ws) == Max(WNesting(ws[0]), DeepestWire(rest));
      assert forall x :: x in ws <==> x == ws[0] || x in rest;
      if forall x | x in ws :: WNesting(x) <= bound {
        assert forall x | x in rest :: x in ws;
      }
    }
  }

  lemma {:induction false} DeepestMatches(ws: seq<WValue>, values: seq<Value>)
    requires |ws| == |values| && forall i | 0 <= i < |ws| :: Nesting(values[i]) == WNesting(ws[i])
    ensures DeepestValue(values) == DeepestWire(ws)
  {
    if ws != [] {
      DeepestMatches(ws[1..], values[1..]);
    }
  }

  lemma ValuesReadCons(done: seq<Value>, v: Value, ws: seq<WValue>, r: seq<Value>)
    requires ws != [] && ReadsAs(ws[0], v)
    requires |r| == |done| + |ws| && r[..|done| + 1] == done + [v]
    requires forall i | 0 <= i < |ws| - 1 :: ReadsAs(ws[1..][i], r[|done| + 1 + i])
    ensures r[..|done|] == done && forall i | 0 <= i < |ws| :: ReadsAs(ws[i], r[|done| + i])
  {
    hide ReadsAs;
    assert r[|done|] == r[..|done| + 1][|done|] && r[..|done|] == r[..|done| + 1][..|done|];
    forall i | 0 < i < |ws| ensures ReadsAs(ws[i], r[|done| + i]) {
      assert ws[1..][i - 1] == ws[i] && r[|done| + 1 + (i - 1)] == r[|done| + i];
    }
  }

  lemma {:induction false} TryValuesExact(done: seq<Value>, ws: seq<WValue>)
    ensures TryValues(done, ws).Ok? <==> forall x | x in ws :: Acceptable(x)
    ensures TryValues(done, ws).Ok? ==>
              var r := TryValues(done, ws).value;
              && |r| == |done| + |ws| && r[..|done|] == done
              && forall i | 0 <= i < |ws| :: ReadsAs(ws[i], r[|done| + i])
    decreases ws, 0
  {
    hide Acceptable, ReadsAs, TryValue;
    if ws == [] {
      assert done[..|done|] == done;
    } else {
      TryValueExact(ws[0]);
      assert ws == [ws[0]] + ws[1..];
      if TryValue(ws[0]).Ok? {
        var v := TryValue(ws[0]).value;
        TryValuesExact(done + [v], ws[1..]);
        if TryValues(done, ws).Ok? {
          ValuesReadCons(done, v, ws, TryValues(done, ws).value);
        }
      }
    }
  }

  lemma EntriesReadCons(done: seq<Entry>, e: Entry, ws: seq<WEntry>, r: seq<Entry>)
    requires ws != [] && EntryReads(ws[0], e)
    requires |r| == |done| + |ws| && r[..|done| + 1] == done + [e]
    requires forall i | 0 <= i < |ws| - 1 :: EntryReads(ws[1..][i], r[|done| + 1 + i])
    ensures r[..|done|] == done && forall i | 0 <= i < |ws| :: EntryReads(ws[i], r[|done| + i])
  {
    hide EntryReads;
    assert r[|done|] == r[..|done| + 1][|done|] && r[..|done|] == r[..|done| + 1][..|done|];
    forall i | 0 < i < |ws| ensures EntryReads(ws[i], r[|done| + i]) {
      assert ws[1..][i - 1] == ws[i] && r[|done| + 1 + (i - 1)] == r[|done| + i];
    }
  }

  lemma {:induction false} TryEntriesExact(done: seq<Entry>, ws: seq<WEntry>)
    ensures TryEntries(done, ws).Ok? <==>
            forall x | x in ws :: x.key.Some? && x.value.Some? && Acceptable(x.value.value)
    ensures TryEntries(done, ws).Ok? ==>
              var r := TryEntries(done, ws).value;
              && |r| == |done| + |ws| && r[..|done|] == done
              && forall i | 0 <= i < |ws| :: EntryReads(ws[i], r[|done| + i])
    decreases ws, 0
  {
    hide Acceptable, ReadsAs, TryValue;
    if ws == [] {
      assert done[..|done|] == done;
    } else {
      assert ws == [ws[0]] + ws[1..];
      if ws[0].key.Some? && ws[0].value.Some? {
        assert ws[0].value.value < ws[0].value < ws[0];
        TryValueExact(ws[0].value.value);
        if TryValue(ws[0].value.value).Ok? {
          var e := Entry(ws[0].key.value, TryValue(ws[0].value.value).value);
          TryEntriesExact(done + [e], ws[1..]);
          if TryEntries(done, ws).Ok? {
            EntriesReadCons(done, e, ws, TryEntries(done, ws).value);
          }
        }
      }
    }
  }

  ghost predicate EntryReads(w: WEntry, e: Entry) {
    w.key == Some(e.key) && w.value.Some? && ReadsAs(w.value.value, e.value)
  }

  lemma MapNeedsEntries(ws: seq<WEntry>)
    ensures MapAcceptable(ws) ==> forall x | x in ws :: x.key.Some? && x.value.Some? && Acceptable(x.value.value)
  {
    hide Acceptable, DistinctKeys;
  }

  /** A bare map field reads exactly when its entries are whole, bounded and
      distinct, and holds an entry for each, sorted by key. */
  lemma TryMapExact(ws: seq<WEntry>)
    ensures TryMap(ws).Ok? <==> MapAcceptable(ws)
    ensures TryMap(ws).Ok? ==> ValidMap(TryMap(ws).value) && EntriesDenote(ws, TryMap(ws).value)
    ensures TryMap(ws).Ok? ==> DeepestEntry(TryMap(ws).value) == DeepestWireEntry(ws)
    decreases ws, 1
  {
    hide TryEntries, Acceptable, MapAcceptable, DeepestEntry, DeepestWireEntry, EntryReads, Valid, ValidMap;
    hide CollectMap, Collectable, EntriesDenote;
    TryEntriesExact([], ws);
    MapNeedsEntries(ws);
    if TryEntries([], ws).Ok? {
      var es := TryEntries([], ws).value;
      assert forall i | 0 <= i < |ws| :: EntryReads(ws[i], es[i]);
      CollectExact([], es);
      KeysAgree(ws, es);
      if TryMap(ws).Ok? {
        var m := TryMap(ws).value;
        assert multiset(m) == multiset(es);
        PermutationDenotes(ws, es, m);
        DeepestOfPermutation(m, es);
        DeepestEntriesMatch(ws, es);
      }
    }
  }

  lemma KeysAgree(ws: seq<WEntry>, es: seq<Entry>)
    requires |ws| == |es| && forall i | 0 <= i < |ws| :: EntryReads(ws[i], es[i])
    requires forall x | x in ws :: x.key.Some? && x.value.Some? && Acceptable(x.value.value)
    ensures Collectable([], es) <==> MapAcceptable(ws)
  {
    if Collectable([], es) {
      forall x | x in ws ensures EntryShape(x) {
        var k :| 0 <= k < |ws| && ws[k] == x;
        assert es[k] in es;
      }
      forall i, j | 0 <= i < j < |ws| ensures ws[i].key != ws[j].key {
        assert es[i].key != es[j].key;
      }
    }
    if MapAcceptable(ws) {
      forall e | e in es ensures KeyOk(e.key) {
        var k :| 0 <= k < |es| && es[k] == e;
        assert ws[k] in ws;
      }
      forall i, j | 0 <= i < j < |es| ensures es[i].key != es[j].key {
        assert ws[i].key != ws[j].key;
      }
    }
  }

  lemma PermutationDenotes(ws: seq<WEntry>, es: seq<Entry>, m: seq<Entry>)
    requires |ws| == |es| && forall i | 0 <= i < |ws| :: EntryReads(ws[i], es[i])
    requires multiset(m) == multiset(es) && |m| == |es| && SortedKeys(m)
    requires Collectable([], es)
    ensures ValidMap(m) && EntriesDenote(ws, m)
  {
    assert forall e :: e in m <==> e in es by {
      assert forall e :: e in m <==> e in multiset(m);
      assert forall e :: e in es <==> e in multiset(es);
    }
    forall w | w in ws ensures exists e | e in m :: EntryDenotes(w, e) {
      var k :| 0 <= k < |ws| && ws[k] == w;
      assert es[k] in m && EntryDenotes(w, es[k]);
    }
    forall e | e in m ensures KeyOk(e.key) && Valid(e.value) {
      var k :| 0 <= k < |es| && es[k] == e;
    }
  }

  lemma {:induction false} DeepestEntriesMatch(ws: seq<WEntry>, es: seq<Entry>)
    requires |ws| == |es| && forall i | 0 <= i < |ws| :: EntryReads(ws[i], es[i])
    ensures DeepestEntry(es) == DeepestWireEntry(ws)
  {
    if ws != [] {
      DeepestEntriesMatch(ws[1..], es[1..]);
    }
  }

  lemma TryMapValueExact(w: WValue, ws: seq<WEntry>)
    requires w.kind == Some(WMap(ws))
    ensures TryValue(w).Ok? <==> Acceptable(w)
    ensures TryValue(w).Ok? ==> ReadsAs(w, TryValue(w).value)
    decreases w, 0
  {
    TryMapExact(ws);
    MapAcceptableAs(w, ws);
    MapSteps(w, ws);
    hide TryValue, TryMap, Acceptable, MapAcceptable, Children, DeepestEntry, EntriesDenote, ReadsAs, ValidMap;
    if TryMap(ws).Ok? {
      var m := TryMap(ws).value;
      assert forall e | e in m :: Valid(e.value) by { MapValuesValid(m); }
      ChildrenCached(m);
      hide Valid, DeepestCached;
      if ContainerDepth(Children(m)).Ok? {
        MapReads(w, ws, m);
      }
    }
  }

  lemma MapValuesValid(m: seq<Entry>)
    requires ValidMap(m)
    ensures forall e | e in m :: Valid(e.value)
  {
  }

  /** A map value is an acceptable map that is not too deep. */
  lemma MapAcceptableAs(w: WValue, ws: seq<WEntry>)
    requires w.kind == Some(WMap(ws))
    ensures Acceptable(w) <==> MapAcceptable(ws) && DeepestWireEntry(ws) + 1 <= MAX_DEPTH
  {
    if forall x | x in ws :: x.value.Some? {
      DeepestWireBounds(ws, MAX_DEPTH - 1);
    }
    hide DeepestWireEntry;
  }

  lemma MapSteps(w: WValue, ws: seq<WEntry>)
    requires w.kind == Some(WMap(ws))
    ensures TryMap(ws).Err? ==> TryValue(w).Err?
    ensures TryMap(ws).Ok? ==>
              var depth := ContainerDepth(Children(TryMap(ws).value));
              TryValue(w) == if depth.Err? then Err(depth.violation) else Ok(Value(Map(TryMap(ws).value), depth.value))
  {
    ContainerSteps(w, Scalar(Null));
    hide TryValue, TryEntries, CollectMap, Children, ContainerDepth;
  }

  lemma MapReads(w: WValue, ws: seq<WEntry>, m: seq<Entry>)
    requires w.kind == Some(WMap(ws)) && ValidMap(m) && EntriesDenote(ws, m)
    requires DeepestEntry(m) == DeepestWireEntry(ws) && DeepestEntry(m) + 1 <= MAX_DEPTH
    ensures ReadsAs(w, Value(Map(m), DeepestEntry(m) + 1))
  {
    hide DeepestEntry, DeepestWireEntry, EntriesDenote;
  }

  // --- Reading what was written ---

  /** From wire to value is the identity on what a validated value writes. */
  lemma {:induction false} TryIntoWire(v: Value)
    requires Valid(v)
    ensures TryValue(IntoWire(v)) == Ok(v)
    decreases v, 1
  {
    match v.repr {
      case List(values) => TryListIntoWire(v);
      case Map(entries) => TryMapValueIntoWire(v);
      case _ =>
    }
  }

  /** One step of reading, and of writing, a container. */
  lemma ContainerSteps(w: WValue, v: Value)
    ensures w.kind.Some? && w.kind.value.WList? ==>
              TryValue(w) == var r := TryValues([], w.kind.value.values);
                             if r.Err? then Err(r.violation) else NewList(r.value)
    ensures w.kind.Some? && w.kind.value.WMap? ==>
              TryValue(w) == var r := TryEntries([], w.kind.value.entries);
                             if r.Err? then Err(r.violation) else NewMap(r.value)
    ensures v.repr.List? ==> IntoWire(v) == WValue(Some(WList(ValuesIntoWire(v.repr.values))))
    ensures v.repr.Map? ==> IntoWire(v) == WValue(Some(WMap(EntriesIntoWire(v.repr.entries))))
  {
    hide TryValues, TryEntries, NewList, NewMap, ValuesIntoWire, EntriesIntoWire;
  }

  lemma TryListIntoWire(v: Value)
    requires Valid(v) && v.repr.List?
    ensures TryValue(IntoWire(v)) == Ok(v)
    decreases v, 0
  {
    hide TryValue, IntoWire, NewList, TryValues, ValuesIntoWire;
    var values := v.repr.values;
    NewListOfValid(v);
    TryIntoWires([], values);
    assert [] + values == values;
    hide Valid;
    ContainerSteps(IntoWire(v), v);
  }

  lemma NewListOfValid(v: Value)
    requires Valid(v) && v.repr.List?
    ensures NewList(v.repr.values) == Ok(v)
  {
    CachedIsTrue(v.repr.values);
  }

  lemma ValidMapValue(v: Value)
    requires Valid(v) && v.repr.Map?
    ensures ValidMap(v.repr.entries) && ValidEntries(v.repr.entries)
    ensures v == Value(Map(v.repr.entries), DeepestEntry(v.repr.entries) + 1) && v.depth <= MAX_DEPTH
  {
    hide DeepestEntry, SortedKeys;
  }

  lemma TryMapValueIntoWire(v: Value)
    requires Valid(v) && v.repr.Map?
    ensures TryValue(IntoWire(v)) == Ok(v)
    decreases v, 0
  {
    hide Valid, ValidMap, ValidEntries, NewMap, DeepestEntry, TryEntries, EntriesIntoWire, TryValue, IntoWire;
    var entries := v.repr.entries;
    ValidMapValue(v);
    TryEntriesIntoWire([], entries);
    assert [] + entries == entries;
    NewMapOfSorted(entries);
    ContainerSteps(IntoWire(v), v);
  }

  lemma NewMapOfSorted(entries: seq<Entry>)
    requires ValidMap(entries)
    ensures NewMap(entries) ==
            if DeepestEntry(entries) + 1 > MAX_DEPTH then Err(TooDeep)
            else Ok(Value(Map(entries), DeepestEntry(entries) + 1))
  {
    hide CollectMap, DeepestCached, DeepestEntry, Children, SortedKeys, Valid;
    assert [] + entries == entries;
    CollectSorted([], entries);
    ChildrenCached(entries);
  }

  lemma {:induction false} TryIntoWires(done: seq<Value>, values: seq<Value>)
    requires forall x | x in values :: Valid(x)
    ensures TryValues(done, ValuesIntoWire(values)) == Ok(done + values)
    decreases values, 0
  {
    hide TryValue, IntoWire, Valid;
    if values == [] {
      assert done + values == done;
    } else {
      TryIntoWire(values[0]);
      TryIntoWires(done + [values[0]], values[1..]);
      assert ValuesIntoWire(values)[1..] == ValuesIntoWire(values[1..]);
      assert (done + [values[0]]) + values[1..] == done + values;
    }
  }

  ghost predicate ValidEntries(entries: seq<Entry>) {
    forall e | e in entries :: Valid(e.value)
  }

  lemma {:induction false} TryEntriesIntoWire(done: seq<Entry>, entries: seq<Entry>)
    requires ValidEntries(entries)
    ensures TryEntries(done, EntriesIntoWire(entries)) == Ok(done + entries)
    decreases entries, 0
  {
    hide TryValue, IntoWire, Valid;
    if entries == [] {
      assert done + entries == done;
    } else {
      assert entries[0].value < entries[0];
      TryIntoWire(entries[0].value);
      TryEntriesIntoWire(done + [entries[0]], entries[1..]);
      assert EntriesIntoWire(entries)[1..] == EntriesIntoWire(entries[1..]);
      assert (done + [entries[0]]) + entries[1..] == done + entries;
    }
  }

  lemma TryMapIntoWire(entries: seq<Entry>)
    requires ValidMap(entries)
    ensures TryMap(EntriesIntoWire(entries)) == Ok(entries)
    decreases entries, 1
  {
    TryEntriesIntoWire([], entries);
    assert [] + entries == entries;
    CollectSorted([], entries);
  }

  /** Wire to value to wire is idempotent, with the entries in key order. */
  lemma WireIdempotent(w: WValue)
    requires Acceptable(w)
    ensures TryValue(w).Ok?
    ensures TryValue(IntoWire(TryValue(w).value)) == TryValue(w)
    ensures Acceptable(IntoWire(TryValue(w).value))
  {
    TryValueExact(w);
    var v := TryValue(w).value;
    TryIntoWire(v);
    TryValueExact(IntoWire(v));
  }
}
