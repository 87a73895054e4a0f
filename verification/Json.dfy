/** Request parameters as JavaScript values, their canonical form, and its JSON text. */
module Json {
  import opened Decimals
  import opened Ordering
  import opened Text

  datatype Value =
    | Undefined
    | Null
    | Bool(b: bool)
    | Str(s: string)
    | Arr(items: seq<Value>)
    | Obj(entries: seq<Entry>)

  /** An own property; `entries` lists them in whatever order the object was built. */
  datatype Entry = Entry(key: string, value: Value)

  function Keys(entries: seq<Entry>): (keys: seq<string>)
    ensures |keys| == |entries|
    ensures forall i :: 0 <= i < |entries| ==> keys[i] == entries[i].key
  {
    seq(|entries|, i requires 0 <= i < |entries| => entries[i].key)
  }

  function Lookup(entries: seq<Entry>, key: string): (v: Value)
    ensures forall i :: 0 <= i < |entries| && entries[i].key == key && Distinct(Keys(entries)) ==> v == entries[i].value
    ensures key !in Keys(entries) ==> v == Undefined
  {
    if entries == [] then Undefined
    else if entries[0].key == key then entries[0].value
    else
      assert Keys(entries)[1..] == Keys(entries[1..]);
      Lookup(entries[1..], key)
  }

  /** Objects never repeat a key. */
  predicate WellFormed(v: Value) {
    match v
    case Arr(items) => forall i :: 0 <= i < |items| ==> WellFormed(items[i])
    case Obj(entries) => Distinct(Keys(entries)) && forall i :: 0 <= i < |entries| ==> WellFormed(entries[i].value)
    case _ => true
  }

  // ---- the order in which a JavaScript object enumerates its keys ----

  /** A canonical array index (ECMA-262, section 6.1.7). */
  predicate IsArrayIndex(k: string) {
    && k != ""
    && AllDigits(k)
    && (k[0] == '0' ==> k == "0")
    && Parse(k) < 0xFFFF_FFFF
  }

  /** Array indices are the printed numbers below 2^32 - 1. */
  lemma ArrayIndexExactly(k: string)
    ensures IsArrayIndex(k) <==> exists n: nat :: n < 0x1_0000_0000 - 1 && k == Decimal(n)
  {
    if IsArrayIndex(k) {
      PrintedDigits(k);
      ParseBound(k);
    }
    if n: nat :| n < 0x1_0000_0000 - 1 && k == Decimal(n) {
      DecimalRoundTrip(n);
      DecimalLeads(n);
      assert n == 0 ==> Decimal(n) == "0";
    }
  }

  function InsertIndex(k: string, keys: seq<string>): (r: seq<string>)
    ensures forall x :: x in r <==> x == k || x in keys
  {
    if keys == [] || Parse(k) <= Parse(keys[0]) then [k] + keys
    else [keys[0]] + InsertIndex(k, keys[1..])
  }

  function IndicesAscending(keys: seq<string>): (r: seq<string>)
    ensures forall x :: x in r <==> x in keys && IsArrayIndex(x)
  {
    if keys == [] then [] else
    var rest := IndicesAscending(keys[1..]);
    if IsArrayIndex(keys[0]) then InsertIndex(keys[0], rest) else rest
  }

  function NonIndices(keys: seq<string>): (r: seq<string>)
    ensures forall x :: x in r <==> x in keys && !IsArrayIndex(x)
  {
    if keys == [] then []
    else if IsArrayIndex(keys[0]) then NonIndices(keys[1..])
    else [keys[0]] + NonIndices(keys[1..])
  }

  /** Array indices first, ascending, then the other keys in creation order (ECMA-262, section 10.1.11.1). */
  function OwnKeyOrder(created: seq<string>): (r: seq<string>)
    ensures forall x :: x in r <==> x in created
  {
    IndicesAscending(created) + NonIndices(created)
  }

  lemma {:induction false} InsertIndexDistinct(k: string, keys: seq<string>)
    requires Distinct(keys) && k !in keys
    ensures Distinct(InsertIndex(k, keys))
  {
    if keys != [] && Parse(k) > Parse(keys[0]) {
      InsertIndexDistinct(k, keys[1..]);
      DistinctCons(keys[0], InsertIndex(k, keys[1..]));
    } else {
      DistinctCons(k, keys);
    }
  }

  lemma DistinctCons(k: string, keys: seq<string>)
    requires Distinct(keys) && k !in keys
    ensures Distinct([k] + keys)
  {
  }

  lemma {:induction false} OwnKeyPartsDistinct(keys: seq<string>)
    requires Distinct(keys)
    ensures Distinct(IndicesAscending(keys)) && Distinct(NonIndices(keys))
  {
    if keys != [] {
      OwnKeyPartsDistinct(keys[1..]);
      assert keys[0] !in keys[1..];
      if IsArrayIndex(keys[0]) {
        InsertIndexDistinct(keys[0], IndicesAscending(keys[1..]));
      } else {
        DistinctCons(keys[0], NonIndices(keys[1..]));
      }
    }
  }

  lemma OwnKeyOrderDistinct(keys: seq<string>)
    requires Distinct(keys)
    ensures Distinct(OwnKeyOrder(keys))
  {
    OwnKeyPartsDistinct(keys);
    var a, b := IndicesAscending(keys), NonIndices(keys);
    forall i, j | 0 <= i < |a| && 0 <= j < |b| ensures a[i] != b[j] {
      assert a[i] in a && b[j] in b;
    }
  }

  // ---- normalisation ----

  /** Assigning this key on an object literal sets its prototype, so it never becomes an own property. */
  const PROTO := "__proto__"

  function Visible(keys: seq<string>): (r: seq<string>)
    ensures forall x :: x in r <==> x in keys && x != PROTO
  {
    if keys == [] then [] else
    var rest := Visible(keys[1..]);
    if keys[0] == PROTO then rest else [keys[0]] + rest
  }

  lemma {:induction false} VisibleDistinct(keys: seq<string>)
    requires Distinct(keys)
    ensures Distinct(Visible(keys))
  {
    if keys != [] {
      VisibleDistinct(keys[1..]);
      assert keys[0] !in keys[1..];
      if keys[0] != PROTO { DistinctCons(keys[0], Visible(keys[1..])); }
    }
  }

  function CanonicalKeys(entries: seq<Entry>): (keys: seq<string>)
    ensures forall x :: x in keys <==> x in Keys(entries) && x != PROTO
  {
    OwnKeyOrder(Sort(Visible(Keys(entries))))
  }

  /** The object `reduce` builds by assigning the sorted keys one after the other. */
  function Arrange(entries: seq<Entry>): (r: seq<Entry>)
    ensures Keys(r) == CanonicalKeys(entries)
    ensures forall i :: 0 <= i < |r| ==> r[i].value == Lookup(entries, r[i].key)
  {
    var keys := CanonicalKeys(entries);
    seq(|keys|, i requires 0 <= i < |keys| => Entry(keys[i], Lookup(entries, keys[i])))
  }

  function Normalize(v: Value): Value
    decreases v
  {
    match v
    case Arr(items) => Arr(NormalizeItems(items))
    case Obj(entries) => Obj(Arrange(NormalizeEntries(entries)))
    case Undefined => Null
    case _ => v
  }

  function NormalizeItems(items: seq<Value>): (r: seq<Value>)
    ensures |r| == |items|
    ensures forall i :: 0 <= i < |items| ==> r[i] == Normalize(items[i])
    decreases items
  {
    if items == [] then [] else [Normalize(items[0])] + NormalizeItems(items[1..])
  }

  function NormalizeEntries(entries: seq<Entry>): (r: seq<Entry>)
    ensures |r| == |entries|
    ensures forall i :: 0 <= i < |entries| ==> r[i] == Entry(entries[i].key, Normalize(entries[i].value))
    decreases entries
  {
    if entries == [] then []
    else [Entry(entries[0].key, Normalize(entries[0].value))] + NormalizeEntries(entries[1..])
  }

  /**
   * The same up to the order of object keys at any depth, `undefined` versus `null`, and properties named
   * `__proto__`, which a normal form never has.
   */
  ghost predicate Equivalent(a: Value, b: Value)
    decreases a
  {
    match a
    case Undefined => b == Undefined || b == Null
    case Null => b == Undefined || b == Null
    case Arr(x) => b.Arr? && |x| == |b.items| && forall i :: 0 <= i < |x| ==> Equivalent(x[i], b.items[i])
    case Obj(x) =>
      && b.Obj?
      && (forall k :: k != PROTO ==> (k in Keys(x) <==> k in Keys(b.entries)))
      && (forall i, j :: 0 <= i < |x| && 0 <= j < |b.entries| && x[i].key == b.entries[j].key != PROTO ==>
            Equivalent(x[i].value, b.entries[j].value))
    case _ => a == b
  }

  lemma SameKeysArrangeAlike(x: seq<Entry>, y: seq<Entry>)
    requires Distinct(Keys(x)) && Distinct(Keys(y))
    requires forall k :: k != PROTO ==> (k in Keys(x) <==> k in Keys(y))
    ensures CanonicalKeys(x) == CanonicalKeys(y)
  {
    VisibleDistinct(Keys(x));
    VisibleDistinct(Keys(y));
    SortCanonical(Visible(Keys(x)), Visible(Keys(y)));
  }

  lemma NormalizeEntriesKeys(entries: seq<Entry>)
    ensures Keys(NormalizeEntries(entries)) == Keys(entries)
  {
  }

  /** Arranged alike, two lists of entries have the same visible keys, with the same values. */
  lemma ArrangedAlike(x: seq<Entry>, y: seq<Entry>)
    requires Arrange(x) == Arrange(y)
    ensures forall k :: k != PROTO ==> (k in Keys(x) <==> k in Keys(y))
  {
    forall k | k != PROTO ensures k in Keys(x) <==> k in Keys(y) {
      assert k in CanonicalKeys(x) <==> k in CanonicalKeys(y);
    }
  }

  lemma ArrangedValues(x: seq<Entry>, y: seq<Entry>, i: nat, j: nat)
    requires Arrange(x) == Arrange(y) && Distinct(Keys(x)) && Distinct(Keys(y))
    requires i < |x| && j < |y| && x[i].key == y[j].key != PROTO
    ensures x[i].value == y[j].value
  {
    var k, r := x[i].key, Arrange(x);
    assert Keys(x)[i] == k;
    assert k in Keys(r);
    var n :| 0 <= n < |r| && Keys(r)[n] == k;
    assert r[n].value == Lookup(x, k) == x[i].value;
    assert r[n].value == Lookup(y, k) == y[j].value;
  }

  /** Equal normal forms come only from equivalent values. */
  lemma {:induction false} NormalizeReflects(a: Value, b: Value)
    requires WellFormed(a) && WellFormed(b) && Normalize(a) == Normalize(b)
    ensures Equivalent(a, b)
    decreases a
  {
    match a
    case Arr(x) =>
      forall i | 0 <= i < |x| ensures Equivalent(x[i], b.items[i]) {
        assert NormalizeItems(x)[i] == NormalizeItems(b.items)[i];
        NormalizeReflects(x[i], b.items[i]);
      }
    case Obj(x) =>
      var y := b.entries;
      var nx, ny := NormalizeEntries(x), NormalizeEntries(y);
      NormalizeEntriesKeys(x);
      NormalizeEntriesKeys(y);
      ArrangedAlike(nx, ny);
      forall i, j | 0 <= i < |x| && 0 <= j < |y| && x[i].key == y[j].key != PROTO
        ensures Equivalent(x[i].value, y[j].value)
      {
        ArrangedValues(nx, ny, i, j);
        NormalizeReflects(x[i].value, y[j].value);
      }
    case _ =>
  }

  /** Equivalent values have one normal form. */
  lemma {:induction false} NormalizeRespects(a: Value, b: Value)
    requires WellFormed(a) && WellFormed(b) && Equivalent(a, b)
    ensures Normalize(a) == Normalize(b)
    decreases a
  {
    match a
    case Arr(x) =>
      forall i | 0 <= i < |x| ensures NormalizeItems(x)[i] == NormalizeItems(b.items)[i] {
        NormalizeRespects(x[i], b.items[i]);
      }
      assert NormalizeItems(x) == NormalizeItems(b.items);
    case Obj(x) =>
      var y := b.entries;
      var nx, ny := NormalizeEntries(x), NormalizeEntries(y);
      NormalizeEntriesKeys(x);
      NormalizeEntriesKeys(y);
      SameKeysArrangeAlike(nx, ny);
      var rx, ry := Arrange(nx), Arrange(ny);
      forall n | 0 <= n < |rx| ensures rx[n] == ry[n] {
        var k := Keys(rx)[n];
        assert Keys(ry)[n] == k;
        assert k in CanonicalKeys(nx) && k in CanonicalKeys(ny);
        var i :| 0 <= i < |x| && Keys(x)[i] == k;
        var j :| 0 <= j < |y| && Keys(y)[j] == k;
        NormalizeRespects(x[i].value, y[j].value);
        assert Lookup(nx, k) == nx[i].value && Lookup(ny, k) == ny[j].value;
      }
      assert rx == ry;
    case _ =>
  }

  /** Two values share a normal form exactly when they are equivalent. */
  lemma NormalizeCanonical(a: Value, b: Value)
    requires WellFormed(a) && WellFormed(b)
    ensures Normalize(a) == Normalize(b) <==> Equivalent(a, b)
  {
    if Normalize(a) == Normalize(b) { NormalizeReflects(a, b); }
    if Equivalent(a, b) { NormalizeRespects(a, b); }
  }

  lemma ArrangeDistinct(entries: seq<Entry>)
    requires Distinct(Keys(entries))
    ensures Distinct(Keys(Arrange(entries)))
  {
    VisibleDistinct(Keys(entries));
    SortSpec(Visible(Keys(entries)));
    OwnKeyOrderDistinct(Sort(Visible(Keys(entries))));
  }

  /** The entry an arranged position came from. */
  lemma ArrangedFrom(x: seq<Entry>, n: nat) returns (i: nat)
    requires Distinct(Keys(x)) && n < |Arrange(NormalizeEntries(x))|
    ensures i < |x| && x[i].key == Arrange(NormalizeEntries(x))[n].key
    ensures Arrange(NormalizeEntries(x))[n].value == Normalize(x[i].value)
    ensures forall j :: 0 <= j < |x| && x[j].key == x[i].key ==> j == i
  {
    var nx := NormalizeEntries(x);
    NormalizeEntriesKeys(x);
    var r := Arrange(nx);
    assert Keys(r)[n] in CanonicalKeys(nx);
    i :| 0 <= i < |x| && Keys(x)[i] == r[n].key;
    assert Keys(nx)[i] == nx[i].key;
    forall j | 0 <= j < |x| && x[j].key == x[i].key ensures j == i {
      assert Keys(x)[j] == Keys(x)[i];
    }
  }

  lemma {:induction false} NormalizeWellFormed(v: Value)
    requires WellFormed(v)
    ensures WellFormed(Normalize(v))
    decreases v
  {
    match v
    case Arr(x) =>
      forall i | 0 <= i < |x| ensures WellFormed(Normalize(x[i])) {
        NormalizeWellFormed(x[i]);
      }
    case Obj(x) =>
      var r := Arrange(NormalizeEntries(x));
      NormalizeEntriesKeys(x);
      ArrangeDistinct(NormalizeEntries(x));
      forall n | 0 <= n < |r| ensures WellFormed(r[n].value) {
        var i := ArrangedFrom(x, n);
        NormalizeWellFormed(x[i].value);
      }
    case _ =>
  }

  lemma {:induction false} NormalizeEquivalent(v: Value)
    requires WellFormed(v)
    ensures Equivalent(Normalize(v), v)
    decreases v
  {
    match v
    case Arr(x) =>
      forall i | 0 <= i < |x| ensures Equivalent(Normalize(x[i]), x[i]) {
        NormalizeEquivalent(x[i]);
      }
    case Obj(x) =>
      var r := Arrange(NormalizeEntries(x));
      NormalizeEntriesKeys(x);
      forall n, j | 0 <= n < |r| && 0 <= j < |x| && x[j].key == r[n].key ensures Equivalent(r[n].value, x[j].value) {
        var i := ArrangedFrom(x, n);
        NormalizeEquivalent(x[i].value);
      }
    case _ =>
  }

  /** Normalising twice changes nothing. */
  lemma NormalizeIdempotent(v: Value)
    requires WellFormed(v)
    ensures Normalize(Normalize(v)) == Normalize(v)
  {
    NormalizeWellFormed(v);
    NormalizeEquivalent(v);
    NormalizeRespects(Normalize(v), v);
  }
}
