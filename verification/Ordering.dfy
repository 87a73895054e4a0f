/** JavaScript's default `sort()` on strings: lexicographic on UTF-16 code units (ECMA-262, section 23.1.3.30). */
module Ordering {

  function Utf16Units(c: char): (u: seq<int>)
    ensures 1 <= |u| <= 2
  {
    var n := c as int;
    if n < 0x10000 then [n] else [0xD800 + (n - 0x10000) / 0x400, 0xDC00 + (n - 0x10000) % 0x400]
  }

  function Utf16(s: string): seq<int> {
    if s == [] then [] else Utf16Units(s[0]) + Utf16(s[1..])
  }

  /** The code units of one character are not the start of those of another. */
  lemma UnitsPrefixFree(c: char, d: char, x: seq<int>, y: seq<int>)
    requires Utf16Units(c) + x == Utf16Units(d) + y
    ensures c == d && x == y
  {
    var u, v := Utf16Units(c), Utf16Units(d);
    assert (u + x)[0] == u[0] && (v + y)[0] == v[0];
    if |u| == 2 && |v| == 2 {
      assert (u + x)[1] == u[1] && (v + y)[1] == v[1];
    }
    assert |u| == |v|;
    assert x == (u + x)[|u|..] && y == (v + y)[|v|..];
  }

  lemma {:induction false} Utf16Injective(s: string, t: string)
    requires Utf16(s) == Utf16(t)
    ensures s == t
  {
    if s != [] && t != [] {
      UnitsPrefixFree(s[0], t[0], Utf16(s[1..]), Utf16(t[1..]));
      Utf16Injective(s[1..], t[1..]);
      assert s == [s[0]] + s[1..] && t == [t[0]] + t[1..];
    }
  }

  predicate LexAtMost(a: seq<int>, b: seq<int>) {
    a == [] || (b != [] && (a[0] < b[0] || (a[0] == b[0] && LexAtMost(a[1..], b[1..]))))
  }

  lemma {:induction false} LexTotal(a: seq<int>, b: seq<int>)
    ensures LexAtMost(a, b) || LexAtMost(b, a)
  {
    if a != [] && b != [] {
      LexTotal(a[1..], b[1..]);
    }
  }

  lemma {:induction false} LexAntisymmetric(a: seq<int>, b: seq<int>)
    requires LexAtMost(a, b) && LexAtMost(b, a)
    ensures a == b
  {
    if a != [] && b != [] {
      LexAntisymmetric(a[1..], b[1..]);
      assert a == [a[0]] + a[1..] && b == [b[0]] + b[1..];
    }
  }

  lemma {:induction false} LexTransitive(a: seq<int>, b: seq<int>, c: seq<int>)
    requires LexAtMost(a, b) && LexAtMost(b, c)
    ensures LexAtMost(a, c)
  {
    if a != [] && a[0] == b[0] == c[0] {
      LexTransitive(a[1..], b[1..], c[1..]);
    }
  }

  predicate Before(a: string, b: string) {
    LexAtMost(Utf16(a), Utf16(b))
  }

  /** Character by character, within the basic multilingual plane. */
  lemma BeforeStep(a: string, b: string)
    requires a != "" && b != "" && a[0] as int < 0x10000 && b[0] as int < 0x10000
    ensures Before(a, b) <==> a[0] < b[0] || (a[0] == b[0] && Before(a[1..], b[1..]))
  {
    assert Utf16(a) == [a[0] as int] + Utf16(a[1..]);
    assert Utf16(b) == [b[0] as int] + Utf16(b[1..]);
  }

  predicate Ordered(keys: seq<string>) {
    forall i, j :: 0 <= i < j < |keys| ==> Before(keys[i], keys[j])
  }

  predicate Distinct(keys: seq<string>) {
    forall i, j :: 0 <= i < j < |keys| ==> keys[i] != keys[j]
  }

  function Insert(key: string, keys: seq<string>): (r: seq<string>)
    ensures |r| == |keys| + 1
    ensures forall x :: x in r <==> x == key || x in keys
  {
    if keys == [] then [key]
    else if Before(key, keys[0]) then [key] + keys
    else [keys[0]] + Insert(key, keys[1..])
  }

  function Sort(keys: seq<string>): (r: seq<string>)
    ensures |r| == |keys|
    ensures forall x :: x in r <==> x in keys
  {
    if keys == [] then [] else Insert(keys[0], Sort(keys[1..]))
  }

  lemma {:induction false} InsertOrdered(key: string, keys: seq<string>)
    requires Ordered(keys)
    ensures Ordered(Insert(key, keys))
  {
    if keys != [] {
      if Before(key, keys[0]) {
        forall j | 0 <= j < |keys| ensures Before(key, keys[j]) {
          if j > 0 { LexTransitive(Utf16(key), Utf16(keys[0]), Utf16(keys[j])); }
        }
      } else {
        InsertOrdered(key, keys[1..]);
        LexTotal(Utf16(key), Utf16(keys[0]));
        var rest := Insert(key, keys[1..]);
        forall j | 0 <= j < |rest| ensures Before(keys[0], rest[j]) {
          assert rest[j] in rest;
        }
      }
    }
  }

  lemma {:induction false} InsertDistinct(key: string, keys: seq<string>)
    requires Distinct(keys) && key !in keys
    ensures Distinct(Insert(key, keys))
  {
    if keys != [] && !Before(key, keys[0]) {
      InsertDistinct(key, keys[1..]);
      var rest := Insert(key, keys[1..]);
      forall j | 0 <= j < |rest| ensures keys[0] != rest[j] {
        assert rest[j] in rest;
      }
    }
  }

  lemma {:induction false} SortSpec(keys: seq<string>)
    ensures Ordered(Sort(keys))
    ensures Distinct(keys) ==> Distinct(Sort(keys))
  {
    if keys != [] {
      SortSpec(keys[1..]);
      InsertOrdered(keys[0], Sort(keys[1..]));
      if Distinct(keys) {
        assert keys[0] !in keys[1..];
        InsertDistinct(keys[0], Sort(keys[1..]));
      }
    }
  }

  /** Sorting forgets the order it was given: only the set of keys matters. */
  lemma SortCanonical(keys1: seq<string>, keys2: seq<string>)
    requires Distinct(keys1) && Distinct(keys2)
    requires forall k :: k in keys1 <==> k in keys2
    ensures Sort(keys1) == Sort(keys2)
  {
    SortSpec(keys1);
    SortSpec(keys2);
    OrderedUnique(Sort(keys1), Sort(keys2));
  }

  lemma {:induction false} OrderedUnique(a: seq<string>, b: seq<string>)
    requires Ordered(a) && Ordered(b) && Distinct(a) && Distinct(b)
    requires forall k :: k in a <==> k in b
    ensures a == b
  {
    assert a != [] ==> a[0] in a;
    assert b != [] ==> b[0] in b;
    if a != [] {
      var i :| 0 <= i < |b| && b[i] == a[0];
      var j :| 0 <= j < |a| && a[j] == b[0];
      if i > 0 && j > 0 {
        LexAntisymmetric(Utf16(a[0]), Utf16(b[0]));
        Utf16Injective(a[0], b[0]);
      }
      assert a[0] == b[0];
      assert a == [a[0]] + a[1..] && b == [b[0]] + b[1..];
      forall k ensures k in a[1..] <==> k in b[1..] {
        assert k in a <==> k == a[0] || k in a[1..];
        assert k in b <==> k == b[0] || k in b[1..];
      }
      OrderedUnique(a[1..], b[1..]);
    }
  }
}
