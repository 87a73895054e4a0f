/** The string key under which the socket manager counts candle subscriptions. */
module CandleKey {
  import opened Text
  import opened Wrappers

  function BuildKey(symbol: string, resolution: string): string {
    symbol + "::" + resolution
  }

  /** The pair a replay reads back: the first two pieces of `key.split('::')`. Every built key has both. */
  function ParseKey(key: string): (string, string) {
    var pieces := Split(key, "::");
    (pieces[0], if |pieces| > 1 then pieces[1] else "")
  }

  /** What a caller can check about a pair before subscribing. */
  predicate Clean(symbol: string, resolution: string) {
    !Contains(symbol, "::") && !EndsWith(symbol, ":") && !Contains(resolution, "::")
  }

  /** The first separator of a built key sits right after the symbol exactly when the symbol is clean. */
  lemma FirstSeparator(symbol: string, resolution: string)
    ensures Find(BuildKey(symbol, resolution), "::", 0) == Some(|symbol|)
            <==> !Contains(symbol, "::") && !EndsWith(symbol, ":")
  {
    var key := BuildKey(symbol, resolution);
    assert OccursAt(key, "::", |symbol|);
    if Contains(symbol, "::") {
      var i := Find(symbol, "::", 0).value;
      assert key[i..i + 2] == symbol[i..i + 2];
      assert OccursAt(key, "::", i);
    } else if EndsWith(symbol, ":") {
      var i := |symbol| - 1;
      assert symbol[i] == symbol[i..][0] == ':';
      assert key[i..i + 2] == [key[i], key[i + 1]] == "::";
      assert OccursAt(key, "::", i);
    } else {
      forall i | 0 <= i < |symbol| ensures !OccursAt(key, "::", i) {
        if i + 1 < |symbol| {
          assert key[i..i + 2] == symbol[i..i + 2];
          assert !OccursAt(symbol, "::", i);
        } else {
          assert symbol[i..] == [symbol[i]];
          assert key[i..i + 2][0] == symbol[i] != ':';
        }
      }
    }
  }

  /** A key reads back as the pair that built it exactly when the pair is clean. */
  lemma KeyRoundTrip(symbol: string, resolution: string)
    ensures ParseKey(BuildKey(symbol, resolution)) == (symbol, resolution) <==> Clean(symbol, resolution)
  {
    var key := BuildKey(symbol, resolution);
    FirstSeparator(symbol, resolution);
    assert OccursAt(key, "::", |symbol|);
    var first := Find(key, "::", 0).value;
    assert Split(key, "::")[0] == key[..first];
    if first == |symbol| {
      assert key[..first] == symbol && key[first + 2..] == resolution;
      if Contains(resolution, "::") {
        var i := Find(resolution, "::", 0).value;
        assert Split(key[first + 2..], "::")[0] == resolution[..i];
      }
    } else {
      assert |key[..first]| != |symbol|;
    }
  }

  /** A key that reads back as the pair it was built from. */
  predicate Faithful(key: string) {
    BuildKey(ParseKey(key).0, ParseKey(key).1) == key
  }

  lemma FaithfulInjective(key1: string, key2: string)
    requires Faithful(key1) && Faithful(key2) && ParseKey(key1) == ParseKey(key2)
    ensures key1 == key2
  {
  }

  /** Clean pairs never share a key. */
  lemma KeyInjective(symbol1: string, resolution1: string, symbol2: string, resolution2: string)
    requires Clean(symbol1, resolution1) && Clean(symbol2, resolution2)
    requires BuildKey(symbol1, resolution1) == BuildKey(symbol2, resolution2)
    ensures symbol1 == symbol2 && resolution1 == resolution2
  {
    KeyRoundTrip(symbol1, resolution1);
    KeyRoundTrip(symbol2, resolution2);
  }

  /** Some other pair has the same key. */
  ghost predicate Collides(symbol: string, resolution: string) {
    exists s, r :: (s, r) != (symbol, resolution) && BuildKey(s, r) == BuildKey(symbol, resolution)
  }

  lemma SameText(x: string, y: string, r: string)
    ensures BuildKey(x, y + "::" + r) == BuildKey(x + "::" + y, r)
    ensures BuildKey(x, ":" + r) == BuildKey(x + ":", r)
  {
    assert x + "::" + (y + "::" + r) == x + "::" + y + "::" + r;
    assert x + "::" + (":" + r) == x + ":" + "::" + r;
  }

  /** A symbol or resolution cut at a separator, or a colon moved over the separator, gives the other pair. */
  lemma OtherPair(symbol: string, resolution: string, s: string, r: string)
    requires s != symbol && BuildKey(s, r) == BuildKey(symbol, resolution)
    ensures Collides(symbol, resolution)
  {
    assert (s, r) != (symbol, resolution);
  }

  lemma UncleanSymbolCollides(symbol: string, resolution: string)
    requires Contains(symbol, "::") || EndsWith(symbol, ":")
    ensures Collides(symbol, resolution)
  {
    if EndsWith(symbol, ":") {
      var x := symbol[..|symbol| - 1];
      assert symbol == x + ":";
      SameText(x, "", resolution);
      OtherPair(symbol, resolution, x, ":" + resolution);
    } else {
      var i := Find(symbol, "::", 0).value;
      var x, y := symbol[..i], symbol[i + 2..];
      assert symbol == x + "::" + y;
      SameText(x, y, resolution);
      OtherPair(symbol, resolution, x, y + "::" + resolution);
    }
  }

  lemma ResolutionCollides(symbol: string, resolution: string)
    requires Contains(resolution, "::") || ":" <= resolution
    ensures Collides(symbol, resolution)
  {
    if ":" <= resolution {
      assert resolution == ":" + resolution[1..];
      SameText(symbol, "", resolution[1..]);
      OtherPair(symbol, resolution, symbol + ":", resolution[1..]);
    } else {
      var i := Find(resolution, "::", 0).value;
      var x, y := resolution[..i], resolution[i + 2..];
      assert resolution == x + "::" + y;
      SameText(symbol, x, y);
      OtherPair(symbol, resolution, symbol + "::" + x, y);
    }
  }

  /**
   * A subscription shares its counter with a different one exactly when its pair is not clean or its
   * resolution begins with a colon, which an unclean symbol can take over.
   */
  lemma CollidesExactly(symbol: string, resolution: string)
    ensures Collides(symbol, resolution) <==> !Clean(symbol, resolution) || ":" <= resolution
  {
    if Contains(symbol, "::") || EndsWith(symbol, ":") {
      UncleanSymbolCollides(symbol, resolution);
    } else if Contains(resolution, "::") || ":" <= resolution {
      ResolutionCollides(symbol, resolution);
    } else {
      CleanPairAlone(symbol, resolution);
    }
  }

  lemma CleanPairAlone(symbol: string, resolution: string)
    requires Clean(symbol, resolution) && !(":" <= resolution)
    ensures !Collides(symbol, resolution)
  {
    var key := BuildKey(symbol, resolution);
    forall s, r | BuildKey(s, r) == key ensures (s, r) == (symbol, resolution) {
      assert OccursAt(key, "::", |s|);
      OnlySeparator(symbol, resolution, |s|);
      assert s == key[..|s|] && r == key[|s| + 2..];
      assert symbol == key[..|symbol|] && resolution == key[|symbol| + 2..];
    }
  }

  /** A separator to the right of a key's own one takes a colon from it or lies within the resolution. */
  lemma SeparatorInside(symbol: string, resolution: string, i: nat)
    requires i > |symbol|
    ensures OccursAt(BuildKey(symbol, resolution), "::", i)
            <==> if i == |symbol| + 1 then ":" <= resolution else OccursAt(resolution, "::", i - |symbol| - 2)
  {
    var key, n := BuildKey(symbol, resolution), |symbol|;
    assert key == symbol + "::" + resolution;
    if i == n + 1 {
      if resolution != "" {
        assert key[i..i + 2] == [':', resolution[0]];
        assert ":" <= resolution <==> resolution[0] == ':';
      }
    } else if i + 2 <= |key| {
      assert key[i..i + 2] == resolution[i - n - 2..i - n];
    }
  }

  lemma OnlySeparator(symbol: string, resolution: string, i: nat)
    requires Clean(symbol, resolution) && !(":" <= resolution)
    requires OccursAt(BuildKey(symbol, resolution), "::", i)
    ensures i == |symbol|
  {
    FirstSeparator(symbol, resolution);
    if i > |symbol| {
      SeparatorInside(symbol, resolution, i);
    }
  }

  /** What is read back from a key that holds a separator is a clean pair. */
  lemma ParsedIsClean(key: string)
    requires Contains(key, "::")
    ensures Clean(ParseKey(key).0, ParseKey(key).1)
  {
    var pieces := Split(key, "::");
    var first := Find(key, "::", 0).value;
    SplitPieces(key, "::");
    assert pieces[0] == key[..first];
    if first > 0 {
      assert key[first..first + 2][0] == ':';
      assert key[..first][first - 1..] == [key[first - 1]];
      assert key[first - 1..first + 1] == [key[first - 1], key[first]];
      assert !OccursAt(key, "::", first - 1);
    }
  }
}
