/** The string operations the sources rely on: `trim`, `toUpperCase`, `split` and `includes`, over ASCII. */
module Text {
  import opened Wrappers

  predicate IsSpace(c: char) {
    c == ' ' || '\t' <= c <= '\r'
  }

  /** Space, tab, line feed, vertical tab, form feed and carriage return. */
  lemma SixSpaces(c: char)
    ensures IsSpace(c) <==> c as int in {32, 9, 10, 11, 12, 13}
  {
  }

  predicate Trimmed(s: string) {
    s != [] ==> !IsSpace(s[0]) && !IsSpace(s[|s| - 1])
  }

  function TrimStart(s: string): string {
    if s != [] && IsSpace(s[0]) then TrimStart(s[1..]) else s
  }

  function TrimEnd(s: string): string {
    if s != [] && IsSpace(s[|s| - 1]) then TrimEnd(s[..|s| - 1]) else s
  }

  function Trim(s: string): string {
    TrimEnd(TrimStart(s))
  }

  lemma {:induction false} TrimStartSpec(s: string)
    ensures TrimStart(s) != [] ==> !IsSpace(TrimStart(s)[0])
  {
    if s != [] && IsSpace(s[0]) { TrimStartSpec(s[1..]); }
  }

  lemma {:induction false} TrimEndSpec(s: string)
    ensures TrimEnd(s) != [] ==> !IsSpace(TrimEnd(s)[|TrimEnd(s)| - 1])
    ensures TrimEnd(s) <= s
  {
    if s != [] && IsSpace(s[|s| - 1]) { TrimEndSpec(s[..|s| - 1]); }
  }

  /** Trimming leaves no space at either end, and leaves a text without such spaces alone. */
  lemma TrimSpec(s: string)
    ensures Trimmed(Trim(s))
    ensures Trimmed(s) ==> Trim(s) == s
  {
    TrimStartSpec(s);
    TrimEndSpec(TrimStart(s));
  }

  predicate AllSpaces(s: string) {
    forall i :: 0 <= i < |s| ==> IsSpace(s[i])
  }

  lemma {:induction false} TrimStartCuts(s: string)
    ensures |TrimStart(s)| <= |s|
    ensures AllSpaces(s[..|s| - |TrimStart(s)|]) && s[|s| - |TrimStart(s)|..] == TrimStart(s)
  {
    if s != [] && IsSpace(s[0]) {
      TrimStartCuts(s[1..]);
      var n := |s| - |TrimStart(s)|;
      assert s[..n] == [s[0]] + s[1..][..n - 1];
      assert s[n..] == s[1..][n - 1..];
    } else {
      assert s[0..] == s;
    }
  }

  lemma {:induction false} TrimEndCuts(s: string)
    ensures TrimEnd(s) <= s && AllSpaces(s[|TrimEnd(s)|..])
  {
    if s != [] && IsSpace(s[|s| - 1]) {
      var init := s[..|s| - 1];
      TrimEndCuts(init);
      assert s[|TrimEnd(s)|..] == init[|TrimEnd(s)|..] + [s[|s| - 1]];
    }
  }

  /** Trimming takes spaces from both ends and nothing else. */
  lemma TrimCuts(s: string) returns (left: string, right: string)
    ensures s == left + Trim(s) + right && AllSpaces(left) && AllSpaces(right)
  {
    var t := TrimStart(s);
    TrimStartCuts(s);
    TrimEndCuts(t);
    left, right := s[..|s| - |t|], t[|Trim(s)|..];
    assert s == left + t && t == Trim(s) + right;
  }

  function UpperChar(c: char): char {
    if 'a' <= c <= 'z' then (c as int - 32) as char else c
  }

  function Upper(s: string): string {
    seq(|s|, i requires 0 <= i < |s| => UpperChar(s[i]))
  }

  /** Equal, or the two cases of one letter. */
  predicate SameLetter(c: char, d: char) {
    || c == d
    || ('a' <= c <= 'z' && d as int + 32 == c as int)
    || ('a' <= d <= 'z' && c as int + 32 == d as int)
  }

  /** Upper case holds no small letter, differs from the text in case only, and forgets nothing but case. */
  lemma UpperSpec(s: string, t: string)
    ensures |Upper(s)| == |s|
    ensures forall i :: 0 <= i < |s| ==> !('a' <= Upper(s)[i] <= 'z') && SameLetter(Upper(s)[i], s[i])
    ensures Upper(s) == Upper(t) <==> |s| == |t| && forall i :: 0 <= i < |s| ==> SameLetter(s[i], t[i])
  {
    if Upper(s) == Upper(t) {
      forall i | 0 <= i < |s| ensures SameLetter(s[i], t[i]) {
        assert Upper(s)[i] == Upper(t)[i];
      }
    } else if |s| == |t| {
      var i :| 0 <= i < |s| && Upper(s)[i] != Upper(t)[i];
      assert !SameLetter(s[i], t[i]);
    }
  }

  /** `symbol.trim().toUpperCase()`. */
  function NormalizeSymbol(s: string): string {
    Upper(Trim(s))
  }

  /** The hook normalises before calling the manager, which normalises again: nothing changes the second time. */
  lemma NormalizeSymbolIdempotent(s: string)
    ensures NormalizeSymbol(NormalizeSymbol(s)) == NormalizeSymbol(s)
  {
    TrimSpec(s);
    var r := NormalizeSymbol(s);
    TrimSpec(r);
    assert Upper(r) == r;
  }

  predicate OccursAt(s: string, sep: string, i: int) {
    0 <= i <= |s| - |sep| && s[i..i + |sep|] == sep
  }

  predicate Contains(s: string, sep: string) {
    exists i | 0 <= i <= |s| :: OccursAt(s, sep, i)
  }

  predicate EndsWith(s: string, suffix: string) {
    |suffix| <= |s| && s[|s| - |suffix|..] == suffix
  }

  /** Position of the first occurrence at or after `from`. */
  function Find(s: string, sep: string, from: nat): (r: Option<nat>)
    requires from <= |s|
    ensures r.Some? ==> from <= r.value && OccursAt(s, sep, r.value)
    ensures r.Some? ==> forall j :: from <= j < r.value ==> !OccursAt(s, sep, j)
    ensures r.None? ==> forall j :: from <= j ==> !OccursAt(s, sep, j)
    decreases |s| - from
  {
    if OccursAt(s, sep, from) then Some(from)
    else if from == |s| then None
    else Find(s, sep, from + 1)
  }

  /** `s.split(sep)`: cut at every leftmost, non-overlapping occurrence. */
  function Split(s: string, sep: string): (pieces: seq<string>)
    requires sep != []
    ensures |pieces| >= 1
    ensures |pieces| == 1 <==> !Contains(s, sep)
    ensures !Contains(s, sep) ==> pieces == [s]
    decreases |s|
  {
    match Find(s, sep, 0)
    case None => [s]
    case Some(i) => [s[..i]] + Split(s[i + |sep|..], sep)
  }

  /** Texts joined by a separator. */
  function JoinWith(parts: seq<string>, sep: string): string {
    if parts == [] then ""
    else if |parts| == 1 then parts[0]
    else JoinWith(parts[..|parts| - 1], sep) + sep + parts[|parts| - 1]
  }

  lemma JoinPush(parts: seq<string>, part: string, sep: string)
    requires parts != []
    ensures JoinWith(parts + [part], sep) == JoinWith(parts, sep) + sep + part
  {
    assert (parts + [part])[..|parts|] == parts;
  }

  lemma {:induction false} JoinCons(part: string, parts: seq<string>, sep: string)
    requires parts != []
    ensures JoinWith([part] + parts, sep) == part + sep + JoinWith(parts, sep)
  {
    var init, last := parts[..|parts| - 1], parts[|parts| - 1];
    assert parts == init + [last];
    if init == [] {
      assert ([part] + parts)[..1] == [part];
    } else {
      JoinCons(part, init, sep);
      assert [part] + parts == ([part] + init) + [last];
      JoinPush([part] + init, last, sep);
      assert part + sep + JoinWith(init, sep) + sep + last == part + sep + (JoinWith(init, sep) + sep + last);
    }
  }

  lemma NoneBefore(s: string, sep: string, end: nat)
    requires end <= |s| && forall j :: 0 <= j < end ==> !OccursAt(s, sep, j)
    requires sep != []
    ensures !Contains(s[..end], sep)
  {
    forall j | 0 <= j <= end ensures !OccursAt(s[..end], sep, j) {
      if j + |sep| <= end {
        assert s[j..j + |sep|] == s[..end][j..j + |sep|];
        assert !OccursAt(s, sep, j);
      }
    }
  }

  lemma ThreeParts(s: string, i: nat, j: nat)
    requires i <= j <= |s|
    ensures s[..i] + s[i..j] + s[j..] == s
  {
  }

  lemma JoinWhole(head: string, pieces: seq<string>, tail: string, sep: string)
    requires pieces != [] && JoinWith(pieces, sep) == tail
    ensures JoinWith([head] + pieces, sep) == head + sep + tail
  {
    JoinCons(head, pieces, sep);
  }

  /** Splitting loses nothing: joined by the separator, the pieces are the text again. */
  lemma {:induction false} SplitJoins(s: string, sep: string)
    requires sep != []
    ensures JoinWith(Split(s, sep), sep) == s
    decreases |s|
  {
    match Find(s, sep, 0)
    case None =>
    case Some(i) =>
      var tail := s[i + |sep|..];
      SplitJoins(tail, sep);
      ThreeParts(s, i, i + |sep|);
      JoinWhole(s[..i], Split(tail, sep), tail, sep);
  }

  /** Without an occurrence of a one-character text there is no such character. */
  lemma CharFree(s: string, c: char, end: nat)
    requires end <= |s| && forall j :: 0 <= j < end ==> !OccursAt(s, [c], j)
    ensures forall j :: 0 <= j < end ==> s[j] != c
  {
    forall j | 0 <= j < end ensures s[j] != c {
      assert s[j..j + 1] == [s[j]] && !OccursAt(s, [c], j);
    }
  }

  predicate NoPieceContains(pieces: seq<string>, sep: string) {
    forall i :: 0 <= i < |pieces| ==> !Contains(pieces[i], sep)
  }

  lemma OneMorePiece(piece: string, pieces: seq<string>, sep: string)
    requires !Contains(piece, sep) && NoPieceContains(pieces, sep)
    ensures NoPieceContains([piece] + pieces, sep)
  {
  }

  /** Splitting goes as far as it can: no piece holds the separator. */
  lemma {:induction false} SplitPieces(s: string, sep: string)
    requires sep != []
    ensures NoPieceContains(Split(s, sep), sep)
    decreases |s|
  {
    match Find(s, sep, 0)
    case None =>
    case Some(i) =>
      var rest := Split(s[i + |sep|..], sep);
      SplitPieces(s[i + |sep|..], sep);
      NoneBefore(s, sep, i);
      OneMorePiece(s[..i], rest, sep);
      assert Split(s, sep) == [s[..i]] + rest;
  }

  predicate IsDigit(c: char) {
    '0' <= c <= '9'
  }

  predicate AllDigits(s: string) {
    forall i :: 0 <= i < |s| ==> IsDigit(s[i])
  }

  /** A text with a colon-free head is cut in one way at its first colon. */
  lemma {:induction false} CutAtColon(a1: string, b1: string, a2: string, b2: string)
    requires ':' !in a1 && ':' !in a2
    requires a1 + ":" + b1 == a2 + ":" + b2
    ensures a1 == a2 && b1 == b2
  {
    var whole := a1 + ":" + b1;
    assert a1 != "" ==> a1[0] in a1 && whole[0] == a1[0];
    assert a2 != "" ==> a2[0] in a2 && whole[0] == a2[0];
    assert a1 == "" ==> whole[1..] == b1;
    assert a2 == "" ==> whole[1..] == b2;
    if a1 != "" && a2 != "" {
      assert whole[1..] == a1[1..] + ":" + b1 == a2[1..] + ":" + b2;
      CutAtColon(a1[1..], b1, a2[1..], b2);
    }
  }

  /** A text with a separator-free tail is cut in one way at its last separator. */
  lemma {:induction false} CutAtLast(sep: char, a1: string, b1: string, a2: string, b2: string)
    requires sep !in b1 && sep !in b2
    requires a1 + [sep] + b1 == a2 + [sep] + b2
    ensures a1 == a2 && b1 == b2
    decreases |b1|
  {
    var whole := a1 + [sep] + b1;
    var n := |whole| - 1;
    assert b1 != "" ==> b1[|b1| - 1] in b1 && whole[n] == b1[|b1| - 1];
    assert b2 != "" ==> b2[|b2| - 1] in b2 && whole[n] == b2[|b2| - 1];
    assert b1 == "" ==> whole[..n] == a1;
    assert b2 == "" ==> whole[..n] == a2;
    if b1 != "" && b2 != "" {
      assert whole[..n] == a1 + [sep] + b1[..|b1| - 1] == a2 + [sep] + b2[..|b2| - 1];
      CutAtLast(sep, a1, b1[..|b1| - 1], a2, b2[..|b2| - 1]);
    }
  }
}
