/** Which navigation item is active: every item is scored against the current location and the first best one wins. */
module Navigation {
  import opened Wrappers
  import opened Text

  datatype MatchMode = Exact | Section

  /** `path` and `query` are the two sides of the first `?` of the href, the query already read as parameters. */
  datatype Item = Item(path: string, query: seq<(string, string)>, matchMode: Option<MatchMode>)

  datatype Group = Group(name: string, items: seq<Item>)

  function StripSlashes(p: string): (r: string)
    ensures r != "" ==> r[|r| - 1] != '/'
  {
    if p != "" && p[|p| - 1] == '/' then StripSlashes(p[..|p| - 1]) else p
  }

  function NormalizePath(p: string): (r: string)
    ensures r != "" && (r == "/" || r[|r| - 1] != '/')
  {
    if p == "" || p == "/" then "/" else
    var s := StripSlashes(p);
    if s == "" then "/" else s
  }

  /** The number of non-empty segments between slashes; `inside` says a segment is under way. */
  function Segments(p: string, inside: bool): nat {
    if p == "" then 0
    else if p[0] == '/' then Segments(p[1..], false)
    else Bit(!inside) + Segments(p[1..], true)
  }

  function PathDepth(p: string): nat {
    Segments(NormalizePath(p), false)
  }

  predicate MatchesSection(current: string, itemPath: string) {
    if itemPath == "/" then current == "/" else current == itemPath || itemPath + "/" <= current
  }

  predicate Matches(item: Item, pathname: string, search: map<string, string>) {
    var itemPath, current := NormalizePath(item.path), NormalizePath(pathname);
    && (if item.matchMode == Some(Exact) then current == itemPath else MatchesSection(current, itemPath))
    && forall i :: 0 <= i < |item.query| ==> item.query[i].0 in search && search[item.query[i].0] == item.query[i].1
  }

  /** The score of an item that matches. */
  function MatchingScore(item: Item, pathname: string): nat {
    var itemPath := NormalizePath(item.path);
    |item.query| * 1000
    + PathDepth(itemPath) * 100
    + (if NormalizePath(pathname) == itemPath then 25 else 0)
    + (if item.matchMode == Some(Exact) then 5 else 0)
    + |itemPath|
  }

  function Score(item: Item, pathname: string, search: map<string, string>): int {
    if Matches(item, pathname, search) then MatchingScore(item, pathname) else -1
  }

  /** `getNavMatchScore`. */
  method GetNavMatchScore(item: Item, pathname: string, search: map<string, string>) returns (score: int)
    ensures score == Score(item, pathname, search)
  {
    var itemPath, current := NormalizePath(item.path), NormalizePath(pathname);
    var pathMatches := if item.matchMode == Some(Exact) then current == itemPath else MatchesSection(current, itemPath);
    if !pathMatches {
      return -1;
    }
    for i := 0 to |item.query|
      invariant forall j :: 0 <= j < i ==> item.query[j].0 in search && search[item.query[j].0] == item.query[j].1
    {
      var (key, value) := item.query[i];
      if key !in search || search[key] != value {
        return -1;
      }
    }
    score := MatchingScore(item, pathname);
  }

  // ---- what matching means ----

  predicate AllSlashes(s: string) {
    forall i :: 0 <= i < |s| ==> s[i] == '/'
  }

  lemma {:induction false} StripSlashesCuts(p: string)
    ensures StripSlashes(p) <= p && AllSlashes(p[|StripSlashes(p)|..])
  {
    if p != "" && p[|p| - 1] == '/' {
      var init := p[..|p| - 1];
      StripSlashesCuts(init);
      assert p[|StripSlashes(p)|..] == init[|StripSlashes(p)|..] + [p[|p| - 1]];
    }
  }

  /** Normalising takes the trailing slashes off and nothing else, and gives `/` when nothing is left. */
  lemma NormalizePathSpec(p: string)
    ensures AllSlashes(p) ==> NormalizePath(p) == "/"
    ensures !AllSlashes(p) ==> NormalizePath(p) <= p && AllSlashes(p[|NormalizePath(p)|..])
    ensures NormalizePath(p) == "/" || NormalizePath(p)[|NormalizePath(p)| - 1] != '/'
  {
    StripSlashesCuts(p);
    var s := StripSlashes(p);
    if s != "" {
      assert p[|s| - 1] == s[|s| - 1] != '/';
    } else {
      assert p[0..] == p;
    }
  }

  function NonEmpty(pieces: seq<string>): nat {
    if pieces == [] then 0 else Bit(pieces[0] != "") + NonEmpty(pieces[1..])
  }

  lemma {:induction false} SegmentsWithin(p: string, inside: bool)
    requires forall i :: 0 <= i < |p| ==> p[i] != '/'
    ensures Segments(p, inside) == Bit(!inside && p != "")
    decreases |p|
  {
    if p != "" { SegmentsWithin(p[1..], true); }
  }

  /** The depth counts the non-empty pieces between slashes. */
  lemma {:induction false} SegmentsArePieces(p: string)
    ensures Segments(p, false) == NonEmpty(Split(p, "/"))
    decreases |p|
  {
    match Find(p, "/", 0)
    case None =>
      CharFree(p, '/', |p|);
      SegmentsWithin(p, false);
      assert Split(p, "/")[1..] == [];
    case Some(i) =>
      var head, tail := p[..i], p[i + 1..];
      CharFree(p, '/', i);
      SegmentsWithin(head, false);
      SegmentsArePieces(tail);
      assert p[i..i + 1] == "/";
      assert p == head + "/" + tail;
      SegmentsConcat(head, tail, false);
      assert Split(p, "/") == [head] + Split(tail, "/");
  }

  /** The item's path is the current one or, unless it asks for an exact match or is the root, leads to it. */
  ghost predicate PathLeads(item: Item, pathname: string) {
    var path, current := NormalizePath(item.path), NormalizePath(pathname);
    || current == path
    || (item.matchMode != Some(Exact) && path != "/" && exists rest :: current == path + "/" + rest)
  }

  /** An item has a score exactly when its path leads to the current one and every parameter it names is there. */
  lemma MatchExactly(item: Item, pathname: string, search: map<string, string>)
    ensures Score(item, pathname, search) >= 0 <==>
              && PathLeads(item, pathname)
              && forall kv :: kv in item.query ==> kv.0 in search && search[kv.0] == kv.1
  {
    var path, current := NormalizePath(item.path), NormalizePath(pathname);
    if path + "/" <= current {
      assert current == path + "/" + current[|path| + 1..];
    }
    if rest :| current == path + "/" + rest {
      assert (path + "/" + rest)[..|path| + 1] == path + "/";
    }
    assert (forall kv :: kv in item.query ==> kv.0 in search && search[kv.0] == kv.1)
      <==> forall i :: 0 <= i < |item.query| ==>
             item.query[i].0 in search && search[item.query[i].0] == item.query[i].1;
  }

  // ---- the deepest section wins ----

  lemma {:induction false} SegmentsConcat(p: string, q: string, inside: bool)
    ensures Segments(p + "/" + q, inside) == Segments(p, inside) + Segments(q, false)
    decreases |p|
  {
    var whole := p + "/" + q;
    if p == "" {
      assert whole[1..] == q;
    } else {
      assert whole[1..] == p[1..] + "/" + q;
      SegmentsConcat(p[1..], q, p[0] != '/');
    }
  }

  lemma {:induction false} SomeSegment(p: string)
    requires p != "" && p[|p| - 1] != '/'
    ensures Segments(p, false) >= 1
    decreases |p|
  {
    if p[0] == '/' {
      SomeSegment(p[1..]);
    }
  }

  /** Of two texts leading to the same one, the longer continues the shorter. */
  lemma Continues(current: string, p: string, q: string)
    requires p + "/" <= current && q <= current && |p| < |q|
    ensures q == p + "/" + q[|p| + 1..]
  {
    assert q[|p|] == current[|p|] == (p + "/")[|p|];
    assert q[..|p|] == current[..|p|] == (p + "/")[..|p|] == p;
  }

  /** Of two paths that both lead to the current one, the longer is at least one segment deeper. */
  lemma LongerIsDeeper(current: string, p: string, q: string)
    requires p != "/" && q != "/" && q != "" && q[|q| - 1] != '/'
    requires MatchesSection(current, p) && MatchesSection(current, q) && |p| < |q|
    ensures current != p && Segments(p, false) < Segments(q, false) && |p| + 2 <= |q|
  {
    assert p + "/" <= current && q <= current;
    Continues(current, p, q);
    var rest := q[|p| + 1..];
    assert rest != "" by { assert (p + "/" + rest)[|p|] == '/'; }
    assert rest[|rest| - 1] == q[|q| - 1];
    SegmentsConcat(p, rest, false);
    SomeSegment(rest);
  }

  lemma NormalizeTwice(p: string)
    ensures NormalizePath(NormalizePath(p)) == NormalizePath(p)
  {
    var r := NormalizePath(p);
    assert r != "/" ==> StripSlashes(r) == r;
  }

  /** Among matching items with equally many query parameters, a longer normalised path scores strictly higher. */
  lemma DeepestSectionWins(a: Item, b: Item, pathname: string, search: map<string, string>)
    requires Matches(a, pathname, search) && Matches(b, pathname, search)
    requires |a.query| == |b.query| && |NormalizePath(a.path)| < |NormalizePath(b.path)|
    ensures Score(a, pathname, search) < Score(b, pathname, search)
  {
    var p, q, current := NormalizePath(a.path), NormalizePath(b.path), NormalizePath(pathname);
    NormalizeTwice(a.path);
    NormalizeTwice(b.path);
    assert MatchesSection(current, p) && MatchesSection(current, q);
    LongerIsDeeper(current, p, q);
  }

  /** One more parameter the location has is worth a thousand, one it lacks costs the match. */
  lemma OneMoreParameter(item: Item, kv: (string, string), pathname: string, search: map<string, string>)
    requires Matches(item, pathname, search)
    ensures Score(item.(query := item.query + [kv]), pathname, search)
            == if kv.0 in search && search[kv.0] == kv.1 then Score(item, pathname, search) + 1000 else -1
  {
    var more := item.(query := item.query + [kv]);
    assert more.query[|item.query|] == kv;
    assert forall i :: 0 <= i < |item.query| ==> more.query[i] == item.query[i];
  }

  /** The item for the very page leads any shorter one with as many parameters by at least this much. */
  lemma ExactPathLeads(a: Item, b: Item, pathname: string, search: map<string, string>)
    requires Matches(a, pathname, search) && Matches(b, pathname, search) && |a.query| == |b.query|
    requires NormalizePath(b.path) == NormalizePath(pathname) && |NormalizePath(a.path)| < |NormalizePath(b.path)|
    ensures Score(b, pathname, search) >= Score(a, pathname, search) + 100 + 25 + 2
    ensures b.matchMode == Some(Exact) ==> Score(b, pathname, search) >= Score(a, pathname, search) + 100 + 25 + 5 + 2
  {
    NormalizeTwice(a.path);
    NormalizeTwice(b.path);
    LongerIsDeeper(NormalizePath(pathname), NormalizePath(a.path), NormalizePath(b.path));
  }

  /** For one path the item expecting more parameters scores higher, and between equals the exact one does. */
  lemma SamePathRanking(a: Item, b: Item, pathname: string, search: map<string, string>)
    requires Matches(a, pathname, search) && Matches(b, pathname, search)
    requires NormalizePath(a.path) == NormalizePath(b.path)
    ensures Score(a, pathname, search) < Score(b, pathname, search)
            <==> || |a.query| < |b.query|
                 || (|a.query| == |b.query| && a.matchMode != Some(Exact) && b.matchMode == Some(Exact))
  {
  }

  // ---- the first best item ----

  datatype Resolved = NoItem | Active(group: nat, item: nat)

  /** Item `(g, i)` comes before item `(h, j)` in the navigation. */
  predicate Earlier(g: int, i: int, h: int, j: int) {
    g < h || (g == h && i < j)
  }

  /** `best` is the best score among the items before `(h, j)`, and `r` the first item reaching it. */
  ghost predicate FirstBest(groups: seq<Group>, score: Item -> int, h: int, j: int, r: Resolved, best: int) {
    && (forall g, i :: 0 <= g < |groups| && 0 <= i < |groups[g].items| && Earlier(g, i, h, j) ==>
          score(groups[g].items[i]) <= best)
    && match r
       case NoItem => best == -1
       case Active(a, b) =>
         && a < |groups| && b < |groups[a].items| && Earlier(a, b, h, j)
         && best == score(groups[a].items[b]) >= 0
         && forall g, i :: 0 <= g < |groups| && 0 <= i < |groups[g].items| && Earlier(g, i, a, b) ==>
              score(groups[g].items[i]) < best
  }

  lemma FirstBestStep(groups: seq<Group>, score: Item -> int, g: nat, i: nat, r: Resolved, best: int)
    requires g < |groups| && i < |groups[g].items| && FirstBest(groups, score, g, i, r, best) && best >= -1
    ensures var s := score(groups[g].items[i]);
            if s > best then FirstBest(groups, score, g, i + 1, Active(g, i), s)
            else FirstBest(groups, score, g, i + 1, r, best)
  {
  }

  lemma FirstBestNextGroup(groups: seq<Group>, score: Item -> int, g: nat, r: Resolved, best: int)
    requires g < |groups| && FirstBest(groups, score, g, |groups[g].items|, r, best)
    ensures FirstBest(groups, score, g + 1, 0, r, best)
  {
  }

  function ScoreAt(pathname: string, search: map<string, string>): Item -> int {
    item => Score(item, pathname, search)
  }

  /** `resolveActiveNav`: the first item of maximal score, or none when nothing matches. */
  method ResolveActiveNav(groups: seq<Group>, pathname: string, search: map<string, string>)
    returns (resolved: Resolved, activeScore: int)
    ensures FirstBest(groups, ScoreAt(pathname, search), |groups|, 0, resolved, activeScore)
  {
    ghost var scoreOf := ScoreAt(pathname, search);
    resolved, activeScore := NoItem, -1;
    for g := 0 to |groups|
      invariant FirstBest(groups, scoreOf, g, 0, resolved, activeScore) && activeScore >= -1
    {
      for i := 0 to |groups[g].items|
        invariant FirstBest(groups, scoreOf, g, i, resolved, activeScore) && activeScore >= -1
      {
        var score := GetNavMatchScore(groups[g].items[i], pathname, search);
        assert score == scoreOf(groups[g].items[i]);
        FirstBestStep(groups, scoreOf, g, i, resolved, activeScore);
        if score > activeScore {
          resolved, activeScore := Active(g, i), score;
        }
      }
      FirstBestNextGroup(groups, scoreOf, g, resolved, activeScore);
    }
  }

  /** The active item is determined by the navigation and the scores alone. */
  lemma FirstBestUnique(groups: seq<Group>, score: Item -> int, r1: Resolved, s1: int, r2: Resolved, s2: int)
    requires FirstBest(groups, score, |groups|, 0, r1, s1) && FirstBest(groups, score, |groups|, 0, r2, s2)
    ensures r1 == r2 && s1 == s2
  {
  }
}
