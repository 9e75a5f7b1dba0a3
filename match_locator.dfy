/**
 * `findMatchElements`: from every table wrapper, walk up to the nearest
 * ancestor whose text looks like a match (an outcome keyword plus a score,
 * a date or a clock); without any, fall back to three broad selectors; keep
 * the candidates that look like a match and drop those whose trimmed text
 * starts with the same hundred characters as an earlier one.
 */
module MatchLocator {
  import opened Base
  import opened JsText
  import opened Dom
  import opened MatchParser

  // ---------------------------------------------------------------------------
  // The text tests
  // ---------------------------------------------------------------------------

  predicate HasOutcome(text: string) {
    || Contains(text, "Victory") || Contains(text, "LOSE") || Contains(text, "WIN")
    || Contains(text, "Defeat") || Contains(text, "Surrendered")
  }

  /** `[-–]`: a hyphen or an en dash. */
  predicate IsDash(c: char) { c == '-' || c == '\U{2013}' }

  /**
   * `\s*[-–]\s*\d` at the start of `u`. Neither a dash nor a digit is white
   * space, so each `\s*` can only take the whole white-space run.
   */
  predicate DashThenDigit(u: string) {
    var k := ClassRun(u, Space);
    && k < |u| && IsDash(u[k])
    && var v := u[k + 1..];
       var k2 := ClassRun(v, Space);
       k2 < |v| && IsDigit(v[k2])
  }

  /**
   * `\d+\s*[-–]\s*\d+` matches where `t` starts with the LAST digit of its
   * `\d+`: a match over several digits is also a match from its last digit,
   * so both find a match somewhere in the same texts.
   */
  predicate ScoreAt(t: string) { |t| >= 1 && IsDigit(t[0]) && DashThenDigit(t[1..]) }

  /** A match of `\d+\s*[-–]\s*\d+` starting at any digit of a run implies one at the run's last digit. */
  lemma ScoreAtLastDigit(t: string, m: nat)
    requires 1 <= m <= |t| && forall i :: 0 <= i < m ==> IsDigit(t[i])
    requires DashThenDigit(t[m..])
    ensures ScoreAt(t[m - 1..])
  {
    assert t[m - 1..][1..] == t[m..];
  }

  /** `\d{1,2}:\d{2}` at the start of `t`. */
  predicate TimeAt(t: string) {
    || (|t| >= 4 && IsDigit(t[0]) && t[1] == ':' && IsDigit(t[2]) && IsDigit(t[3]))
    || (|t| >= 5 && IsDigit(t[0]) && IsDigit(t[1]) && t[2] == ':' && IsDigit(t[3]) && IsDigit(t[4]))
  }

  /** `re.test(text)`: the pattern matches somewhere. */
  predicate HasScore(text: string) { FirstMatch(text, 0, ScoreAt).Some? }
  predicate HasDate(text: string) { FirstMatch(text, 0, DateAt).Some? }
  predicate HasTime(text: string) { FirstMatch(text, 0, TimeAt).Some? }

  /** The test both the walk up and the filter apply to an element's text. */
  predicate IsMatchText(text: string) {
    HasOutcome(text) && (HasScore(text) || HasDate(text) || HasTime(text))
  }

  /** Any text the match parser finds a date and time in passes the test once it names an outcome. */
  lemma DatedTextIsMatch(text: string)
    requires HasOutcome(text) && DateTime(text).Some?
    ensures IsMatchText(text)
  {
    var i := FirstMatch(text, 0, DateTimeAt).value;
    assert DateAt(text[i..]);
  }

  /** The test on the element at `p`. */
  function MatchesOn(doc: Node): Path -> bool {
    p => IsMatchText(TextContent(At(doc, p)))
  }

  // ---------------------------------------------------------------------------
  // Walking up from a table wrapper
  // ---------------------------------------------------------------------------

  /**
   * The nearest of `p` and its ancestors, stopping below the body, on which
   * `isMatch` holds.
   */
  function MatchAncestor(isMatch: Path -> bool, p: Option<Path>): (r: Option<Path>)
    ensures r.None? <==> p.None? || forall k :: 1 <= k <= |p.value| ==> !isMatch(p.value[..k])
    ensures r.Some? ==> && p.Some? && 1 <= |r.value| <= |p.value| && r.value == p.value[..|r.value|]
                        && isMatch(r.value)
                        && forall k :: |r.value| < k <= |p.value| ==> !isMatch(p.value[..k])
    decreases if p.Some? then |p.value| + 1 else 0
  {
    match p
    case None => None
    case Some(q) =>
      if q == [] then None
      else if isMatch(q) then (assert q[..|q|] == q; Some(q))
      else
        var up := Parent(q);
        assert forall k :: 1 <= k < |q| ==> up.value[..k] == q[..k];
        assert q[..|q|] == q;
        MatchAncestor(isMatch, up)
  }

  /** The match elements found from the wrappers, in wrapper order; a wrapper with no such ancestor adds none. */
  function WalkedUp(isMatch: Path -> bool, containers: seq<Path>): (r: seq<Path>)
    ensures |r| <= |containers|
    ensures forall q :: q in r ==> isMatch(q)
  {
    if containers == [] then []
    else
      var n := |containers| - 1;
      WalkedUp(isMatch, containers[..n])
        + (match MatchAncestor(isMatch, Parent(containers[n])) case None => [] case Some(a) => [a])
  }

  /** One wrapper's walk up its ancestors. */
  method FindMatchParent(doc: Node, container: Path) returns (found: Option<Path>)
    ensures found == MatchAncestor(MatchesOn(doc), Parent(container))
  {
    ghost var isMatch := MatchesOn(doc);
    var parentElement := Parent(container);
    while parentElement.Some? && parentElement.value != []
      invariant MatchAncestor(isMatch, parentElement) == MatchAncestor(isMatch, Parent(container))
      decreases if parentElement.Some? then |parentElement.value| else 0
    {
      var text := TextContent(At(doc, parentElement.value));
      assert isMatch(parentElement.value) == IsMatchText(text);
      if IsMatchText(text) {
        return parentElement;
      }
      parentElement := Parent(parentElement.value);
    }
    return None;
  }

  // ---------------------------------------------------------------------------
  // Candidates, filter and de-duplication
  // ---------------------------------------------------------------------------

  /** `[class*="sc-20c903f9"]`, `[class*="sc-"]` and `div:has(img[src*="pokemon"])`, tried in turn. */
  const FallbackSelectors: seq<seq<Selector>> := [
    [Is(ClassHas("sc-20c903f9"))],
    [Is(ClassHas("sc-"))],
    [Having(Tag("DIV"), Simple(Some("IMG"), None, None, Some("pokemon"), false))]
  ]

  /** Everything the listed fallback selectors find, selector by selector. */
  function FallbackFound(doc: Node, selectors: seq<seq<Selector>>): seq<Path> {
    if selectors == [] then []
    else
      var n := |selectors| - 1;
      FallbackFound(doc, selectors[..n]) + DocQueryAll(doc, selectors[n])
  }

  /** The candidates: the walked-up wrappers, or the fallback when there are none. */
  function Candidates(doc: Node): seq<Path> {
    var walked := WalkedUp(MatchesOn(doc), DocQueryAll(doc, TableContainers));
    if |walked| > 0 then walked else FallbackFound(doc, FallbackSelectors)
  }

  /** The set of keys of `ps`. */
  function KeySet(ps: seq<Path>, key: Path -> string): set<string> {
    if ps == [] then {} else KeySet(ps[..|ps| - 1], key) + {key(ps[|ps| - 1])}
  }

  /** The seen-set loop: an element is kept when its key has not been kept before. */
  function Dedup(ps: seq<Path>, key: Path -> string): (r: seq<Path>)
    ensures |r| <= |ps|
    ensures forall q :: q in r ==> q in ps
  {
    if ps == [] then []
    else
      var n := |ps| - 1;
      var kept := Dedup(ps[..n], key);
      if key(ps[n]) in KeySet(kept, key) then kept else kept + [ps[n]]
  }

  /**
   * The reference: the elements whose key occurs at no earlier position, in
   * their original order.
   */
  function FirstOccurrences(ps: seq<Path>, key: Path -> string): seq<Path> {
    if ps == [] then []
    else
      var n := |ps| - 1;
      FirstOccurrences(ps[..n], key) + (if NewKeyAt(ps, n, key) then [ps[n]] else [])
  }

  /** No position before `n` has the key of position `n`. */
  predicate NewKeyAt(ps: seq<Path>, n: nat, key: Path -> string)
    requires n < |ps|
  {
    forall i :: 0 <= i < n ==> key(ps[i]) != key(ps[n])
  }

  /** A key is in the key set of the first `n` elements exactly when one of them has it. */
  lemma {:induction false} InKeySet(ps: seq<Path>, n: nat, key: Path -> string, s: string)
    requires n <= |ps|
    ensures s in KeySet(ps[..n], key) <==> exists i :: 0 <= i < n && key(ps[i]) == s
  {
    if n > 0 {
      assert ps[..n][..n - 1] == ps[..n - 1];
      InKeySet(ps, n - 1, key, s);
    }
  }

  /** The kept elements carry every key of the input: the seen set ends as the set of all keys. */
  lemma {:induction false} DedupKeySet(ps: seq<Path>, key: Path -> string)
    ensures KeySet(Dedup(ps, key), key) == KeySet(ps, key)
  {
    if ps != [] {
      var n := |ps| - 1;
      var kept := Dedup(ps[..n], key);
      DedupKeySet(ps[..n], key);
      if key(ps[n]) !in KeySet(kept, key) {
        assert (kept + [ps[n]])[..|kept|] == kept;
      }
    }
  }

  /** First occurrence wins and order is kept: the seen-set loop computes the reference. */
  lemma {:induction false} DedupIsFirstOccurrences(ps: seq<Path>, key: Path -> string)
    ensures Dedup(ps, key) == FirstOccurrences(ps, key)
  {
    if ps != [] {
      var n := |ps| - 1;
      DedupIsFirstOccurrences(ps[..n], key);
      DedupKeySet(ps[..n], key);
      InKeySet(ps, n, key, key(ps[n]));
      assert key(ps[n]) in KeySet(Dedup(ps[..n], key), key) <==> !NewKeyAt(ps, n, key);
    }
  }

  predicate KeysDistinct(r: seq<Path>, key: Path -> string) {
    forall i, j :: 0 <= i < j < |r| ==> key(r[i]) != key(r[j])
  }

  /** No two kept elements share a key. */
  lemma {:induction false} DedupKeysDistinct(ps: seq<Path>, key: Path -> string)
    ensures KeysDistinct(Dedup(ps, key), key)
  {
    if ps != [] {
      var n := |ps| - 1;
      var kept := Dedup(ps[..n], key);
      DedupKeysDistinct(ps[..n], key);
      if key(ps[n]) !in KeySet(kept, key) {
        var r := kept + [ps[n]];
        forall i, j | 0 <= i < j < |r|
          ensures key(r[i]) != key(r[j])
        {
          assert r[i] == kept[i];
          if j < |kept| {
            assert r[j] == kept[j];
            assert key(kept[i]) != key(kept[j]);
          } else {
            assert kept[..|kept|] == kept;
            InKeySet(kept, |kept|, key, key(ps[n]));
            if key(kept[i]) == key(ps[n]) {
              assert false;
            }
          }
        }
        assert Dedup(ps, key) == r;
      }
    }
  }

  /** `text.substring(0, 100)` of the trimmed text: the de-duplication key. */
  function KeyOn(doc: Node): Path -> string {
    p => Take(Trim(TextContent(At(doc, p))), 100)
  }

  /** What `findMatchElements` returns. */
  function LocatedMatches(doc: Node): seq<Path> {
    Dedup(PathsWhere(Candidates(doc), MatchesOn(doc)), KeyOn(doc))
  }

  /**
   * The located elements are exactly the first occurrences, by key, of the
   * candidates that look like a match; each looks like a match, and no two
   * share a key.
   */
  lemma LocatedMatchesSpec(doc: Node)
    ensures var valid := PathsWhere(Candidates(doc), MatchesOn(doc));
      LocatedMatches(doc) == FirstOccurrences(valid, KeyOn(doc))
    ensures forall p :: p in LocatedMatches(doc) ==> IsMatchText(TextContent(At(doc, p)))
    ensures KeysDistinct(LocatedMatches(doc), KeyOn(doc))
  {
    var valid := PathsWhere(Candidates(doc), MatchesOn(doc));
    DedupIsFirstOccurrences(valid, KeyOn(doc));
    DedupKeysDistinct(valid, KeyOn(doc));
    forall p | p in LocatedMatches(doc)
      ensures IsMatchText(TextContent(At(doc, p)))
    {
      assert p in valid;
      assert MatchesOn(doc)(p);
    }
  }

  /** The `forEach` over the wrappers: each one's match ancestor, if it has one. */
  method WalkUpFromContainers(doc: Node, tableContainers: seq<Path>) returns (elements: seq<Path>)
    ensures elements == WalkedUp(MatchesOn(doc), tableContainers)
  {
    ghost var isMatch := MatchesOn(doc);
    elements := [];
    for index := 0 to |tableContainers|
      invariant elements == WalkedUp(isMatch, tableContainers[..index])
    {
      var found := FindMatchParent(doc, tableContainers[index]);
      assert tableContainers[..index + 1][..index] == tableContainers[..index];
      if found.Some? {
        elements := elements + [found.value];
      }
    }
    assert tableContainers[..|tableContainers|] == tableContainers;
  }

  /** The `forEach` over the fallback selectors, appending everything each one finds. */
  method FallbackElements(doc: Node) returns (elements: seq<Path>)
    ensures elements == FallbackFound(doc, FallbackSelectors)
  {
    elements := [];
    for s := 0 to |FallbackSelectors|
      invariant elements == FallbackFound(doc, FallbackSelectors[..s])
    {
      assert FallbackSelectors[..s + 1][..s] == FallbackSelectors[..s];
      elements := elements + DocQueryAll(doc, FallbackSelectors[s]);
    }
    assert FallbackSelectors[..|FallbackSelectors|] == FallbackSelectors;
  }

  /** The candidate elements: the wrappers walked up, else the fallback selectors. */
  method CollectCandidates(doc: Node) returns (elements: seq<Path>)
    ensures elements == Candidates(doc)
  {
    var tableContainers := DocQueryAll(doc, TableContainers);
    elements := WalkUpFromContainers(doc, tableContainers);
    if |elements| == 0 {
      elements := FallbackElements(doc);
    }
  }

  /** The seen-set loop over the trimmed first hundred characters. */
  method KeepFirstByText(doc: Node, validMatches: seq<Path>) returns (uniqueMatches: seq<Path>)
    ensures uniqueMatches == Dedup(validMatches, KeyOn(doc))
  {
    ghost var key := KeyOn(doc);
    uniqueMatches := [];
    var seenTexts: set<string> := {};
    for i := 0 to |validMatches|
      invariant uniqueMatches == Dedup(validMatches[..i], key)
      invariant seenTexts == KeySet(uniqueMatches, key)
    {
      var shortText := Take(Trim(TextContent(At(doc, validMatches[i]))), 100);
      assert shortText == key(validMatches[i]);
      DedupStep(validMatches, i, key);
      if shortText !in seenTexts {
        KeySetSnoc(uniqueMatches, validMatches[i], key);
        seenTexts := seenTexts + {shortText};
        uniqueMatches := uniqueMatches + [validMatches[i]];
      }
    }
    assert validMatches[..|validMatches|] == validMatches;
  }

  /** One step of the seen-set loop. */
  lemma DedupStep(ps: seq<Path>, i: nat, key: Path -> string)
    requires i < |ps|
    ensures var kept := Dedup(ps[..i], key);
      Dedup(ps[..i + 1], key) == if key(ps[i]) in KeySet(kept, key) then kept else kept + [ps[i]]
  {
    assert ps[..i + 1][..i] == ps[..i];
  }

  lemma KeySetSnoc(ps: seq<Path>, q: Path, key: Path -> string)
    ensures KeySet(ps + [q], key) == KeySet(ps, key) + {key(q)}
  {
    assert (ps + [q])[..|ps|] == ps;
  }

  /** `findMatchElements(doc)` */
  method FindMatchElements(doc: Node) returns (uniqueMatches: seq<Path>)
    ensures uniqueMatches == LocatedMatches(doc)
  {
    var elements := CollectCandidates(doc);
    var validMatches := PathsWhere(elements, MatchesOn(doc));
    uniqueMatches := KeepFirstByText(doc, validMatches);
  }
}
