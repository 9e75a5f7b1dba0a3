/**
 * A static model of the page's DOM: a tree of text and element nodes under the
 * document body, addressed by paths of child indices from the body, and the
 * few DOM operations the extractor calls (`textContent`, `querySelector`,
 * `querySelectorAll` with the selectors it uses, `parentElement`,
 * `nextElementSibling`, `tagName`, attribute reads).
 */
module Dom {
  import opened Base
  import opened JsText

  /**
   * The attributes the extractor reads. An attribute that is absent reads as
   * the empty string, except `src`, whose property differs for an absent and an
   * empty attribute, and `color`, whose presence is itself tested (`p[color]`).
   */
  datatype Attrs = Attrs(cls: string, alt: string, src: Option<string>, srcset: string, color: Option<string>)

  datatype Node =
    | Text(data: string)
    | Element(tag: string, attrs: Attrs, children: seq<Node>)

  /** A node's position: child indices from the document body (the empty path). */
  type Path = seq<nat>

  function Concat(ss: seq<string>): (r: string)
    ensures ss == [] ==> r == ""
  {
    if ss == [] then "" else ss[0] + Concat(ss[1..])
  }

  /** `textContent`: the text of every text node below `n`, in document order. */
  function TextContent(n: Node): string {
    match n
    case Text(d) => d
    case Element(_, _, cs) => Concat(seq(|cs|, i requires 0 <= i < |cs| => TextContent(cs[i])))
  }

  /** The attributes of an element; a text node has none. */
  function AttrsOf(n: Node): Attrs {
    if n.Element? then n.attrs else Attrs("", "", None, "", None)
  }

  /** `tagName`: upper case for HTML elements. */
  function TagName(n: Node): string {
    if n.Element? then Upper(n.tag) else ""
  }

  /** The node at path `p` below `n`; a path that leads nowhere gives an empty text node. */
  function At(n: Node, p: Path): Node
    decreases |p|
  {
    if p == [] then n
    else if n.Element? && p[0] < |n.children| then At(n.children[p[0]], p[1..])
    else Text("")
  }

  lemma {:induction false} AtAppend(n: Node, p: Path, q: Path)
    ensures At(n, p + q) == At(At(n, p), q)
    decreases |p|
  {
    if p == [] {
      assert p + q == q;
    } else {
      assert (p + q)[1..] == p[1..] + q;
      assert (p + q)[0] == p[0];
      if n.Element? && p[0] < |n.children| {
        AtAppend(n.children[p[0]], p[1..], q);
      } else {
        AtTextEmpty(q);
      }
    }
  }

  lemma {:induction false} AtTextEmpty(q: Path)
    ensures At(Text(""), q) == Text("")
  {
  }

  predicate IsElementAt(doc: Node, p: Path) { At(doc, p).Element? }

  function Prefixed(k: nat, ps: seq<Path>): (r: seq<Path>)
    ensures |r| == |ps|
    ensures forall j :: 0 <= j < |ps| ==> r[j] == [k] + ps[j]
  {
    seq(|ps|, j requires 0 <= j < |ps| => [k] + ps[j])
  }

  /** The paths, relative to `n`, of `n` (when an element) and of every element below it, in document order. */
  function ElementPaths(n: Node): (r: seq<Path>)
    ensures forall q :: q in r ==> At(n, q).Element?
    ensures n.Element? ==> |r| > 0 && r[0] == []
    decreases n, 1, 0
  {
    match n
    case Text(_) => []
    case Element(_, _, cs) => [[]] + ChildElementPaths(n, 0)
  }

  /** The element paths below the children of `n` from index `k` on. */
  function ChildElementPaths(n: Node, k: nat): (r: seq<Path>)
    requires n.Element?
    ensures forall q :: q in r ==> |q| > 0 && At(n, q).Element?
    decreases n, 0, |n.children| - k
  {
    if k >= |n.children| then []
    else
      var own := Prefixed(k, ElementPaths(n.children[k]));
      assert forall q :: q in own ==> |q| > 0 && At(n, q).Element? by {
        forall q | q in own
          ensures |q| > 0 && At(n, q).Element?
        {
          var j :| 0 <= j < |own| && own[j] == q;
          assert q[1..] == ElementPaths(n.children[k])[j];
        }
      }
      own + ChildElementPaths(n, k + 1)
  }

  // ---------------------------------------------------------------------------
  // Selectors
  // ---------------------------------------------------------------------------

  /**
   * A compound selector: an optional type (compared with the upper-case tag
   * name), `[class*=…]`, `[alt*=…]`, `[src*=…]` substring tests and `[color]`.
   */
  datatype Simple = Simple(
    tag: Option<string>,
    classHas: Option<string>,
    altHas: Option<string>,
    srcHas: Option<string>,
    hasColor: bool)

  /** The selector shapes the extractor uses: `S`, `A S` (descendant) and `S:has(I)`. */
  datatype Selector =
    | Is(s: Simple)
    | Inside(ancestor: Simple, s: Simple)
    | Having(s: Simple, inner: Simple)

  function Tag(t: string): Simple { Simple(Some(t), None, None, None, false) }

  function ClassHas(c: string): Simple { Simple(None, Some(c), None, None, false) }

  predicate OptContains(attr: string, want: Option<string>) {
    want.None? || Contains(attr, want.value)
  }

  predicate MatchesSimple(n: Node, s: Simple) {
    && n.Element?
    && (s.tag.None? || Upper(n.tag) == s.tag.value)
    && OptContains(n.attrs.cls, s.classHas)
    && OptContains(n.attrs.alt, s.altHas)
    && OptContains(n.attrs.src.GetOr(""), s.srcHas)
    && (!s.hasColor || n.attrs.color.Some?)
  }

  /** Some proper ancestor of the node at `p`, up to the body, matches `a`. */
  predicate HasAncestor(doc: Node, p: Path, a: Simple) {
    exists k :: 0 <= k < |p| && MatchesSimple(At(doc, p[..k]), a)
  }

  /** Some element strictly below `n` matches `inner`. */
  predicate HasDescendant(n: Node, inner: Simple) {
    exists q :: q in ElementPaths(n) && q != [] && MatchesSimple(At(n, q), inner)
  }

  predicate Matches(doc: Node, p: Path, sel: Selector) {
    match sel
    case Is(s) => MatchesSimple(At(doc, p), s)
    case Inside(a, s) => MatchesSimple(At(doc, p), s) && HasAncestor(doc, p, a)
    case Having(s, inner) => MatchesSimple(At(doc, p), s) && HasDescendant(At(doc, p), inner)
  }

  /** A selector list `A, B, …` matches when one of its members does. */
  predicate MatchesAny(doc: Node, p: Path, sels: seq<Selector>) {
    exists i :: 0 <= i < |sels| && Matches(doc, p, sels[i])
  }

  /** The paths of `ps` that match the selector list, in order. */
  function Select(doc: Node, ps: seq<Path>, sels: seq<Selector>): (r: seq<Path>)
    ensures forall q :: q in r ==> q in ps && MatchesAny(doc, q, sels)
    ensures forall i :: 0 <= i < |ps| && MatchesAny(doc, ps[i], sels) ==> ps[i] in r
  {
    if ps == [] then []
    else (if MatchesAny(doc, ps[0], sels) then [ps[0]] else []) + Select(doc, ps[1..], sels)
  }

  /** `document.querySelectorAll(sels)`: every matching element, the body included, in document order. */
  function DocQueryAll(doc: Node, sels: seq<Selector>): (r: seq<Path>)
    ensures forall q :: q in r ==> IsElementAt(doc, q) && MatchesAny(doc, q, sels)
  {
    Select(doc, ElementPaths(doc), sels)
  }

  /** The element paths strictly below the node at `p`, as paths from the body, in document order. */
  function Descendants(doc: Node, p: Path): (r: seq<Path>)
    ensures forall q :: q in r ==> |q| > |p| && q[..|p|] == p && IsElementAt(doc, q)
  {
    var n := At(doc, p);
    var rel := ElementPaths(n);
    var r := seq(|rel|, j requires 0 <= j < |rel| => p + rel[j]);
    assert forall q :: q in r ==> |q| >= |p| && q[..|p|] == p && IsElementAt(doc, q) by {
      forall q | q in r
        ensures |q| >= |p| && q[..|p|] == p && IsElementAt(doc, q)
      {
        var j :| 0 <= j < |r| && r[j] == q;
        AtAppend(doc, p, rel[j]);
      }
    }
    if n.Element? then r[1..] else r
  }

  /** `element.querySelectorAll(sels)` on the element at `p`. */
  function QueryAll(doc: Node, p: Path, sels: seq<Selector>): (r: seq<Path>)
    ensures forall q :: q in r ==> |q| > |p| && q[..|p|] == p && IsElementAt(doc, q) && MatchesAny(doc, q, sels)
  {
    Select(doc, Descendants(doc, p), sels)
  }

  /** `element.querySelector(sels)`: the first of `QueryAll`, or null. */
  function Query(doc: Node, p: Path, sels: seq<Selector>): (r: Option<Path>)
    ensures r.Some? <==> |QueryAll(doc, p, sels)| > 0
    ensures r.Some? ==> r.value == QueryAll(doc, p, sels)[0]
  {
    var all := QueryAll(doc, p, sels);
    if |all| > 0 then Some(all[0]) else None
  }

  // ---------------------------------------------------------------------------
  // Navigation
  // ---------------------------------------------------------------------------

  /** `parentElement`, with the body's own parent (the `html` element) not modelled. */
  function Parent(p: Path): (r: Option<Path>)
    ensures r.Some? <==> |p| > 0
    ensures r.Some? ==> |r.value| == |p| - 1 && r.value == p[..|p| - 1]
  {
    if |p| > 0 then Some(p[..|p| - 1]) else None
  }

  /** The index of the first element among `cs[k..]`. */
  function NextElementIndex(cs: seq<Node>, k: nat): (r: Option<nat>)
    ensures r.Some? ==> k <= r.value < |cs| && cs[r.value].Element?
    ensures r.Some? ==> forall j :: k <= j < r.value ==> !cs[j].Element?
    decreases |cs| - k
  {
    if k >= |cs| then None
    else if cs[k].Element? then Some(k)
    else NextElementIndex(cs, k + 1)
  }

  /** `nextElementSibling`: the next element child of the same parent. */
  function NextElementSibling(doc: Node, p: Path): (r: Option<Path>)
    ensures r.Some? ==> |p| > 0 && |r.value| == |p|
    ensures r.Some? ==> r.value[..|p| - 1] == p[..|p| - 1] && r.value[|p| - 1] > p[|p| - 1]
    ensures r.Some? ==> At(doc, p[..|p| - 1]).Element? && r.value[|p| - 1] < |At(doc, p[..|p| - 1]).children|
  {
    if |p| == 0 then None
    else
      var parent := At(doc, p[..|p| - 1]);
      if !parent.Element? then None
      else
        match NextElementIndex(parent.children, p[|p| - 1] + 1)
        case None => None
        case Some(j) => Some(p[..|p| - 1] + [j])
  }

  /**
   * The text a clone of `n` keeps after `clone.querySelectorAll('svg, div, img')`
   * elements are removed: descendants with those tags contribute nothing.
   */
  function TextWithoutMarkup(n: Node): string {
    match n
    case Text(d) => d
    case Element(_, _, cs) =>
      Concat(seq(|cs|, i requires 0 <= i < |cs| =>
        if TagName(cs[i]) in {"SVG", "DIV", "IMG"} then "" else TextWithoutMarkup(cs[i])))
  }

  // ---------------------------------------------------------------------------
  // Filtering a list of nodes
  // ---------------------------------------------------------------------------

  /** `nodes.filter(keep)` over node paths. */
  function PathsWhere(ps: seq<Path>, keep: Path -> bool): (r: seq<Path>)
    ensures |r| <= |ps|
    ensures forall q :: q in r <==> q in ps && keep(q)
  {
    if ps == [] then []
    else (if keep(ps[0]) then [ps[0]] else []) + PathsWhere(ps[1..], keep)
  }

  /** Every kept path is kept as often as it occurs, and no other path. */
  lemma {:induction false} PathsWhereCount(ps: seq<Path>, keep: Path -> bool)
    ensures forall q :: multiset(PathsWhere(ps, keep))[q] == if keep(q) then multiset(ps)[q] else 0
  {
    if ps != [] {
      PathsWhereCount(ps[1..], keep);
      assert ps == [ps[0]] + ps[1..];
    }
  }

  /** The filter of a concatenation is the concatenation of the filters: order is kept. */
  lemma {:induction false} PathsWhereConcat(a: seq<Path>, b: seq<Path>, keep: Path -> bool)
    ensures PathsWhere(a + b, keep) == PathsWhere(a, keep) + PathsWhere(b, keep)
  {
    if a == [] {
      assert a + b == b;
    } else {
      assert (a + b)[0] == a[0];
      assert (a + b)[1..] == a[1..] + b;
      PathsWhereConcat(a[1..], b, keep);
    }
  }

  lemma PathsWhereSingle(q: Path, keep: Path -> bool)
    ensures PathsWhere([q], keep) == if keep(q) then [q] else []
  {
    assert PathsWhere([q], keep) == (if keep(q) then [q] else []) + PathsWhere([], keep);
  }
}
