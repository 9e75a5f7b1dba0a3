/**
 * The table reader of `MatchDataExtractor`: the Victory / Defeated header
 * cells and their `Victory - N` scores, the sibling walk that collects a
 * team's rows, the colour-coded side scores, and the whole-table and
 * fallback extractions that assemble `fullMatchData`.
 */
module TableParser {
  import opened Base
  import opened JsText
  import opened Dom
  import opened MatchRecords
  import opened CellExtractors

  const HeaderCells: seq<Selector> := [Is(Tag("TH"))]
  const Tables: seq<Selector> := [Is(Tag("TABLE"))]
  const Rows: seq<Selector> := [Is(Tag("TR"))]

  // ---------------------------------------------------------------------------
  // Header cells and their scores
  // ---------------------------------------------------------------------------

  function HeaderText(doc: Node, h: Path): string { TextContent(At(doc, h)) }

  /** The index of the first header from `i` on whose text contains `key`. */
  function FirstHeaderIndex(doc: Node, hs: seq<Path>, key: string, i: nat): (r: Option<nat>)
    requires i <= |hs|
    ensures r.Some? ==> i <= r.value < |hs| && Contains(HeaderText(doc, hs[r.value]), key)
    ensures r.Some? ==> forall j :: i <= j < r.value ==> !Contains(HeaderText(doc, hs[j]), key)
    ensures r.None? ==> forall j :: i <= j < |hs| ==> !Contains(HeaderText(doc, hs[j]), key)
    decreases |hs| - i
  {
    if i == |hs| then None
    else if Contains(HeaderText(doc, hs[i]), key) then Some(i)
    else FirstHeaderIndex(doc, hs, key, i + 1)
  }

  /** `Array.from(table.querySelectorAll('th')).find(th => th.textContent.includes(key))` */
  function TeamHeader(doc: Node, table: Path, key: string): (r: Option<Path>)
    ensures r.Some? ==> |r.value| > |table| && Contains(HeaderText(doc, r.value), key)
  {
    var hs := QueryAll(doc, table, HeaderCells);
    match FirstHeaderIndex(doc, hs, key, 0)
    case None => None
    case Some(i) => Some(hs[i])
  }

  /**
   * `/<key>\s*-\s*(\d+)/` matches at the start of `t`. Neither `\s*` can give
   * back characters (the next token is `-` or a digit), so each takes the
   * whole white-space run.
   */
  predicate ScoreAt(key: string, t: string) {
    StartsWith(t, key) && DashThenDigits(t[|key|..])
  }

  /** `\s*-` followed by `\s*\d` at the start of `u`. */
  predicate DashThenDigits(u: string) {
    var a := ClassRun(u, Space);
    a < |u| && u[a] == '-' && SpacedDigits(u[a + 1..])
  }

  /** `\s*\d` at the start of `v`. */
  predicate SpacedDigits(v: string) {
    var b := ClassRun(v, Space);
    b < |v| && IsDigit(v[b])
  }

  /** The digits after the spaces of `v`. */
  function SpacedDigitsValue(v: string): (ds: string)
    requires SpacedDigits(v)
    ensures |ds| >= 1 && forall i :: 0 <= i < |ds| ==> IsDigit(ds[i])
  {
    var w := v[ClassRun(v, Space)..];
    w[..DigitRun(w)]
  }

  /** The capture group `(\d+)` of a match at the start of `t`. */
  function ScoreDigits(key: string, t: string): (ds: string)
    requires ScoreAt(key, t)
    ensures |ds| >= 1 && forall i :: 0 <= i < |ds| ==> IsDigit(ds[i])
  {
    var u := t[|key|..];
    SpacedDigitsValue(u[ClassRun(u, Space) + 1..])
  }

  /** `scoreMatch ? parseInt(scoreMatch[1]) : 0` for the first match of the header pattern. */
  function HeaderScore(key: string, text: string): (r: nat)
    ensures (forall j :: 0 <= j <= |text| ==> !ScoreAt(key, text[j..])) ==> r == 0
  {
    match FirstMatch(text, 0, t => ScoreAt(key, t))
    case None => 0
    case Some(i) =>
      var ds := ScoreDigits(key, text[i..]);
      ParseIntOfDigits(ds);
      ParseInt(ds).value
  }

  /**
   * A header reading `<pre><key> - <n><post>` scores `n`, whatever the spaces
   * around the dash, when `pre` cannot start a match and `post` does not
   * continue the number.
   */
  lemma HeaderScoreOf(key: string, pre: string, sp1: string, sp2: string, n: nat, post: string)
    requires |key| > 0 && key[0] !in pre
    requires forall i :: 0 <= i < |sp1| ==> IsSpace(sp1[i])
    requires forall i :: 0 <= i < |sp2| ==> IsSpace(sp2[i])
    requires post == [] || !IsDigit(post[0])
    ensures HeaderScore(key, pre + key + sp1 + "-" + sp2 + NatToString(n) + post) == n
  {
    var ds := NatToString(n);
    var t := key + sp1 + "-" + sp2 + ds + post;
    var text := pre + key + sp1 + "-" + sp2 + ds + post;
    assert text == pre + t;
    ScoreAtOf(key, sp1, sp2, ds, post, t);
    NoScoreBefore(key, pre, t);
    FirstMatchAt(text, 0, |pre|, t => ScoreAt(key, t));
    assert text[|pre|..] == t;
    DecimalValueOfNatToString(n);
    ParseIntOfDigits(ds);
  }

  lemma ScoreAtOf(key: string, sp1: string, sp2: string, ds: string, post: string, t: string)
    requires forall i :: 0 <= i < |sp1| ==> IsSpace(sp1[i])
    requires forall i :: 0 <= i < |sp2| ==> IsSpace(sp2[i])
    requires |ds| >= 1 && forall i :: 0 <= i < |ds| ==> IsDigit(ds[i])
    requires post == [] || !IsDigit(post[0])
    requires t == key + sp1 + "-" + sp2 + ds + post
    ensures ScoreAt(key, t) && ScoreDigits(key, t) == ds
  {
    var v := sp2 + ds + post;
    var u := sp1 + ("-" + v);
    assert t == key + u;
    assert t[|key|..] == u;
    SpacedDigitsOf(sp2, ds, post, v);
    DashOf(sp1, v, u);
  }

  lemma DashOf(sp1: string, v: string, u: string)
    requires forall i :: 0 <= i < |sp1| ==> IsSpace(sp1[i])
    requires u == sp1 + ("-" + v)
    ensures ClassRun(u, Space) == |sp1| && u[|sp1|] == '-' && u[|sp1| + 1..] == v
  {
    ClassRunOf(sp1, "-" + v, Space);
  }

  lemma SpacedDigitsOf(sp2: string, ds: string, post: string, v: string)
    requires forall i :: 0 <= i < |sp2| ==> IsSpace(sp2[i])
    requires |ds| >= 1 && forall i :: 0 <= i < |ds| ==> IsDigit(ds[i])
    requires post == [] || !IsDigit(post[0])
    requires v == sp2 + ds + post
    ensures SpacedDigits(v) && SpacedDigitsValue(v) == ds
  {
    ClassRunOf(sp2, ds + post, Space);
    assert v[|sp2|..] == ds + post;
    DigitRunOf(ds, post);
    assert (ds + post)[..|ds|] == ds;
  }

  /** No match of the header pattern starts inside a prefix that lacks the key's first letter. */
  lemma NoScoreBefore(key: string, pre: string, t: string)
    requires |key| > 0 && key[0] !in pre
    ensures forall j :: 0 <= j < |pre| ==> !ScoreAt(key, (pre + t)[j..])
  {
    forall j | 0 <= j < |pre|
      ensures !ScoreAt(key, (pre + t)[j..])
    {
      assert (pre + t)[j..][0] == pre[j];
    }
  }

  // ---------------------------------------------------------------------------
  // getTeamRows
  // ---------------------------------------------------------------------------

  /** What the walk makes of a sibling: not a `tr`, or a `tr` classified by its first `td`. */
  datatype RowKind = NotATableRow | NoCell | TeamHeaderCell | SpriteCell | OtherCell

  function RowKindOf(doc: Node, row: Path): RowKind {
    if TagName(At(doc, row)) != "TR" then NotATableRow else CellKindOf(doc, row)
  }

  /** The classification of a `tr` by its first `td`. */
  function CellKindOf(doc: Node, row: Path): (k: RowKind)
    ensures k != NotATableRow
  {
    match Query(doc, row, Cells)
    case None => NoCell
    case Some(cell) =>
      var text := TextContent(At(doc, cell));
      if Contains(text, "Victory") || Contains(text, "Defeated") then TeamHeaderCell
      else if Query(doc, cell, [PokemonImage]).Some? then SpriteCell
      else OtherCell
  }

  /** The classification the walk uses on the page. */
  function KindsOn(doc: Node): Path -> RowKind {
    row => RowKindOf(doc, row)
  }

  /** A player row: a `tr` whose first `td` holds a pokemon sprite and mentions neither team header. */
  predicate IsPlayerRow(doc: Node, row: Path) {
    RowKindOf(doc, row) == SpriteCell
  }

  /** How many child slots of its parent remain from `p` on; it shrinks along `nextElementSibling`. */
  function SiblingsLeft(doc: Node, cur: Option<Path>): nat {
    if cur.None? then 0
    else
      var p := cur.value;
      if |p| > 0 && At(doc, p[..|p| - 1]).Element? && p[|p| - 1] < |At(doc, p[..|p| - 1]).children|
      then 1 + |At(doc, p[..|p| - 1]).children| - p[|p| - 1]
      else 1
  }

  lemma SiblingsLeftShrinks(doc: Node, p: Path)
    ensures SiblingsLeft(doc, NextElementSibling(doc, p)) < SiblingsLeft(doc, Some(p))
  {
  }

  /**
   * The rows the walk collects from `cur` on, having collected `rows` so far,
   * with `kindOf` classifying each sibling (it is `RowKindOf` on the page).
   */
  function WalkRows(doc: Node, kindOf: Path -> RowKind, cur: Option<Path>, rows: seq<Path>): (r: seq<Path>)
    requires |rows| <= 5
    ensures |rows| <= |r| <= 5
    decreases SiblingsLeft(doc, cur)
  {
    if cur.None? || |rows| >= 5 then rows
    else
      var next := NextElementSibling(doc, cur.value);
      match kindOf(cur.value)
      case NotATableRow => rows
      case TeamHeaderCell => rows
      case SpriteCell => WalkRows(doc, kindOf, next, rows + [cur.value])
      case NoCell => WalkRows(doc, kindOf, next, rows)
      case OtherCell => WalkRows(doc, kindOf, next, rows)
  }

  /** The walk only appends, and only sprite rows. */
  lemma {:induction false} WalkRowsKeeps(doc: Node, kindOf: Path -> RowKind, cur: Option<Path>, rows: seq<Path>)
    requires |rows| <= 5
    ensures WalkRows(doc, kindOf, cur, rows)[..|rows|] == rows
    ensures forall i :: |rows| <= i < |WalkRows(doc, kindOf, cur, rows)| ==> kindOf(WalkRows(doc, kindOf, cur, rows)[i]) == SpriteCell
    decreases SiblingsLeft(doc, cur)
  {
    if cur.None? || |rows| >= 5 {
    } else {
      var next := NextElementSibling(doc, cur.value);
      match kindOf(cur.value)
      case NotATableRow =>
      case TeamHeaderCell =>
      case SpriteCell =>
        WalkRowsKeeps(doc, kindOf, next, rows + [cur.value]);
        KeepsAfterSprite(kindOf, rows, cur.value, WalkRows(doc, kindOf, next, rows + [cur.value]));
      case NoCell => WalkRowsKeeps(doc, kindOf, next, rows);
      case OtherCell => WalkRowsKeeps(doc, kindOf, next, rows);
    }
  }

  /** Sprite rows kept after `rows + [p]`, with `p` a sprite row, are sprite rows kept after `rows`. */
  lemma KeepsAfterSprite(kindOf: Path -> RowKind, rows: seq<Path>, p: Path, r: seq<Path>)
    requires kindOf(p) == SpriteCell && |rows| < |r|
    requires r[..|rows| + 1] == rows + [p]
    requires forall i :: |rows| + 1 <= i < |r| ==> kindOf(r[i]) == SpriteCell
    ensures r[..|rows|] == rows
    ensures forall i :: |rows| <= i < |r| ==> kindOf(r[i]) == SpriteCell
  {
    assert r[..|rows| + 1][..|rows|] == r[..|rows|];
    assert r[|rows|] == (rows + [p])[|rows|];
  }

  /** `p` is an earlier element sibling of `q`. */
  predicate Precedes(p: Path, q: Path) {
    |p| == |q| > 0 && p[..|p| - 1] == q[..|q| - 1] && p[|p| - 1] < q[|q| - 1]
  }

  predicate InSiblingOrder(ps: seq<Path>) {
    forall i, j :: 0 <= i < j < |ps| ==> Precedes(ps[i], ps[j])
  }

  /** The walk only moves forward through one parent's children, so what it collects stays in sibling order. */
  lemma {:induction false} WalkRowsInOrder(doc: Node, kindOf: Path -> RowKind, start: Path, cur: Option<Path>, rows: seq<Path>)
    requires |rows| <= 5
    requires InSiblingOrder([start] + rows)
    requires cur.Some? ==> Precedes(([start] + rows)[|rows|], cur.value)
    ensures InSiblingOrder([start] + WalkRows(doc, kindOf, cur, rows))
    decreases SiblingsLeft(doc, cur)
  {
    if cur.None? || |rows| >= 5 {
    } else {
      var p := cur.value;
      var next := NextElementSibling(doc, p);
      var xs := [start] + rows;
      assert forall i :: 0 <= i < |xs| ==> Precedes(xs[i], p) by {
        forall i | 0 <= i < |xs|
          ensures Precedes(xs[i], p)
        {
          if i < |rows| {
            assert Precedes(xs[i], xs[|rows|]);
          }
        }
      }
      match kindOf(p)
      case NotATableRow =>
      case TeamHeaderCell =>
      case SpriteCell =>
        var ys := [start] + (rows + [p]);
        assert ys == xs + [p];
        assert ys[|rows + [p]|] == p;
        WalkRowsInOrder(doc, kindOf, start, next, rows + [p]);
      case NoCell => NextPrecedes(doc, xs, p, next); WalkRowsInOrder(doc, kindOf, start, next, rows);
      case OtherCell => NextPrecedes(doc, xs, p, next); WalkRowsInOrder(doc, kindOf, start, next, rows);
    }
  }

  /** Everything before a row also comes before the row's next sibling. */
  lemma NextPrecedes(doc: Node, xs: seq<Path>, p: Path, next: Option<Path>)
    requires |xs| > 0 && forall i :: 0 <= i < |xs| ==> Precedes(xs[i], p)
    requires next == NextElementSibling(doc, p)
    ensures next.Some? ==> Precedes(xs[|xs| - 1], next.value)
  {
  }

  /** The row the walk starts from: `teamHeader.parentElement.nextElementSibling`. */
  function FirstRowAfter(doc: Node, header: Path): Option<Path> {
    match Parent(header)
    case None => None
    case Some(p) => NextElementSibling(doc, p)
  }

  /** `getTeamRows` as a value. */
  function TeamRows(doc: Node, header: Path): (r: seq<Path>)
    ensures |r| <= 5
  {
    WalkRows(doc, KindsOn(doc), FirstRowAfter(doc, header), [])
  }

  /** `getTeamRows` returns at most five rows, each a `tr` whose first cell has a sprite and no team header. */
  lemma TeamRowsArePlayerRows(doc: Node, header: Path)
    ensures |TeamRows(doc, header)| <= 5
    ensures forall i :: 0 <= i < |TeamRows(doc, header)| ==> IsPlayerRow(doc, TeamRows(doc, header)[i])
  {
    WalkRowsKeeps(doc, KindsOn(doc), FirstRowAfter(doc, header), []);
  }

  /** Every row `getTeamRows` returns is a later sibling of the header's row, and they come in sibling order. */
  lemma TeamRowsInOrder(doc: Node, header: Path)
    requires |header| > 0
    ensures InSiblingOrder([header[..|header| - 1]] + TeamRows(doc, header))
  {
    var start := header[..|header| - 1];
    WalkRowsInOrder(doc, KindsOn(doc), start, FirstRowAfter(doc, header), []);
  }

  /** The element siblings from `cur` on, in order. */
  function SiblingChain(doc: Node, cur: Option<Path>): (r: seq<Path>)
    ensures cur.None? <==> r == []
    ensures cur.Some? ==> r[0] == cur.value
    decreases SiblingsLeft(doc, cur)
  {
    if cur.None? then []
    else
      SiblingsLeftShrinks(doc, cur.value);
      [cur.value] + SiblingChain(doc, NextElementSibling(doc, cur.value))
  }

  /** A sibling that ends the walk: not a `tr`, or a `tr` whose first cell mentions a team header. */
  predicate StopsWalk(k: RowKind) { k == NotATableRow || k == TeamHeaderCell }

  /** The position of the first sibling that ends the walk, or the chain's length. */
  function StopIndex(kindOf: Path -> RowKind, chain: seq<Path>): (k: nat)
    ensures k <= |chain|
    ensures forall i :: 0 <= i < k ==> !StopsWalk(kindOf(chain[i]))
    ensures k < |chain| ==> StopsWalk(kindOf(chain[k]))
  {
    if chain == [] || StopsWalk(kindOf(chain[0])) then 0
    else 1 + StopIndex(kindOf, chain[1..])
  }

  /** The sprite rows of `ps`, in order. */
  function SpriteKinds(kindOf: Path -> RowKind, ps: seq<Path>): (r: seq<Path>)
    ensures forall p :: p in r <==> p in ps && kindOf(p) == SpriteCell
  {
    if ps == [] then []
    else (if kindOf(ps[0]) == SpriteCell then [ps[0]] else []) + SpriteKinds(kindOf, ps[1..])
  }

  /** The first `n` elements, or all of them when there are fewer. */
  function Take(ps: seq<Path>, n: nat): (r: seq<Path>)
    ensures |r| == if |ps| <= n then |ps| else n
    ensures r == ps[..|r|]
  {
    if |ps| <= n then ps else ps[..n]
  }

  /**
   * The walk from `cur`, having kept `rows`, appends the first sprite rows
   * of the siblings before the first one that ends the walk, until five
   * rows are kept.
   */
  ghost predicate WalkKeepsFirst(doc: Node, kindOf: Path -> RowKind, cur: Option<Path>, rows: seq<Path>)
    requires |rows| <= 5
  {
    var chain := SiblingChain(doc, cur);
    WalkRows(doc, kindOf, cur, rows) == rows + Take(SpriteKinds(kindOf, chain[..StopIndex(kindOf, chain)]), 5 - |rows|)
  }

  /** The walk keeps exactly the first sprite rows before the stop, up to five in all. */
  lemma {:induction false} WalkRowsComplete(doc: Node, kindOf: Path -> RowKind, cur: Option<Path>, rows: seq<Path>)
    requires |rows| <= 5
    ensures WalkKeepsFirst(doc, kindOf, cur, rows)
    decreases SiblingsLeft(doc, cur)
  {
    if cur.None? || StopsWalk(kindOf(cur.value)) {
      WalkStopped(doc, kindOf, cur, rows);
    } else if |rows| == 5 {
      WalkFull(doc, kindOf, cur, rows);
    } else {
      var p := cur.value;
      var head := if kindOf(p) == SpriteCell then [p] else [];
      SiblingsLeftShrinks(doc, p);
      WalkRowsComplete(doc, kindOf, NextElementSibling(doc, p), rows + head);
      WalkCompleteStep(doc, kindOf, p, rows);
    }
  }

  /** The walk keeps nothing more once five rows are kept. */
  lemma WalkFull(doc: Node, kindOf: Path -> RowKind, cur: Option<Path>, rows: seq<Path>)
    requires |rows| == 5
    ensures WalkKeepsFirst(doc, kindOf, cur, rows)
  {
    assert rows + [] == rows;
  }

  /** The walk keeps nothing more at a sibling that ends it, or past the end. */
  lemma WalkStopped(doc: Node, kindOf: Path -> RowKind, cur: Option<Path>, rows: seq<Path>)
    requires |rows| <= 5 && (cur.None? || StopsWalk(kindOf(cur.value)))
    ensures WalkKeepsFirst(doc, kindOf, cur, rows)
  {
    var chain := SiblingChain(doc, cur);
    assert chain[..StopIndex(kindOf, chain)] == [];
  }

  /** The completeness of the walk carries over from the next sibling to one that does not end it. */
  lemma WalkCompleteStep(doc: Node, kindOf: Path -> RowKind, p: Path, rows: seq<Path>)
    requires |rows| < 5 && !StopsWalk(kindOf(p))
    requires WalkKeepsFirst(doc, kindOf, NextElementSibling(doc, p), rows + if kindOf(p) == SpriteCell then [p] else [])
    ensures WalkKeepsFirst(doc, kindOf, Some(p), rows)
  {
    var chain := SiblingChain(doc, Some(p));
    var head := if kindOf(p) == SpriteCell then [p] else [];
    var next := NextElementSibling(doc, p);
    WalkOneSibling(doc, kindOf, p, rows);
    KeptAfterHead(kindOf, chain, SiblingChain(doc, next), rows, head, WalkRows(doc, kindOf, next, rows + head));
  }

  /** One sibling that does not end the walk: it is kept when it is a sprite row, and the walk moves on. */
  lemma WalkOneSibling(doc: Node, kindOf: Path -> RowKind, p: Path, rows: seq<Path>)
    requires |rows| < 5 && !StopsWalk(kindOf(p))
    ensures var head := if kindOf(p) == SpriteCell then [p] else [];
      && WalkRows(doc, kindOf, Some(p), rows) == WalkRows(doc, kindOf, NextElementSibling(doc, p), rows + head)
      && SiblingChain(doc, Some(p))[1..] == SiblingChain(doc, NextElementSibling(doc, p))
  {
    if kindOf(p) != SpriteCell {
      assert rows + [] == rows;
    }
  }

  /** What is kept after the chain's tail, with the head kept first, is what is kept of the whole chain. */
  lemma KeptAfterHead(kindOf: Path -> RowKind, chain: seq<Path>, tail: seq<Path>, rows: seq<Path>, head: seq<Path>, walked: seq<Path>)
    requires chain != [] && !StopsWalk(kindOf(chain[0])) && chain[1..] == tail && |rows| < 5
    requires head == if kindOf(chain[0]) == SpriteCell then [chain[0]] else []
    requires walked == (rows + head) + Take(SpriteKinds(kindOf, tail[..StopIndex(kindOf, tail)]), 5 - |rows + head|)
    ensures walked == rows + Take(SpriteKinds(kindOf, chain[..StopIndex(kindOf, chain)]), 5 - |rows|)
  {
    var st := SpriteKinds(kindOf, tail[..StopIndex(kindOf, tail)]);
    var n := 5 - |rows|;
    PrefixStep(kindOf, chain, tail, head);
    KeepHead(rows, head, st, n);
    calc {
      walked;
      (rows + head) + Take(st, n - |head|);
      rows + Take(head + st, n);
      rows + Take(SpriteKinds(kindOf, chain[..StopIndex(kindOf, chain)]), n);
    }
  }

  /** Keeping up to `n` of `head + s` after `rows` is keeping `head` and then up to what is left of `s`. */
  lemma KeepHead(rows: seq<Path>, head: seq<Path>, s: seq<Path>, n: nat)
    requires |head| <= n
    ensures (rows + head) + Take(s, n - |head|) == rows + Take(head + s, n)
  {
    assert Take(head + s, n) == head + Take(s, n - |head|);
  }

  /** Before the stop, the chain's sprite rows are its head (when a sprite row) and then those of its tail. */
  lemma PrefixStep(kindOf: Path -> RowKind, chain: seq<Path>, tail: seq<Path>, head: seq<Path>)
    requires chain != [] && !StopsWalk(kindOf(chain[0])) && tail == chain[1..]
    requires head == if kindOf(chain[0]) == SpriteCell then [chain[0]] else []
    ensures SpriteKinds(kindOf, chain[..StopIndex(kindOf, chain)]) == head + SpriteKinds(kindOf, tail[..StopIndex(kindOf, tail)])
  {
    var k := StopIndex(kindOf, chain);
    assert k == 1 + StopIndex(kindOf, tail);
    assert chain[..k][0] == chain[0];
    assert chain[..k][1..] == tail[..k - 1];
  }

  /**
   * `getTeamRows` keeps exactly the first five (or fewer) sprite rows among
   * the siblings after the header's row that come before the first sibling
   * that is not a `tr` or whose first cell mentions a team header.
   */
  lemma TeamRowsComplete(doc: Node, header: Path)
    ensures var chain := SiblingChain(doc, FirstRowAfter(doc, header));
      TeamRows(doc, header) == Take(SpriteKinds(KindsOn(doc), chain[..StopIndex(KindsOn(doc), chain)]), 5)
  {
    WalkRowsComplete(doc, KindsOn(doc), FirstRowAfter(doc, header), []);
  }

  /**
   * `getTeamRows`: walk the element siblings after the header's row while
   * they are `tr`s and fewer than five rows were kept; stop at a first cell
   * that mentions a team header; keep the rows whose first cell has a sprite.
   */
  method GetTeamRows(doc: Node, header: Path) returns (rows: seq<Path>)
    ensures rows == TeamRows(doc, header)
  {
    ghost var kindOf := KindsOn(doc);
    rows := [];
    var currentRow := FirstRowAfter(doc, header);
    var playerCount := 0;
    while currentRow.Some? && TagName(At(doc, currentRow.value)) == "TR" && playerCount < 5
      invariant playerCount == |rows| <= 5
      invariant WalkRows(doc, kindOf, currentRow, rows) == TeamRows(doc, header)
      decreases SiblingsLeft(doc, currentRow)
    {
      var row := currentRow.value;
      var kind := ReadFirstCell(doc, row);
      assert kindOf(row) == kind;
      WalkAtRow(doc, kindOf, row, rows);
      if kind == TeamHeaderCell {
        break;
      }
      if kind == SpriteCell {
        rows := rows + [row];
        playerCount := playerCount + 1;
        if playerCount >= 5 {
          WalkEnds(doc, kindOf, NextElementSibling(doc, row), rows);
          break;
        }
      }
      SiblingsLeftShrinks(doc, row);
      currentRow := NextElementSibling(doc, row);
    }
    if !(currentRow.Some? && TagName(At(doc, currentRow.value)) == "TR" && playerCount < 5) {
      WalkEnds(doc, kindOf, currentRow, rows);
    }
  }

  /** The walk at one sibling: a sibling that ends the walk keeps nothing more, any other is kept when a sprite row. */
  lemma WalkAtRow(doc: Node, kindOf: Path -> RowKind, row: Path, rows: seq<Path>)
    requires |rows| < 5
    ensures StopsWalk(kindOf(row)) ==> WalkRows(doc, kindOf, Some(row), rows) == rows
    ensures !StopsWalk(kindOf(row)) ==>
              WalkRows(doc, kindOf, Some(row), rows)
              == WalkRows(doc, kindOf, NextElementSibling(doc, row), rows + if kindOf(row) == SpriteCell then [row] else [])
  {
    if kindOf(row) != SpriteCell {
      assert rows + [] == rows;
    }
  }

  /** The walk keeps nothing more past the last sibling, at a sibling that is not a `tr`, or with five rows kept. */
  lemma WalkEnds(doc: Node, kindOf: Path -> RowKind, cur: Option<Path>, rows: seq<Path>)
    requires |rows| <= 5
    requires kindOf == KindsOn(doc)
    requires cur.None? || TagName(At(doc, cur.value)) != "TR" || |rows| == 5
    ensures WalkRows(doc, kindOf, cur, rows) == rows
  {
  }

  /**
   * The body of the walk on one `tr`: its first `td`, whether that cell's
   * text mentions a team header, and whether it holds a sprite.
   */
  method ReadFirstCell(doc: Node, row: Path) returns (kind: RowKind)
    ensures kind == CellKindOf(doc, row)
  {
    var firstCell := Query(doc, row, Cells);
    if firstCell.None? {
      return NoCell;
    }
    var cellText := TextContent(At(doc, firstCell.value));
    if Contains(cellText, "Victory") || Contains(cellText, "Defeated") {
      return TeamHeaderCell;
    }
    var hasPokemonImg := Query(doc, firstCell.value, [PokemonImage]);
    kind := if hasPokemonImg.Some? then SpriteCell else OtherCell;
  }

  // ---------------------------------------------------------------------------
  // Teams
  // ---------------------------------------------------------------------------

  /**
   * `rows.map(extractPlayerDataFromTableRow).filter(p => p !== null)`, with
   * `parse` the row reader (`RowReader(doc, env)` on the page).
   */
  function TeamPlayers(rows: seq<Path>, parse: Path -> Option<Player>): (r: seq<Player>)
    ensures |r| <= |rows|
  {
    Present(ParsedRows(rows, parse))
  }

  /** `rows.map(extractPlayerDataFromTableRow)` */
  function ParsedRows(rows: seq<Path>, parse: Path -> Option<Player>): (r: seq<Option<Player>>)
    ensures |r| == |rows| && forall i :: 0 <= i < |rows| ==> r[i] == parse(rows[i])
  {
    seq(|rows|, i requires 0 <= i < |rows| => parse(rows[i]))
  }

  /** The rows of the team whose header mentions `key`; none when there is no such header. */
  function TeamRowsOf(doc: Node, table: Path, key: string): seq<Path> {
    match TeamHeader(doc, table, key)
    case None => []
    case Some(h) => TeamRows(doc, h)
  }

  /**
   * `extractWinnerTeamFromTable` (`key = "Victory"`) and
   * `extractDefeatedTeamFromTable` (`key = "Defeated"`, which also keeps the
   * `players` list): null without a header or without rows, else the header
   * score and the parsed players compacted into the five slots.
   */
  function TeamFromTable(doc: Node, table: Path, parse: Path -> Option<Player>, key: string, keepList: bool): (r: Option<Team>)
    ensures r.None? <==> TeamRowsOf(doc, table, key) == []
    ensures r.Some? ==> Present(r.value.slots) == TeamPlayers(TeamRowsOf(doc, table, key), parse)
    ensures r.Some? ==> (r.value.players.Some? <==> keepList)
    ensures r.Some? && keepList ==> r.value.players == Some(Present(r.value.slots))
    ensures r.Some? ==>
      TeamHeader(doc, table, key).Some? && r.value.totalScore == HeaderScore(key, HeaderText(doc, TeamHeader(doc, table, key).value))
  {
    match TeamHeader(doc, table, key)
    case None => None
    case Some(h) =>
      var rows := TeamRows(doc, h);
      if rows == [] then None
      else
        var players := TeamPlayers(rows, parse);
        PresentOfSlots(players);
        Some(Team(HeaderScore(key, HeaderText(doc, h)), SlotsOf(players), if keepList then Some(players) else None))
  }

  /**
   * A team whose header reads `<key> - N` (any spaces around the dash, and
   * nothing before that could start another match) has total score `N`.
   */
  lemma TeamScoreOfHeader(doc: Node, table: Path, parse: Path -> Option<Player>, key: string, keepList: bool,
                          pre: string, sp1: string, sp2: string, n: nat, post: string)
    requires TeamRowsOf(doc, table, key) != []
    requires TeamHeader(doc, table, key).Some?
    requires HeaderText(doc, TeamHeader(doc, table, key).value) == pre + key + sp1 + "-" + sp2 + NatToString(n) + post
    requires |key| > 0 && key[0] !in pre
    requires forall i :: 0 <= i < |sp1| ==> IsSpace(sp1[i])
    requires forall i :: 0 <= i < |sp2| ==> IsSpace(sp2[i])
    requires post == [] || !IsDigit(post[0])
    ensures TeamFromTable(doc, table, parse, key, keepList).Some?
    ensures TeamFromTable(doc, table, parse, key, keepList).value.totalScore == n
  {
    HeaderScoreOf(key, pre, sp1, sp2, n, post);
  }

  function ExtractWinnerTeamFromTable(doc: Node, table: Path, parse: Path -> Option<Player>): (r: Option<Team>)
    ensures r.None? <==> TeamRowsOf(doc, table, "Victory") == []
    ensures r.Some? ==> r.value.players.None?
    ensures r.Some? ==> Present(r.value.slots) == TeamPlayers(TeamRowsOf(doc, table, "Victory"), parse)
    ensures r.Some? ==>
      TeamHeader(doc, table, "Victory").Some? && r.value.totalScore == HeaderScore("Victory", HeaderText(doc, TeamHeader(doc, table, "Victory").value))
  {
    TeamFromTable(doc, table, parse, "Victory", false)
  }

  function ExtractDefeatedTeamFromTable(doc: Node, table: Path, parse: Path -> Option<Player>): (r: Option<Team>)
    ensures r.None? <==> TeamRowsOf(doc, table, "Defeated") == []
    ensures r.Some? ==> r.value.players == Some(Present(r.value.slots))
    ensures r.Some? ==> Present(r.value.slots) == TeamPlayers(TeamRowsOf(doc, table, "Defeated"), parse)
    ensures r.Some? ==>
      TeamHeader(doc, table, "Defeated").Some? && r.value.totalScore == HeaderScore("Defeated", HeaderText(doc, TeamHeader(doc, table, "Defeated").value))
  {
    TeamFromTable(doc, table, parse, "Defeated", true)
  }

  // ---------------------------------------------------------------------------
  // Match date and type
  // ---------------------------------------------------------------------------

  /** `extractMatchDate`: `` `${date} ${time}` `` when both are non-empty, else `'Unknown'`. */
  function ExtractMatchDate(date: Option<string>, time: Option<string>): (r: string)
    ensures r == "Unknown" <==> date.GetOr("") == "" || time.GetOr("") == ""
  {
    assert date.GetOr("") != "" && time.GetOr("") != "" ==> ' ' in date.value + " " + time.value;
    if date.GetOr("") != "" && time.GetOr("") != "" then date.value + " " + time.value else "Unknown"
  }

  /** The date and time of a match date with both parts are its two space-separated fields. */
  lemma MatchDateParts(date: string, time: string)
    requires date != "" && time != "" && ' ' !in date && ' ' !in time
    ensures Split(ExtractMatchDate(Some(date), Some(time)), ' ') == [date, time]
  {
    assert Join([date, time], " ") == date + " " + time;
    SplitOfJoin([date, time], ' ');
  }

  /** The type keyword chain on a text. */
  function MatchTypeOfText(text: string): string {
    if Contains(text, "Duo Q.") then "Duo Q."
    else if Contains(text, "Solo Q.") then "Solo Q."
    else if Contains(text, "Trio Q.") then "Trio Q."
    else if Contains(text, "Five S.") then "Five S."
    else "Standard"
  }

  /**
   * `extractMatchType(match)`: the match is a plain record with no
   * `textContent` property, so the text is always `''` and the type always `'Standard'`.
   */
  function ExtractMatchType(m: MatchRecord): (r: string)
    ensures r == "Standard"
  {
    MatchTypeOfText("")
  }

  // ---------------------------------------------------------------------------
  // Coloured side scores
  // ---------------------------------------------------------------------------

  const ColoredParagraphs: seq<Selector> := [Is(Simple(Some("P"), None, None, None, true))]

  /** `#7D46E2` in either case spelling the source tests: the purple side. */
  predicate IsPurple(color: string) { color == "#7D46E2" || color == "#7d46e2" }

  /** `#F67C1B` in either case spelling the source tests: the orange side. */
  predicate IsOrange(color: string) { color == "#F67C1B" || color == "#f67c1b" }

  lemma ColorsDisjoint(color: string)
    ensures !(IsPurple(color) && IsOrange(color))
  {
    if IsPurple(color) {
      assert color[1] == '7';
    }
  }

  function ColorOf(doc: Node, p: Path): string { AttrsOf(At(doc, p)).color.GetOr("") }

  /** `parseInt(scoreEl.textContent.trim())` */
  function ScoreValue(doc: Node, p: Path): Num { ParseInt(Trim(TextContent(At(doc, p)))) }

  /** The score of the last element of `ps` whose colour is `isSide`'s: the one the loop leaves assigned. */
  function LastColorScore(doc: Node, ps: seq<Path>, isSide: string -> bool): (r: Option<Num>)
    ensures r.None? <==> forall i :: 0 <= i < |ps| ==> !isSide(ColorOf(doc, ps[i]))
    ensures |ps| > 0 && isSide(ColorOf(doc, ps[|ps| - 1])) ==> r == Some(ScoreValue(doc, ps[|ps| - 1]))
  {
    if ps == [] then None
    else if isSide(ColorOf(doc, ps[|ps| - 1])) then Some(ScoreValue(doc, ps[|ps| - 1]))
    else LastColorScore(doc, ps[..|ps| - 1], isSide)
  }

  /** `ps[k]` has the side's colour and no later element has it. */
  predicate LastOfSide(doc: Node, ps: seq<Path>, isSide: string -> bool, k: int) {
    0 <= k < |ps| && isSide(ColorOf(doc, ps[k])) && forall j :: k < j < |ps| ==> !isSide(ColorOf(doc, ps[j]))
  }

  /** The last element of a side's colour stays the last when an element of another colour follows. */
  lemma LastOfSideExtends(doc: Node, ps: seq<Path>, isSide: string -> bool, k: int)
    requires |ps| > 0 && LastOfSide(doc, ps[..|ps| - 1], isSide, k) && !isSide(ColorOf(doc, ps[|ps| - 1]))
    ensures LastOfSide(doc, ps, isSide, k) && ps[k] == ps[..|ps| - 1][k]
  {
    var init := ps[..|ps| - 1];
    forall j | k < j < |ps|
      ensures !isSide(ColorOf(doc, ps[j]))
    {
      if j < |init| {
        assert init[j] == ps[j];
      }
    }
  }

  /** A side score, when there is one, is the score of the last element of that side's colour. */
  lemma {:induction false} LastColorScoreIsLast(doc: Node, ps: seq<Path>, isSide: string -> bool)
    requires LastColorScore(doc, ps, isSide).Some?
    ensures exists k :: LastOfSide(doc, ps, isSide, k) && LastColorScore(doc, ps, isSide).value == ScoreValue(doc, ps[k])
  {
    var n := |ps| - 1;
    if isSide(ColorOf(doc, ps[n])) {
      assert LastOfSide(doc, ps, isSide, n);
    } else {
      var init := ps[..n];
      LastColorScoreIsLast(doc, init, isSide);
      var k :| LastOfSide(doc, init, isSide, k) && LastColorScore(doc, init, isSide).value == ScoreValue(doc, init[k]);
      LastOfSideExtends(doc, ps, isSide, k);
      assert LastOfSide(doc, ps, isSide, k);
    }
  }

  /** One more element: it sets the score when it has the side's colour, and leaves it otherwise. */
  lemma LastColorStep(doc: Node, ps: seq<Path>, i: nat, isSide: string -> bool)
    requires i < |ps|
    ensures LastColorScore(doc, ps[..i + 1], isSide) ==
      if isSide(ColorOf(doc, ps[i])) then Some(ScoreValue(doc, ps[i])) else LastColorScore(doc, ps[..i], isSide)
  {
    assert ps[..i + 1][..i] == ps[..i];
  }

  /** One paragraph of the colour loop: it sets the score of its own side only. */
  lemma ColorScoresStep(doc: Node, ps: seq<Path>, i: nat)
    requires i < |ps|
    ensures IsPurple(ColorOf(doc, ps[i])) ==>
              && LastColorScore(doc, ps[..i + 1], IsPurple) == Some(ScoreValue(doc, ps[i]))
              && LastColorScore(doc, ps[..i + 1], IsOrange) == LastColorScore(doc, ps[..i], IsOrange)
    ensures IsOrange(ColorOf(doc, ps[i])) ==>
              && LastColorScore(doc, ps[..i + 1], IsOrange) == Some(ScoreValue(doc, ps[i]))
              && LastColorScore(doc, ps[..i + 1], IsPurple) == LastColorScore(doc, ps[..i], IsPurple)
    ensures !IsPurple(ColorOf(doc, ps[i])) && !IsOrange(ColorOf(doc, ps[i])) ==>
              && LastColorScore(doc, ps[..i + 1], IsPurple) == LastColorScore(doc, ps[..i], IsPurple)
              && LastColorScore(doc, ps[..i + 1], IsOrange) == LastColorScore(doc, ps[..i], IsOrange)
  {
    LastColorStep(doc, ps, i, IsPurple);
    LastColorStep(doc, ps, i, IsOrange);
    ColorsDisjoint(ColorOf(doc, ps[i]));
  }

  /**
   * The loop of `extractCompleteMatchDataFromTable` over `element.querySelectorAll('p[color]')`:
   * a purple paragraph sets the purple score and an orange one the orange score; the last one wins.
   */
  method ReadColorScores(doc: Node, scoreElements: seq<Path>) returns (purpleScore: Option<Num>, orangeScore: Option<Num>)
    ensures purpleScore == LastColorScore(doc, scoreElements, IsPurple)
    ensures orangeScore == LastColorScore(doc, scoreElements, IsOrange)
  {
    purpleScore, orangeScore := None, None;
    var i := 0;
    while i < |scoreElements|
      invariant 0 <= i <= |scoreElements|
      invariant purpleScore == LastColorScore(doc, scoreElements[..i], IsPurple)
      invariant orangeScore == LastColorScore(doc, scoreElements[..i], IsOrange)
    {
      var scoreEl := scoreElements[i];
      var color := ColorOf(doc, scoreEl);
      var score := ScoreValue(doc, scoreEl);
      ColorScoresStep(doc, scoreElements, i);
      if IsPurple(color) {
        purpleScore := Some(score);
      } else if IsOrange(color) {
        orangeScore := Some(score);
      }
      i := i + 1;
    }
    assert scoreElements[..|scoreElements|] == scoreElements;
  }

  // ---------------------------------------------------------------------------
  // The two table extractions
  // ---------------------------------------------------------------------------

  /**
   * `extractCompleteMatchDataFromTable(table, match, element)`: null unless both
   * teams are found; the side scores come from the coloured paragraphs of `element`.
   */
  function ExtractCompleteMatchDataFromTable(doc: Node, table: Path, element: Path, m: MatchRecord, parse: Path -> Option<Player>): (r: Option<MatchData>)
    ensures r.Some? <==> TeamRowsOf(doc, table, "Victory") != [] && TeamRowsOf(doc, table, "Defeated") != []
    ensures r.Some? ==> r.value.matchType == "Standard"
    ensures r.Some? ==> Present(r.value.winnerTeam.slots) == TeamPlayers(TeamRowsOf(doc, table, "Victory"), parse)
    ensures r.Some? ==> Present(r.value.defeatedTeam.slots) == TeamPlayers(TeamRowsOf(doc, table, "Defeated"), parse)
    ensures r.Some? ==> r.value.purpleScore == LastColorScore(doc, QueryAll(doc, element, ColoredParagraphs), IsPurple)
    ensures r.Some? ==> r.value.orangeScore == LastColorScore(doc, QueryAll(doc, element, ColoredParagraphs), IsOrange)
    ensures r.Some? ==> (r.value.purpleScore.None? <==>
      forall i :: 0 <= i < |QueryAll(doc, element, ColoredParagraphs)| ==>
        !IsPurple(ColorOf(doc, QueryAll(doc, element, ColoredParagraphs)[i])))
    ensures r.Some? ==> (r.value.orangeScore.None? <==>
      forall i :: 0 <= i < |QueryAll(doc, element, ColoredParagraphs)| ==>
        !IsOrange(ColorOf(doc, QueryAll(doc, element, ColoredParagraphs)[i])))
    ensures r.Some? ==>
      && TeamHeader(doc, table, "Victory").Some?
      && r.value.winnerTeam.totalScore == HeaderScore("Victory", HeaderText(doc, TeamHeader(doc, table, "Victory").value))
    ensures r.Some? ==>
      && TeamHeader(doc, table, "Defeated").Some?
      && r.value.defeatedTeam.totalScore == HeaderScore("Defeated", HeaderText(doc, TeamHeader(doc, table, "Defeated").value))
  {
    var winnerTeam := ExtractWinnerTeamFromTable(doc, table, parse);
    var defeatedTeam := ExtractDefeatedTeamFromTable(doc, table, parse);
    if winnerTeam.None? || defeatedTeam.None? then None
    else
      var scoreElements := QueryAll(doc, element, ColoredParagraphs);
      Some(MatchData(
        matchDate := ExtractMatchDate(m.date, m.time),
        matchType := ExtractMatchType(m),
        winnerTeam := winnerTeam.value,
        defeatedTeam := defeatedTeam.value,
        purpleScore := LastColorScore(doc, scoreElements, IsPurple),
        orangeScore := LastColorScore(doc, scoreElements, IsOrange)))
  }

  /** A row whose first `td` holds a pokemon sprite. */
  predicate HasSpriteCell(doc: Node, row: Path) {
    match Query(doc, row, Cells)
    case None => false
    case Some(cell) => Query(doc, cell, [PokemonImage]).Some?
  }

  /** The sprite-cell test on the page, as a function of the row. */
  function SpriteCellsOn(doc: Node): Path -> bool {
    row => HasSpriteCell(doc, row)
  }

  /** The rows of `rows` with a sprite in the first cell, in order. */
  function SpriteRows(doc: Node, rows: seq<Path>): (r: seq<Path>)
    ensures |r| <= |rows|
    ensures forall q :: q in r <==> q in rows && HasSpriteCell(doc, q)
  {
    PathsWhere(rows, SpriteCellsOn(doc))
  }

  /** Every sprite row is kept as often as it occurs, and no other row. */
  lemma SpriteRowsCount(doc: Node, rows: seq<Path>)
    ensures forall q :: multiset(SpriteRows(doc, rows))[q] == if HasSpriteCell(doc, q) then multiset(rows)[q] else 0
  {
    PathsWhereCount(rows, SpriteCellsOn(doc));
  }

  /** The sprite rows of a concatenation are those of each part, in order. */
  lemma SpriteRowsConcat(doc: Node, a: seq<Path>, b: seq<Path>)
    ensures SpriteRows(doc, a + b) == SpriteRows(doc, a) + SpriteRows(doc, b)
  {
    PathsWhereConcat(a, b, SpriteCellsOn(doc));
  }

  /** One more row is kept at the end exactly when it has a sprite cell: the scan keeps document order. */
  lemma SpriteRowsSnoc(doc: Node, rows: seq<Path>, q: Path)
    ensures SpriteRows(doc, rows + [q]) == SpriteRows(doc, rows) + (if HasSpriteCell(doc, q) then [q] else [])
  {
    PathsWhereConcat(rows, [q], SpriteCellsOn(doc));
    PathsWhereSingle(q, SpriteCellsOn(doc));
  }

  /** The sprite rows of the first table below `element`; none without a table. */
  function SpriteRowsOf(doc: Node, element: Path): seq<Path> {
    match Query(doc, element, Tables)
    case None => []
    case Some(table) => SpriteRows(doc, QueryAll(doc, table, Rows))
  }

  /** A fallback team: score 0 and the parsed players compacted into the slots. */
  function AlternativeTeam(rows: seq<Path>, parse: Path -> Option<Player>): (t: Team)
    requires |rows| <= 5
    ensures Present(t.slots) == TeamPlayers(rows, parse)
    ensures forall i :: |TeamPlayers(rows, parse)| <= i < 5 ==> t.slots[i].None?
    ensures t.totalScore == 0 && t.players.None?
  {
    var players := TeamPlayers(rows, parse);
    PresentOfSlots(players);
    Team(0, SlotsOf(players), None)
  }

  /** `playerRows.slice(5, 10)` */
  function SecondFive(rows: seq<Path>): (r: seq<Path>)
    requires |rows| >= 5
    ensures |r| <= 5
  {
    if |rows| <= 10 then rows[5..] else rows[5..10]
  }

  /**
   * `extractAlternativeMatchData(element, match)`: null with fewer than eight
   * sprite rows; otherwise sprite rows 1-5 feed the winner team and rows 6-10
   * the defeated team, both with score 0 and no side scores.
   */
  function ExtractAlternativeMatchData(doc: Node, element: Path, m: MatchRecord, parse: Path -> Option<Player>): (r: Option<MatchData>)
    ensures r.None? <==> |SpriteRowsOf(doc, element)| < 8
    ensures r.Some? ==> Present(r.value.winnerTeam.slots) == TeamPlayers(SpriteRowsOf(doc, element)[..5], parse)
    ensures r.Some? ==> Present(r.value.defeatedTeam.slots) == TeamPlayers(SecondFive(SpriteRowsOf(doc, element)), parse)
    ensures r.Some? ==> r.value.winnerTeam.totalScore == 0 && r.value.defeatedTeam.totalScore == 0
    ensures r.Some? ==> r.value.purpleScore.None? && r.value.orangeScore.None? && r.value.matchType == "Standard"
  {
    var playerRows := SpriteRowsOf(doc, element);
    if |playerRows| < 8 then None
    else
      Some(MatchData(
        matchDate := ExtractMatchDate(m.date, m.time),
        matchType := ExtractMatchType(m),
        winnerTeam := AlternativeTeam(playerRows[..5], parse),
        defeatedTeam := AlternativeTeam(SecondFive(playerRows), parse),
        purpleScore := None,
        orangeScore := None))
  }
}
