/**
 * The per-cell extractors of `MatchDataExtractor`: one scoreboard row has six
 * `td` cells (Pokémon and battle item, player name, score, K|A|I, damage,
 * abilities), each read by its own extractor.
 */
module CellExtractors {
  import opened Base
  import opened JsText
  import opened Dom
  import opened MatchRecords
  import opened ImageUrls
  import PokemonMapper

  /**
   * What the extractor sees around it: whether `window.PokemonMapper` is
   * loaded, and the URL library used by `increaseImageResolution`.
   */
  datatype Env = Env(hasPokemonMapper: bool, lib: UriLib)

  /** The width every icon URL is rewritten to. */
  const IconWidth: nat := 96

  // ---------------------------------------------------------------------------
  // Image URLs: the last `srcset` candidate, else `src`
  // ---------------------------------------------------------------------------

  /** `srcset.split(',').map(s => s.trim().split(' ')[0])`, last entry. */
  function SrcsetLast(srcset: string): (r: string)
    ensures ',' !in r && ' ' !in r
  {
    var candidates := Split(srcset, ',');
    Split(Trim(candidates[|candidates| - 1]), ' ')[0]
  }

  /** The URL of a `srcset` candidate list whose last candidate is `url` followed by a descriptor. */
  lemma SrcsetLastOfCandidates(before: seq<string>, url: string, descriptor: string)
    requires forall j :: 0 <= j < |before| ==> ',' !in before[j]
    requires url != [] && ',' !in url && ' ' !in url && !IsSpace(url[0])
    requires ',' !in descriptor && descriptor != [] && !IsSpace(descriptor[|descriptor| - 1])
    ensures SrcsetLast(Join(before + [url + " " + descriptor], ",")) == url
  {
    SrcsetOfCandidate(before, url, descriptor, url + " " + descriptor);
  }

  lemma SrcsetOfCandidate(before: seq<string>, url: string, descriptor: string, last: string)
    requires forall j :: 0 <= j < |before| ==> ',' !in before[j]
    requires url != [] && ',' !in url && ' ' !in url && !IsSpace(url[0])
    requires ',' !in descriptor && descriptor != [] && !IsSpace(descriptor[|descriptor| - 1])
    requires last == url + " " + descriptor
    ensures SrcsetLast(Join(before + [last], ",")) == url
  {
    CandidateUrl(url, descriptor, last);
    NoCommaIn(url, descriptor, last);
    SrcsetOfLast(before, last, url);
  }

  lemma NoCommaIn(url: string, descriptor: string, last: string)
    requires ',' !in url && ',' !in descriptor && last == url + " " + descriptor
    ensures ',' !in last
  {
  }

  lemma SrcsetOfLast(before: seq<string>, last: string, url: string)
    requires forall j :: 0 <= j < |before| ==> ',' !in before[j]
    requires ',' !in last && Split(Trim(last), ' ')[0] == url
    ensures SrcsetLast(Join(before + [last], ",")) == url
  {
    var srcset := Join(before + [last], ",");
    LastCandidate(before, last, srcset);
    SrcsetLastIs(srcset, last, url);
  }

  lemma SrcsetLastIs(srcset: string, last: string, url: string)
    requires var candidates := Split(srcset, ','); candidates[|candidates| - 1] == last
    requires Split(Trim(last), ' ')[0] == url
    ensures SrcsetLast(srcset) == url
  {
  }

  lemma LastCandidate(before: seq<string>, last: string, srcset: string)
    requires forall j :: 0 <= j < |before| ==> ',' !in before[j]
    requires ',' !in last
    requires srcset == Join(before + [last], ",")
    ensures var candidates := Split(srcset, ',');
      candidates[|candidates| - 1] == last
  {
    var parts := before + [last];
    assert forall j :: 0 <= j < |parts| ==> ',' !in parts[j];
    SplitOfJoin(parts, ',');
  }

  lemma CandidateUrl(url: string, descriptor: string, last: string)
    requires url != [] && ' ' !in url && !IsSpace(url[0])
    requires descriptor != [] && !IsSpace(descriptor[|descriptor| - 1])
    requires last == url + " " + descriptor
    ensures Split(Trim(last), ' ')[0] == url
  {
    CandidateTrimmed(url, descriptor);
    SplitFirst(url, descriptor);
  }

  lemma CandidateTrimmed(url: string, descriptor: string)
    requires url != [] && !IsSpace(url[0])
    requires descriptor != [] && !IsSpace(descriptor[|descriptor| - 1])
    ensures Trim(url + " " + descriptor) == url + " " + descriptor
  {
    var last := url + " " + descriptor;
    assert last[0] == url[0] && last[|last| - 1] == descriptor[|descriptor| - 1];
  }

  lemma SplitFirst(url: string, rest: string)
    requires url != [] && ' ' !in url
    ensures Split(url + " " + rest, ' ')[0] == url
  {
    var s := url + " " + rest;
    IndexOfCharAt(s, ' ', |url|);
    assert s[..|url|] == url;
  }

  /**
   * An image's `src` property: empty without a `src` attribute, else the
   * attribute resolved against the page; an empty attribute resolves to the
   * page's own URL.
   */
  function SrcProperty(a: Attrs, lib: UriLib): string {
    match a.src
    case None => ""
    case Some(src) => lib.resolve(src)
  }

  /**
   * The image URL of an `img`: the last `srcset` entry when that is non-empty,
   * else a non-empty `src` property, else none. The `srcset` entry is the raw
   * attribute text; the `src` property is resolved.
   */
  function ImageUrlOf(a: Attrs, lib: UriLib): (r: Option<string>)
    ensures r.Some? ==> r.value != ""
    ensures a.srcset != "" && SrcsetLast(a.srcset) != "" ==> r == Some(SrcsetLast(a.srcset))
    ensures (a.srcset == "" || SrcsetLast(a.srcset) == "") && SrcProperty(a, lib) != "" ==> r == Some(SrcProperty(a, lib))
    ensures r.None? <==> (a.srcset == "" || SrcsetLast(a.srcset) == "") && SrcProperty(a, lib) == ""
  {
    var fromSet := if a.srcset != "" then SrcsetLast(a.srcset) else "";
    if fromSet != "" then Some(fromSet)
    else if SrcProperty(a, lib) != "" then Some(SrcProperty(a, lib))
    else None
  }

  /**
   * Without a `srcset`, a root-relative `src` such as `/images/items/x.png`
   * yields the site URL of the image, which the rewrite then treats as a site
   * URL rather than leaving it alone.
   */
  lemma RootRelativeSrc(a: Attrs, lib: UriLib)
    requires ResolvesOnSite(lib)
    requires a.srcset == "" && a.src.Some? && StartsWith(a.src.value, "/") && !StartsWith(a.src.value, "//")
    ensures ImageUrlOf(a, lib) == Some(SiteOrigin + a.src.value)
    ensures BranchOf(ImageUrlOf(a, lib)) != Other
  {
    var u := SiteOrigin + a.src.value;
    assert u[8..20] == "uniteapi.dev";
    ContainsAt(u, "uniteapi.dev", 8);
  }

  /**
   * Without a `srcset`, a `src` attribute that is present but empty still
   * yields a URL: the page's own, which is what the empty reference resolves to.
   */
  lemma EmptySrcIsPageUrl(a: Attrs, lib: UriLib)
    requires lib.resolve("") != ""
    requires a.srcset == "" && a.src == Some("")
    ensures ImageUrlOf(a, lib) == Some(lib.resolve(""))
  {
  }

  // ---------------------------------------------------------------------------
  // Pokémon cell: `t_Square_<token>.png`
  // ---------------------------------------------------------------------------

  const SquareKey: string := "t_Square_"

  /** `/t_Square_([^.]+)\.png/` matches at the start of `t`. */
  predicate SquareAt(t: string) {
    && StartsWith(t, SquareKey)
    && var n := RunWithout(t[|SquareKey|..], {'.'});
       n > 0 && StartsWith(t[|SquareKey| + n..], ".png")
  }

  /** `src.match(/t_Square_([^.]+)\.png/)[1]`: the token of the leftmost match. */
  function SquareToken(s: string): (r: Option<string>)
    ensures r.Some? ==> |r.value| > 0 && '.' !in r.value && Contains(s, SquareKey + r.value + ".png")
    ensures r.None? <==> forall j :: 0 <= j <= |s| ==> !SquareAt(s[j..])
  {
    match FirstMatch(s, 0, SquareAt)
    case None => None
    case Some(i) =>
      var token := SquareCapture(s[i..]);
      ContainsAt(s, SquareKey + token + ".png", i);
      Some(token)
  }

  /** The captured token of a match at the start of `t`. */
  function SquareCapture(t: string): (r: string)
    requires SquareAt(t)
    ensures |r| > 0 && '.' !in r && |SquareKey| + |r| + 4 <= |t| && t[..|SquareKey| + |r| + 4] == SquareKey + r + ".png"
  {
    var k := |SquareKey|;
    var n := RunWithout(t[k..], {'.'});
    var token := t[k..k + n];
    assert t[..k] == SquareKey;
    assert t[k + n..][..4] == ".png";
    assert t[k + n..k + n + 4] == ".png";
    assert t[..k + n + 4] == t[..k] + t[k..k + n] + t[k + n..k + n + 4];
    token
  }

  /** The token is recovered from a URL that embeds it after a prefix holding no `t_Square_`. */
  lemma SquareTokenOf(pre: string, token: string, post: string)
    requires !Contains(pre, SquareKey)
    requires |token| > 0 && '.' !in token
    ensures SquareToken(pre + SquareKey + token + ".png" + post) == Some(token)
  {
    var t := SquareKey + token + ".png" + post;
    SquareAtToken(t, token, post);
    NoSquareBefore(pre, t);
    SquareTokenAfter(pre, t, token);
    JoinFront(pre, SquareKey, token, ".png", post);
  }

  lemma JoinFront(a: string, b: string, c: string, d: string, e: string)
    ensures a + b + c + d + e == a + (b + c + d + e)
  {
  }

  /** A match at the end of `pre`, with none inside `pre`, is the one whose token is read. */
  lemma SquareTokenAfter(pre: string, t: string, token: string)
    requires SquareAt(t) && SquareCapture(t) == token
    requires forall j :: 0 <= j < |pre| ==> !SquareAt((pre + t)[j..])
    ensures SquareToken(pre + t) == Some(token)
  {
    var s := pre + t;
    assert s[|pre|..] == t;
    FirstMatchAt(s, 0, |pre|, SquareAt);
    SquareTokenAt(s, |pre|);
  }

  /**
   * No match starts inside a prefix holding no `t_Square_` when `t_Square_`
   * follows it: the key's only `t` is its first letter, so no occurrence
   * can straddle the join.
   */
  lemma NoSquareBefore(pre: string, t: string)
    requires !Contains(pre, SquareKey) && StartsWith(t, SquareKey)
    ensures forall j :: 0 <= j < |pre| ==> !SquareAt((pre + t)[j..])
  {
    var key := SquareKey;
    assert forall m :: 0 < m < |key| ==> key[m] != key[0];
    forall j | 0 <= j < |pre|
      ensures !StartsWith((pre + t)[j..], SquareKey)
    {
      KeyNotAt(pre, t, key, j);
    }
  }

  /**
   * A key whose first letter occurs nowhere else in it cannot start inside a
   * prefix that does not contain it, when the key follows that prefix.
   */
  lemma KeyNotAt(pre: string, t: string, key: string, j: nat)
    requires !Contains(pre, key) && StartsWith(t, key) && |key| > 0
    requires forall m :: 0 < m < |key| ==> key[m] != key[0]
    requires j < |pre|
    ensures !StartsWith((pre + t)[j..], key)
  {
    var s := pre + t;
    var k := |key|;
    if j + k <= |pre| {
      if StartsWith(s[j..], key) {
        assert pre[j..j + k] == s[j..][..k];
        ContainsAt(pre, key, j);
      }
    } else {
      var m := |pre| - j;
      assert 0 < m < k;
      assert s[j..][m] == t[0] == key[0] != key[m];
    }
  }

  lemma SquareTokenAt(s: string, i: nat)
    requires i <= |s| && FirstMatch(s, 0, SquareAt) == Some(i)
    ensures SquareToken(s) == Some(SquareCapture(s[i..]))
  {
  }

  /** A URL that starts with `t_Square_<token>.png` matches there and captures the token. */
  lemma SquareAtToken(t: string, token: string, post: string)
    requires |token| > 0 && '.' !in token
    requires t == SquareKey + token + ".png" + post
    ensures SquareAt(t) && SquareCapture(t) == token
  {
    assert t[..|SquareKey|] == SquareKey;
    assert t[|SquareKey|..] == token + (".png" + post);
    RunWithoutPrefix(token, ".png" + post, {'.'});
    assert t[|SquareKey| + |token|..] == ".png" + post;
  }

  const PokemonImage: Selector := Is(Simple(Some("IMG"), None, Some("pokemon"), None, false))

  /** The `src` property of the cell's first Pokémon image, when there is one and it is not empty. */
  function PokemonImageSrc(doc: Node, cell: Path, lib: UriLib): Option<string> {
    match Query(doc, cell, [PokemonImage])
    case None => None
    case Some(p) =>
      var src := SrcProperty(AttrsOf(At(doc, p)), lib);
      if src == "" then None else Some(src)
  }

  /** The token captured from that `src` by `/t_Square_([^.]+)\.png/`. */
  function PokemonImageToken(doc: Node, cell: Path, lib: UriLib): (r: Option<string>)
    ensures r.Some? <==> PokemonImageSrc(doc, cell, lib).Some? && SquareToken(PokemonImageSrc(doc, cell, lib).value).Some?
    ensures r.Some? ==> r == SquareToken(PokemonImageSrc(doc, cell, lib).value)
  {
    match PokemonImageSrc(doc, cell, lib)
    case None => None
    case Some(src) => SquareToken(src)
  }

  /**
   * `extractPokemonFromCell`: the lower-cased token of the first Pokémon
   * image's `t_Square_<token>.png` file name, passed through the name mapper
   * when it is loaded; `"unknown"` when there is no image, no `src` or no
   * such file name.
   */
  function ExtractPokemonFromCell(doc: Node, cell: Path, env: Env): (r: string)
    ensures r != ""
    ensures !env.hasPokemonMapper ==> LowerToken(r)
    ensures env.hasPokemonMapper ==> LowerToken(r) || r in PokemonMapper.DisplayNames
    ensures PokemonImageToken(doc, cell, env.lib).None? ==> r == "unknown"
    ensures PokemonImageToken(doc, cell, env.lib).Some? && !env.hasPokemonMapper ==>
      r == Lower(PokemonImageToken(doc, cell, env.lib).value)
    ensures PokemonImageToken(doc, cell, env.lib).Some? && env.hasPokemonMapper ==>
      r == PokemonMapper.MapPokemonName(Lower(PokemonImageToken(doc, cell, env.lib).value))
  {
    UnknownIsLowerToken();
    match PokemonImageToken(doc, cell, env.lib)
    case None => "unknown"
    case Some(token) =>
      var name := Lower(token);
      LowerOfToken(token);
      if env.hasPokemonMapper then PokemonMapper.MapPokemonName(name) else name
  }

  /**
   * An image whose `src` embeds `t_Square_<token>.png`, after a prefix that
   * holds no other such key, names the Pokémon `<token>` in lower case.
   */
  lemma PokemonFromSquareUrl(doc: Node, cell: Path, env: Env, pre: string, token: string, post: string)
    requires PokemonImageSrc(doc, cell, env.lib) == Some(pre + SquareKey + token + ".png" + post)
    requires !Contains(pre, SquareKey) && |token| > 0 && '.' !in token
    ensures !env.hasPokemonMapper ==> ExtractPokemonFromCell(doc, cell, env) == Lower(token)
    ensures env.hasPokemonMapper ==> ExtractPokemonFromCell(doc, cell, env) == PokemonMapper.MapPokemonName(Lower(token))
  {
    SquareTokenOf(pre, token, post);
  }

  /** A non-empty name with no upper-case letter and no dot. */
  predicate LowerToken(r: string) {
    r != "" && NoUpper(r) && '.' !in r
  }

  lemma UnknownIsLowerToken()
    ensures LowerToken("unknown")
  {
  }

  lemma LowerOfToken(token: string)
    requires |token| > 0 && '.' !in token
    ensures LowerToken(Lower(token))
  {
    var name := Lower(token);
    forall i | 0 <= i < |name|
      ensures name[i] != '.'
    {
      assert token[i] != '.';
    }
  }

  // ---------------------------------------------------------------------------
  // Battle item
  // ---------------------------------------------------------------------------

  /** `[class*="sc-d3561975-0"] img, [class*="kipVmY"] img, img[alt*="Used item"], img[alt*="item"]` */
  const BattleItemSelectors: seq<Selector> := [
    Inside(ClassHas("sc-d3561975-0"), Tag("IMG")),
    Inside(ClassHas("kipVmY"), Tag("IMG")),
    Is(Simple(Some("IMG"), None, Some("Used item"), None, false)),
    Is(Simple(Some("IMG"), None, Some("item"), None, false))
  ]

  /** The image URL of the first battle-item image in the cell. */
  function ItemImageUrl(doc: Node, cell: Path, lib: UriLib): Option<string> {
    match Query(doc, cell, BattleItemSelectors)
    case None => None
    case Some(p) => ImageUrlOf(AttrsOf(At(doc, p)), lib)
  }

  /** `extractBattleItemFromCell`: the battle-item image URL rewritten to 96 pixels, or null. */
  function ExtractBattleItemFromCell(doc: Node, cell: Path, env: Env): (r: Option<string>)
    ensures r.None? <==> ItemImageUrl(doc, cell, env.lib).None?
    ensures BranchOf(ItemImageUrl(doc, cell, env.lib)) == Other ==> r == ItemImageUrl(doc, cell, env.lib)
  {
    IncreaseImageResolution(env.lib, ItemImageUrl(doc, cell, env.lib), IconWidth)
  }

  /** Under the codec laws a battle-item URL from the proxy or sprite branch is a fixed point of the rewrite. */
  lemma BattleItemUrlStable(doc: Node, cell: Path, env: Env)
    requires CodecLaws(env.lib)
    requires BranchOf(ItemImageUrl(doc, cell, env.lib)) == ProxyParam || BranchOf(ItemImageUrl(doc, cell, env.lib)) == SpritePath
    ensures IncreaseImageResolution(env.lib, ExtractBattleItemFromCell(doc, cell, env), IconWidth)
      == ExtractBattleItemFromCell(doc, cell, env)
  {
    ReapplyRewrite(env.lib, ItemImageUrl(doc, cell, env.lib), IconWidth);
  }

  // ---------------------------------------------------------------------------
  // Player name
  // ---------------------------------------------------------------------------

  /** `a p`: a paragraph under a link. */
  const NameInLink: seq<Selector> := [Inside(Tag("A"), Tag("P"))]

  const Paragraphs: seq<Selector> := [Is(Tag("P"))]

  /** `/^\d+$/` */
  predicate AllDigits(t: string) {
    |t| > 0 && forall i :: 0 <= i < |t| ==> IsDigit(t[i])
  }

  /**
   * A paragraph text the name fallback accepts: non-empty, not a number and
   * without `|`. (The further `/^\d{1,2}$/` level test can never hold for such a text.)
   */
  predicate IsNameText(t: string) {
    t != "" && !AllDigits(t) && '|' !in t
  }

  function ParagraphText(doc: Node, p: Path): string {
    Trim(TextContent(At(doc, p)))
  }

  /** The trimmed texts of the paragraphs. */
  function ParagraphTexts(doc: Node, ps: seq<Path>): (r: seq<string>)
    ensures |r| == |ps| && forall j :: 0 <= j < |ps| ==> r[j] == ParagraphText(doc, ps[j])
  {
    seq(|ps|, j requires 0 <= j < |ps| => ParagraphText(doc, ps[j]))
  }

  /** The index of the first text from `i` on that is a name text. */
  function FirstNameIndex(texts: seq<string>, i: nat): (r: Option<nat>)
    requires i <= |texts|
    ensures r.Some? ==> i <= r.value < |texts| && IsNameText(texts[r.value])
    ensures r.Some? ==> forall j :: i <= j < r.value ==> !IsNameText(texts[j])
    ensures r.None? ==> forall j :: i <= j < |texts| ==> !IsNameText(texts[j])
    decreases |texts| - i
  {
    if i == |texts| then None
    else if IsNameText(texts[i]) then Some(i)
    else FirstNameIndex(texts, i + 1)
  }

  /** The first paragraph of `ps` whose trimmed text is a name text. */
  function FirstNameParagraph(doc: Node, ps: seq<Path>): Option<Path> {
    match FirstNameIndex(ParagraphTexts(doc, ps), 0)
    case None => None
    case Some(i) => Some(ps[i])
  }

  /** The element the name is read from: the first `a p`, else the first acceptable `p`. */
  function NameElement(doc: Node, cell: Path): Option<Path> {
    match Query(doc, cell, NameInLink)
    case Some(p) => Some(p)
    case None => FirstNameParagraph(doc, QueryAll(doc, cell, Paragraphs))
  }

  /** Trimmed, with every white-space run made one space; `"Unknown"` when nothing is left. */
  function CleanName(text: string): (r: string)
    ensures r != ""
    ensures Trim(text) == "" ==> r == "Unknown"
    ensures Trim(text) != "" ==> RemoveClass(r, Space) == RemoveClass(text, Space)
  {
    var t := Trim(text);
    var cleaned := if t != "" then Trim(ReplaceRuns(t, Space, " ")) else t;
    CleanedKeepsText(text);
    if cleaned != "" then cleaned else "Unknown"
  }

  /** Trimming and collapsing white space touch nothing but white space, and a text with visible characters keeps them. */
  lemma CleanedKeepsText(text: string)
    ensures var t := Trim(text);
      t != "" ==>
        var cleaned := Trim(ReplaceRuns(t, Space, " "));
        RemoveClass(cleaned, Space) == RemoveClass(text, Space) && cleaned != ""
  {
    var t := Trim(text);
    if t != "" {
      var collapsed := ReplaceRuns(t, Space, " ");
      assert InClass(' ', Space);
      RemoveAfterTrim(text, Space);
      RemoveAfterReplaceRuns(t, Space, " ", Space);
      RemoveAfterTrim(collapsed, Space);
      assert !InClass(t[0], Space);
      assert RemoveClass(t, Space) != [];
    }
  }

  /**
   * `extractPlayerNameFromCell` as a value: the text of the name element
   * without its `svg`, `div` and `img` descendants, cleaned; `"Unknown"`
   * when there is no name element.
   */
  function PlayerNameOf(doc: Node, cell: Path): (r: string)
    ensures r != ""
    ensures NameElement(doc, cell).None? ==> r == "Unknown"
    ensures NameElement(doc, cell).Some? ==>
      var text := TextWithoutMarkup(At(doc, NameElement(doc, cell).value));
      (Trim(text) == "" ==> r == "Unknown") && (Trim(text) != "" ==> RemoveClass(r, Space) == RemoveClass(text, Space))
  {
    match NameElement(doc, cell)
    case None => "Unknown"
    case Some(p) => CleanName(TextWithoutMarkup(At(doc, p)))
  }

  /** `extractPlayerNameFromCell`: the loop over the paragraphs when no `a p` exists. */
  method ExtractPlayerNameFromCell(doc: Node, cell: Path) returns (name: string)
    ensures name == PlayerNameOf(doc, cell)
  {
    var nameElement := Query(doc, cell, NameInLink);
    if nameElement.None? {
      var paragraphs := QueryAll(doc, cell, Paragraphs);
      ghost var texts := ParagraphTexts(doc, paragraphs);
      var i := 0;
      while i < |paragraphs|
        invariant 0 <= i <= |paragraphs|
        invariant FirstNameIndex(texts, 0) == FirstNameIndex(texts, i)
        invariant nameElement.None?
      {
        var text := ParagraphText(doc, paragraphs[i]);
        assert text == texts[i];
        if IsNameText(text) {
          nameElement := Some(paragraphs[i]);
          break;
        }
        i := i + 1;
      }
      assert nameElement == FirstNameParagraph(doc, paragraphs);
    }
    assert nameElement == NameElement(doc, cell);
    if nameElement.Some? {
      name := CleanName(TextWithoutMarkup(At(doc, nameElement.value)));
    } else {
      name := "Unknown";
    }
  }

  /** White space inside is plain spaces, never two together. */
  predicate SingleSpaced(s: string) {
    && (forall i :: 0 <= i < |s| && IsSpace(s[i]) ==> s[i] == ' ')
    && (forall i :: 0 <= i < |s| - 1 ==> !(IsSpace(s[i]) && IsSpace(s[i + 1])))
  }

  /** A cleaned name has no white space at its ends, only plain spaces inside, never two together. */
  predicate NameShaped(r: string) {
    r != "" && !IsSpace(r[0]) && !IsSpace(r[|r| - 1]) && SingleSpaced(r)
  }

  lemma InfixSingleSpaced(s: string, a: nat, n: nat)
    requires a + n <= |s| && SingleSpaced(s)
    ensures SingleSpaced(s[a..a + n])
  {
    var r := s[a..a + n];
    assert forall i :: 0 <= i < |r| ==> r[i] == s[a + i];
  }

  lemma CleanNameShaped(text: string)
    ensures NameShaped(CleanName(text))
  {
    var t := Trim(text);
    if t != "" {
      var collapsed := ReplaceRuns(t, Space, " ");
      CollapsedSingleSpaced(t);
      var a := TrimInfix(collapsed);
      InfixSingleSpaced(collapsed, a, |Trim(collapsed)|);
    }
    UnknownShaped();
  }

  lemma CollapsedSingleSpaced(t: string)
    requires t != "" && !IsSpace(t[0])
    ensures var c := ReplaceRuns(t, Space, " "); SingleSpaced(c) && c != [] && !IsSpace(c[0])
  {
    var c := ReplaceRuns(t, Space, " ");
    CollapsedRuns(t, Space, ' ');
    assert c == [t[0]] + ReplaceRuns(t[1..], Space, " ");
  }

  /** Every player name the extractor returns is `"Unknown"` or a cleaned, non-empty name. */
  lemma PlayerNameShaped(doc: Node, cell: Path)
    ensures NameShaped(PlayerNameOf(doc, cell))
  {
    match NameElement(doc, cell)
    case None => UnknownShaped();
    case Some(p) => CleanNameShaped(TextWithoutMarkup(At(doc, p)));
  }

  lemma UnknownShaped()
    ensures NameShaped("Unknown")
  {
    var u := "Unknown";
    assert forall i :: 0 <= i < |u| ==> !IsSpace(u[i]);
  }

  // ---------------------------------------------------------------------------
  // Score, K|A|I and damage
  // ---------------------------------------------------------------------------

  function CellText(doc: Node, cell: Path): string {
    Trim(TextContent(At(doc, cell)))
  }

  /** `extractScoreFromCell`: `parseInt` of the trimmed text, 0 for NaN. */
  function ExtractScoreFromCell(doc: Node, cell: Path): (r: int)
    ensures ParseInt(CellText(doc, cell)).NaN? ==> r == 0
  {
    OrZero(ParseInt(CellText(doc, cell)))
  }

  /** A score cell showing the decimal digits of `n` reads as `n`. */
  lemma ScoreOfNumber(doc: Node, cell: Path, n: nat)
    requires CellText(doc, cell) == NatToString(n)
    ensures ExtractScoreFromCell(doc, cell) == n
  {
    ParseIntOfNatToString(n);
  }

  /** Field `k` of a `K|A|I` text: `parseInt(parts[k]?.trim()) || 0` when the text has a `|`, else 0. */
  function KaiField(text: string, k: nat): (r: int)
    ensures text == "" || '|' !in text ==> r == 0
    ensures '|' in text && k >= |Split(text, '|')| ==> r == 0
    ensures '|' in text && k < |Split(text, '|')| && ParseInt(Trim(Split(text, '|')[k])).NaN? ==> r == 0
  {
    if text != "" && '|' in text then
      var parts := Split(text, '|');
      if k < |parts| then OrZero(ParseInt(Trim(parts[k]))) else 0
    else 0
  }

  function ExtractKillsFromCell(doc: Node, cell: Path): int { KaiField(CellText(doc, cell), 0) }

  function ExtractAssistsFromCell(doc: Node, cell: Path): int { KaiField(CellText(doc, cell), 1) }

  function ExtractInterruptsFromCell(doc: Node, cell: Path): int { KaiField(CellText(doc, cell), 2) }

  /** `a|b|c` written in decimal reads back as the three numbers. */
  lemma KaiOfNumbers(text: string, a: nat, b: nat, c: nat)
    requires text == NatToString(a) + "|" + NatToString(b) + "|" + NatToString(c)
    ensures KaiField(text, 0) == a && KaiField(text, 1) == b && KaiField(text, 2) == c
  {
    DecimalPart(a);
    DecimalPart(b);
    DecimalPart(c);
    KaiOfParts(NatToString(a), NatToString(b), NatToString(c));
  }

  /** The decimal digits of `n` hold no `|`, are already trimmed and read back as `n`. */
  lemma DecimalPart(n: nat)
    ensures '|' !in NatToString(n)
    ensures OrZero(ParseInt(Trim(NatToString(n)))) == n
  {
    var s := NatToString(n);
    assert forall i :: 0 <= i < |s| ==> IsDigit(s[i]);
    DigitsTrimmed(s);
    ParseIntOfNatToString(n);
  }

  lemma DigitsTrimmed(s: string)
    requires forall i :: 0 <= i < |s| ==> IsDigit(s[i])
    ensures Trim(s) == s
  {
    TrimNoSpace(s);
  }

  /**
   * Each field of `a|b|c` is read from its own part alone: an unreadable part
   * gives 0 at its own position and leaves the other two as they are.
   */
  lemma {:induction false} KaiOfParts(a: string, b: string, c: string)
    requires '|' !in a && '|' !in b && '|' !in c
    ensures KaiField(a + "|" + b + "|" + c, 0) == OrZero(ParseInt(Trim(a)))
    ensures KaiField(a + "|" + b + "|" + c, 1) == OrZero(ParseInt(Trim(b)))
    ensures KaiField(a + "|" + b + "|" + c, 2) == OrZero(ParseInt(Trim(c)))
  {
    var text := a + "|" + b + "|" + c;
    var parts := [a, b, c];
    assert Join(parts, "|") == text by {
      assert Join(parts[2..], "|") == c;
      assert Join(parts[1..], "|") == b + "|" + c;
    }
    SplitOfJoin(parts, '|');
    assert text[|a|] == '|';
  }

  /** The example `5|2|1`. */
  lemma KaiExample()
    ensures KaiField("5|2|1", 0) == 5 && KaiField("5|2|1", 1) == 2 && KaiField("5|2|1", 2) == 1
  {
    assert NatToString(5) == "5" && NatToString(2) == "2" && NatToString(1) == "1";
    KaiOfNumbers("5|2|1", 5, 2, 1);
  }

  /** `[class*="sc-5695c1de-7"] p` */
  const DamageSelector: seq<Selector> := [Inside(ClassHas("sc-5695c1de-7"), Tag("P"))]

  /** Damage paragraph `k` of the cell read with `parseInt(…) || 0`; 0 when there are at most `k`. */
  function DamageField(doc: Node, cell: Path, k: nat): (r: int)
    ensures k >= |QueryAll(doc, cell, DamageSelector)| ==> r == 0
    ensures k < |QueryAll(doc, cell, DamageSelector)| && ParseInt(CellText(doc, QueryAll(doc, cell, DamageSelector)[k])).NaN? ==>
      r == 0
  {
    var ps := QueryAll(doc, cell, DamageSelector);
    if k < |ps| then OrZero(ParseInt(CellText(doc, ps[k]))) else 0
  }

  function ExtractDamageDoneFromCell(doc: Node, cell: Path): int { DamageField(doc, cell, 0) }

  function ExtractDamageTakenFromCell(doc: Node, cell: Path): int { DamageField(doc, cell, 1) }

  function ExtractDamageHealedFromCell(doc: Node, cell: Path): int { DamageField(doc, cell, 2) }

  /** A damage paragraph showing the digits of `n` reads as `n`. */
  lemma DamageOfNumber(doc: Node, cell: Path, k: nat, n: nat)
    requires k < |QueryAll(doc, cell, DamageSelector)|
    requires CellText(doc, QueryAll(doc, cell, DamageSelector)[k]) == NatToString(n)
    ensures DamageField(doc, cell, k) == n
  {
    ParseIntOfNatToString(n);
  }

  // ---------------------------------------------------------------------------
  // Abilities
  // ---------------------------------------------------------------------------

  /** `img[alt*="ability"], img[alt*="Pokemon ability"]` */
  const AbilitySelectors: seq<Selector> := [
    Is(Simple(Some("IMG"), None, Some("ability"), None, false)),
    Is(Simple(Some("IMG"), None, Some("Pokemon ability"), None, false))
  ]

  const SkillKey: string := "t_skill_"

  /** `/t_Skill_[^_]+_([^.]+)/i` matches at the start of `t` (the key compared case-insensitively). */
  predicate SkillAt(t: string) {
    && |t| >= |SkillKey| && Lower(t[..|SkillKey|]) == SkillKey
    && var n := RunWithout(t[|SkillKey|..], {'_'});
       && n > 0 && |SkillKey| + n < |t| && t[|SkillKey| + n] == '_'
       && RunWithout(t[|SkillKey| + n + 1..], {'.'}) > 0
  }

  /** The captured fragment of a match at the start of `t`. */
  function SkillCapture(t: string): (r: string)
    requires SkillAt(t)
    ensures |r| > 0 && '.' !in r
  {
    var n := RunWithout(t[|SkillKey|..], {'_'});
    var rest := t[|SkillKey| + n + 1..];
    rest[..RunWithout(rest, {'.'})]
  }

  /** The fragment of the leftmost skill match in the URL. */
  function SkillFragment(url: string): (r: Option<string>)
    ensures r.Some? ==> |r.value| > 0 && '.' !in r.value
    ensures r.None? <==> forall j :: 0 <= j <= |url| ==> !SkillAt(url[j..])
  {
    match FirstMatch(url, 0, SkillAt)
    case None => None
    case Some(i) => Some(SkillCapture(url[i..]))
  }

  /** The exact codes, in the order they are tried. */
  const CodeOrder: seq<string> := ["s11", "s12", "s21", "s22", "s13", "s23", "s24"]

  /** The first code of `CodeOrder` from index `k` on that `code` contains. */
  function FirstContained(code: string, k: nat): (r: Option<nat>)
    requires k <= |CodeOrder|
    ensures r.Some? ==> k <= r.value < |CodeOrder| && Contains(code, CodeOrder[r.value])
    ensures r.Some? ==> forall j :: k <= j < r.value ==> !Contains(code, CodeOrder[j])
    ensures r.None? ==> forall j :: k <= j < |CodeOrder| ==> !Contains(code, CodeOrder[j])
    decreases |CodeOrder| - k
  {
    if k == |CodeOrder| then None
    else if Contains(code, CodeOrder[k]) then Some(k)
    else FirstContained(code, k + 1)
  }

  /**
   * The `includes` cascade: the highest-priority exact code the fragment
   * contains, else the fragment itself.
   */
  function NormalizeCode(code: string): (r: string)
    ensures r == code || (r in CodeOrder && Contains(code, r))
    ensures forall j :: 0 <= j < |CodeOrder| && Contains(code, CodeOrder[j]) ==> r in CodeOrder[..j + 1]
    ensures (forall j :: 0 <= j < |CodeOrder| ==> !Contains(code, CodeOrder[j])) ==> r == code
  {
    match FirstContained(code, 0)
    case None => code
    case Some(j) =>
      assert CodeOrder[..j + 1][j] == CodeOrder[j];
      CodeOrder[j]
  }

  /** The ability an image yields: its URL's fragment, lower-cased and normalised, with the rewritten URL. */
  function AbilityOf(a: Attrs, lib: UriLib): (r: Option<Ability>)
    ensures r.Some? <==> ImageUrlOf(a, lib).Some? && SkillFragment(ImageUrlOf(a, lib).value).Some?
    ensures r.Some? ==> r.value.code != ""
    ensures r.Some? ==> r.value.code == NormalizeCode(Lower(SkillFragment(ImageUrlOf(a, lib).value).value))
    ensures r.Some? ==> r.value.url == IncreaseImageResolution(lib, ImageUrlOf(a, lib), IconWidth)
  {
    match ImageUrlOf(a, lib)
    case None => None
    case Some(url) =>
      match SkillFragment(url)
      case None => None
      case Some(fragment) =>
        Some(Ability(NormalizeCode(Lower(fragment)), IncreaseImageResolution(lib, Some(url), IconWidth)))
  }

  /** What each image yields, in document order. */
  function ImageAbilities(doc: Node, imgs: seq<Path>, lib: UriLib): (r: seq<Option<Ability>>)
    ensures |r| == |imgs|
  {
    seq(|imgs|, i requires 0 <= i < |imgs| => AbilityOf(AttrsOf(At(doc, imgs[i])), lib))
  }

  /** The present values, in order. */
  function Somes(opts: seq<Option<Ability>>): (r: seq<Ability>)
    ensures |r| <= |opts|
    ensures forall a :: a in r <==> Some(a) in opts
  {
    if opts == [] then []
    else Somes(opts[..|opts| - 1]) + (if opts[|opts| - 1].Some? then [opts[|opts| - 1].value] else [])
  }

  /** The abilities of the images, in scan order, skipping images that yield none. */
  function ScanAbilities(doc: Node, imgs: seq<Path>, lib: UriLib): (r: seq<Ability>)
    ensures |r| <= |imgs|
  {
    Somes(ImageAbilities(doc, imgs, lib))
  }

  lemma SomesStep(opts: seq<Option<Ability>>, i: nat)
    requires i < |opts|
    ensures Somes(opts[..i + 1]) == Somes(opts[..i]) + (if opts[i].Some? then [opts[i].value] else [])
  {
    assert opts[..i + 1][..i] == opts[..i];
  }

  predicate InFamily(a: Ability, family: string) { StartsWith(a.code, family) }

  /** `abilities.filter(a => a.code.startsWith(family))` */
  function FilterFamily(abs: seq<Ability>, family: string): (r: seq<Ability>)
    ensures |r| <= |abs|
    ensures forall a :: a in r <==> a in abs && InFamily(a, family)
    ensures forall a {:trigger multiset(r)[a]} :: multiset(r)[a] == if InFamily(a, family) then multiset(abs)[a] else 0
  {
    if abs == [] then []
    else
      assert abs == [abs[0]] + abs[1..];
      (if InFamily(abs[0], family) then [abs[0]] else []) + FilterFamily(abs[1..], family)
  }

  /** Filtering a concatenation filters each part, in order. */
  lemma {:induction false} FilterFamilyConcat(a: seq<Ability>, b: seq<Ability>, family: string)
    ensures FilterFamily(a + b, family) == FilterFamily(a, family) + FilterFamily(b, family)
  {
    if a != [] {
      var head := if InFamily(a[0], family) then [a[0]] else [];
      assert (a + b)[0] == a[0];
      assert (a + b)[1..] == a[1..] + b;
      FilterFamilyConcat(a[1..], b, family);
      var x, y := FilterFamily(a[1..], family), FilterFamily(b, family);
      assert FilterFamily(a + b, family) == head + (x + y);
      assert head + (x + y) == (head + x) + y;
    } else {
      assert a + b == b;
    }
  }

  /** One more scanned ability is kept at the end exactly when it is of the family. */
  lemma FilterFamilySnoc(abs: seq<Ability>, a: Ability, family: string)
    ensures FilterFamily(abs + [a], family) == FilterFamily(abs, family) + (if InFamily(a, family) then [a] else [])
  {
    FilterFamilyConcat(abs, [a], family);
    assert FilterFamily([a], family) == (if InFamily(a, family) then [a] else []) + FilterFamily([], family);
  }

  /** Filtering an already filtered list changes nothing. */
  lemma {:induction false} FilterFamilyIdempotent(abs: seq<Ability>, family: string)
    ensures FilterFamily(FilterFamily(abs, family), family) == FilterFamily(abs, family)
  {
    if abs != [] {
      FilterFamilyIdempotent(abs[1..], family);
      var head := if InFamily(abs[0], family) then [abs[0]] else [];
      FilterFamilyConcat(head, FilterFamily(abs[1..], family), family);
      if InFamily(abs[0], family) {
        assert FilterFamily(head, family) == head + FilterFamily([], family);
      }
    }
  }

  /** No code starts with both `s1` and `s2`. */
  lemma FamiliesDisjoint(a: Ability)
    ensures !(InFamily(a, "s1") && InFamily(a, "s2"))
  {
  }

  /** Filtering the `s2` abilities for `s1` leaves nothing, and the other way round. */
  lemma {:induction false} OtherFamilyEmpty(abs: seq<Ability>, family: string, other: string)
    requires (family == "s1" && other == "s2") || (family == "s2" && other == "s1")
    ensures FilterFamily(FilterFamily(abs, family), other) == []
  {
    var r := FilterFamily(abs, family);
    if FilterFamily(r, other) != [] {
      var a := FilterFamily(r, other)[0];
      assert a in FilterFamily(r, other);
      FamiliesDisjoint(a);
    }
  }

  predicate HasFamily(abs: seq<Ability>, family: string) {
    exists i :: 0 <= i < |abs| && InFamily(abs[i], family)
  }

  /** When both `s1…` and `s2…` codes occur: the `s1` ones, then the `s2` ones; otherwise scan order. */
  function OrderAbilities(abs: seq<Ability>): (r: seq<Ability>)
    ensures !(HasFamily(abs, "s1") && HasFamily(abs, "s2")) ==> r == abs
  {
    if HasFamily(abs, "s1") && HasFamily(abs, "s2") then FilterFamily(abs, "s1") + FilterFamily(abs, "s2")
    else abs
  }

  /**
   * With both families present the result holds exactly the abilities of the
   * two families, every `s1` one before every `s2` one.
   */
  lemma OrderAbilitiesMixed(abs: seq<Ability>)
    requires HasFamily(abs, "s1") && HasFamily(abs, "s2")
    ensures var r := OrderAbilities(abs);
      && (forall a :: a in r <==> a in abs && (InFamily(a, "s1") || InFamily(a, "s2")))
      && (forall i, j :: 0 <= i < j < |r| && InFamily(r[i], "s2") ==> !InFamily(r[j], "s1"))
      && FilterFamily(r, "s1") == FilterFamily(abs, "s1")
      && FilterFamily(r, "s2") == FilterFamily(abs, "s2")
      && (forall a :: multiset(r)[a] == if InFamily(a, "s1") || InFamily(a, "s2") then multiset(abs)[a] else 0)
  {
    FamiliesOrdered(abs);
    FamiliesKept(abs);
    FamiliesCounted(abs);
  }

  /** The `s1` abilities followed by the `s2` ones: exactly the two families, no `s1` after an `s2`. */
  lemma FamiliesOrdered(abs: seq<Ability>)
    ensures var r := FilterFamily(abs, "s1") + FilterFamily(abs, "s2");
      && (forall a :: a in r <==> a in abs && (InFamily(a, "s1") || InFamily(a, "s2")))
      && (forall i, j :: 0 <= i < j < |r| && InFamily(r[i], "s2") ==> !InFamily(r[j], "s1"))
  {
    var one := FilterFamily(abs, "s1");
    var two := FilterFamily(abs, "s2");
    var r := one + two;
    assert forall k :: 0 <= k < |one| ==> r[k] == one[k] && one[k] in one;
    assert forall k :: |one| <= k < |r| ==> r[k] == two[k - |one|] && two[k - |one|] in two;
  }

  /** Each family of the reordered list is that family of the scan, in scan order. */
  lemma FamiliesKept(abs: seq<Ability>)
    ensures var one, two := FilterFamily(abs, "s1"), FilterFamily(abs, "s2");
      FilterFamily(one + two, "s1") == one && FilterFamily(one + two, "s2") == two
  {
    var one, two := FilterFamily(abs, "s1"), FilterFamily(abs, "s2");
    FilterFamilyConcat(one, two, "s1");
    FilterFamilyIdempotent(abs, "s1");
    OtherFamilyEmpty(abs, "s2", "s1");
    FilterFamilyConcat(one, two, "s2");
    FilterFamilyIdempotent(abs, "s2");
    OtherFamilyEmpty(abs, "s1", "s2");
  }

  /** The reordered list holds every `s1` and `s2` ability as often as the scan does, and nothing else. */
  lemma FamiliesCounted(abs: seq<Ability>)
    ensures var r := FilterFamily(abs, "s1") + FilterFamily(abs, "s2");
      forall a :: multiset(r)[a] == if InFamily(a, "s1") || InFamily(a, "s2") then multiset(abs)[a] else 0
  {
    var one, two := FilterFamily(abs, "s1"), FilterFamily(abs, "s2");
    forall a
      ensures multiset(one + two)[a] == if InFamily(a, "s1") || InFamily(a, "s2") then multiset(abs)[a] else 0
    {
      FamiliesDisjoint(a);
      assert multiset(one + two)[a] == multiset(one)[a] + multiset(two)[a];
    }
  }

  /** A scan of `s21` then `s11` is reordered to `s11` then `s21`. */
  lemma OrderAbilitiesExample(u1: Option<string>, u2: Option<string>)
    ensures OrderAbilities([Ability("s21", u1), Ability("s11", u2)]) == [Ability("s11", u2), Ability("s21", u1)]
  {
    var abs := [Ability("s21", u1), Ability("s11", u2)];
    assert InFamily(abs[1], "s1") && InFamily(abs[0], "s2");
    assert !InFamily(abs[0], "s1") && !InFamily(abs[1], "s2");
    assert FilterFamily(abs, "s1") == [abs[1]] by {
      assert FilterFamily(abs[1..], "s1") == [abs[1]];
    }
    assert FilterFamily(abs, "s2") == [abs[0]] by {
      assert FilterFamily(abs[1..], "s2") == [];
    }
  }

  /** The scan loop of `extractAbilitiesFromCell`: one ability per image that yields one, in order. */
  method ScanImages(doc: Node, imgs: seq<Path>, lib: UriLib) returns (abilities: seq<Ability>)
    ensures abilities == ScanAbilities(doc, imgs, lib)
  {
    ghost var opts := ImageAbilities(doc, imgs, lib);
    abilities := [];
    var i := 0;
    while i < |imgs|
      invariant 0 <= i <= |imgs|
      invariant abilities == Somes(opts[..i])
    {
      var ability := AbilityOf(AttrsOf(At(doc, imgs[i])), lib);
      assert ability == opts[i];
      SomesStep(opts, i);
      if ability.Some? {
        abilities := abilities + [ability.value];
      }
      i := i + 1;
    }
    assert opts[..|imgs|] == opts;
  }

  /** `extractAbilitiesFromCell`: scan the ability images in order, then order the families. */
  method ExtractAbilitiesFromCell(doc: Node, cell: Path, lib: UriLib) returns (abilities: seq<Ability>)
    ensures abilities == OrderAbilities(ScanAbilities(doc, QueryAll(doc, cell, AbilitySelectors), lib))
  {
    var imgs := QueryAll(doc, cell, AbilitySelectors);
    abilities := ScanImages(doc, imgs, lib);
    abilities := OrderAbilities(abilities);
  }

  // ---------------------------------------------------------------------------
  // The row
  // ---------------------------------------------------------------------------

  const Cells: seq<Selector> := [Is(Tag("TD"))]

  /**
   * `extractPlayerDataFromTableRow`: null when the row has fewer than six
   * `td` cells; otherwise the player read cell by cell (held items are always empty).
   */
  function ExtractPlayerDataFromTableRow(doc: Node, row: Path, env: Env): (r: Option<Player>)
    ensures r.Some? <==> |QueryAll(doc, row, Cells)| >= 6
    ensures r.Some? ==> r.value.heldItems == [] && r.value.pokemon != "" && r.value.playerName != ""
  {
    var cells := QueryAll(doc, row, Cells);
    if |cells| < 6 then None
    else
      Some(Player(
        pokemon := ExtractPokemonFromCell(doc, cells[0], env),
        battleItem := ExtractBattleItemFromCell(doc, cells[0], env),
        heldItems := [],
        playerName := PlayerNameOf(doc, cells[1]),
        playerScore := ExtractScoreFromCell(doc, cells[2]),
        kills := ExtractKillsFromCell(doc, cells[3]),
        assists := ExtractAssistsFromCell(doc, cells[3]),
        interrupts := ExtractInterruptsFromCell(doc, cells[3]),
        damageDone := ExtractDamageDoneFromCell(doc, cells[4]),
        damageTaken := ExtractDamageTakenFromCell(doc, cells[4]),
        damageHealed := ExtractDamageHealedFromCell(doc, cells[4]),
        abilities := OrderAbilities(ScanAbilities(doc, QueryAll(doc, cells[5], AbilitySelectors), env.lib))))
  }

  /** The row reader the table extractions apply to each row of the page. */
  function RowReader(doc: Node, env: Env): Path -> Option<Player> {
    row => ExtractPlayerDataFromTableRow(doc, row, env)
  }
}
