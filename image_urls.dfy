/**
 * `increaseImageResolution`: the rewrite of an image URL to the site's image
 * proxy at a given width and quality 100.
 *
 * `encodeURIComponent`, `decodeURIComponent` and the `URL` object are not
 * re-implemented: they are the function values of a `UriLib`, and the
 * properties that need them assume the codec laws of `CodecLaws`.
 */
module ImageUrls {
  import opened Base
  import opened JsText

  /**
   * The browser's URL machinery the extractor relies on. `decode` is `None`
   * where `decodeURIComponent` throws; `setSize(url, w)` is `None` where
   * `new URL(url)` throws, otherwise the URL with its `w` parameter set to `w`
   * and `q` to `100`; `resolve(src)` is what an image's `src` property reads
   * for a present `src` attribute: the attribute resolved against the
   * document's URL (an empty attribute resolves to that URL itself).
   */
  datatype UriLib = UriLib(
    encode: string -> string,
    decode: string -> Option<string>,
    setSize: (string, string) -> Option<string>,
    resolve: string -> string)

  const SiteOrigin: string := "https://uniteapi.dev"

  /** The page is served from the site, so a root-relative reference resolves to the site's origin. */
  ghost predicate ResolvesOnSite(lib: UriLib) {
    forall p :: StartsWith(p, "/") && !StartsWith(p, "//") ==> lib.resolve(p) == SiteOrigin + p
  }

  /** The laws of `encodeURIComponent` / `decodeURIComponent` the idempotence proof relies on. */
  ghost predicate CodecLaws(lib: UriLib) {
    && (forall x :: lib.decode(lib.encode(x)) == Some(x))
    && (forall x :: '&' !in lib.encode(x))
    && (forall a, b :: lib.encode(a + b) == lib.encode(a) + lib.encode(b))
    && lib.encode("/Sprites/") == "%2FSprites%2F"
  }

  const ProxyPrefix: string := "https://uniteapi.dev/_next/image?url="

  /** The query tail `&w=<width>&q=100`. */
  function SizeTail(width: nat): string {
    "&w=" + NatToString(width) + "&q=100"
  }

  /** The proxy URL for an image path. */
  function ProxyUrl(lib: UriLib, path: string, width: nat): string {
    ProxyPrefix + lib.encode(path) + SizeTail(width)
  }

  /** Length of the longest prefix of `s` free of the characters in `stops`. */
  function RunWithout(s: string, stops: set<char>): (n: nat)
    ensures n <= |s|
    ensures forall i :: 0 <= i < n ==> s[i] !in stops
    ensures n < |s| ==> s[n] in stops
  {
    if |s| > 0 && s[0] !in stops then 1 + RunWithout(s[1..], stops) else 0
  }

  /**
   * The first match of `key([^stops]+)`: the leftmost occurrence of `key`
   * followed by at least one character outside `stops`, and the longest such run.
   */
  function Capture(s: string, key: string, stops: set<char>): (r: Option<string>)
    ensures r.Some? ==> |r.value| > 0 && forall i :: 0 <= i < |r.value| ==> r.value[i] !in stops
    decreases |s|
  {
    if StartsWith(s, key) && RunWithout(s[|key|..], stops) > 0 then
      Some(s[|key|..][..RunWithout(s[|key|..], stops)])
    else if s == [] then None
    else Capture(s[1..], key, stops)
  }

  /** `s.replace(/key\d+/, key + value)`: the first `key` followed by digits gets `value` as its digits. */
  function ReplaceDigits(s: string, key: string, value: string): string
    decreases |s|
  {
    if StartsWith(s, key) && DigitRun(s[|key|..]) > 0 then
      key + value + s[|key| + DigitRun(s[|key|..])..]
    else if s == [] then []
    else [s[0]] + ReplaceDigits(s[1..], key, value)
  }

  /** The keys the `w=`/`q=` branch rewrites, and the quality it asks for. */
  const WidthKey: string := "w="
  const QualityKey: string := "q="
  const FullQuality: string := "100"

  /** `s` ends with `t`. */
  predicate EndsWith(s: string, t: string) { |t| <= |s| && s[|s| - |t|..] == t }

  /** A proxy URL that asks for `width` pixels at quality 100. */
  predicate ProxySized(v: string, width: nat) {
    StartsWith(v, ProxyPrefix) && EndsWith(v, SizeTail(width))
  }

  /** `${url}${url.includes('?') ? '&' : '?'}w=${width}&q=100` */
  function AppendSize(url: string, width: nat): string {
    url + (if '?' in url then "&" else "?") + "w=" + NatToString(width) + "&q=100"
  }

  /** The branches of the rewrite, in the order the source tries them. */
  datatype Branch =
    | NoUrl          // null or empty: null
    | ProxyParam     // a proxy URL with a `url=` parameter: re-encode it
    | ProxyWidth     // a proxy URL with `w=` but no usable `url=`: replace the digits
    | ProxyAppend    // a proxy URL with neither: append the size
    | SpritePath     // a `/Sprites/<path>` URL: point the proxy at it
    | SiteUrl        // any other site URL: set the size parameters
    | Other          // anything else: unchanged

  function BranchOf(url: Option<string>): Branch {
    if url.None? || url.value == "" then NoUrl
    else
      var u := url.value;
      if Contains(u, "_next/image") then
        if Capture(u, "url=", {'&'}).Some? then ProxyParam
        else if Contains(u, "w=") then ProxyWidth
        else ProxyAppend
      else if Contains(u, "/Sprites/") && Capture(u, "/Sprites/", {'?', '&'}).Some? then SpritePath
      else if Contains(u, "uniteapi.dev") then SiteUrl
      else Other
  }

  /**
   * `increaseImageResolution(url, width)`. A `decodeURIComponent` failure is
   * caught by the outer handler, which returns the URL unchanged.
   */
  function IncreaseImageResolution(lib: UriLib, url: Option<string>, width: nat): (r: Option<string>)
    ensures r.None? <==> BranchOf(url) == NoUrl
    ensures r.None? <==> url.None? || url.value == ""
    ensures BranchOf(url) == Other ==> r == url
    ensures BranchOf(url) == ProxyAppend ==> r == Some(AppendSize(url.value, width))
    ensures BranchOf(url) == ProxyParam ==>
      r.Some? && (lib.decode(Capture(url.value, "url=", {'&'}).value).None? ==> r == url)
              && (lib.decode(Capture(url.value, "url=", {'&'}).value).Some? ==> ProxySized(r.value, width))
    ensures BranchOf(url) == SpritePath ==>
      r.Some? && ProxySized(r.value, width)
    ensures BranchOf(url) == SiteUrl && lib.setSize(url.value, NatToString(width)).None? ==>
      r == Some(AppendSize(url.value, width))
    ensures BranchOf(url) == SiteUrl && lib.setSize(url.value, NatToString(width)).Some? ==>
      r == lib.setSize(url.value, NatToString(width))
  {
    var u := url.GetOr("");
    match BranchOf(url)
    case NoUrl => None
    case ProxyParam =>
      var encoded := Capture(u, "url=", {'&'}).value;
      (match lib.decode(encoded)
       case None => Some(u)
       case Some(path) =>
         ProxyUrlSized(lib.encode(path), width);
         Some(ProxyUrl(lib, path, width)))
    case ProxyWidth =>
      Some(ReplaceDigits(ReplaceDigits(u, WidthKey, NatToString(width)), QualityKey, FullQuality))
    case ProxyAppend => Some(AppendSize(u, width))
    case SpritePath =>
      var path := Capture(u, "/Sprites/", {'?', '&'}).value;
      ProxyUrlSized("%2FSprites%2F" + lib.encode(path), width);
      assert ProxyPrefix + "%2FSprites%2F" + lib.encode(path) + SizeTail(width)
          == ProxyPrefix + ("%2FSprites%2F" + lib.encode(path)) + SizeTail(width);
      Some(ProxyPrefix + "%2FSprites%2F" + lib.encode(path) + SizeTail(width))
    case SiteUrl =>
      (match lib.setSize(u, NatToString(width))
       case Some(v) => Some(v)
       case None => Some(AppendSize(u, width)))
    case Other => url
  }

  /** The proxy prefix, any encoded part and the size tail make a sized proxy URL. */
  lemma ProxyUrlSized(enc: string, width: nat)
    ensures ProxySized(ProxyPrefix + enc + SizeTail(width), width)
  {
    var v := ProxyPrefix + enc + SizeTail(width);
    assert v[..|ProxyPrefix|] == ProxyPrefix;
    assert v[|v| - |SizeTail(width)|..] == SizeTail(width);
  }

  /**
   * The `w=`/`q=` branch: in a proxy URL reading `<pre>w=<digits><mid>q=<digits><post>`
   * the first width and the first quality after them are replaced by the
   * requested width and 100, and nothing else changes.
   */
  lemma ProxyWidthResult(lib: UriLib, pre: string, w0: string, mid: string, q0: string, post: string, width: nat)
    requires BranchOf(Some(pre + WidthKey + w0 + mid + QualityKey + q0 + post)) == ProxyWidth
    requires 'w' !in pre && 'q' !in pre && 'q' !in mid
    requires |w0| > 0 && forall i :: 0 <= i < |w0| ==> IsDigit(w0[i])
    requires |q0| > 0 && forall i :: 0 <= i < |q0| ==> IsDigit(q0[i])
    requires mid == [] || !IsDigit(mid[0])
    requires post == [] || !IsDigit(post[0])
    ensures IncreaseImageResolution(lib, Some(pre + WidthKey + w0 + mid + QualityKey + q0 + post), width)
         == Some(pre + WidthKey + NatToString(width) + mid + QualityKey + FullQuality + post)
  {
    var w := NatToString(width);
    var u := pre + WidthKey + w0 + mid + QualityKey + q0 + post;
    var r := IncreaseImageResolution(lib, Some(u), width);
    assert r == Some(ReplaceDigits(ReplaceDigits(u, WidthKey, w), QualityKey, FullQuality));
    assert WidthKey[0] == 'w' && QualityKey[0] == 'q';
    assert 'q' !in w;
    NotInConcat('q', pre, WidthKey);
    NotInConcat('q', pre + WidthKey, w);
    NotInConcat('q', pre + WidthKey + w, mid);
    ReplaceTwo(pre, WidthKey, w0, mid, QualityKey, q0, post, w, FullQuality);
  }

  /** Two successive digit replacements, each past a part without its key's first letter. */
  lemma ReplaceTwo(pre: string, k1: string, d1: string, mid: string, k2: string, d2: string, post: string, v1: string, v2: string)
    requires |k1| > 0 && k1[0] !in pre
    requires |k2| > 0 && !IsDigit(k2[0]) && k2[0] !in pre + k1 + v1 + mid
    requires |d1| > 0 && forall i :: 0 <= i < |d1| ==> IsDigit(d1[i])
    requires |d2| > 0 && forall i :: 0 <= i < |d2| ==> IsDigit(d2[i])
    requires mid == [] || !IsDigit(mid[0])
    requires post == [] || !IsDigit(post[0])
    ensures ReplaceDigits(ReplaceDigits(pre + k1 + d1 + mid + k2 + d2 + post, k1, v1), k2, v2)
         == pre + k1 + v1 + mid + k2 + v2 + post
  {
    var tail := k2 + d2 + post;
    var rest := mid + tail;
    assert rest[0] == if mid == [] then k2[0] else mid[0];
    var x := pre + k1 + d1 + mid + k2 + d2 + post;
    Regroup7(pre, k1, d1, mid, k2, d2, post);
    ReplaceAfter(pre, k1, d1, rest, v1);
    var y := pre + k1 + v1 + mid + k2 + d2 + post;
    Regroup7(pre, k1, v1, mid, k2, d2, post);
    var head := pre + k1 + v1 + mid;
    ReplaceAfter(head, k2, d2, post, v2);
    Regroup7(pre, k1, v1, mid, k2, v2, post);
  }

  lemma Regroup7(a: string, b: string, c: string, d: string, e: string, f: string, g: string)
    ensures a + b + c + d + e + f + g == a + (b + c + (d + (e + f + g)))
    ensures a + b + c + d + e + f + g == (a + b + c + d) + (e + f + g)
  {
  }

  lemma Regroup5(a: string, b: string, c: string, d: string, e: string)
    ensures a + (b + c + (d + e)) == a + b + c + d + e
  {
    assert b + c + (d + e) == b + c + d + e;
  }

  /** Past a part without the key's first letter, `key<digits><rest>` gets `v` as its digits. */
  lemma ReplaceAfter(a: string, key: string, d: string, rest: string, v: string)
    requires |key| > 0 && key[0] !in a
    requires |d| > 0 && forall i :: 0 <= i < |d| ==> IsDigit(d[i])
    requires rest == [] || !IsDigit(rest[0])
    ensures ReplaceDigits(a + (key + d + rest), key, v) == a + (key + v + rest)
  {
    ReplaceDigitsSkip(a, key + d + rest, key, v);
    ReplaceDigitsAt(key, d, rest, v);
  }

  /** `key<digits><rest>` with `rest` not continuing the digits: the digits become `v`. */
  lemma ReplaceDigitsAt(key: string, d: string, rest: string, v: string)
    requires |d| > 0 && forall i :: 0 <= i < |d| ==> IsDigit(d[i])
    requires rest == [] || !IsDigit(rest[0])
    ensures ReplaceDigits(key + d + rest, key, v) == key + v + rest
  {
    var s := key + d + rest;
    assert s[..|key|] == key;
    var t := s[|key|..];
    assert t == d + rest;
    DigitsThenRest(d, rest);
    assert s[|key| + |d|..] == rest;
  }

  lemma DigitsThenRest(d: string, rest: string)
    requires |d| > 0 && forall i :: 0 <= i < |d| ==> IsDigit(d[i])
    requires rest == [] || !IsDigit(rest[0])
    ensures DigitRun(d + rest) == |d|
  {
    if rest == [] {
      assert d + rest == d;
      AllDigitsRun(d);
    } else {
      RunOfDigits(d, rest);
    }
  }

  // ---------------------------------------------------------------------------
  // Idempotence on proxy URLs
  // ---------------------------------------------------------------------------

  /** Scanning past a prefix that lacks the key's first character does not change the capture. */
  lemma {:induction false} CaptureSkip(a: string, b: string, key: string, stops: set<char>)
    requires |key| > 0 && key[0] !in a
    ensures Capture(a + b, key, stops) == Capture(b, key, stops)
  {
    if a != [] {
      assert (a + b)[0] == a[0];
      assert (a + b)[1..] == a[1..] + b;
      CaptureSkip(a[1..], b, key, stops);
    } else {
      assert a + b == b;
    }
  }

  /** Scanning past a prefix that lacks the key's first character leaves that prefix alone. */
  lemma {:induction false} ReplaceDigitsSkip(a: string, b: string, key: string, value: string)
    requires |key| > 0 && key[0] !in a
    ensures ReplaceDigits(a + b, key, value) == a + ReplaceDigits(b, key, value)
  {
    if a != [] {
      assert (a + b)[0] == a[0];
      assert (a + b)[1..] == a[1..] + b;
      ReplaceDigitsSkip(a[1..], b, key, value);
    } else {
      assert a + b == b;
    }
  }

  lemma RunOfDigits(d: string, rest: string)
    requires forall i :: 0 <= i < |d| ==> IsDigit(d[i])
    requires |rest| > 0 && !IsDigit(rest[0])
    ensures DigitRun(d + rest) == |d|
  {
    if |d| > 0 {
      assert (d + rest)[1..] == d[1..] + rest;
      RunOfDigits(d[1..], rest);
    } else {
      assert d + rest == rest;
    }
  }

  lemma {:induction false} RunWithoutPrefix(a: string, b: string, stops: set<char>)
    requires forall i :: 0 <= i < |a| ==> a[i] !in stops
    requires |b| > 0 && b[0] in stops
    ensures RunWithout(a + b, stops) == |a|
  {
    if |a| > 0 {
      assert (a + b)[1..] == a[1..] + b;
      RunWithoutPrefix(a[1..], b, stops);
    } else {
      assert a + b == b;
    }
  }

  lemma SplitPrefix(x: string)
    ensures ProxyPrefix + x == "https://" + ("u" + ("niteapi.dev/_next/image?" + ("url=" + x)))
  {
  }

  /** A capture scan moves on from a position where the key does not start. */
  lemma CaptureNotHere(s: string, key: string, stops: set<char>)
    requires |s| > 0 && !StartsWith(s, key)
    ensures Capture(s, key, stops) == Capture(s[1..], key, stops)
  {
  }

  /** Before the `url=` parameter of a proxy URL there is no other `url=`. */
  lemma CaptureSkipsHost(rest: string, stops: set<char>)
    ensures Capture(ProxyPrefix + rest, "url=", stops) == Capture("url=" + rest, "url=", stops)
  {
    SplitPrefix(rest);
    var tail := "url=" + rest;
    var host := "u" + ("niteapi.dev/_next/image?" + tail);
    CaptureSkip("https://", host, "url=", stops);
    HostIsNotKey(tail);
    CaptureNotHere(host, "url=", stops);
    assert host[1..] == "niteapi.dev/_next/image?" + tail;
    CaptureSkip("niteapi.dev/_next/image?", tail, "url=", stops);
  }

  lemma HostIsNotKey(tail: string)
    ensures !StartsWith("u" + ("niteapi.dev/_next/image?" + tail), "url=")
  {
    assert ("u" + ("niteapi.dev/_next/image?" + tail))[1] == 'n';
  }

  /** The `url=` parameter of a proxy URL is the encoded path, when that is not empty. */
  lemma CaptureOfProxyUrl(enc: string, tail: string)
    requires '&' !in enc && |enc| > 0
    requires |tail| > 0 && tail[0] == '&'
    ensures Capture(ProxyPrefix + enc + tail, "url=", {'&'}) == Some(enc)
  {
    assert ProxyPrefix + enc + tail == ProxyPrefix + (enc + tail);
    CaptureSkipsHost(enc + tail, {'&'});
    CaptureAtKey(enc, tail);
  }

  /** `url=<enc>&…` captures `enc`. */
  lemma CaptureAtKey(enc: string, tail: string)
    requires '&' !in enc && |enc| > 0
    requires |tail| > 0 && tail[0] == '&'
    ensures Capture("url=" + (enc + tail), "url=", {'&'}) == Some(enc)
  {
    var rest := "url=" + (enc + tail);
    assert rest[..4] == "url=";
    assert rest[4..] == enc + tail;
    RunWithoutPrefix(enc, tail, {'&'});
    assert (enc + tail)[..|enc|] == enc;
  }

  /** With an empty path the proxy URL has no usable `url=` parameter. */
  lemma CaptureOfEmptyProxyUrl(tail: string)
    requires |tail| > 0 && tail[0] == '&' && 'u' !in tail
    ensures Capture(ProxyPrefix + tail, "url=", {'&'}).None?
  {
    CaptureSkipsHost(tail, {'&'});
    EmptyParamSkipped(tail);
    NotInConcat('u', "rl=", tail);
    CaptureSkip("rl=" + tail, [], "url=", {'&'});
    assert "rl=" + tail + [] == "rl=" + tail;
  }

  /** `url=&…` has an empty parameter, so the scan moves on. */
  lemma EmptyParamSkipped(tail: string)
    requires |tail| > 0 && tail[0] == '&'
    ensures Capture("url=" + tail, "url=", {'&'}) == Capture("rl=" + tail, "url=", {'&'})
  {
    var rest := "url=" + tail;
    assert rest[..4] == "url=";
    assert rest[4..] == tail;
    assert RunWithout(tail, {'&'}) == 0;
    assert rest[1..] == "rl=" + tail;
  }

  lemma NoKeyLetters(width: nat)
    ensures 'u' !in SizeTail(width)
    ensures 'w' !in ProxyPrefix && 'q' !in ProxyPrefix
  {
    var digits := NatToString(width);
    assert 'u' !in digits by {
      assert forall i :: 0 <= i < |digits| ==> IsDigit(digits[i]);
    }
    NotInConcat('u', "&w=", digits);
    NotInConcat('u', "&w=" + digits, "&q=100");
    NoProxyKeyLetters();
  }

  lemma NoProxyKeyLetters()
    ensures 'w' !in ProxyPrefix && 'q' !in ProxyPrefix
  {
    assert forall i :: 0 <= i < |ProxyPrefix| ==> ProxyPrefix[i] != 'w' && ProxyPrefix[i] != 'q';
  }

  lemma ContainsProxyMarker(rest: string)
    ensures Contains(ProxyPrefix + rest, "_next/image")
  {
    assert ProxyPrefix[21..32] == "_next/image";
    ContainsAt(ProxyPrefix, "_next/image", 21);
    ContainsInPrefix(ProxyPrefix, rest, "_next/image");
  }

  /** `key<digits>` followed by a non-digit is replaced by itself when the new digits are the old ones. */
  lemma ReplaceSameDigits(key: string, w: string, rest: string)
    requires |w| > 0 && forall i :: 0 <= i < |w| ==> IsDigit(w[i])
    requires |rest| > 0 && !IsDigit(rest[0])
    ensures ReplaceDigits(key + w + rest, key, w) == key + w + rest
  {
    var s := key + w + rest;
    assert s[..|key|] == key;
    assert s[|key|..] == w + rest;
    RunOfDigits(w, rest);
    assert s[|key| + |w|..] == rest;
  }

  /** `key<digits>` at the very end is replaced by itself when the new digits are the old ones. */
  lemma ReplaceSameDigitsAtEnd(key: string, w: string)
    requires |w| > 0 && forall i :: 0 <= i < |w| ==> IsDigit(w[i])
    ensures ReplaceDigits(key + w, key, w) == key + w
  {
    var s := key + w;
    assert s[..|key|] == key;
    assert s[|key|..] == w;
    AllDigitsRun(w);
    assert s[|key| + |w|..] == [];
  }

  lemma NotInConcat(c: char, a: string, b: string)
    requires c !in a && c !in b
    ensures c !in a + b
  {
  }

  /** The `w=` replacement leaves `<pre>&w=<digits>&q=100` as it is. */
  lemma ReplaceWidthOnSizedUrl(pre: string, w: string)
    requires 'w' !in pre
    requires |w| > 0 && forall i :: 0 <= i < |w| ==> IsDigit(w[i])
    ensures ReplaceDigits(pre + ("&w=" + w + "&q=100"), "w=", w) == pre + ("&w=" + w + "&q=100")
  {
    assert pre + ("&w=" + w + "&q=100") == (pre + "&") + ("w=" + w + "&q=100");
    NotInConcat('w', pre, "&");
    ReplaceDigitsSkip(pre + "&", "w=" + w + "&q=100", "w=", w);
    ReplaceSameDigits("w=", w, "&q=100");
  }

  /** The `q=` replacement leaves `<pre>&w=<digits>&q=100` as it is. */
  lemma ReplaceQualityOnSizedUrl(pre: string, w: string)
    requires 'q' !in pre
    requires |w| > 0 && forall i :: 0 <= i < |w| ==> IsDigit(w[i])
    ensures ReplaceDigits(pre + ("&w=" + w + "&q=100"), "q=", "100") == pre + ("&w=" + w + "&q=100")
  {
    var mid := "&w=" + w + "&";
    NoQualityKey(w, mid);
    NotInConcat('q', pre, mid);
    var key := "q=";
    var v := "100";
    assert forall i :: 0 <= i < |v| ==> IsDigit(v[i]);
    ReplaceAtEnd(pre + mid, key, v);
    assert "&q=100" == "&" + (key + v);
    Regroup(pre, "&w=" + w, "&", key + v);
  }

  lemma Regroup(p: string, x: string, y: string, z: string)
    ensures p + (x + (y + z)) == (p + (x + y)) + z
  {
  }

  /** `key<digits>` at the end, after a part without the key's first letter, is replaced by itself. */
  lemma ReplaceAtEnd(a: string, key: string, v: string)
    requires |key| > 0 && key[0] !in a
    requires |v| > 0 && forall i :: 0 <= i < |v| ==> IsDigit(v[i])
    ensures ReplaceDigits(a + (key + v), key, v) == a + (key + v)
  {
    ReplaceDigitsSkip(a, key + v, key, v);
    ReplaceSameDigitsAtEnd(key, v);
  }

  lemma NoQualityKey(w: string, mid: string)
    requires forall i :: 0 <= i < |w| ==> IsDigit(w[i])
    requires mid == "&w=" + w + "&"
    ensures 'q' !in mid
  {
    assert 'q' !in w;
    NotInConcat('q', "&w=", w);
    NotInConcat('q', "&w=" + w, "&");
  }

  lemma EncodeEmpty(lib: UriLib)
    requires CodecLaws(lib)
    ensures lib.encode("") == ""
  {
    assert "" + "" == "";
    assert lib.encode("" + "") == lib.encode("") + lib.encode("");
    assert |lib.encode("")| == |lib.encode("")| + |lib.encode("")|;
  }

  lemma EncodeNonEmpty(lib: UriLib, x: string)
    requires CodecLaws(lib) && x != ""
    ensures lib.encode(x) != ""
  {
    EncodeEmpty(lib);
    assert lib.decode(lib.encode(x)) == Some(x);
    assert lib.decode(lib.encode("")) == Some("");
  }

  /** Re-applying the rewrite to a proxy URL it produced from a path gives the same URL back. */
  lemma ProxyUrlFixed(lib: UriLib, path: string, width: nat)
    requires CodecLaws(lib)
    ensures IncreaseImageResolution(lib, Some(ProxyUrl(lib, path, width)), width) == Some(ProxyUrl(lib, path, width))
  {
    if path == "" {
      ProxyUrlFixedEmpty(lib, width);
    } else {
      ProxyUrlFixedNonEmpty(lib, path, width);
    }
  }

  /** The proxy URL of the empty path has no `url=` value and keeps its size parameters. */
  lemma ProxyUrlFixedEmpty(lib: UriLib, width: nat)
    requires CodecLaws(lib)
    ensures IncreaseImageResolution(lib, Some(ProxyUrl(lib, "", width)), width) == Some(ProxyUrl(lib, "", width))
  {
    var u := ProxyUrl(lib, "", width);
    EncodeEmpty(lib);
    assert u == ProxyPrefix + SizeTail(width);
    ContainsProxyMarker(SizeTail(width));
    NoKeyLetters(width);
    CaptureOfEmptyProxyUrl(SizeTail(width));
    assert Contains(u, "w=") by {
      assert u[|ProxyPrefix| + 1..|ProxyPrefix| + 3] == "w=";
      ContainsAt(u, "w=", |ProxyPrefix| + 1);
    }
    ReplaceWidthOnSizedUrl(ProxyPrefix, NatToString(width));
    ReplaceQualityOnSizedUrl(ProxyPrefix, NatToString(width));
  }

  /** The proxy URL of a non-empty path is recognised by its `url=` value and kept. */
  lemma ProxyUrlFixedNonEmpty(lib: UriLib, path: string, width: nat)
    requires CodecLaws(lib) && path != ""
    ensures IncreaseImageResolution(lib, Some(ProxyUrl(lib, path, width)), width) == Some(ProxyUrl(lib, path, width))
  {
    var enc := lib.encode(path);
    var u := ProxyUrl(lib, path, width);
    ContainsProxyMarker(enc + SizeTail(width));
    assert u == ProxyPrefix + (enc + SizeTail(width));
    NoKeyLetters(width);
    EncodeNonEmpty(lib, path);
    CaptureOfProxyUrl(enc, SizeTail(width));
  }

  /** A `/Sprites/` rewrite is the proxy URL of the whole `/Sprites/…` path. */
  lemma SpriteUrlIsProxyUrl(lib: UriLib, path: string, width: nat)
    requires CodecLaws(lib)
    ensures ProxyPrefix + "%2FSprites%2F" + lib.encode(path) + SizeTail(width)
         == ProxyUrl(lib, "/Sprites/" + path, width)
  {
    assert lib.encode("/Sprites/" + path) == lib.encode("/Sprites/") + lib.encode(path);
  }

  /**
   * Idempotence: re-applying the rewrite to the output of its `url=` branch or
   * of its `/Sprites/` branch returns that output unchanged.
   */
  lemma ReapplyRewrite(lib: UriLib, url: Option<string>, width: nat)
    requires CodecLaws(lib)
    requires BranchOf(url) == ProxyParam || BranchOf(url) == SpritePath
    ensures var once := IncreaseImageResolution(lib, url, width);
      IncreaseImageResolution(lib, once, width) == once
  {
    var u := url.value;
    if BranchOf(url) == ProxyParam {
      var encoded := Capture(u, "url=", {'&'}).value;
      match lib.decode(encoded)
      case None =>
        assert IncreaseImageResolution(lib, url, width) == url;
      case Some(path) =>
        ProxyUrlFixed(lib, path, width);
    } else {
      var path := Capture(u, "/Sprites/", {'?', '&'}).value;
      SpriteUrlIsProxyUrl(lib, path, width);
      ProxyUrlFixed(lib, "/Sprites/" + path, width);
    }
  }

  /**
   * The `url=` branch keeps the image: the rewritten URL's `url=` parameter
   * decodes to the same path as the original's.
   */
  lemma ProxyParamKeepsPath(lib: UriLib, url: Option<string>, width: nat, path: string)
    requires CodecLaws(lib)
    requires BranchOf(url) == ProxyParam
    requires lib.decode(Capture(url.value, "url=", {'&'}).value) == Some(path) && path != ""
    ensures var r := IncreaseImageResolution(lib, url, width);
      r.Some? && Capture(r.value, "url=", {'&'}).Some? && lib.decode(Capture(r.value, "url=", {'&'}).value) == Some(path)
  {
    ProxyUrlDecodes(lib, path, width);
  }

  /** The `/Sprites/` branch points the proxy at the sprite: its `url=` parameter decodes to `/Sprites/<path>`. */
  lemma SpriteRewriteKeepsPath(lib: UriLib, url: Option<string>, width: nat)
    requires CodecLaws(lib)
    requires BranchOf(url) == SpritePath
    ensures var r := IncreaseImageResolution(lib, url, width);
      var path := Capture(url.value, "/Sprites/", {'?', '&'}).value;
      r.Some? && Capture(r.value, "url=", {'&'}).Some? && lib.decode(Capture(r.value, "url=", {'&'}).value) == Some("/Sprites/" + path)
  {
    SpriteRewriteIsProxyUrl(lib, url, width);
    ProxyUrlDecodes(lib, "/Sprites/" + Capture(url.value, "/Sprites/", {'?', '&'}).value, width);
  }

  /** The `url=` parameter of a proxy URL built from a non-empty path decodes to that path. */
  lemma ProxyUrlDecodes(lib: UriLib, path: string, width: nat)
    requires CodecLaws(lib) && path != ""
    ensures var c := Capture(ProxyUrl(lib, path, width), "url=", {'&'});
      c.Some? && lib.decode(c.value) == Some(path)
  {
    ProxyUrlCapture(lib, path, width);
  }

  /** Under the codec laws the sprite rewrite is the proxy URL of the whole `/Sprites/…` path. */
  lemma SpriteRewriteIsProxyUrl(lib: UriLib, url: Option<string>, width: nat)
    requires CodecLaws(lib)
    requires BranchOf(url) == SpritePath
    ensures IncreaseImageResolution(lib, url, width)
         == Some(ProxyUrl(lib, "/Sprites/" + Capture(url.value, "/Sprites/", {'?', '&'}).value, width))
  {
    var path := Capture(url.value, "/Sprites/", {'?', '&'}).value;
    SpriteUrlIsProxyUrl(lib, path, width);
  }

  /** A proxy URL built from a non-empty path carries that path's encoding as its `url=` parameter. */
  lemma ProxyUrlCapture(lib: UriLib, path: string, width: nat)
    requires CodecLaws(lib) && path != ""
    ensures Capture(ProxyUrl(lib, path, width), "url=", {'&'}) == Some(lib.encode(path))
  {
    EncodeNonEmpty(lib, path);
    CaptureOfProxyUrl(lib.encode(path), SizeTail(width));
  }
}
