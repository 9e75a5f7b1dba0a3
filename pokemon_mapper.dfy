/**
 * Pokémon name mapping: from the token the site uses to the display name, and
 * from any spelling to the hyphenated file name of the project's images.
 */
module PokemonMapper {
  import opened Base
  import opened JsText

  /** `POKEMON_NAME_MAPPING[key]`: the display name for a site token, lower case. */
  function NameLookup(key: string): (r: Option<string>)
    ensures r.Some? ==> r.value in DisplayNames && |r.value| >= 5
  {
    match key
    case "raichu" => Some("Alolan Raichu")
    case "rapidash" => Some("Galarian Rapidash")
    case "ninetales" => Some("Alolan Ninetales")
    case "urshifu_rapid" => Some("Urshifu")
    case "hooh" => Some("Ho-Oh")
    case "meowscara" => Some("Meowscarada")
    case "charizardx" => Some("Mega Charizard")
    case "megalucario" => Some("Mega Lucario")
    case "mrmime" => Some("Mr. Mime")
    case "mr.mime" => Some("Mr. Mime")
    case "mr mime" => Some("Mr. Mime")
    case "mr. mime" => Some("Mr. Mime")
    case "mewtwox" => Some("Mewtwo X")
    case "mewtwoy" => Some("Mewtwo Y")
    case _ => None
  }

  /** The values of the name table. */
  const DisplayNames: set<string> := {
    "Alolan Raichu", "Galarian Rapidash", "Alolan Ninetales", "Urshifu", "Ho-Oh",
    "Meowscarada", "Mega Charizard", "Mega Lucario", "Mr. Mime", "Mewtwo X", "Mewtwo Y"
  }

  /** `POKEMON_IMAGE_NAME_MAPPING[key]`: the image file name for a spelling of a special Pokémon. */
  function ImageLookup(key: string): (r: Option<string>)
    ensures r.Some? ==> r.value in ImageNames
  {
    match key
    case "mr-mime" => Some("mr-mime")
    case "mr.mime" => Some("mr-mime")
    case "mr mime" => Some("mr-mime")
    case "mr. mime" => Some("mr-mime")
    case "mrmime" => Some("mr-mime")
    case "ho-oh" => Some("ho-oh")
    case "ho.oh" => Some("ho-oh")
    case "ho oh" => Some("ho-oh")
    case "hooh" => Some("ho-oh")
    case "mewtwox" => Some("mewtwox")
    case "mewtwoy" => Some("mewtwoy")
    case "mewtwo x" => Some("mewtwox")
    case "mewtwo y" => Some("mewtwoy")
    case "galarian-rapidash" => Some("galarian-rapidash")
    case "galarian.rapidash" => Some("galarian-rapidash")
    case "galarian rapidash" => Some("galarian-rapidash")
    case "rapidash" => Some("galarian-rapidash")
    case "alolan-ninetales" => Some("alolan-ninetales")
    case "alolan.ninetales" => Some("alolan-ninetales")
    case "alolan ninetales" => Some("alolan-ninetales")
    case "ninetales" => Some("alolan-ninetales")
    case "alolan-raichu" => Some("alolan-raichu")
    case "alolan.raichu" => Some("alolan-raichu")
    case "alolan raichu" => Some("alolan-raichu")
    case "raichu" => Some("alolan-raichu")
    case "urshifu_rapid" => Some("urshifu")
    case "urshifu-rapid" => Some("urshifu")
    case "urshifu rapid" => Some("urshifu")
    case "urshifu" => Some("urshifu")
    case "meowscara" => Some("meowscarada")
    case "meowscarada" => Some("meowscarada")
    case "charizardx" => Some("mega-charizard")
    case "mega-charizard" => Some("mega-charizard")
    case "mega.charizard" => Some("mega-charizard")
    case "mega charizard" => Some("mega-charizard")
    case "megalucario" => Some("mega-lucario")
    case "mega-lucario" => Some("mega-lucario")
    case "mega.lucario" => Some("mega-lucario")
    case "mega lucario" => Some("mega-lucario")
    case _ => None
  }

  /** The values of the image table. */
  const ImageNames: set<string> := {
    "mr-mime", "ho-oh", "mewtwox", "mewtwoy", "galarian-rapidash", "alolan-ninetales",
    "alolan-raichu", "urshifu", "meowscarada", "mega-charizard", "mega-lucario"
  }

  /** `name.toLowerCase().trim()` */
  function LookupKey(name: string): string {
    Trim(Lower(name))
  }

  /**
   * `mapPokemonName`: the display name for a known token (looked up lower-cased
   * and trimmed), otherwise the name exactly as given.
   */
  function MapPokemonName(name: string): (r: string)
    ensures name == "" ==> r == ""
    ensures name != "" ==> r != ""
    ensures r == name || r in DisplayNames
    ensures name != "" && NameLookup(LookupKey(name)).None? ==> r == name
    ensures name != "" && NameLookup(LookupKey(name)).Some? ==> r == NameLookup(LookupKey(name)).value
  {
    if name == "" then name
    else NameLookup(LookupKey(name)).GetOr(name)
  }

  /** Looking a name up trims it; a name with no white space at its ends is looked up as its lower case. */
  lemma LookupKeyOfTrimmed(v: string)
    requires |v| > 0 && !IsSpace(LowerChar(v[0])) && !IsSpace(LowerChar(v[|v| - 1]))
    ensures LookupKey(v) == Lower(v)
  {
  }

  /** A lower-case name told apart from every key of the name table by its length and first letters. */
  lemma NotNameKey(l: string)
    requires |l| >= 3
    requires || l[0] == 'a' || l[0] == 'g'
             || (l[0] == 'u' && |l| != 13)
             || (l[0] == 'h' && |l| != 4)
             || (l[0] == 'm' && |l| > 7 && |l| != 9 && (|l| == 8 ==> l[1] != 'r') && (|l| == 11 ==> l[2] != 'g'))
    ensures NameLookup(l).None?
  {
  }

  /** A display name other than Mr. Mime is not a key of the name table. */
  lemma DisplayNameNotKey(v: string)
    requires |v| >= 3 && IsUpperAscii(v[0]) && !IsUpperAscii(v[1]) && !IsUpperAscii(v[2])
    requires IsUpperAscii(v[|v| - 1]) || IsLowerAscii(v[|v| - 1])
    requires || v[0] == 'A' || v[0] == 'G'
             || (v[0] == 'U' && |v| != 13)
             || (v[0] == 'H' && |v| != 4)
             || (v[0] == 'M' && |v| > 7 && |v| != 9 && (|v| == 8 ==> v[1] != 'r') && (|v| == 11 ==> v[2] != 'g'))
    ensures MapPokemonName(v) == v
  {
    DisplayKey(v);
    NotNameKey(LookupKey(v));
  }

  /** The key a display name is looked up under keeps its length, lowers its initial and keeps the next two letters. */
  lemma DisplayKey(v: string)
    requires |v| >= 3 && IsUpperAscii(v[0]) && !IsUpperAscii(v[1]) && !IsUpperAscii(v[2])
    requires IsUpperAscii(v[|v| - 1]) || IsLowerAscii(v[|v| - 1])
    ensures |LookupKey(v)| == |v| && LookupKey(v)[0] == LowerChar(v[0])
    ensures LookupKey(v)[1] == v[1] && LookupKey(v)[2] == v[2]
    ensures v[0] == 'A' ==> LookupKey(v)[0] == 'a'
    ensures v[0] == 'G' ==> LookupKey(v)[0] == 'g'
    ensures v[0] == 'U' ==> LookupKey(v)[0] == 'u'
    ensures v[0] == 'H' ==> LookupKey(v)[0] == 'h'
    ensures v[0] == 'M' ==> LookupKey(v)[0] == 'm'
  {
    LookupKeyOfTrimmed(v);
    LowerInitial(v[0]);
  }

  /** The lower case of the initials the display names start with. */
  lemma LowerInitial(c: char)
    ensures c == 'A' ==> LowerChar(c) == 'a'
    ensures c == 'G' ==> LowerChar(c) == 'g'
    ensures c == 'U' ==> LowerChar(c) == 'u'
    ensures c == 'H' ==> LowerChar(c) == 'h'
    ensures c == 'M' ==> LowerChar(c) == 'm'
  {
  }

  lemma NameValueStable(v: string)
    requires v in DisplayNames
    ensures MapPokemonName(v) == v
  {
    if v == "Mr. Mime" {
      MrMimeNameStable(v);
    } else if v == "Alolan Raichu" || v == "Alolan Ninetales" || v == "Galarian Rapidash" {
      DisplayNameNotKey(v);
    } else if v == "Urshifu" || v == "Ho-Oh" {
      DisplayNameNotKey(v);
    } else if v == "Meowscarada" || v == "Mega Charizard" || v == "Mega Lucario" {
      DisplayNameNotKey(v);
    } else {
      assert v == "Mewtwo X" || v == "Mewtwo Y";
      DisplayNameNotKey(v);
    }
  }

  lemma MrMimeNameStable(v: string)
    requires v == "Mr. Mime"
    ensures MapPokemonName(v) == v
  {
    MrMimeLower(v);
    LookupKeyOfTrimmed(v);
    MrMimeLookup();
  }

  lemma MrMimeLower(v: string)
    requires v == "Mr. Mime"
    ensures Lower(v) == "mr. mime"
  {
    var l := Lower(v);
    assert LowerChar('M') == 'm';
    assert forall i :: 0 <= i < |v| && i != 0 && i != 4 ==> !IsUpperAscii(v[i]);
    assert forall i :: 0 <= i < |v| ==> l[i] == "mr. mime"[i];
  }

  lemma MrMimeLookup()
    ensures NameLookup("mr. mime") == Some("Mr. Mime")
  {
  }

  /** Mapping a display name again changes nothing: the display names are fixed points. */
  lemma MapPokemonNameIdempotent(name: string)
    ensures MapPokemonName(MapPokemonName(name)) == MapPokemonName(name)
  {
    var r := MapPokemonName(name);
    if r != name {
      NameValueStable(r);
    }
  }

  // ---------------------------------------------------------------------------
  // Image file names
  // ---------------------------------------------------------------------------

  /** `.replace(/^-|-$/g, "")` */
  function StripHyphenEnds(s: string): (r: string)
    ensures exists a, b :: 0 <= a <= b <= |s| && r == s[a..b]
  {
    var t := if |s| > 0 && s[0] == '-' then s[1..] else s;
    var a := if |s| > 0 && s[0] == '-' then 1 else 0;
    assert t == s[a..|s|];
    if |t| > 0 && t[|t| - 1] == '-' then
      assert t[..|t| - 1] == s[a..|s| - 1];
      t[..|t| - 1]
    else t
  }

  /** The hyphenated form: runs of dots and white space, then runs of hyphens, become one hyphen; end hyphens go. */
  function NormalizeImageName(lowerName: string): string {
    StripHyphenEnds(ReplaceRuns(ReplaceRuns(lowerName, DotOrSpace, "-"), Hyphen, "-"))
  }

  predicate NoDoubleHyphen(s: string) {
    forall i :: 0 <= i < |s| - 1 ==> s[i] != '-' || s[i + 1] != '-'
  }

  /** The shape of a fallback image name: lower case, no dot or white space, single hyphens only inside. */
  predicate ImageNameShaped(s: string) {
    && NoUpper(s)
    && NoneIn(s, DotOrSpace)
    && NoDoubleHyphen(s)
    && (s == [] || (s[0] != '-' && s[|s| - 1] != '-'))
  }

  /**
   * `mapPokemonImageName`: a table hit on the lower-cased name, on its
   * hyphenated form or on that form without hyphens; else `mr-mime` for any
   * Mr. Mime spelling; else the hyphenated form.
   */
  function MapPokemonImageName(name: string): (r: string)
    ensures r in ImageNames || ImageNameShaped(r)
    ensures IsFallback(name) && !MentionsMrMime(name) ==> r == NormalizeImageName(LookupKey(name))
  {
    if name == "" then name
    else
      var lowerName := LookupKey(name);
      if ImageLookup(lowerName).Some? then ImageLookup(lowerName).value
      else
        var normalized := NormalizeImageName(lowerName);
        if ImageLookup(normalized).Some? then ImageLookup(normalized).value
        else
          var withoutHyphens := RemoveClass(normalized, Hyphen);
          if ImageLookup(withoutHyphens).Some? then ImageLookup(withoutHyphens).value
          else if normalized == "mr-mime" || withoutHyphens == "mrmime" || MentionsMrMime(name) then "mr-mime"
          else
            LookupKeyNoUpper(name);
            NormalizedShaped(lowerName);
            normalized
  }

  /** `lowerName.includes("mime") && lowerName.includes("mr")` */
  predicate MentionsMrMime(name: string) {
    Contains(LookupKey(name), "mime") && Contains(LookupKey(name), "mr")
  }

  /** `MapPokemonImageName` finds no table entry and the hyphenated form is not spelled `mr-mime`. */
  predicate IsFallback(name: string) {
    var lowerName := LookupKey(name);
    var normalized := NormalizeImageName(lowerName);
    var withoutHyphens := RemoveClass(normalized, Hyphen);
    && name != ""
    && ImageLookup(lowerName).None?
    && ImageLookup(normalized).None?
    && ImageLookup(withoutHyphens).None?
    && normalized != "mr-mime"
    && withoutHyphens != "mrmime"
  }

  lemma LookupKeyNoUpper(name: string)
    ensures NoUpper(LookupKey(name))
  {
    var l := Lower(name);
    var t := Trim(l);
    forall i | 0 <= i < |t|
      ensures !IsUpperAscii(t[i])
    {
      var j :| 0 <= j < |l| && l[j] == t[i];
    }
  }

  // --- shape of the hyphenated form -------------------------------------------

  lemma {:induction false} CollapseHyphens(s: string)
    ensures var r := ReplaceRuns(s, Hyphen, "-");
      NoDoubleHyphen(r) && ((|r| > 0 && r[0] == '-') <==> (|s| > 0 && s[0] == '-'))
    decreases |s|
  {
    if s != [] {
      if s[0] == '-' {
        var n := ClassRun(s, Hyphen);
        CollapseHyphens(s[n..]);
      } else {
        CollapseHyphens(s[1..]);
      }
    }
  }

  lemma ReplacedNoneIn(s: string, k: CharClass, rep: string, other: CharClass)
    requires NoneIn(s, other) && NoneIn(rep, other)
    ensures NoneIn(ReplaceRuns(s, k, rep), other)
  {
    var r := ReplaceRuns(s, k, rep);
    forall i | 0 <= i < |r|
      ensures !InClass(r[i], other)
    {
      if r[i] in s {
        var j :| 0 <= j < |s| && s[j] == r[i];
      } else {
        var j :| 0 <= j < |rep| && rep[j] == r[i];
      }
    }
  }

  lemma ReplacedNoUpper(s: string, k: CharClass)
    requires NoUpper(s)
    ensures NoUpper(ReplaceRuns(s, k, "-"))
  {
    var r := ReplaceRuns(s, k, "-");
    forall i | 0 <= i < |r|
      ensures !IsUpperAscii(r[i])
    {
      if r[i] in s {
        var j :| 0 <= j < |s| && s[j] == r[i];
      }
    }
  }

  lemma ReplacedNoneInSelf(s: string, k: CharClass)
    requires !InClass('-', k)
    ensures NoneIn(ReplaceRuns(s, k, "-"), k)
    decreases |s|
  {
    if s != [] {
      if InClass(s[0], k) {
        ReplacedNoneInSelf(s[ClassRun(s, k)..], k);
      } else {
        ReplacedNoneInSelf(s[1..], k);
      }
    }
  }

  /** Dropping one end hyphen from each end of a name without double hyphens leaves none at the ends. */
  lemma StripShaped(s: string)
    requires NoUpper(s) && NoneIn(s, DotOrSpace) && NoDoubleHyphen(s)
    ensures ImageNameShaped(StripHyphenEnds(s))
  {
    var t := if |s| > 0 && s[0] == '-' then s[1..] else s;
    var r := StripHyphenEnds(s);
    assert r == if |t| > 0 && t[|t| - 1] == '-' then t[..|t| - 1] else t;
    assert t == [] || t[0] != '-';
    assert |r| <= |t| && forall i :: 0 <= i < |r| ==> r[i] == t[i];
    if |r| > 0 && r != t {
      assert r[|r| - 1] == t[|t| - 2];
    }
  }

  /** The hyphenated form of a lower-case name has the fallback shape. */
  lemma NormalizedShaped(lowerName: string)
    requires NoUpper(lowerName)
    ensures ImageNameShaped(NormalizeImageName(lowerName))
  {
    var r1 := ReplaceRuns(lowerName, DotOrSpace, "-");
    ReplacedNoneInSelf(lowerName, DotOrSpace);
    ReplacedNoUpper(lowerName, DotOrSpace);
    ReplacedNoneIn(r1, Hyphen, "-", DotOrSpace);
    ReplacedNoUpper(r1, Hyphen);
    CollapseHyphens(r1);
    StripShaped(ReplaceRuns(r1, Hyphen, "-"));
  }

  // --- the hyphenated form is stable on shaped names ---------------------------

  lemma {:induction false} CollapseIdentity(s: string)
    requires NoDoubleHyphen(s)
    ensures ReplaceRuns(s, Hyphen, "-") == s
    decreases |s|
  {
    if s != [] {
      if s[0] == '-' {
        assert ClassRun(s, Hyphen) == 1 by {
          if |s| > 1 {
            assert s[1] != '-';
          }
        }
      }
      CollapseIdentity(s[1..]);
    }
  }

  lemma NormalizeShapedIdentity(s: string)
    requires ImageNameShaped(s)
    ensures NormalizeImageName(s) == s
  {
    ReplaceRunsOfClean(s, DotOrSpace, "-");
    CollapseIdentity(s);
  }

  // --- words without hyphens survive backwards ---------------------------------

  lemma {:induction false} ContainsSuffix(s: string, n: nat, w: string)
    requires n <= |s| && Contains(s[n..], w)
    ensures Contains(s, w)
  {
    if n > 0 {
      assert s[1..][n - 1..] == s[n..];
      ContainsSuffix(s[1..], n - 1, w);
    }
  }

  lemma {:induction false} StartsWithBack(s: string, k: CharClass, w: string)
    requires NoneIn(w, k) && '-' !in w
    requires StartsWith(ReplaceRuns(s, k, "-"), w)
    ensures StartsWith(s, w)
    decreases |s|
  {
    if w != [] {
      assert s != [];
      ReplacedHead(s, k);
      assert w[0] != '-';
      StartsWithTail(s, k, w);
      assert NoneIn(w[1..], k) && '-' !in w[1..];
      StartsWithBack(s[1..], k, w[1..]);
      StartsWithCons(s, w);
    }
  }

  /** A replaced string that starts with `w` and keeps its first character starts with the rest of `w` after it. */
  lemma StartsWithTail(s: string, k: CharClass, w: string)
    requires s != [] && w != [] && !InClass(s[0], k)
    requires StartsWith(ReplaceRuns(s, k, "-"), w)
    ensures s[0] == w[0] && StartsWith(ReplaceRuns(s[1..], k, "-"), w[1..])
  {
    ReplacedHead(s, k);
    var rest := ReplaceRuns(s[1..], k, "-");
    assert ReplaceRuns(s, k, "-") == [s[0]] + rest;
    assert rest[..|w| - 1] == ReplaceRuns(s, k, "-")[1..|w|] == w[1..];
  }

  lemma StartsWithCons(s: string, w: string)
    requires s != [] && w != [] && s[0] == w[0] && StartsWith(s[1..], w[1..])
    ensures StartsWith(s, w)
  {
    assert s[..|w|] == [s[0]] + s[1..][..|w| - 1];
  }

  /** The first character after replacing runs: a hyphen for a run, else the character itself followed by the rest. */
  lemma ReplacedHead(s: string, k: CharClass)
    requires s != []
    ensures var r := ReplaceRuns(s, k, "-");
      && r != [] && r[0] == (if InClass(s[0], k) then '-' else s[0])
      && (!InClass(s[0], k) ==> r == [s[0]] + ReplaceRuns(s[1..], k, "-"))
  {
  }

  lemma {:induction false} ContainsBack(s: string, k: CharClass, w: string)
    requires |w| > 0 && NoneIn(w, k) && '-' !in w
    requires Contains(ReplaceRuns(s, k, "-"), w)
    ensures Contains(s, w)
    decreases |s|
  {
    var r := ReplaceRuns(s, k, "-");
    if StartsWith(r, w) {
      StartsWithBack(s, k, w);
    } else {
      assert s != [];
      if InClass(s[0], k) {
        var n := ClassRun(s, k);
        assert r[1..] == ReplaceRuns(s[n..], k, "-");
        ContainsBack(s[n..], k, w);
        ContainsSuffix(s, n, w);
      } else {
        assert r[1..] == ReplaceRuns(s[1..], k, "-");
        ContainsBack(s[1..], k, w);
      }
    }
  }

  lemma ContainsInfix(s: string, a: nat, b: nat, w: string)
    requires a <= b <= |s| && Contains(s[a..b], w)
    ensures Contains(s, w)
  {
    ContainsInPrefix(s[a..b], s[b..], w);
    assert s[a..b] + s[b..] == s[a..];
    ContainsSuffix(s, a, w);
  }

  /** A word of letters found in the hyphenated form was already in the name. */
  lemma NormalizedContainsBack(lowerName: string, w: string)
    requires |w| > 0 && NoneIn(w, DotOrSpace) && '-' !in w
    requires Contains(NormalizeImageName(lowerName), w)
    ensures Contains(lowerName, w)
  {
    var r1 := ReplaceRuns(lowerName, DotOrSpace, "-");
    var r2 := ReplaceRuns(r1, Hyphen, "-");
    var a, b :| 0 <= a <= b <= |r2| && StripHyphenEnds(r2) == r2[a..b];
    ContainsInfix(r2, a, b, w);
    assert NoneIn(w, Hyphen);
    ContainsBack(r1, Hyphen, w);
    ContainsBack(lowerName, DotOrSpace, w);
  }

  // --- the image table ---------------------------------------------------------

  /** Every file name of the image table is also a key that maps to itself. */
  lemma ImageNamesFixed(v: string)
    requires v in ImageNames
    ensures ImageLookup(v) == Some(v)
  {
  }

  /** Lower-case letters and hyphens only. */
  predicate LowerOrHyphen(v: string) {
    forall i :: 0 <= i < |v| ==> IsLowerAscii(v[i]) || v[i] == '-'
  }

  /** Every file name of the image table is written in lower-case letters and hyphens. */
  lemma ImageNamesLower(v: string)
    requires v in ImageNames
    ensures LowerOrHyphen(v)
  {
  }

  lemma LowerOrHyphenKey(v: string)
    requires LowerOrHyphen(v)
    ensures LookupKey(v) == v
  {
    LowerOfLower(v);
    TrimNoSpace(v);
  }

  lemma ShapedKey(v: string)
    requires ImageNameShaped(v)
    ensures LookupKey(v) == v
  {
    LowerOfLower(v);
    assert NoSpace(v) by {
      forall i | 0 <= i < |v|
        ensures !IsSpace(v[i])
      {
        assert !InClass(v[i], DotOrSpace);
      }
    }
    TrimNoSpace(v);
  }

  lemma ImageValueStable(v: string)
    requires v in ImageNames
    ensures MapPokemonImageName(v) == v
  {
    ImageNamesLower(v);
    LowerOrHyphenKey(v);
    ImageNamesFixed(v);
  }

  /** On a name that finds no table entry, any Mr. Mime spelling still gives `mr-mime`. */
  lemma MrMimeFallback(name: string)
    requires IsFallback(name) && MentionsMrMime(name)
    ensures MapPokemonImageName(name) == "mr-mime"
  {
  }

  lemma MrMimeBack(lowerName: string, w: string)
    requires w == "mime" || w == "mr"
    requires Contains(NormalizeImageName(lowerName), w)
    ensures Contains(lowerName, w)
  {
    assert NoneIn(w, DotOrSpace) && '-' !in w;
    NormalizedContainsBack(lowerName, w);
  }

  /** A fallback result is returned unchanged by a second call. */
  lemma FallbackStable(name: string)
    requires IsFallback(name) && !MentionsMrMime(name)
    ensures MapPokemonImageName(MapPokemonImageName(name)) == MapPokemonImageName(name)
  {
    var lowerName := LookupKey(name);
    var r := NormalizeImageName(lowerName);
    assert MapPokemonImageName(name) == r;
    if r != "" {
      LookupKeyNoUpper(name);
      NormalizedShaped(lowerName);
      ShapedKey(r);
      NormalizeShapedIdentity(r);
      if MentionsMrMime(r) {
        MrMimeBack(lowerName, "mime");
        MrMimeBack(lowerName, "mr");
      }
      assert IsFallback(r);
    }
  }

  /** `mapPokemonImageName` is idempotent. */
  lemma MapPokemonImageNameIdempotent(name: string)
    ensures MapPokemonImageName(MapPokemonImageName(name)) == MapPokemonImageName(name)
  {
    var r := MapPokemonImageName(name);
    if r in ImageNames {
      ImageValueStable(r);
    } else if name != "" {
      FallbackStable(name);
    }
  }

  // ---------------------------------------------------------------------------
  // Display names and image paths
  // ---------------------------------------------------------------------------

  /** `s.charAt(0).toUpperCase() + s.slice(1).toLowerCase()` */
  function Capitalize(s: string): (r: string)
    ensures |r| == |s|
    ensures |s| > 0 ==> !IsLowerAscii(r[0]) && NoUpper(r[1..])
    ensures Lower(r) == Lower(s)
  {
    if s == [] then []
    else
      CapitalizeSameLetters(s);
      [UpperChar(s[0])] + Lower(s[1..])
  }

  /** Capitalising changes only letter case: the letters, lower-cased, are those of `s`. */
  lemma CapitalizeSameLetters(s: string)
    requires s != []
    ensures Lower([UpperChar(s[0])] + Lower(s[1..])) == Lower(s)
  {
    var r := [UpperChar(s[0])] + Lower(s[1..]);
    forall i | 0 <= i < |s|
      ensures LowerChar(r[i]) == LowerChar(s[i])
    {
      if i == 0 {
        assert r[0] == UpperChar(s[0]);
      } else {
        assert r[i] == LowerChar(s[i]);
      }
    }
  }

  /** `normalizePokemonName`: "unknown" for no name, else the mapped name capitalised. */
  function NormalizePokemonName(name: string): (r: string)
    ensures name == "" || name == "unknown" ==> r == "unknown"
    ensures name != "" && name != "unknown" ==>
      |r| == |MapPokemonName(name)| > 0 && !IsLowerAscii(r[0]) && NoUpper(r[1..])
    ensures name != "" && name != "unknown" ==> Lower(r) == Lower(MapPokemonName(name))
  {
    if name == "" || name == "unknown" then "unknown"
    else Capitalize(MapPokemonName(name))
  }

  /** The special cases of `getFormattedPokemonName`, looked up by the lower-cased mapped name. */
  function SpecialDisplayName(lowerFormatted: string): Option<string> {
    match lowerFormatted
    case "mr. mime" => Some("Mr. Mime")
    case "ho-oh" => Some("Ho-Oh")
    case "alolan raichu" => Some("Alolan Raichu")
    case "alolan ninetales" => Some("Alolan Ninetales")
    case "galarian rapidash" => Some("Galarian Rapidash")
    case "mega charizard" => Some("Mega Charizard")
    case "mega lucario" => Some("Mega Lucario")
    case "mewtwo x" => Some("Mewtwo X")
    case "mewtwo y" => Some("Mewtwo Y")
    case _ => None
  }

  function CapitalizeAll(words: seq<string>): (r: seq<string>)
    ensures |r| == |words|
    ensures forall j :: 0 <= j < |words| ==> r[j] == Capitalize(words[j])
  {
    seq(|words|, j requires 0 <= j < |words| => Capitalize(words[j]))
  }

  /** The separator the words are joined with: a hyphen when the mapped name has one, else a space. */
  function WordSeparator(formatted: string): char {
    if '-' in formatted then '-' else ' '
  }

  /**
   * `getFormattedPokemonName`: the special-case spelling of the mapped name,
   * otherwise its words (split on runs of white space and hyphens) capitalised
   * and joined with `-` when the mapped name has a hyphen, else with a space.
   */
  function FormattedPokemonName(name: string): (r: string)
    ensures name == "" || name == "unknown" ==> r == "unknown"
    ensures name != "" && name != "unknown" && SpecialDisplayName(Lower(MapPokemonName(name))).Some? ==>
      r == SpecialDisplayName(Lower(MapPokemonName(name))).value
  {
    if name == "" || name == "unknown" then "unknown"
    else
      var formatted := MapPokemonName(name);
      match SpecialDisplayName(Lower(formatted))
      case Some(special) => special
      case None => Join(CapitalizeAll(SplitRuns(formatted, SpaceOrHyphen)), [WordSeparator(formatted)])
  }

  /**
   * Outside the special cases, splitting the formatted name at its separator
   * gives back exactly the capitalised words of the mapped name.
   */
  lemma FormattedWords(name: string)
    requires name != "" && name != "unknown"
    requires SpecialDisplayName(Lower(MapPokemonName(name))).None?
    ensures var parts := SplitRuns(MapPokemonName(name), SpaceOrHyphen);
      && Split(FormattedPokemonName(name), WordSeparator(MapPokemonName(name))) == CapitalizeAll(parts)
      && (forall j :: 0 <= j < |parts| ==> NoneIn(parts[j], SpaceOrHyphen))
  {
    var parts := SplitRuns(MapPokemonName(name), SpaceOrHyphen);
    var words := CapitalizeAll(parts);
    var sep := WordSeparator(MapPokemonName(name));
    forall j | 0 <= j < |words|
      ensures sep !in words[j]
    {
      CapitalizeKeepsClass(parts[j]);
      assert InClass(sep, SpaceOrHyphen);
    }
    SplitOfJoin(words, sep);
  }

  lemma CapitalizeKeepsClass(s: string)
    requires NoneIn(s, SpaceOrHyphen)
    ensures NoneIn(Capitalize(s), SpaceOrHyphen)
  {
  }

  /** `getPokemonImagePath(name, imageType)` */
  function PokemonImagePath(name: string, imageType: string): (r: string)
    ensures name == "" || name == "unknown" ==> r == "/pokemons/roster-unknown.png"
    ensures name != "" && name != "unknown" ==>
      r == "/pokemons/" + imageType + "-" + MapPokemonImageName(name) + ".png"
  {
    if name == "" || name == "unknown" then "/pokemons/roster-unknown.png"
    else "/pokemons/" + imageType + "-" + MapPokemonImageName(name) + ".png"
  }

  /** The image type `getPokemonImagePath` uses when none is given. */
  const DefaultImageType: string := "roster"

  /** `getPokemonImagePath(name)`, with the default image type, always gives a roster image. */
  lemma DefaultTypeIsRoster(name: string)
    ensures StartsWith(PokemonImagePath(name, DefaultImageType), "/pokemons/roster-")
  {
    var dir := "/pokemons/" + DefaultImageType + "-";
    assert dir == "/pokemons/roster-";
    if name == "" || name == "unknown" {
      PrefixStart(dir, "unknown.png");
      assert dir + "unknown.png" == "/pokemons/roster-unknown.png";
    } else {
      PrefixStart3(dir, MapPokemonImageName(name), ".png");
    }
  }

  lemma PrefixStart3(a: string, b: string, c: string)
    ensures StartsWith(a + b + c, a)
  {
    assert (a + b + c)[..|a|] == a;
  }

  lemma PrefixStart(a: string, b: string)
    ensures StartsWith(a + b, a)
  {
    assert (a + b)[..|a|] == a;
  }
}
