/**
 * `PokemonData`: an index of the loaded Pokémon entries, built once by
 * `loadPokemonsData` into two maps (by exact name, and by normalised name and
 * its variations), then read through a fixed cascade of lookups and the image
 * path helpers built on it. Whether `PokemonMapper` and `ItemMapper` are
 * loaded in the page is a parameter.
 */
module PokemonData {
  import opened Base
  import opened JsText
  import PokemonMapper
  import ItemMapper

  /** One entry of the loaded data: its name and, when present, its `images` table. */
  datatype Pokemon = Pokemon(name: string, images: Option<map<string, string>>)

  // ---------------------------------------------------------------------------
  // Names and their variations
  // ---------------------------------------------------------------------------

  /** `normalizeName`: lower case, trimmed, everything outside `[a-z0-9]` dropped. */
  function NormalizeName(name: string): (r: string)
    ensures ItemMapper.LowerAlnumOnly(r)
    ensures name == "" ==> r == ""
  {
    if name == "" then "" else RemoveClass(Trim(Lower(name)), NotLowerAlnum)
  }

  lemma LowerAlnumIsPlain(s: string)
    requires ItemMapper.LowerAlnumOnly(s)
    ensures NoUpper(s) && NoSpace(s)
  {
    forall i | 0 <= i < |s|
      ensures !IsUpperAscii(s[i]) && !IsSpace(s[i])
    {
      assert !InClass(s[i], NotLowerAlnum);
    }
  }

  /** A normalised name normalises to itself. */
  lemma NormalizeNameIdempotent(name: string)
    ensures NormalizeName(NormalizeName(name)) == NormalizeName(name)
  {
    var r := NormalizeName(name);
    if r != "" {
      LowerAlnumIsPlain(r);
      LowerOfLower(r);
      TrimNoSpace(r);
      RemoveClassOfClean(r, NotLowerAlnum);
    }
  }

  /** The extra spellings `getPokemonNameVariations` knows for four names. */
  function SpecialVariations(name: string): seq<string> {
    match name
    case "Mr. Mime" => ["mrmime", "mr mime"]
    case "Mewtwo X" => ["mewtwox"]
    case "Mewtwo Y" => ["mewtwoy"]
    case "Ho-Oh" => ["hooh"]
    case _ => []
  }

  /**
   * `getPokemonNameVariations`: the normalised name; for a name with a space,
   * its white-space runs turned into `-` and dropped; for a name with a hyphen,
   * its hyphens turned into spaces and dropped; then the special spellings.
   */
  function Variations(name: string): (r: seq<string>)
    ensures |r| >= 1 && r[0] == NormalizeName(name)
    ensures |r| == 1 + (if ' ' in name then 2 else 0) + (if '-' in name then 2 else 0) + |SpecialVariations(name)|
  {
    var lower := Lower(name);
    [NormalizeName(name)]
      + (if ' ' in name then [ReplaceRuns(lower, Space, "-"), ReplaceRuns(lower, Space, "")] else [])
      + (if '-' in name then [ReplaceChar(lower, '-', ' '), RemoveClass(lower, Hyphen)] else [])
      + SpecialVariations(name)
  }

  /** A name without a space or a hyphen, and not one of the four special ones, has only its normalised form. */
  lemma PlainNameVariations(name: string)
    requires ' ' !in name && '-' !in name && SpecialVariations(name) == []
    ensures Variations(name) == [NormalizeName(name)]
  {
  }

  // ---------------------------------------------------------------------------
  // The index as loading leaves it
  // ---------------------------------------------------------------------------

  /** `keys.forEach(k => m.set(k, p))` */
  function SetAll(m: map<string, Pokemon>, keys: seq<string>, p: Pokemon): map<string, Pokemon>
    decreases |keys|
  {
    if keys == [] then m
    else
      var n := |keys| - 1;
      SetAll(m, keys[..n], p)[keys[n] := p]
  }

  /** After storing under `keys`, every key maps to `p`, and every other key keeps its entry. */
  lemma {:induction false} SetAllSpec(m: map<string, Pokemon>, keys: seq<string>, p: Pokemon)
    ensures forall k :: k in SetAll(m, keys, p) <==> k in m || k in keys
    ensures forall k :: k in keys ==> SetAll(m, keys, p)[k] == p
    ensures forall k :: k !in keys && k in m ==> SetAll(m, keys, p)[k] == m[k]
    decreases |keys|
  {
    if keys != [] {
      var n := |keys| - 1;
      assert forall k :: k in keys <==> k in keys[..n] || k == keys[n];
      SetAllSpec(m, keys[..n], p);
    }
  }

  /** Storing under a first key and then under the rest is storing under all of them. */
  lemma {:induction false} SetAllCons(m: map<string, Pokemon>, k: string, keys: seq<string>, p: Pokemon)
    ensures SetAll(m[k := p], keys, p) == SetAll(m, [k] + keys, p)
    decreases |keys|
  {
    if keys == [] {
      assert ([k] + keys)[..0] == [];
    } else {
      var n := |keys| - 1;
      SetAllCons(m, k, keys[..n], p);
      assert ([k] + keys)[..n + 1] == [k] + keys[..n];
    }
  }

  /** What loading `data` in order into `m` leaves, when entry `p` is stored under each of `keysOf(p)`. */
  function Indexed(m: map<string, Pokemon>, data: seq<Pokemon>, keysOf: Pokemon -> seq<string>): map<string, Pokemon>
    decreases |data|
  {
    if data == [] then m
    else
      var n := |data| - 1;
      SetAll(Indexed(m, data[..n], keysOf), keysOf(data[n]), data[n])
  }

  /** The key of `pokemonsByName`. */
  function NameKeys(p: Pokemon): seq<string> {
    [p.name]
  }

  /** The keys of `pokemonsByNormalizedName`: the normalised name, then every variation. */
  function NormalizedKeys(p: Pokemon): seq<string> {
    [NormalizeName(p.name)] + Variations(p.name)
  }

  /** Entry `i` stores key `k`, and no later entry does. */
  predicate LastWriter(data: seq<Pokemon>, keysOf: Pokemon -> seq<string>, k: string, i: int) {
    0 <= i < |data| && k in keysOf(data[i]) && forall j :: i < j < |data| ==> k !in keysOf(data[j])
  }

  /**
   * Loading is last-writer-wins: a key some entry stores maps to the last entry
   * that stores it; a key no entry stores keeps what the map held before.
   */
  lemma {:induction false} IndexLastWriter(m: map<string, Pokemon>, data: seq<Pokemon>, keysOf: Pokemon -> seq<string>, k: string)
    ensures (exists i :: 0 <= i < |data| && k in keysOf(data[i])) ==>
      && k in Indexed(m, data, keysOf)
      && exists i :: LastWriter(data, keysOf, k, i) && Indexed(m, data, keysOf)[k] == data[i]
    ensures (forall i :: 0 <= i < |data| ==> k !in keysOf(data[i])) ==>
      && (k in Indexed(m, data, keysOf) <==> k in m)
      && (k in m ==> Indexed(m, data, keysOf)[k] == m[k])
    decreases |data|
  {
    if data != [] {
      var n := |data| - 1;
      var front := data[..n];
      assert forall j :: 0 <= j < n ==> front[j] == data[j];
      IndexLastWriter(m, front, keysOf, k);
      SetAllSpec(Indexed(m, front, keysOf), keysOf(data[n]), data[n]);
      if k in keysOf(data[n]) {
        assert LastWriter(data, keysOf, k, n);
      } else if exists i :: 0 <= i < n && k in keysOf(front[i]) {
        var i :| LastWriter(front, keysOf, k, i) && Indexed(m, front, keysOf)[k] == front[i];
        assert LastWriter(data, keysOf, k, i);
      } else {
        assert forall i :: 0 <= i < |data| ==> k !in keysOf(data[i]);
      }
    }
  }

  // ---------------------------------------------------------------------------
  // Lookups
  // ---------------------------------------------------------------------------

  /** One step of the lookup cascade: a key in one of the two maps. */
  datatype Probe = InByName(key: string) | InByNormalized(key: string)

  /** The variations looked up, in order, in the normalised map. */
  function NormalizedProbes(keys: seq<string>): (r: seq<Probe>)
    ensures |r| == |keys|
    ensures forall i :: 0 <= i < |keys| ==> r[i] == InByNormalized(keys[i])
  {
    seq(|keys|, i requires 0 <= i < |keys| => InByNormalized(keys[i]))
  }

  /** The name the cascade starts from: `PokemonMapper.mapPokemonName(name)` when the mapper is loaded. */
  function MappedName(name: string, mapper: bool): string {
    if mapper then PokemonMapper.MapPokemonName(name) else name
  }

  /**
   * The order `getPokemonByName` tries: the mapped name and the original name
   * exactly, the normalised mapped name, then the variations of the mapped name
   * and of the original name.
   */
  function Probes(name: string, mapper: bool): seq<Probe> {
    var mappedName := MappedName(name, mapper);
    [InByName(mappedName), InByName(name), InByNormalized(NormalizeName(mappedName))]
      + (NormalizedProbes(Variations(mappedName)) + NormalizedProbes(Variations(name)))
  }

  /** The path of a Pokémon image when the data has none: `main`, `big`, anything else. */
  function FallbackImagePath(fileName: string, imageType: string): (r: string)
    ensures r != ""
  {
    if imageType == "main" then "/pokemons/roster-" + fileName + ".png"
    else if imageType == "big" then "/pokemons/roster-" + fileName + "-2x.png"
    else "/pokemons/stat-" + fileName + ".png"
  }

  /** `images[key]` when it is a non-empty string. */
  function Truthy(images: map<string, string>, key: string): (r: Option<string>)
    ensures r.Some? ==> key in images && r.value == images[key] && r.value != ""
    ensures r.None? ==> key !in images || images[key] == ""
  {
    if key in images && images[key] != "" then Some(images[key]) else None
  }

  /** The image key a type selects: `main` and `big` as given, anything else `complete`. */
  function ImageKey(imageType: string): (k: string)
    ensures k == "main" || k == "big" || k == "complete"
    ensures imageType == "main" || imageType == "big" || imageType == "complete" ==> k == imageType
  {
    if imageType == "main" then "main" else if imageType == "big" then "big" else "complete"
  }

  /** The fallback file name without `PokemonMapper`: lower case, white-space runs as `-`, `unknown` for no name. */
  function PlainFileName(pokemonName: string): string {
    ReplaceRuns(Lower(if pokemonName == "" then "unknown" else pokemonName), Space, "-")
  }

  class PokemonIndex {
    /** Declared by the source and never written. */
    var pokemonsMap: map<string, Pokemon>
    var pokemonsByName: map<string, Pokemon>
    var pokemonsByNormalizedName: map<string, Pokemon>

    /** Builds the index from `window.pokemonsData` when the page defines it, else leaves it empty. */
    constructor(pokemonsData: Option<seq<Pokemon>>)
      ensures pokemonsMap == map[]
      ensures pokemonsByName == if pokemonsData.Some? then Indexed(map[], pokemonsData.value, NameKeys) else map[]
      ensures pokemonsByNormalizedName ==
        if pokemonsData.Some? then Indexed(map[], pokemonsData.value, NormalizedKeys) else map[]
    {
      pokemonsMap := map[];
      pokemonsByName := map[];
      pokemonsByNormalizedName := map[];
      new;
      if pokemonsData.Some? {
        LoadPokemonsData(pokemonsData.value);
      }
    }

    /**
     * `loadPokemonsData`: each entry in turn is stored under its name, and under
     * its normalised name and each of its variations.
     */
    method LoadPokemonsData(pokemonsData: seq<Pokemon>)
      modifies this
      ensures pokemonsByName == Indexed(old(pokemonsByName), pokemonsData, NameKeys)
      ensures pokemonsByNormalizedName == Indexed(old(pokemonsByNormalizedName), pokemonsData, NormalizedKeys)
      ensures pokemonsMap == old(pokemonsMap)
    {
      for i := 0 to |pokemonsData|
        invariant pokemonsByName == Indexed(old(pokemonsByName), pokemonsData[..i], NameKeys)
        invariant pokemonsByNormalizedName == Indexed(old(pokemonsByNormalizedName), pokemonsData[..i], NormalizedKeys)
        invariant pokemonsMap == old(pokemonsMap)
      {
        assert pokemonsData[..i + 1][..i] == pokemonsData[..i];
        LoadPokemon(pokemonsData[i]);
      }
      assert pokemonsData[..|pokemonsData|] == pokemonsData;
    }

    /** The body of the loading loop: store one entry under its name, its normalised name and its variations. */
    method LoadPokemon(pokemon: Pokemon)
      modifies this
      ensures pokemonsByName == SetAll(old(pokemonsByName), NameKeys(pokemon), pokemon)
      ensures pokemonsByNormalizedName == SetAll(old(pokemonsByNormalizedName), NormalizedKeys(pokemon), pokemon)
      ensures pokemonsMap == old(pokemonsMap)
    {
      pokemonsByName := pokemonsByName[pokemon.name := pokemon];
      assert [pokemon.name][..0] == [];
      var normalized := NormalizeName(pokemon.name);
      pokemonsByNormalizedName := pokemonsByNormalizedName[normalized := pokemon];
      var variations := Variations(pokemon.name);
      StoreVariations(variations, pokemon);
      SetAllCons(old(pokemonsByNormalizedName), normalized, variations, pokemon);
    }

    /** The inner loop of `loadPokemonsData`: store the entry under each variation in turn. */
    method StoreVariations(variations: seq<string>, pokemon: Pokemon)
      modifies this
      ensures pokemonsByNormalizedName == SetAll(old(pokemonsByNormalizedName), variations, pokemon)
      ensures pokemonsByName == old(pokemonsByName) && pokemonsMap == old(pokemonsMap)
    {
      for j := 0 to |variations|
        invariant pokemonsByNormalizedName == SetAll(old(pokemonsByNormalizedName), variations[..j], pokemon)
        invariant pokemonsByName == old(pokemonsByName) && pokemonsMap == old(pokemonsMap)
      {
        assert variations[..j + 1][..j] == variations[..j];
        pokemonsByNormalizedName := pokemonsByNormalizedName[variations[j] := pokemon];
      }
      assert variations[..|variations|] == variations;
    }

    /** `map.get(key)` for the map a probe names. */
    function Hit(probe: Probe): Option<Pokemon>
      reads this
    {
      match probe
      case InByName(key) => if key in pokemonsByName then Some(pokemonsByName[key]) else None
      case InByNormalized(key) =>
        if key in pokemonsByNormalizedName then Some(pokemonsByNormalizedName[key]) else None
    }

    /** The first probe that finds an entry, in order. */
    function FirstHit(probes: seq<Probe>): Option<Pokemon>
      reads this
    {
      if probes == [] then None
      else if Hit(probes[0]).Some? then Hit(probes[0])
      else FirstHit(probes[1..])
    }

    /** `FirstHit` finds nothing exactly when no probe hits, and otherwise what the earliest hitting probe finds. */
    lemma {:induction false} FirstHitSpec(probes: seq<Probe>)
      ensures FirstHit(probes).None? <==> forall i :: 0 <= i < |probes| ==> Hit(probes[i]).None?
      ensures FirstHit(probes).Some? ==>
        exists i :: 0 <= i < |probes| && FirstHit(probes) == Hit(probes[i]) && forall j :: 0 <= j < i ==> Hit(probes[j]).None?
    {
      if probes != [] && Hit(probes[0]).None? {
        FirstHitSpec(probes[1..]);
        assert forall i :: 1 <= i < |probes| ==> probes[1..][i - 1] == probes[i];
        if FirstHit(probes).Some? {
          var i :| 0 <= i < |probes[1..]| && FirstHit(probes) == Hit(probes[1..][i])
                   && forall j :: 0 <= j < i ==> Hit(probes[1..][j]).None?;
          assert FirstHit(probes) == Hit(probes[i + 1]);
        }
      } else if probes != [] {
        assert FirstHit(probes) == Hit(probes[0]);
      }
    }

    /**
     * The lookups of `getPokemonByName` once its keys are known: the mapped and
     * the original name exactly, the normalised mapped name, then the two lists
     * of variations.
     */
    function Cascade(name: string, mappedName: string, normalized: string,
                     mappedVariations: seq<string>, nameVariations: seq<string>): Option<Pokemon>
      reads this
    {
      if Hit(InByName(mappedName)).Some? then Hit(InByName(mappedName))
      else if Hit(InByName(name)).Some? then Hit(InByName(name))
      else if Hit(InByNormalized(normalized)).Some? then Hit(InByNormalized(normalized))
      else if FirstHit(NormalizedProbes(mappedVariations)).Some? then FirstHit(NormalizedProbes(mappedVariations))
      else FirstHit(NormalizedProbes(nameVariations))
    }

    /**
     * `getPokemonByName` as the cascade the source writes out: nothing for an
     * empty name; else the first of the exact, normalised and variation lookups
     * that finds an entry.
     */
    function PokemonByName(name: string, mapper: bool): (r: Option<Pokemon>)
      reads this
      ensures name == "" ==> r.None?
    {
      if name == "" then None
      else
        var mappedName := MappedName(name, mapper);
        Cascade(name, mappedName, NormalizeName(mappedName), Variations(mappedName), Variations(name))
    }

    lemma {:induction false} FirstHitAppend(a: seq<Probe>, b: seq<Probe>)
      ensures FirstHit(a + b) == if FirstHit(a).Some? then FirstHit(a) else FirstHit(b)
      decreases |a|
    {
      if a != [] {
        assert (a + b)[1..] == a[1..] + b;
        FirstHitAppend(a[1..], b);
      } else {
        assert a + b == b;
      }
    }

    /** The written-out cascade is the first hit along its probes. */
    lemma CascadeFirstHit(name: string, mappedName: string, normalized: string,
                          mappedVariations: seq<string>, nameVariations: seq<string>)
      ensures Cascade(name, mappedName, normalized, mappedVariations, nameVariations) ==
        FirstHit([InByName(mappedName), InByName(name), InByNormalized(normalized)]
          + (NormalizedProbes(mappedVariations) + NormalizedProbes(nameVariations)))
    {
      var head := [InByName(mappedName), InByName(name), InByNormalized(normalized)];
      var rest := NormalizedProbes(mappedVariations) + NormalizedProbes(nameVariations);
      FirstHitAppend(head, rest);
      FirstHitAppend(NormalizedProbes(mappedVariations), NormalizedProbes(nameVariations));
      var last := [InByNormalized(normalized)];
      assert head[1..][1..] == last && last[1..] == [];
      assert FirstHit(last) == Hit(InByNormalized(normalized));
      assert FirstHit(head[1..]) == if Hit(InByName(name)).Some? then Hit(InByName(name)) else FirstHit(last);
    }

    /** The cascade finds what the first successful probe of `Probes` finds. */
    lemma CascadeIsFirstHit(name: string, mapper: bool)
      requires name != ""
      ensures PokemonByName(name, mapper) == FirstHit(Probes(name, mapper))
    {
      var mappedName := MappedName(name, mapper);
      CascadeFirstHit(name, mappedName, NormalizeName(mappedName), Variations(mappedName), Variations(name));
    }

    /** What the lookup finds is an entry of one of the two maps. */
    lemma FoundIsIndexed(name: string, mapper: bool)
      ensures PokemonByName(name, mapper).Some? ==>
        PokemonByName(name, mapper).value in pokemonsByName.Values ||
        PokemonByName(name, mapper).value in pokemonsByNormalizedName.Values
    {
      if name != "" {
        CascadeIsFirstHit(name, mapper);
        var probes := Probes(name, mapper);
        FirstHitSpec(probes);
        if FirstHit(probes).Some? {
          var i :| 0 <= i < |probes| && FirstHit(probes) == Hit(probes[i]);
        }
      }
    }

    /** The variation loop of `getPokemonByName`: the first variation the normalised map holds. */
    method FirstVariation(variations: seq<string>) returns (pokemon: Option<Pokemon>)
      ensures pokemon == FirstHit(NormalizedProbes(variations))
    {
      ghost var probes := NormalizedProbes(variations);
      FirstHitSpec(probes);
      for i := 0 to |variations|
        invariant forall j :: 0 <= j < i ==> Hit(probes[j]).None?
      {
        if variations[i] in pokemonsByNormalizedName {
          pokemon := Some(pokemonsByNormalizedName[variations[i]]);
          assert Hit(probes[i]) == pokemon;
          return;
        }
      }
      pokemon := None;
    }

    /** `getPokemonByName(name)` */
    method GetPokemonByName(name: string, mapper: bool) returns (pokemon: Option<Pokemon>)
      ensures pokemon == PokemonByName(name, mapper)
    {
      if name == "" {
        return None;
      }
      var mappedName := name;
      if mapper {
        mappedName := PokemonMapper.MapPokemonName(name);
      }
      pokemon := LookupCascade(name, mappedName, NormalizeName(mappedName), Variations(mappedName), Variations(name));
    }

    /** The lookups of `getPokemonByName` once the name and the mapped name are known. */
    method LookupCascade(name: string, mappedName: string, normalized: string,
                         mappedVariations: seq<string>, nameVariations: seq<string>) returns (pokemon: Option<Pokemon>)
      ensures pokemon == Cascade(name, mappedName, normalized, mappedVariations, nameVariations)
    {
      if mappedName in pokemonsByName {
        return Some(pokemonsByName[mappedName]);
      }
      if name in pokemonsByName {
        return Some(pokemonsByName[name]);
      }
      if normalized in pokemonsByNormalizedName {
        return Some(pokemonsByNormalizedName[normalized]);
      }
      pokemon := FirstVariation(mappedVariations);
      if pokemon.Some? {
        return;
      }
      pokemon := FirstVariation(nameVariations);
    }

    /** The entry's `images`, when the entry is found and has them. */
    function FoundImages(pokemonName: string, mapper: bool): Option<map<string, string>>
      reads this
    {
      var pokemon := PokemonByName(pokemonName, mapper);
      if pokemon.Some? then pokemon.value.images else None
    }

    /**
     * `getPokemonImagePath(pokemonName, imageType)`: for an entry with images,
     * its image under the selected key, else its `complete` image, else nothing;
     * otherwise a path built from the (mapped) image name.
     */
    function PokemonImagePath(pokemonName: string, imageType: string, mapper: bool): (r: string)
      reads this
      ensures FoundImages(pokemonName, mapper).Some? ==>
        r == "" || r in FoundImages(pokemonName, mapper).value.Values
      ensures FoundImages(pokemonName, mapper).Some? && Truthy(FoundImages(pokemonName, mapper).value, ImageKey(imageType)).Some? ==>
        r == FoundImages(pokemonName, mapper).value[ImageKey(imageType)]
      ensures FoundImages(pokemonName, mapper).Some? && Truthy(FoundImages(pokemonName, mapper).value, ImageKey(imageType)).None?
              && Truthy(FoundImages(pokemonName, mapper).value, "complete").Some? ==>
        r == FoundImages(pokemonName, mapper).value["complete"]
      ensures FoundImages(pokemonName, mapper).Some? && Truthy(FoundImages(pokemonName, mapper).value, ImageKey(imageType)).None?
              && Truthy(FoundImages(pokemonName, mapper).value, "complete").None? ==>
        r == ""
      ensures FoundImages(pokemonName, mapper).None? ==> r != ""
    {
      match FoundImages(pokemonName, mapper)
      case Some(images) =>
        Truthy(images, ImageKey(imageType)).GetOr(Truthy(images, "complete").GetOr(""))
      case None =>
        var fileName := if mapper then PokemonMapper.MapPokemonImageName(pokemonName) else PlainFileName(pokemonName);
        FallbackImagePath(fileName, imageType)
    }

    /** Any type other than `main` and `big` gives the path of `complete`. */
    lemma UnrecognisedTypeIsComplete(pokemonName: string, imageType: string, mapper: bool)
      requires imageType != "main" && imageType != "big"
      ensures PokemonImagePath(pokemonName, imageType, mapper) == PokemonImagePath(pokemonName, "complete", mapper)
    {
    }

    /**
     * `getAbilityImagePath(pokemonName, abilityCode)`: nothing unless both are
     * given; the entry's `move_<code>` image when it has one; otherwise a move
     * path from the (mapped) image name.
     */
    function AbilityImagePath(pokemonName: string, abilityCode: string, mapper: bool): (r: string)
      reads this
      ensures pokemonName == "" || abilityCode == "" ==> r == ""
      ensures pokemonName != "" && abilityCode != "" && FoundImages(pokemonName, mapper).Some?
              && Truthy(FoundImages(pokemonName, mapper).value, "move_" + Lower(abilityCode)).Some? ==>
        r == FoundImages(pokemonName, mapper).value["move_" + Lower(abilityCode)]
      ensures pokemonName != "" && abilityCode != "" && mapper
              && (FoundImages(pokemonName, mapper).None? || Truthy(FoundImages(pokemonName, mapper).value, "move_" + Lower(abilityCode)).None?) ==>
        r == ItemMapper.MovePath(PokemonMapper.MapPokemonImageName(pokemonName), abilityCode)
      ensures pokemonName != "" && abilityCode != "" && !mapper
              && (FoundImages(pokemonName, mapper).None? || Truthy(FoundImages(pokemonName, mapper).value, "move_" + Lower(abilityCode)).None?) ==>
        r == ItemMapper.AbilityImagePath(pokemonName, abilityCode)
    {
      if pokemonName == "" || abilityCode == "" then ""
      else
        var found := FoundImages(pokemonName, mapper);
        if found.Some? && Truthy(found.value, "move_" + Lower(abilityCode)).Some? then
          Truthy(found.value, "move_" + Lower(abilityCode)).value
        else
          var fileName :=
            if mapper then PokemonMapper.MapPokemonImageName(pokemonName) else ItemMapper.MoveSlug(pokemonName);
          ItemMapper.MovePath(fileName, abilityCode)
    }

    /** Without a data image and without `PokemonMapper`, the move path is the one `ItemMapper` builds. */
    lemma AbilityFallbackAgrees(pokemonName: string, abilityCode: string)
      requires FoundImages(pokemonName, false).None? ||
               Truthy(FoundImages(pokemonName, false).value, "move_" + Lower(abilityCode)).None?
      ensures AbilityImagePath(pokemonName, abilityCode, false) == ItemMapper.AbilityImagePath(pokemonName, abilityCode)
    {
    }

    /**
     * `normalizePokemonName(name)`: `PokemonMapper`'s answer when it is loaded;
     * otherwise the found entry's name, else the name capitalised, else nothing.
     */
    function NormalizePokemonName(name: string, mapper: bool): (r: Option<string>)
      reads this
      ensures mapper ==> r == Some(PokemonMapper.NormalizePokemonName(name))
      ensures !mapper && PokemonByName(name, false).Some? ==> r == Some(PokemonByName(name, false).value.name)
      ensures !mapper && PokemonByName(name, false).None? ==>
        && (r.None? <==> name == "")
        && (r.Some? ==> |r.value| == |name| && !IsLowerAscii(r.value[0]) && NoUpper(r.value[1..]))
        && (r.Some? ==> Lower(r.value) == Lower(name))
    {
      if mapper then Some(PokemonMapper.NormalizePokemonName(name))
      else
        match PokemonByName(name, false)
        case Some(pokemon) => Some(pokemon.name)
        case None => if name == "" then None else Some(PokemonMapper.Capitalize(name))
    }
  }

  // ---------------------------------------------------------------------------
  // Item paths
  // ---------------------------------------------------------------------------

  /** `getBattleItemImagePath(itemName)`: `ItemMapper`'s path when it is loaded, else the stripped name's path. */
  function BattleItemImagePath(itemName: string, itemMapper: bool): (r: string)
    ensures ItemMapper.NoItem(itemName) ==> r == ""
    ensures !ItemMapper.NoItem(itemName) && itemMapper ==> r == ItemMapper.BattleItemImagePath(itemName)
    ensures !ItemMapper.NoItem(itemName) && !itemMapper ==>
      var file := ItemMapper.FileOfPath(ItemMapper.BattleItemsDir, r);
      file.Some? && ItemMapper.LowerAlnumOnly(file.value)
  {
    if ItemMapper.NoItem(itemName) then ""
    else if itemMapper then ItemMapper.BattleItemImagePath(itemName)
    else
      ItemMapper.FileOfFilePath(ItemMapper.BattleItemsDir, ItemMapper.StrippedKey(itemName));
      ItemMapper.FilePath(ItemMapper.BattleItemsDir, ItemMapper.StrippedKey(itemName))
  }

  /** `getHeldItemImagePath(itemName)`: `ItemMapper`'s path when it is loaded, else the stripped name's path. */
  function HeldItemImagePath(itemName: string, itemMapper: bool): (r: string)
    ensures ItemMapper.NoItem(itemName) ==> r == ""
    ensures !ItemMapper.NoItem(itemName) && itemMapper ==> r == ItemMapper.HeldItemImagePath(itemName)
    ensures !ItemMapper.NoItem(itemName) && !itemMapper ==>
      var file := ItemMapper.FileOfPath(ItemMapper.HeldItemsDir, r);
      file.Some? && ItemMapper.LowerAlnumOnly(file.value)
  {
    if ItemMapper.NoItem(itemName) then ""
    else if itemMapper then ItemMapper.HeldItemImagePath(itemName)
    else
      ItemMapper.FileOfFilePath(ItemMapper.HeldItemsDir, ItemMapper.StrippedKey(itemName));
      ItemMapper.FilePath(ItemMapper.HeldItemsDir, ItemMapper.StrippedKey(itemName))
  }

  /** For a name outside the table with a non-empty stripped form, both battle item paths agree. */
  lemma BattleItemPathsAgree(itemName: string)
    requires ItemMapper.BattleItemLookup(ItemMapper.StrippedKey(itemName)).None?
    requires ItemMapper.StrippedKey(itemName) != ""
    ensures BattleItemImagePath(itemName, true) == BattleItemImagePath(itemName, false)
  {
  }

  /** For a name outside the table under both spellings, with a non-empty stripped form, both held item paths agree. */
  lemma HeldItemPathsAgree(itemName: string)
    requires ItemMapper.HeldItemLookup(Lower(itemName)).None?
    requires ItemMapper.HeldItemLookup(ItemMapper.StrippedKey(itemName)).None?
    requires ItemMapper.StrippedKey(itemName) != ""
    ensures HeldItemImagePath(itemName, true) == HeldItemImagePath(itemName, false)
  {
  }
}
