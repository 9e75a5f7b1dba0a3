/**
 * `ItemMapper`: from the item and ability names the site shows to the file
 * names of the extension's images. The two tables are fixed when the mapper is
 * built and only read afterwards, so they are functions here.
 */
module ItemMapper {
  import opened Base
  import opened JsText
  import PokemonMapper

  /** `battleItemsMap[key]` */
  function BattleItemLookup(key: string): (r: Option<string>)
    ensures r.Some? ==> r.value in BattleItemFiles
  {
    match key
    case "shedinjadoll" => Some("shedinjadoll")
    case "ejectbutton" => Some("ejectbutton")
    case "potion" => Some("potion")
    case "fullheal" => Some("fullheal")
    case "fluffytail" => Some("tail")
    case "smoke" => Some("smoke")
    case "xattack" => Some("xattack")
    case "xspeed" => Some("xspeed")
    case "ganrao" => Some("ganrao")
    case "purify" => Some("purify")
    case "gear" => Some("gear")
    case "controller" => Some("Controller")
    case _ => None
  }

  /** The values of the battle item table. */
  const BattleItemFiles: set<string> := {
    "shedinjadoll", "ejectbutton", "potion", "fullheal", "tail", "smoke",
    "xattack", "xspeed", "ganrao", "purify", "gear", "Controller"
  }

  /** `heldItemsMap[key]`; the keys written with `+` (and one with `.`) are the site's spellings. */
  function HeldItemLookup(key: string): (r: Option<string>)
    ensures r.Some? ==> r.value in HeldItemFiles
  {
    match key
    case "muscleband" => Some("muscleband")
    case "focusband" => Some("focusband")
    case "floatstone" => Some("floatstone")
    case "razorclaw" => Some("razorclaw")
    case "scopelens" => Some("scopelens")
    case "shellbell" => Some("shellbell")
    case "scoreshield" => Some("scoreshield")
    case "rockyhelmet" => Some("rockyhelmet")
    case "buddybarrier" => Some("buddybarrier")
    case "energyamplifier" => Some("energyamplifier")
    case "attackweight" => Some("attackweight")
    case "assaultvest" => Some("assaultvest")
    case "aeoscookie" => Some("aeoscookie")
    case "expshare" => Some("expshare")
    case "weaknesspolice" => Some("weaknesspolice")
    case "wiseglasses" => Some("wiseglasses")
    case "spatkspecs" => Some("spatkspecs")
    case "slickspoon" => Some("slickspoon")
    case "rustedsword" => Some("rustedsword")
    case "resonantguard" => Some("resonantguard")
    case "rescuehood" => Some("rescuehood")
    case "rapidscarf" => Some("rapidscarf")
    case "draincrown" => Some("draincrown")
    case "drivelens" => Some("drivelens")
    case "curseincense" => Some("curseincense")
    case "cursebangle" => Some("cursebangle")
    case "choicespecs" => Some("choicespecs")
    case "choicescarf" => Some("choicescarf")
    case "chargingcharm" => Some("chargingcharm")
    case "amuletcoin" => Some("amuletcoin")
    case "accelbracer" => Some("accelbracer")
    case "leftovers" => Some("Leftovers")
    case "weakness+policy" => Some("Weakness+Policy")
    case "sp.+atk+specs" => Some("Sp.+Atk+Specs")
    case "slick+spoon" => Some("Slick+Spoon")
    case "shell+bell" => Some("Shell+Bell")
    case "score+shield" => Some("Score+Shield")
    case "scope+lens" => Some("Scope+Lens")
    case "rusted+sword" => Some("Rusted+Sword")
    case "rocky+helmet" => Some("Rocky+Helmet")
    case "resonant+guard" => Some("Resonant+Guard")
    case "rescue+hood" => Some("Rescue+Hood")
    case "rapid+fire+scarf" => Some("Rapid+Fire+Scarf")
    case "razor+claw" => Some("Razor+Claw")
    case "muscle+band" => Some("Muscle+Band")
    case "focus+band" => Some("Focus+Band")
    case "float+stone" => Some("Float+Stone")
    case "exp+share" => Some("Exp+Share")
    case "energy+amplifier" => Some("Energy+Amplifier")
    case "drain+crown" => Some("Drain+Crown")
    case "curse+incense" => Some("Curse+Incense")
    case "curse+bangle" => Some("Curse+Bangle")
    case "choice+specs" => Some("Choice+Specs")
    case "charging+charm" => Some("Charging+Charm")
    case "buddy+barrier" => Some("Buddy+Barrier")
    case "attack+weight" => Some("Attack+Weight")
    case "assault+vest" => Some("Assault+Vest")
    case "aeos+cookie" => Some("Aeos+Cookie")
    case _ => None
  }

  /** The values of the held item table. */
  const HeldItemFiles: set<string> := {
    "muscleband", "focusband", "floatstone", "razorclaw", "scopelens", "shellbell",
    "scoreshield", "rockyhelmet", "buddybarrier", "energyamplifier", "attackweight",
    "assaultvest", "aeoscookie", "expshare", "weaknesspolice", "wiseglasses",
    "spatkspecs", "slickspoon", "rustedsword", "resonantguard", "rescuehood",
    "rapidscarf", "draincrown", "drivelens", "curseincense", "cursebangle",
    "choicespecs", "choicescarf", "chargingcharm", "amuletcoin", "accelbracer",
    "Leftovers", "Weakness+Policy", "Sp.+Atk+Specs", "Slick+Spoon", "Shell+Bell",
    "Score+Shield", "Scope+Lens", "Rusted+Sword", "Rocky+Helmet", "Resonant+Guard",
    "Rescue+Hood", "Rapid+Fire+Scarf", "Razor+Claw", "Muscle+Band", "Focus+Band",
    "Float+Stone", "Exp+Share", "Energy+Amplifier", "Drain+Crown", "Curse+Incense",
    "Curse+Bangle", "Choice+Specs", "Charging+Charm", "Buddy+Barrier",
    "Attack+Weight", "Assault+Vest", "Aeos+Cookie"
  }

  /** `[a-z0-9]` only. */
  predicate LowerAlnumOnly(s: string) { NoneIn(s, NotLowerAlnum) }

  /** `name.toLowerCase().replace(/[^a-z0-9]/g, '')` */
  function StrippedKey(name: string): (r: string)
    ensures LowerAlnumOnly(r)
  {
    RemoveClass(Lower(name), NotLowerAlnum)
  }

  /** `!name || name === 'none'`: the names that have no item. */
  predicate NoItem(name: string) { name == "" || name == "none" }

  /**
   * `normalizeBattleItemName`: no item for an empty name or `none`; otherwise
   * the table's file name for the stripped key, or the stripped key itself.
   */
  function NormalizeBattleItemName(name: string): (r: Option<string>)
    ensures r.None? <==> NoItem(name)
    ensures r.Some? ==> r.value in BattleItemFiles || LowerAlnumOnly(r.value)
    ensures r.Some? && BattleItemLookup(StrippedKey(name)).None? ==> r.value == StrippedKey(name)
  {
    if NoItem(name) then None
    else
      var normalized := StrippedKey(name);
      Some(BattleItemLookup(normalized).GetOr(normalized))
  }

  /** A lower-case alphanumeric file name that the table leaves alone normalises to itself. */
  lemma BattleFileFixed(v: string)
    requires LowerAlnumOnly(v) && !NoItem(v)
    requires BattleItemLookup(v).None? || BattleItemLookup(v) == Some(v)
    ensures NormalizeBattleItemName(v) == Some(v)
  {
    assert NoUpper(v) by {
      forall i | 0 <= i < |v|
        ensures !IsUpperAscii(v[i])
      {
        assert !InClass(v[i], NotLowerAlnum);
      }
    }
    LowerOfLower(v);
    RemoveClassOfClean(v, NotLowerAlnum);
  }

  lemma LowerController()
    ensures Lower("Controller") == "controller"
  {
    var l := Lower("Controller");
    assert LowerChar('C') == 'c';
    assert forall i :: 0 <= i < |l| ==> l[i] == "controller"[i];
  }

  lemma ControllerKey()
    ensures StrippedKey("Controller") == "controller"
  {
    LowerController();
    RemoveClassOfClean("controller", NotLowerAlnum);
  }

  lemma ControllerLookup()
    ensures BattleItemLookup("controller") == Some("Controller")
  {
  }

  lemma ControllerFixed()
    ensures NormalizeBattleItemName("Controller") == Some("Controller")
  {
    ControllerKey();
    ControllerLookup();
    assert !NoItem("Controller");
  }

  /** The battle item file names other than `Controller` are lower-case alphanumeric. */
  lemma BattleFilesLower(v: string)
    requires v in BattleItemFiles && v != "Controller"
    ensures LowerAlnumOnly(v) && !NoItem(v)
  {
  }

  /** The table maps each of its lower-case file names to itself, or (`tail`) has no entry for it. */
  lemma BattleFilesKeys(v: string)
    requires v in BattleItemFiles && v != "Controller"
    ensures BattleItemLookup(v).None? || BattleItemLookup(v) == Some(v)
  {
  }

  /** Normalising a battle item's file name again gives the same file name. */
  lemma BattleItemIdempotent(name: string)
    requires NormalizeBattleItemName(name).Some?
    requires !NoItem(NormalizeBattleItemName(name).value)
    ensures NormalizeBattleItemName(NormalizeBattleItemName(name).value) == NormalizeBattleItemName(name)
  {
    var v := NormalizeBattleItemName(name).value;
    if v == "Controller" {
      ControllerFixed();
    } else if v in BattleItemFiles {
      BattleFilesLower(v);
      BattleFilesKeys(v);
      BattleFileFixed(v);
    } else {
      assert BattleItemLookup(StrippedKey(name)).None?;
      BattleFileFixed(v);
    }
  }

  /**
   * `normalizeHeldItemName`: no item for an empty name or `none`; otherwise
   * the table's file name for the lower-cased name as written, else for the
   * stripped key, else the stripped key itself.
   */
  function NormalizeHeldItemName(name: string): (r: Option<string>)
    ensures r.None? <==> NoItem(name)
    ensures r.Some? ==> r.value in HeldItemFiles || LowerAlnumOnly(r.value)
  {
    if NoItem(name) then None
    else
      var withPlus := Lower(name);
      if HeldItemLookup(withPlus).Some? then HeldItemLookup(withPlus)
      else
        var normalized := StrippedKey(name);
        Some(HeldItemLookup(normalized).GetOr(normalized))
  }

  /** The exact spelling (lower-cased, with its `+` and `.`) is looked up before the stripped key. */
  lemma HeldItemKeyPriority(name: string)
    requires !NoItem(name)
    ensures HeldItemLookup(Lower(name)).Some? ==> NormalizeHeldItemName(name) == HeldItemLookup(Lower(name))
    ensures HeldItemLookup(Lower(name)).None? ==>
      NormalizeHeldItemName(name) == Some(HeldItemLookup(StrippedKey(name)).GetOr(StrippedKey(name)))
  {
  }

  // ---------------------------------------------------------------------------
  // Image paths
  // ---------------------------------------------------------------------------

  const BattleItemsDir := "/battle-items/"
  const HeldItemsDir := "/held-itens/"
  const Png := ".png"

  /** `${dir}${file}.png` */
  function FilePath(dir: string, file: string): string {
    dir + file + Png
  }

  /** Reading the file name back out of a path under `dir`. */
  function FileOfPath(dir: string, path: string): Option<string> {
    if |path| >= |dir| + |Png| && path[..|dir|] == dir && path[|path| - |Png|..] == Png
    then Some(path[|dir|..|path| - |Png|])
    else None
  }

  lemma FileOfFilePath(dir: string, file: string)
    ensures FileOfPath(dir, FilePath(dir, file)) == Some(file)
  {
    var p := FilePath(dir, file);
    assert p[..|dir|] == dir;
    assert p[|p| - |Png|..] == Png;
    assert p[|dir|..|p| - |Png|] == file;
  }

  /** `getBattleItemImagePath`: no path without a (non-empty) normalised name. */
  function BattleItemImagePath(itemName: string): (r: string)
    ensures r == "" <==> NormalizeBattleItemName(itemName).None? || NormalizeBattleItemName(itemName).value == ""
    ensures r != "" ==> FileOfPath(BattleItemsDir, r) == NormalizeBattleItemName(itemName)
  {
    match NormalizeBattleItemName(itemName)
    case None => ""
    case Some(normalized) =>
      if normalized == "" then ""
      else
        FileOfFilePath(BattleItemsDir, normalized);
        FilePath(BattleItemsDir, normalized)
  }

  /** `getHeldItemImagePath`: no path without a (non-empty) normalised name. */
  function HeldItemImagePath(itemName: string): (r: string)
    ensures r == "" <==> NormalizeHeldItemName(itemName).None? || NormalizeHeldItemName(itemName).value == ""
    ensures r != "" ==> FileOfPath(HeldItemsDir, r) == NormalizeHeldItemName(itemName)
  {
    match NormalizeHeldItemName(itemName)
    case None => ""
    case Some(normalized) =>
      if normalized == "" then ""
      else
        FileOfFilePath(HeldItemsDir, normalized);
        FilePath(HeldItemsDir, normalized)
  }

  /** `[a-z0-9-]` only. */
  predicate SlugShaped(s: string) {
    forall i :: 0 <= i < |s| ==> IsLowerAlnum(s[i]) || s[i] == '-'
  }

  /**
   * `name.toLowerCase().replace(/[^a-z0-9\s]/g, '').replace(/\s+/g, '-')`:
   * the `[a-z0-9]` characters of the lower-cased name, in order, with one
   * hyphen for each run of white space between, before or after them.
   */
  function MoveSlug(pokemonName: string): (r: string)
    ensures SlugShaped(r)
    ensures RemoveClass(r, NotLowerAlnum) == RemoveClass(Lower(pokemonName), NotLowerAlnum)
    ensures forall i :: 0 <= i < |r| - 1 ==> !(r[i] == '-' && r[i + 1] == '-')
    ensures Split(r, '-') == SplitRuns(RemoveClass(Lower(pokemonName), NotLowerAlnumNorSpace), Space)
  {
    var kept := RemoveClass(Lower(pokemonName), NotLowerAlnumNorSpace);
    var r := ReplaceRuns(kept, Space, "-");
    SplitOfReplacedRuns(kept, Space, '-');
    PokemonMapper.ReplacedNoneInSelf(kept, Space);
    RemoveKeptTwice(Lower(pokemonName));
    RemoveAfterReplaceRuns(kept, Space, "-", NotLowerAlnum);
    SingleHyphens(kept);
    assert SlugShaped(r) by {
      forall i | 0 <= i < |r|
        ensures IsLowerAlnum(r[i]) || r[i] == '-'
      {
        assert !InClass(r[i], Space);
        if r[i] in kept {
          var j :| 0 <= j < |kept| && kept[j] == r[i];
          assert !InClass(kept[j], NotLowerAlnumNorSpace);
        }
      }
    }
    r
  }

  /** Dropping what is not `[a-z0-9]` after dropping what is neither that nor space drops the same characters. */
  lemma {:induction false} RemoveKeptTwice(s: string)
    ensures RemoveClass(RemoveClass(s, NotLowerAlnumNorSpace), NotLowerAlnum) == RemoveClass(s, NotLowerAlnum)
  {
    if s != [] {
      RemoveKeptTwice(s[1..]);
      var head := if InClass(s[0], NotLowerAlnumNorSpace) then [] else [s[0]];
      RemoveConcat(head, RemoveClass(s[1..], NotLowerAlnumNorSpace), NotLowerAlnum);
    }
  }

  /** Without hyphens to begin with, hyphenating the white-space runs never puts two hyphens side by side. */
  lemma {:induction false} SingleHyphens(s: string)
    requires '-' !in s
    ensures var r := ReplaceRuns(s, Space, "-");
      && (forall i :: 0 <= i < |r| - 1 ==> !(r[i] == '-' && r[i + 1] == '-'))
      && ((|r| > 0 && r[0] == '-') <==> (|s| > 0 && IsSpace(s[0])))
    decreases |s|
  {
    if s != [] {
      var r := ReplaceRuns(s, Space, "-");
      if InClass(s[0], Space) {
        var n := ClassRun(s, Space);
        SingleHyphens(s[n..]);
        var t := ReplaceRuns(s[n..], Space, "-");
        assert r == "-" + t;
        assert t != [] ==> t[0] != '-';
        forall i | 0 <= i < |r| - 1
          ensures !(r[i] == '-' && r[i + 1] == '-')
        {
          if i > 0 {
            assert r[i] == t[i - 1] && r[i + 1] == t[i];
          }
        }
      } else {
        SingleHyphens(s[1..]);
        var t := ReplaceRuns(s[1..], Space, "-");
        assert r == [s[0]] + t;
        forall i | 0 <= i < |r| - 1
          ensures !(r[i] == '-' && r[i + 1] == '-')
        {
          if i > 0 {
            assert r[i] == t[i - 1] && r[i + 1] == t[i];
          }
        }
      }
    }
  }

  const MovesDir := "/pokemons/moves/"

  /** `/pokemons/moves/${slug}_${code}.png` */
  function MovePath(slug: string, code: string): string {
    MovesDir + slug + "_" + code + Png
  }

  /** `getAbilityImagePath`: no path unless both the Pokémon name and the ability code are given. */
  function AbilityImagePath(pokemonName: string, abilityCode: string): (r: string)
    ensures pokemonName == "" || abilityCode == "" ==> r == ""
    ensures pokemonName != "" && abilityCode != "" ==> r == MovePath(MoveSlug(pokemonName), abilityCode)
  {
    if pokemonName == "" || abilityCode == "" then ""
    else MovePath(MoveSlug(pokemonName), abilityCode)
  }

  /**
   * The slug holds no `_`, so the first `_` of a move path ends it, and the
   * ability code is what lies between that `_` and `.png`, unchanged.
   */
  lemma MovePathParts(slug: string, code: string)
    requires SlugShaped(slug)
    ensures var p := MovePath(slug, code);
      && '_' in p
      && IndexOfChar(p, '_') == |MovesDir| + |slug|
      && p[|MovesDir|..IndexOfChar(p, '_')] == slug
      && p[IndexOfChar(p, '_') + 1..|p| - |Png|] == code
  {
    var p := MovePath(slug, code);
    var head := MovesDir + slug;
    var n := |head|;
    assert p == head + ("_" + code + Png);
    assert '_' !in MovesDir;
    assert '_' !in slug by {
      forall i | 0 <= i < |slug|
        ensures slug[i] != '_'
      {
        assert IsLowerAlnum(slug[i]) || slug[i] == '-';
      }
    }
    assert p[..n] == head;
    assert '_' !in head;
    IndexOfCharAt(p, '_', n);
    assert p[|MovesDir|..n] == slug;
    assert p[n + 1..|p| - |Png|] == code;
  }
}
