# unite-match: a verified model of the match extraction pipeline

This project models the core of the `unite-match` browser extension in Dafny. The extension reads a player's
match-history page on uniteapi.dev and turns it into typed match records, then computes statistics and picks what
the share image shows. The model covers these parts:

- **Match extraction** (`MatchDataExtractor` in `contentScript.modular.js`):
  - locating the match elements on the page;
  - parsing one match element: outcome, date, time, map and the two team tables;
  - the per-cell extractors (species token, battle item, player name, score, K|A|I, damage triplet, abilities);
  - the image-URL rewrite;
  - the fallback 5/5 split of sprite rows;
  - the eight-player validity gate;
  - the batch loop that appends accepted matches to `this.matches`.
- **`StatsCalculator`**: the flattened roster, the match totals and heuristics, and the fixed-reference radar
  percentages, all in integer arithmetic.
- **`pokemonMapper.js` and `itemMapper.js`**: name normalisation, the constant tables and the image paths.
- **`PokemonData`**: the index that `loadPokemonsData` fills by mutating its maps, the fixed lookup cascade of
  `getPokemonByName`, and the path helpers built on it.
- **`ImageGenerator`, selection logic only**: the roster fallback, the main-player choice, the score orientation,
  the radar defaults and the download filename.

## How the page is represented

The live DOM becomes a tree value, `Dom.Node = Text(data) | Element(tag, attrs, children)`:

- Text nodes are real children, so `textContent` is the pre-order concatenation of the text.
- `nextElementSibling` skips text nodes.
- Nodes are addressed by paths of child indices from the document body. This makes `parentElement`, sibling walks
  and descendant selectors exact.
- The handful of CSS selectors the extractor uses are written as a small selector datatype, `Dom.Selector`.
- `querySelectorAll` returns the matching descendants in document order, and `querySelector` returns the first one.

The other inputs are explicit parameters:

- **The clock and the random source.** Match ids and `extractedAt` stamps are passed in (`MatchExtractor.Stamps`),
  and so is the current date used in the filename.
- **`encodeURIComponent`, `decodeURIComponent`, `URL.searchParams` and the resolution of an image's `src`.** These are
  the function values of `ImageUrls.UriLib`. The re-application lemma takes decode∘encode = id as a hypothesis
  (`ImageUrls.CodecLaws`). The lemma about relative `src` values takes as a hypothesis that a root-relative reference
  resolves against `https://uniteapi.dev` (`ImageUrls.ResolvesOnSite`), since the page is served from that site.
  An absent `src` attribute and an empty one differ: the property is empty for the first and, by the hypothesis of
  `CellExtractors.EmptySrcIsPageUrl`, the page's own non-empty URL for the second.
- **Whether `window.PokemonMapper`, `window.ItemMapper` or `StatsCalculator` is loaded.** Each is a `bool` parameter.

The module structure follows the source:

| module | what it models |
|---|---|
| `MatchRecords` | the match, team and player records |
| `JsText` | the JavaScript string operations the source uses, on ASCII |
| `Dom` | the page tree and the selectors |
| `MatchLocator` | `findMatchElements` |
| `MatchParser` | `parseMatchElement` and `extractAllPlayersData` |
| `TableParser` | the team-table readers |
| `CellExtractors` | the per-cell readers |
| `ImageUrls` | `increaseImageResolution` |
| `MatchExtractor` | the `MatchDataExtractor` class and its batch loop |
| `StatsCalculator` | `statsCalculator.js` |
| `PokemonMapper` | `pokemonMapper.js` |
| `ItemMapper` | `itemMapper.js` |
| `PokemonData` | `pokemonData.js`; its index is the class `PokemonData.PokemonIndex` |
| `ImageSelection` | the selection logic of `imageGenerator.js` |

Code that updates state step by step is written as methods with loop invariants. This covers:

- the walk-up and deduplication loops of `findMatchElements`;
- the sibling walk of `getTeamRows`;
- the score-colour loop;
- the ability scan;
- the batch loop over `this.matches`;
- the loading loops of `PokemonData`.

Each of these methods is proved equal to a specification function, and the properties are proved about that
function.

## Where the code and its description differ

The model follows the code in each of these cases:

- **The `PokemonData` maps.** The class declares three maps, but `loadPokemonsData` writes only `pokemonsByName` and
  `pokemonsByNormalizedName`. `pokemonsMap` stays empty (`PokemonData.PokemonIndex.LoadPokemonsData`).
- **The reassigned `const` in `extractAllPlayersData`.** In the table-container branch, `matchData` is a `const` that
  is reassigned when the alternative extraction fills all ten slots. That assignment throws, the function's own catch
  swallows it, and it returns `null`. The match then has neither `fullMatchData` nor `error`, and the batch loop
  accepts it (`MatchParser.ConstReassignDropsData`).
- **The match type.** `extractMatchType` reads `textContent` from a plain record, so it always answers `Standard`.
- **Held items.** `extractHeldItemsFromCell` always returns an empty list.
- **The `interrupts` radar axis.** `calculateRadarStats` never returns it, so the image always draws it as 50.
- **Healing on the radar.** The radar reads `healing`, which scraped players never carry (they carry
  `damageHealed`), so it is 0.

## Model

| member | source | states |
|---|---|---|
| MatchLocator.MatchAncestor | contentScript.modular.js:155-180 | the walk up from a table container stops at the nearest ancestor whose text has an outcome keyword and a score, date or time; none when no ancestor qualifies |
| MatchLocator.FindMatchParent | contentScript.modular.js:148-192 | the `while` loop over `parentElement` finds exactly that nearest qualifying ancestor |
| MatchLocator.WalkedUp | contentScript.modular.js:148-192 | every element the walk-up collects is a match element, and there is at most one per container |
| MatchLocator.WalkUpFromContainers | contentScript.modular.js:148-192 | the loop over the table containers collects the walk-up results in container order |
| MatchLocator.FallbackElements | contentScript.modular.js:195-211 | when the walk-up finds nothing, the loop over the fallback selectors returns their matches |
| MatchLocator.CollectCandidates | contentScript.modular.js:148-211 | the candidate list is the walk-up result, or the fallback result when the walk-up is empty |
| Dom.PathsWhere | contentScript.modular.js:215-232 | the filter keeps exactly the candidates that satisfy the predicate (here the match-text predicate), in order |
| MatchLocator.Dedup | contentScript.modular.js:234-245 | deduplication keeps only candidates, and never more of them than were given |
| MatchLocator.DedupKeySet | contentScript.modular.js:234-245 | deduplication loses no key: every first-100-character key of the input is still present |
| MatchLocator.DedupIsFirstOccurrences | contentScript.modular.js:234-245 | deduplication keeps exactly the first candidate with each key, in order |
| MatchLocator.DedupKeysDistinct | contentScript.modular.js:234-245 | no two kept candidates share a key |
| MatchLocator.KeepFirstByText | contentScript.modular.js:234-245 | the loop with the `seenTexts` set computes the deduplication |
| MatchLocator.LocatedMatchesSpec | contentScript.modular.js:215-245 | the located elements are the first occurrences, by key, of the valid candidates; each has match text; their keys are distinct |
| MatchLocator.FindMatchElements | contentScript.modular.js:136-251 | `findMatchElements` returns the located elements |
| MatchLocator.DatedTextIsMatch | contentScript.modular.js:215-232 | text with an outcome keyword and a date and time passes the match-text filter |
| MatchParser.Outcome | contentScript.modular.js:385-393 | the outcome follows keyword priority: Victory/WIN, then LOSE/Defeat, then Surrendered, else Unknown, each as an if-and-only-if |
| MatchParser.OutcomeNotError | contentScript.modular.js:385-393 | a parsed outcome never contains `Error` |
| MatchParser.DateTime | contentScript.modular.js:396-400 | the date and time are found iff some position shows `dd-mm-yyyy`, white space and `hh:mm`; the parts have those shapes |
| MatchParser.DateTimeOf | contentScript.modular.js:396-400 | a date, a gap and a clock written at the front are read back exactly |
| MatchParser.MapNameAt | contentScript.modular.js:403-408 | the map name is the first table name found at a position; none iff no name starts there |
| MatchParser.MapNameContained | contentScript.modular.js:403-408 | a found map name occurs in the text; none iff no known map name occurs |
| MatchParser.MatchHeader | contentScript.modular.js:371-408 | the header record carries the given id and stamp, the outcome, the date and time exactly when found, the map, and no data or error |
| MatchParser.FromContainerTable | contentScript.modular.js:538-615 | the container branch gives data iff the complete extraction succeeds and is not displaced by an all-slots alternative; the record gains exactly that data |
| MatchParser.FromFirstTable | contentScript.modular.js:620-666 | the first-table fallback is table-not-found iff the extraction fails, and gives data iff it holds at least eight players |
| MatchParser.ExtractAllPlayersData | contentScript.modular.js:528-683 | with data, the record gains `fullMatchData` and `totalPlayers`; otherwise it is unchanged |
| MatchParser.TableNotFoundCases | contentScript.modular.js:528-683 | table-not-found happens exactly when the container has no table, or there is no container and the first table is missing or unreadable; first-table data has at least eight players |
| MatchParser.TableMissingRecord | contentScript.modular.js:502-513 | the table-missing record carries the table-missing error, an outcome containing `Error`, and no data |
| MatchParser.TableMissingOutcomeIsError | contentScript.modular.js:502-513 | the table-missing outcome contains `Error`, so the batch loop never accepts it |
| MatchParser.Settle | contentScript.modular.js:411-513 | the validity gate: eight or more players keeps the data; otherwise an alternative with eight or more; otherwise `INSUFFICIENT_PLAYERS` naming the primary count; table-not-found becomes the table-missing record |
| MatchParser.SettleShape | contentScript.modular.js:411-513 | every settled record keeps the id and outcome of the header, or is the table-missing record |
| MatchParser.ParsedRecordShape | contentScript.modular.js:371-526 | every parsed element has the shape `RecordShape` names |
| MatchParser.TableNotFoundRecord | contentScript.modular.js:502-513 | an element with neither a table container nor a table parses to the table-missing record |
| MatchParser.SettleInsufficient | contentScript.modular.js:484-486 | an insufficient-players record comes from primary data with fewer than eight players, and its details name that count |
| MatchParser.InsufficientNamesPrimaryCount | contentScript.modular.js:484-486 | for a whole element, the insufficient-players details name the primary count |
| MatchParser.ConstReassignDropsData | contentScript.modular.js:547-599 | when the alternative extraction fills all ten slots, the reassigned `const` throws, and the parsed match has no data and no error |
| TableParser.FirstHeaderIndex | contentScript.modular.js:853-855 | the header is the first `th` whose text contains the key |
| TableParser.HeaderScore | contentScript.modular.js:862-864 | the team score is 0 when no `<key> - <digits>` occurs |
| TableParser.HeaderScoreOf | contentScript.modular.js:862-864 | a `<key> - N` header reads as N |
| TableParser.CellKindOf | contentScript.modular.js:944-1010 | a row's first cell is read as a header or as a sprite cell |
| TableParser.WalkRowsKeeps | contentScript.modular.js:944-1010 | the sibling walk only appends rows, and each appended row has a sprite cell |
| TableParser.WalkRowsInOrder | contentScript.modular.js:944-1010 | the rows the walk collects follow each other in sibling order |
| TableParser.TeamRowsArePlayerRows | contentScript.modular.js:944-1010 | `getTeamRows` yields at most five rows, each a player row |
| TableParser.TeamRowsInOrder | contentScript.modular.js:944-1010 | the team rows come after the header row, in sibling order |
| TableParser.GetTeamRows | contentScript.modular.js:944-1010 | the sibling loop with its `playerCount` counter computes the team rows |
| TableParser.TeamRowsComplete | contentScript.modular.js:944-1010 | the team rows are exactly the first five (or fewer) sprite rows among the siblings after the header's row that come before the first sibling that is not a `tr` or whose first cell mentions a team header |
| TableParser.ReadFirstCell | contentScript.modular.js:958-981 | the loop body's reading of the first cell computes the row's kind |
| TableParser.TeamFromTable | contentScript.modular.js:848-942 | a team exists iff it has rows; its filled slots are the parsed players in row order; it has a player list exactly for the defeated side; its total score is the score read from its header's text |
| TableParser.TeamScoreOfHeader | contentScript.modular.js:862-864 | a team whose header reads `<key> - N` has total score N |
| TableParser.ExtractWinnerTeamFromTable | contentScript.modular.js:848-894 | the winner team exists iff the `Victory` header has rows; its slots hold the parsed players; its score is read from the `Victory - N` header; it has no player list |
| TableParser.ExtractDefeatedTeamFromTable | contentScript.modular.js:896-942 | the defeated team exists iff the `Defeated` header has rows; its slots hold the parsed players; its score is read from the `Defeated - N` header; its player list equals its filled slots |
| TableParser.ExtractMatchDate | contentScript.modular.js:824-833 | the date is `Unknown` iff the date or the time is missing |
| TableParser.MatchDateParts | contentScript.modular.js:824-833 | the date and time are joined by one space and split back apart |
| TableParser.ExtractMatchType | contentScript.modular.js:835-846 | the match type is always `Standard` |
| TableParser.LastColorScore | contentScript.modular.js:704-721 | a side's score is absent iff no colour element has that side's colour |
| TableParser.LastColorScoreIsLast | contentScript.modular.js:704-721 | a present side score is the score of an element of that colour after which no element has that colour, so the last one wins |
| TableParser.ReadColorScores | contentScript.modular.js:704-721 | the loop over `p[color]` leaves each side with the score of its last element |
| TableParser.ColorsDisjoint | contentScript.modular.js:711-718 | no colour is both purple and orange |
| TableParser.ExtractCompleteMatchDataFromTable | contentScript.modular.js:685-739 | data exists iff both team headers have rows; the slots are the parsed rows; the type is `Standard`; each side score is the last score of its colour among the `p[color]` elements of the match element, absent iff no element has that colour; each team's total is the score read from its header's text |
| TableParser.SpriteRows | contentScript.modular.js:753-764 | exactly the rows whose first cell holds a sprite are kept |
| TableParser.SpriteRowsCount | contentScript.modular.js:753-764 | each sprite row is kept as often as it occurs, and no other row |
| TableParser.SpriteRowsSnoc | contentScript.modular.js:756-764 | one more row is appended at the end exactly when its first cell holds a sprite, so the kept rows stay in document order |
| TableParser.SpriteRowsConcat | contentScript.modular.js:753-764 | the sprite rows of two consecutive row lists are those of the first followed by those of the second |
| TableParser.AlternativeTeam | contentScript.modular.js:741-822 | the parsed players are compacted into the first slots, the rest are empty, and the score is 0 |
| TableParser.ExtractAlternativeMatchData | contentScript.modular.js:741-822 | no data iff fewer than eight sprite rows; rows 1–5 feed the winner and rows 6–10 the defeated team, with scores 0 |
| CellExtractors.SrcsetLast | contentScript.modular.js:1088-1094 | the chosen srcset URL contains no comma and no space |
| CellExtractors.SrcsetLastOfCandidates | contentScript.modular.js:1088-1094 | the URL of the last `url descriptor` candidate is chosen |
| CellExtractors.ImageUrlOf | contentScript.modular.js:1088-1099 | a non-empty srcset choice is preferred; otherwise the resolved `src` property is the URL; none iff both are empty |
| CellExtractors.EmptySrcIsPageUrl | contentScript.modular.js:1096-1099 | without a srcset, a present but empty `src` attribute still gives a URL: the page's own, which an empty reference resolves to |
| CellExtractors.RootRelativeSrc | contentScript.modular.js:1096-1099 | without a srcset, a root-relative `src` yields its `https://uniteapi.dev` URL, which the rewrite does not leave alone |
| CellExtractors.SquareToken | contentScript.modular.js:1059-1077 | the species token is the first `t_Square_<tok>.png` capture; none iff no such pattern occurs |
| CellExtractors.SquareTokenOf | contentScript.modular.js:1063-1064 | a source `pre + t_Square_<tok>.png + post`, where `pre` holds no `t_Square_` and `tok` is non-empty without a dot, reads back as `tok` |
| CellExtractors.ExtractPokemonFromCell | contentScript.modular.js:1059-1077 | `unknown` iff there is no image, no `src` or no `t_Square_` file name; otherwise the lower-cased token, passed through the name mapper when it is loaded; never empty |
| CellExtractors.PokemonFromSquareUrl | contentScript.modular.js:1059-1077 | an image whose `src` embeds `t_Square_<tok>.png` after a prefix with no such key names the species `tok` in lower case, mapped when the mapper is loaded |
| CellExtractors.ExtractBattleItemFromCell | contentScript.modular.js:1079-1112 | an item URL exists iff the image has one; a URL outside the rewrite branches is kept as is |
| CellExtractors.BattleItemUrlStable | contentScript.modular.js:1079-1112 | a battle-item URL from the rewrite branches is a fixed point of the rewrite |
| CellExtractors.FirstNameIndex | contentScript.modular.js:1119-1136 | the name paragraph is the first paragraph whose text looks like a name |
| CellExtractors.PlayerNameOf | contentScript.modular.js:1114-1162 | `Unknown` without a name element or when its text without `svg`, `div` and `img` is blank; otherwise a name that, white space aside, is exactly that text |
| CellExtractors.CleanName | contentScript.modular.js:1145-1157 | trimming and collapsing white-space runs keep every other character in order; blank text gives `Unknown` |
| CellExtractors.ExtractPlayerNameFromCell | contentScript.modular.js:1114-1162 | the method that clones and strips the element computes that name |
| CellExtractors.PlayerNameShaped | contentScript.modular.js:1114-1162 | a player name is trimmed and single-spaced |
| CellExtractors.ExtractScoreFromCell | contentScript.modular.js:1164-1172 | an unparseable score is 0 |
| CellExtractors.ScoreOfNumber | contentScript.modular.js:1164-1172 | a score cell showing N reads as N |
| CellExtractors.KaiField | contentScript.modular.js:1174-1211 | without `\|`, for a missing position, and for a position that `parseInt` cannot read, a K\|A\|I field is 0, independently of the other positions |
| CellExtractors.KaiOfParts | contentScript.modular.js:1174-1211 | each field of `a\|b\|c` is read from its own part alone, so an unreadable part zeroes only its own field |
| CellExtractors.KaiOfNumbers | contentScript.modular.js:1174-1211 | `a\|b\|c` reads back as kills a, assists b and interrupts c |
| CellExtractors.KaiExample | contentScript.modular.js:1174-1211 | `5\|2\|1` gives 5, 2 and 1 |
| CellExtractors.DamageField | contentScript.modular.js:1213-1254 | a missing damage paragraph, or one that `parseInt` cannot read, gives 0 |
| CellExtractors.DamageOfNumber | contentScript.modular.js:1213-1254 | a damage paragraph showing N reads as N |
| CellExtractors.SkillFragment | contentScript.modular.js:1335-1336 | the skill fragment is a non-empty capture without a dot; none iff no `t_Skill_` pattern occurs |
| CellExtractors.NormalizeCode | contentScript.modular.js:1337-1358 | the code is the first of s11, s12, s21, s22, s13, s23, s24 contained in the fragment, else the fragment itself |
| CellExtractors.AbilityOf | contentScript.modular.js:1315-1366 | an ability exists iff the image has a URL with a `t_Skill_` fragment; its code is the normalised lower-cased fragment and its URL the icon-width rewrite of the image URL |
| CellExtractors.FilterFamily | contentScript.modular.js:1378-1379 | exactly the abilities of one family are kept, each as often as it occurs |
| CellExtractors.FilterFamilySnoc | contentScript.modular.js:1378-1379 | one more ability is appended at the end exactly when it is of the family, so the filter keeps scan order |
| CellExtractors.FilterFamilyConcat | contentScript.modular.js:1378-1379 | filtering two consecutive lists is filtering each, in order |
| CellExtractors.FilterFamilyIdempotent | contentScript.modular.js:1378-1379 | filtering twice changes nothing |
| CellExtractors.OtherFamilyEmpty | contentScript.modular.js:1378-1379 | the s1 abilities hold no s2 ability, and the reverse |
| CellExtractors.OrderAbilities | contentScript.modular.js:1370-1385 | without both families present, scan order is kept |
| CellExtractors.OrderAbilitiesMixed | contentScript.modular.js:1370-1385 | with both families present, the result holds exactly the s1 and s2 abilities, each as often as scanned; no s1 follows an s2; each family keeps its scan order |
| CellExtractors.OrderAbilitiesExample | contentScript.modular.js:1370-1385 | an s2 code scanned before an s1 code is moved after it |
| CellExtractors.ScanImages | contentScript.modular.js:1314-1368 | the loop over the images collects the abilities they yield |
| CellExtractors.ExtractAbilitiesFromCell | contentScript.modular.js:1308-1391 | the abilities are the scanned ones, in s1-before-s2 order |
| CellExtractors.ExtractPlayerDataFromTableRow | contentScript.modular.js:1012-1057 | a player is read iff the row has at least six cells; the player has no held items, a species and a name |
| ImageUrls.IncreaseImageResolution | contentScript.modular.js:1257-1306 | no URL gives none; a URL outside the branches is unchanged; a proxy URL without `url=` or `w=` gets `w=<width>&q=100` appended; the `url=` branch (when decoding succeeds) and the `/Sprites/` branch give a proxy URL ending in `&w=<width>&q=100`; a failed decode keeps the URL; another site URL gets what setting `w` and `q` on a `URL` gives, or the appended size when `new URL` throws |
| ImageUrls.ProxyWidthResult | contentScript.modular.js:1269-1272 | a proxy URL with `w=<digits>` and later `q=<digits>` has the width replaced by the requested one and the quality by 100, and nothing else changed |
| ImageUrls.ProxyParamKeepsPath | contentScript.modular.js:1264-1268 | the rewritten proxy URL's `url=` parameter decodes to the same image path as the original's, given decode∘encode = id |
| ImageUrls.SpriteRewriteKeepsPath | contentScript.modular.js:1278-1285 | the sprite rewrite's `url=` parameter decodes to `/Sprites/<path>`, given decode∘encode = id |
| ImageUrls.ProxyUrlFixed | contentScript.modular.js:1262-1276 | a proxy URL the rewrite builds is a fixed point of the rewrite |
| ImageUrls.ReapplyRewrite | contentScript.modular.js:1257-1306 | re-applying the rewrite to an output of the proxy or sprite branch changes nothing, given decode∘encode = id |
| MatchExtractor.Batch | contentScript.modular.js:265 | at most the first eight located elements are processed, in order |
| MatchExtractor.ParsedBatch | contentScript.modular.js:276-284 | element i is parsed with its own stamps |
| MatchExtractor.KeepAccepted | contentScript.modular.js:292-299 | exactly the records whose outcome is non-empty and has no `Error`, and which carry no error, are kept |
| MatchExtractor.AllTableMissing | contentScript.modular.js:305-306 | the table-not-found count equals the batch size iff every record lost its table |
| MatchExtractor.NoneKeptWhenAllMissing | contentScript.modular.js:340-347 | when every record lost its table, none is kept |
| MatchExtractor.MatchDataExtractor.ProcessBatch | contentScript.modular.js:273-348 | the loop appends the accepted records to `matches`, and reports all-missing iff the count is positive and covers the batch |
| MatchExtractor.MatchDataExtractor.ExtractFromElements | contentScript.modular.js:264-348 | an empty element list processes nothing; otherwise `matches` grows by the accepted records of the batch |
| MatchExtractor.MatchDataExtractor.ExtractMatchesFromCurrentPage | contentScript.modular.js:253-369 | `matches` grows by the accepted records of the page; the page fails with `TODAS_TABELAS_NAO_ENCONTRADAS` exactly when some and all processed elements lost their table |
| MatchExtractor.FailedPageKeepsNothing | contentScript.modular.js:340-347 | a failed page keeps no record |
| MatchExtractor.KeptRecordsShape | contentScript.modular.js:264-348 | a page keeps at most eight records, none with an error |
| StatsCalculator.AllPlayers | modules/statsCalculator.js:110-129 | no players without data; otherwise exactly the filled slots, at most ten |
| StatsCalculator.AllPlayersOrder | modules/statsCalculator.js:110-129 | the order is winner slots 1–5, then defeated slots 1–5 |
| StatsCalculator.RoundDiv | modules/statsCalculator.js:37-48 | the quotient is `Math.round(n / d)`, with halves rounded up |
| StatsCalculator.GeneralStatsOf | modules/statsCalculator.js:5-54 | without data, all zeros; otherwise team battles is the damage over 7500 rounded, KO per minute is kills over ten, and the ratio is kills plus assists |
| StatsCalculator.TotalsOverSlots | modules/statsCalculator.js:31-44 | the totals are the sums over the filled slots of both teams |
| StatsCalculator.RoundedAtLeast | modules/statsCalculator.js:37-48 | a rounded quotient is at least k iff the numerator reaches k·d minus half of d |
| StatsCalculator.Percentage | modules/statsCalculator.js:58-95 | a percentage is at most 100; below 100 it is 100·v/ref rounded; it is 100 iff v is within half a percent of the reference; it is non-negative for v ≥ 0 |
| StatsCalculator.RadarStats | modules/statsCalculator.js:58-107 | no player gives all zeros; otherwise each axis is its field's percentage of the fixed reference, and healing is 0 |
| StatsCalculator.RadarInRange | modules/statsCalculator.js:58-95 | for non-negative fields every radar value lies in 0..100 |
| StatsCalculator.FullAtReference | modules/statsCalculator.js:58-95 | a value at or above its reference gives 100 |
| PokemonMapper.MapPokemonName | modules/pokemonMapper.js:89-93 | empty stays empty; a name whose trimmed lower-case key is in the table maps to its display name, any other name to itself |
| PokemonMapper.MapPokemonNameIdempotent | modules/pokemonMapper.js:5-20 | mapping a mapped name changes nothing |
| PokemonMapper.NameValueStable | modules/pokemonMapper.js:5-20 | every display name of the table maps to itself |
| PokemonMapper.MapPokemonImageName | modules/pokemonMapper.js:100-139 | the image name is a table value or a lower-case hyphenated shape; the fallback is the hyphenated form |
| PokemonMapper.NormalizedShaped | modules/pokemonMapper.js:112-115 | the hyphenated form has no upper case, no dot or white space, no double hyphen and no hyphen at either end |
| PokemonMapper.ImageValueStable | modules/pokemonMapper.js:23-82 | every image-table value maps to itself |
| PokemonMapper.MrMimeFallback | modules/pokemonMapper.js:128-135 | when no table lookup hits, a name mentioning both `mr` and `mime` gives `mr-mime` |
| PokemonMapper.MapPokemonImageNameIdempotent | modules/pokemonMapper.js:100-139 | the image-name mapping is idempotent |
| PokemonMapper.Capitalize | modules/pokemonMapper.js:146-154 | capitalising keeps the length and the letters (equal once lower-cased), leaves no lower-case first letter and no upper case after it |
| PokemonMapper.NormalizePokemonName | modules/pokemonMapper.js:146-154 | `unknown` for empty or `unknown`; otherwise the mapped name's letters, equal to it once lower-cased, with an upper-case first letter and the rest lower case |
| PokemonMapper.FormattedPokemonName | modules/pokemonMapper.js:161-195 | `unknown` for empty or `unknown`; a special-case name gives its table spelling |
| PokemonMapper.FormattedWords | modules/pokemonMapper.js:181-195 | otherwise, splitting the result on the separator gives the capitalised words of the mapped name |
| PokemonMapper.PokemonImagePath | modules/pokemonMapper.js:203-214 | `/pokemons/roster-unknown.png` for empty or `unknown`, else `/pokemons/<type>-<image name>.png` |
| PokemonMapper.DefaultTypeIsRoster | modules/pokemonMapper.js:203 | with the default image type, the path is always a `/pokemons/roster-` image |
| ItemMapper.StrippedKey | modules/itemMapper.js:89 | the stripped key is over [a-z0-9] only |
| ItemMapper.NormalizeBattleItemName | modules/itemMapper.js:87-91 | none iff empty or `none`; a result is a table value or over [a-z0-9]; without a table hit it is the stripped key |
| ItemMapper.BattleItemIdempotent | modules/itemMapper.js:6-19 | normalising a normalised battle item changes nothing |
| ItemMapper.NormalizeHeldItemName | modules/itemMapper.js:94-104 | none iff empty or `none`; a result is a table value or over [a-z0-9] |
| ItemMapper.HeldItemKeyPriority | modules/itemMapper.js:97-103 | the lower-cased exact key wins over the stripped key |
| ItemMapper.BattleItemImagePath | modules/itemMapper.js:107-111 | empty iff normalisation is none or empty; otherwise the path's file name is the normalised name |
| ItemMapper.HeldItemImagePath | modules/itemMapper.js:114-118 | empty iff normalisation is none or empty; otherwise the path's file name is the normalised name |
| ItemMapper.MoveSlug | modules/itemMapper.js:124-127 | the slug is over [a-z0-9-]; without its hyphens it is exactly the [a-z0-9] characters of the lower-cased name, in order; no two hyphens are adjacent; split at its hyphens, it is the lower-cased name, kept to letters, digits and white space, split at its white-space runs (so a leading or trailing space gives a hyphen at that end) |
| ItemMapper.AbilityImagePath | modules/itemMapper.js:121-131 | empty if either argument is empty; otherwise the move path of the slug and the unchanged code |
| ItemMapper.MovePathParts | modules/itemMapper.js:121-131 | the slug and the code are read back from a move path |
| PokemonData.NormalizeName | modules/pokemonData.js:37-40 | the normalised name is over [a-z0-9] only, and empty for empty input |
| PokemonData.NormalizeNameIdempotent | modules/pokemonData.js:37-40 | normalising twice changes nothing |
| PokemonData.Variations | modules/pokemonData.js:42-73 | the first variation is the normalised name; two more per space, two per hyphen, plus the special cases |
| PokemonData.PlainNameVariations | modules/pokemonData.js:42-73 | a name without space, hyphen or special case has only its normalised form |
| PokemonData.SetAllSpec | modules/pokemonData.js:21-34 | storing one entry under several keys maps each key to it and leaves the other keys alone |
| PokemonData.IndexLastWriter | modules/pokemonData.js:20-35 | after loading, a key maps to the last entry that wrote it; untouched keys keep their old value |
| PokemonData.PokemonIndex.constructor | modules/pokemonData.js:5-18 | loading at construction fills the name and normalised-name indexes, and leaves `pokemonsMap` empty |
| PokemonData.PokemonIndex.LoadPokemonsData | modules/pokemonData.js:20-35 | the indexes become the old ones with every entry stored under its keys, in order; `pokemonsMap` is unchanged |
| PokemonData.PokemonIndex.LoadPokemon | modules/pokemonData.js:21-33 | one entry is stored under its name, its normalised name and its variations |
| PokemonData.PokemonIndex.StoreVariations | modules/pokemonData.js:30-32 | the inner loop stores the entry under each variation |
| PokemonData.PokemonIndex.FirstHitSpec | modules/pokemonData.js:75-112 | a probe list finds nothing iff no probe hits, and otherwise finds the earliest hit |
| PokemonData.PokemonIndex.PokemonByName | modules/pokemonData.js:75-112 | an empty name finds nothing |
| PokemonData.PokemonIndex.CascadeIsFirstHit | modules/pokemonData.js:75-112 | the lookup is the first hit among: mapped exact, original exact, normalised mapped, variations of mapped, variations of original |
| PokemonData.PokemonIndex.FoundIsIndexed | modules/pokemonData.js:75-112 | a found entry is a value of one of the indexes |
| PokemonData.PokemonIndex.FirstVariation | modules/pokemonData.js:98-109 | the loop over variations returns the first one with an entry |
| PokemonData.PokemonIndex.GetPokemonByName | modules/pokemonData.js:75-112 | the method computes the lookup |
| PokemonData.PokemonIndex.LookupCascade | modules/pokemonData.js:85-111 | the nested tries compute the cascade |
| PokemonData.PokemonIndex.PokemonImagePath | modules/pokemonData.js:114-142 | for a found entry with images: its image under the selected key when that is set, else its `complete` image when that is set, else empty; otherwise a non-empty fallback path |
| PokemonData.PokemonIndex.UnrecognisedTypeIsComplete | modules/pokemonData.js:114-142 | an unrecognised image type behaves as `complete` |
| PokemonData.PokemonIndex.AbilityImagePath | modules/pokemonData.js:144-169 | empty if either argument is empty; the entry's `move_<code>` image when set; otherwise `/pokemons/moves/<image name>_<code>.png` with `PokemonMapper`'s image name when it is loaded, else `ItemMapper`'s ability path |
| PokemonData.PokemonIndex.AbilityFallbackAgrees | modules/pokemonData.js:158-168 | without a data image and without the mapper, the path is the one `ItemMapper` builds |
| PokemonData.PokemonIndex.NormalizePokemonName | modules/pokemonData.js:200-208 | with the mapper, the mapper's normalisation; else the found entry's name; else none for empty, or the name capitalised, equal to it once lower-cased |
| PokemonData.BattleItemImagePath | modules/pokemonData.js:171-183 | empty for empty or `none`; with `ItemMapper` loaded, exactly its battle item path; without it, a file name over [a-z0-9] |
| PokemonData.HeldItemImagePath | modules/pokemonData.js:185-197 | empty for empty or `none`; with `ItemMapper` loaded, exactly its held item path; without it, a file name over [a-z0-9] |
| PokemonData.BattleItemPathsAgree | modules/pokemonData.js:171-183 | without a table hit, the path is the same with or without `ItemMapper` |
| PokemonData.HeldItemPathsAgree | modules/pokemonData.js:185-197 | without a table hit, the path is the same with or without `ItemMapper` |
| ImageSelection.SlotRoster | modules/imageGenerator.js:717-731 | the fallback roster is exactly the filled slots of both teams |
| ImageSelection.Roster | modules/imageGenerator.js:706-731 | the roster is the filled slots, whether or not the calculator is loaded |
| ImageSelection.RosterIgnoresCalculator | modules/imageGenerator.js:706-731 | the calculator's roster and the fallback roster are the same list |
| ImageSelection.FindByName | modules/imageGenerator.js:733-738 | the first roster player whose name matches, ignoring case; none iff none matches |
| ImageSelection.MainPlayer | modules/imageGenerator.js:733-743 | none iff the roster is empty; otherwise the first roster player whose name matches, else the first player |
| ImageSelection.NoSourceTakesFirst | modules/imageGenerator.js:733-743 | without a source name, the first roster player is the main player |
| ImageSelection.HasPlayerNamed | modules/imageGenerator.js:429-431 | some filled slot carries exactly the name |
| ImageSelection.Scores | modules/imageGenerator.js:429-435 | the main player wins iff a winner slot has their exact name; team and opponent scores follow that side |
| ImageSelection.ScoresArePermuted | modules/imageGenerator.js:429-435 | the two scores shown are the two team scores, in some order |
| ImageSelection.ScoresFollowTeam | modules/imageGenerator.js:429-435 | a main player in a winner slot wins; one whose name is in no winner slot loses |
| ImageSelection.OrDefault | modules/imageGenerator.js:524-532 | a falsy value is drawn as 50, anything else as itself |
| ImageSelection.RadarValues | modules/imageGenerator.js:510-532 | six values, none zero; `interrupts` is always 50; no radar gives all 50; with a radar, knockouts, damage taken, damage dealt, scoring and assists are each drawn as is when truthy, else 50 |
| ImageSelection.RadarValuesInRange | modules/imageGenerator.js:510-532 | for non-negative fields every drawn value lies in 1..100, and a non-zero percentage is drawn as is |
| ImageSelection.Sanitize | modules/imageGenerator.js:778-781 | each character outside [A-Za-z0-9] becomes `_`, so no hyphen remains |
| ImageSelection.DatePart | modules/imageGenerator.js:778-781 | the date with each `/` replaced by `-` and every other character kept, or today's date when there is none |
| ImageSelection.DownloadNameParts | modules/imageGenerator.js:778-781 | the name and the date are read back from the filename after the `unite-stats-` prefix |
| ImageSelection.SelectForImage | modules/imageGenerator.js:696-781 | missing data fails iff data is missing; no main player iff no player; otherwise the roster, the main player chosen by the source name, the oriented scores, the radar drawn for that player and the download filename for their name and the match date |

## Left out

- The `UniteApiScraper` class, `background.js` and `photoUpload.js`: these are extension chrome, messaging, storage and UI.
- The module-readiness poll, `expandAllAccordionsOnly` and `isAccordionExpanded`: clicks, delays and layout measurement.
- `Utils.delay` and `async`/`await`: modelled as sequential code.
- `Utils.generateMatchId` and `extractedAt`: the ids and timestamps are inputs.
- The console logging, and the success and other-error counters of the batch loop: they only feed the logs.
- The canvas drawing of `ImageGenerator`: rounded rectangles, radar geometry in floating point, image loading, `toDataURL`, `toLocaleString` and the download click.
- The current date in the filename: it comes from the clock and is an input.
- `encodeURIComponent`, `decodeURIComponent`, `URL.searchParams` and URL resolution of `src`: they are function parameters. decode∘encode = id is a hypothesis of the re-application lemmas, and root-relative resolution against the site is a hypothesis of `CellExtractors.RootRelativeSrc`.
- Parts of the page outside `body`, such as `html` and `head`.
- UTF-16 code units: strings are sequences of characters, so `substring(0, 100)` counts characters.
- Letter case outside ASCII: case mapping is ASCII only.
- The regular-expression engine: each pattern the source uses is a hand-written matcher.
- Keys inherited from `Object.prototype` in the lookup tables (`constructor`, `toString`, …): the tables are finite maps.
- Floating point: `Math.round` and the one-decimal KO per minute are exact integer arithmetic. `koPerMin` is kept as tenths.
- The `PROCESSING_ERROR` record: apart from the table-not-found error, every exception a callee can raise is caught inside that callee. This branch of `parseMatchElement` therefore cannot be reached, and the model has no such path.
- ItemMapper.NormalizeHeldItemName: idempotence of held-item normalisation is not proved. It would need a case-by-case check of every value of the held-item table, and the model does not carry that out.
