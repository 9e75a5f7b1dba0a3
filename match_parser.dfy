/**
 * `parseMatchElement` and `extractAllPlayersData`: the header fields read from
 * a match element's text (outcome, date, time, map), the choice of player
 * table and the validity gate that keeps a match only with eight or more
 * players.
 */
module MatchParser {
  import opened Base
  import opened JsText
  import opened Dom
  import opened MatchRecords
  import opened TableParser

  // ---------------------------------------------------------------------------
  // Outcome
  // ---------------------------------------------------------------------------

  /** The outcome keyword, by priority: Victory/WIN, then LOSE/Defeat, then Surrendered. */
  function Outcome(text: string): (r: string)
    ensures r == "Victory" <==> Contains(text, "Victory") || Contains(text, "WIN")
    ensures r == "Defeat" <==>
      !(Contains(text, "Victory") || Contains(text, "WIN")) && (Contains(text, "LOSE") || Contains(text, "Defeat"))
    ensures r == "Surrendered" <==>
      !(Contains(text, "Victory") || Contains(text, "WIN") || Contains(text, "LOSE") || Contains(text, "Defeat"))
      && Contains(text, "Surrendered")
    ensures r == "Victory" || r == "Defeat" || r == "Surrendered" || r == "Unknown"
  {
    if Contains(text, "Victory") || Contains(text, "WIN") then "Victory"
    else if Contains(text, "LOSE") || Contains(text, "Defeat") then "Defeat"
    else if Contains(text, "Surrendered") then "Surrendered"
    else "Unknown"
  }

  /** No outcome keyword mentions `Error`, so the batch loop never mistakes a parsed outcome for a failure. */
  lemma OutcomeNotError(text: string)
    ensures !Contains(Outcome(text), "Error")
  {
    var r := Outcome(text);
    assert 'E' !in r;
    NotContainedFirstChar(r, "Error");
  }

  // ---------------------------------------------------------------------------
  // Date and time: /(\d{2}-\d{2}-\d{4})\s+(\d{2}:\d{2})/
  // ---------------------------------------------------------------------------

  /** `\d{2}-\d{2}-\d{4}` at the start of `t`. */
  predicate DateAt(t: string) {
    && |t| >= 10
    && IsDigit(t[0]) && IsDigit(t[1]) && t[2] == '-' && IsDigit(t[3]) && IsDigit(t[4]) && t[5] == '-'
    && IsDigit(t[6]) && IsDigit(t[7]) && IsDigit(t[8]) && IsDigit(t[9])
  }

  /** `\d{2}:\d{2}` at the start of `t`. */
  predicate ClockAt(t: string) {
    |t| >= 5 && IsDigit(t[0]) && IsDigit(t[1]) && t[2] == ':' && IsDigit(t[3]) && IsDigit(t[4])
  }

  /** The white space between the date and the clock: the whole run after the ten date characters. */
  function GapAfterDate(t: string): nat
    requires |t| >= 10
  {
    ClassRun(t[10..], Space)
  }

  /** The date-and-time pattern matches at the start of `t`. */
  predicate DateTimeAt(t: string) {
    DateAt(t) && GapAfterDate(t) >= 1 && ClockAt(t[10 + GapAfterDate(t)..])
  }

  /**
   * `\s+` is followed by a digit, so the only split the regular expression
   * can take is the whole white-space run: any gap of white space followed
   * by a clock is the one `DateTimeAt` looks at.
   */
  lemma GapIsWholeRun(t: string, m: nat)
    requires DateAt(t) && m >= 1 && 10 + m <= |t|
    requires forall i :: 10 <= i < 10 + m ==> IsSpace(t[i])
    requires ClockAt(t[10 + m..])
    ensures GapAfterDate(t) == m && DateTimeAt(t)
  {
    var a, b := t[10..10 + m], t[10 + m..];
    assert t[10..] == a + b;
    assert !InClass(b[0], Space);
    ClassRunOf(a, b, Space);
  }

  /** `text.match(...)`: the date and the clock of the leftmost match. */
  function DateTime(text: string): (r: Option<(string, string)>)
    ensures r.None? <==> forall j :: 0 <= j <= |text| ==> !DateTimeAt(text[j..])
    ensures r.Some? ==> DateAt(r.value.0) && |r.value.0| == 10 && ClockAt(r.value.1) && |r.value.1| == 5
  {
    match FirstMatch(text, 0, DateTimeAt)
    case None => None
    case Some(i) =>
      var t := text[i..];
      Some((t[..10], t[10 + GapAfterDate(t)..][..5]))
  }

  /** A date, one white-space run and a clock at the head of the text are read back as the date and time. */
  lemma DateTimeOf(date: string, gap: string, clock: string, rest: string)
    requires DateAt(date) && |date| == 10 && ClockAt(clock) && |clock| == 5
    requires |gap| >= 1 && forall i :: 0 <= i < |gap| ==> IsSpace(gap[i])
    ensures DateTime(date + gap + clock + rest) == Some((date, clock))
  {
    var text := date + gap + clock + rest;
    assert text[0..] == text;
    assert DateAt(text) by { assert text[..10] == date; }
    assert text[10..10 + |gap|] == gap;
    assert text[10 + |gap|..] == clock + rest;
    GapIsWholeRun(text, |gap|);
    FirstMatchAt(text, 0, 0, DateTimeAt);
    assert text[..10] == date;
    assert (clock + rest)[..5] == clock;
  }

  // ---------------------------------------------------------------------------
  // Map: /(Theia Sky Ruins|Mer Stadium|Shivre City|Auroma Park|Remoat Stadium)/
  // ---------------------------------------------------------------------------

  const MapNames: seq<string> := ["Theia Sky Ruins", "Mer Stadium", "Shivre City", "Auroma Park", "Remoat Stadium"]

  /** The first alternative, in pattern order, that starts `t`. */
  function MapNameAt(t: string, names: seq<string>): (r: Option<string>)
    ensures r.Some? ==> r.value in names && StartsWith(t, r.value)
    ensures r.None? <==> forall i :: 0 <= i < |names| ==> !StartsWith(t, names[i])
  {
    if names == [] then None
    else if StartsWith(t, names[0]) then Some(names[0])
    else MapNameAt(t, names[1..])
  }

  predicate MapAt(t: string) { MapNameAt(t, MapNames).Some? }

  /** The map named at the leftmost position where any map name occurs. */
  function MapName(text: string): (r: Option<string>)
    ensures r.Some? ==> r.value in MapNames
  {
    match FirstMatch(text, 0, MapAt)
    case None => None
    case Some(i) => MapNameAt(text[i..], MapNames)
  }

  /** The map read from the text is one it contains, and there is none exactly when it names no map. */
  lemma MapNameContained(text: string)
    ensures MapName(text).Some? ==> Contains(text, MapName(text).value)
    ensures MapName(text).None? <==> forall i :: 0 <= i < |MapNames| ==> !Contains(text, MapNames[i])
  {
    match FirstMatch(text, 0, MapAt)
    case Some(i) =>
      var name := MapName(text).value;
      assert text[i..i + |name|] == name;
      ContainsAt(text, name, i);
    case None =>
      forall i | 0 <= i < |MapNames|
        ensures !Contains(text, MapNames[i])
      {
        if Contains(text, MapNames[i]) {
          var j := ContainsWitness(text, MapNames[i]);
          assert MapAt(text[j..]);
          assert false;
        }
      }
  }

  // ---------------------------------------------------------------------------
  // The match record before the players are read
  // ---------------------------------------------------------------------------

  /** The `match` object after its header fields are filled in from the element's text. */
  function MatchHeader(text: string, id: string, stamp: string): (m: MatchRecord)
    ensures m.id == id && m.extractedAt == stamp && m.outcome == Outcome(text)
    ensures m.date.Some? <==> DateTime(text).Some?
    ensures m.time.Some? <==> DateTime(text).Some?
    ensures m.mapName == MapName(text)
    ensures m.fullMatchData.None? && m.totalPlayers.None? && m.error.None? && m.errorDetails.None?
  {
    var dt := DateTime(text);
    MatchRecord(
      id := id,
      extractedAt := stamp,
      outcome := Outcome(text),
      date := if dt.Some? then Some(dt.value.0) else None,
      time := if dt.Some? then Some(dt.value.1) else None,
      mapName := MapName(text),
      fullMatchData := None,
      totalPlayers := None,
      error := None,
      errorDetails := None)
  }

  // ---------------------------------------------------------------------------
  // extractAllPlayersData
  // ---------------------------------------------------------------------------

  /** `[class*="sc-a6584c64-0"]`: the wrapper the player table normally sits in. */
  const TableContainers: seq<Selector> := [Is(ClassHas("sc-a6584c64-0"))]

  /** What reading the players yields: the data, `null`, or the table-not-found exception. */
  datatype PlayersData = Data(md: MatchData) | NoData | TableNotFound

  /** The result together with the `match` object as the reading left it. */
  datatype Extraction = Extraction(data: PlayersData, m: MatchRecord)

  /** The two properties the reading stores on the match along with its data. */
  function WithData(m: MatchRecord, md: MatchData): MatchRecord {
    m.(fullMatchData := Some(md), totalPlayers := Some(PlayerCount(md)))
  }

  /**
   * The table inside the wrapper. With other than ten players and a complete
   * alternative reading, the source assigns to the `const` holding the data;
   * the `TypeError` is swallowed by the function's own `catch`, which
   * returns `null` before the match is touched.
   */
  function FromContainerTable(complete: Option<MatchData>, alt: Option<MatchData>, m: MatchRecord): (r: Extraction)
    ensures r.data.TableNotFound? == false
    ensures r.data.NoData? <==> complete.None? || (PlayerCount(complete.value) != 10 && alt.Some? && AllSlotsFilled(alt.value))
    ensures r.data.Data? ==> r.data.md == complete.value && r.m == WithData(m, r.data.md)
    ensures r.data.NoData? ==> r.m == m
  {
    match complete
    case None => Extraction(NoData, m)
    case Some(md) =>
      if PlayerCount(md) != 10 && alt.Some? && AllSlotsFilled(alt.value) then Extraction(NoData, m)
      else Extraction(Data(md), WithData(m, md))
  }

  /** The first table anywhere in the element, kept only with eight or more players. */
  function FromFirstTable(complete: Option<MatchData>, m: MatchRecord): (r: Extraction)
    ensures r.data.TableNotFound? <==> complete.None?
    ensures r.data.Data? <==> complete.Some? && PlayerCount(complete.value) >= 8
    ensures r.data.Data? ==> r.data.md == complete.value && r.m == WithData(m, r.data.md)
    ensures !r.data.Data? ==> r.m == m
  {
    match complete
    case None => Extraction(TableNotFound, m)
    case Some(md) =>
      if PlayerCount(md) >= 8 then Extraction(Data(md), WithData(m, md))
      else Extraction(NoData, m)
  }

  /** `extractAllPlayersData(element, match)`. */
  function ExtractAllPlayersData(doc: Node, element: Path, m: MatchRecord, parse: Path -> Option<Player>): (r: Extraction)
    ensures r.data.Data? ==> r.m == WithData(m, r.data.md)
    ensures !r.data.Data? ==> r.m == m
  {
    match Query(doc, element, TableContainers)
    case Some(c) =>
      (match Query(doc, c, Tables)
       case None => Extraction(TableNotFound, m)
       case Some(table) =>
         FromContainerTable(
           ExtractCompleteMatchDataFromTable(doc, table, element, m, parse),
           ExtractAlternativeMatchData(doc, table, m, parse),
           m))
    case None =>
      (match Query(doc, element, Tables)
       case None => Extraction(TableNotFound, m)
       case Some(table) => FromFirstTable(ExtractCompleteMatchDataFromTable(doc, table, element, m, parse), m))
  }

  /**
   * The table is not found when the wrapper holds no table, or, without a
   * wrapper, when the element has no table or its first table has no team
   * rows; without a wrapper, data is returned only with eight or more players.
   */
  lemma TableNotFoundCases(doc: Node, element: Path, m: MatchRecord, parse: Path -> Option<Player>)
    ensures var r := ExtractAllPlayersData(doc, element, m, parse);
      && (r.data.TableNotFound? <==>
            match Query(doc, element, TableContainers)
            case Some(c) => Query(doc, c, Tables).None?
            case None =>
              || Query(doc, element, Tables).None?
              || ExtractCompleteMatchDataFromTable(doc, Query(doc, element, Tables).value, element, m, parse).None?)
      && (Query(doc, element, TableContainers).None? && r.data.Data? ==> PlayerCount(r.data.md) >= 8)
  {
  }

  // ---------------------------------------------------------------------------
  // parseMatchElement
  // ---------------------------------------------------------------------------

  const InsufficientPlayers: string := "INSUFFICIENT_PLAYERS"
  const TableMissing: string := "TABELA_NAO_ENCONTRADA"

  const TableMissingOutcome: string := "Error - Tabela não encontrada"

  /** The table-not-found outcome is the one outcome that mentions `Error`. */
  lemma TableMissingOutcomeIsError()
    ensures Contains(TableMissingOutcome, "Error")
  {
    assert TableMissingOutcome[..5] == "Error";
  }

  /** The record that replaces a match whose player table was not found (with a fresh id and timestamp). */
  function TableMissingRecord(id: string, stamp: string): (r: MatchRecord)
    ensures r.error == Some(TableMissing) && r.outcome == TableMissingOutcome
    ensures r.fullMatchData.None? && r.totalPlayers.None?
  {
    MatchRecord(
      id := id,
      extractedAt := stamp,
      outcome := TableMissingOutcome,
      date := None,
      time := None,
      mapName := None,
      fullMatchData := None,
      totalPlayers := None,
      error := Some(TableMissing),
      errorDetails := Some("Não foi possível encontrar a tabela de dados dos jogadores nesta partida"))
  }

  /** `Partida tem apenas N jogadores` */
  function InsufficientDetails(n: nat): string {
    "Partida tem apenas " + NatToString(n) + " jogadores"
  }

  /**
   * The validity gate of `parseMatchElement`, given the reading of the
   * players and the alternative reading of the whole element: eight or more
   * players keep the data; otherwise an alternative with eight or more
   * replaces it; otherwise the match carries `INSUFFICIENT_PLAYERS` and the
   * primary count.
   */
  function Settle(ex: Extraction, alt: Option<MatchData>, errId: string, errStamp: string): (r: MatchRecord)
    ensures ex.data.TableNotFound? ==> r == TableMissingRecord(errId, errStamp)
    ensures ex.data.NoData? ==> r == ex.m
    ensures ex.data.Data? && PlayerCount(ex.data.md) >= 8 ==> r == WithData(ex.m, ex.data.md)
    ensures ex.data.Data? && PlayerCount(ex.data.md) < 8 ==>
      if alt.Some? && PlayerCount(alt.value) >= 8 then r == WithData(ex.m, alt.value)
      else r == ex.m.(error := Some(InsufficientPlayers), errorDetails := Some(InsufficientDetails(PlayerCount(ex.data.md))))
  {
    match ex.data
    case TableNotFound => TableMissingRecord(errId, errStamp)
    case NoData => ex.m
    case Data(md) =>
      if PlayerCount(md) >= 8 then WithData(ex.m, md)
      else if alt.Some? && PlayerCount(alt.value) >= 8 then WithData(ex.m, alt.value)
      else ex.m.(error := Some(InsufficientPlayers), errorDetails := Some(InsufficientDetails(PlayerCount(md))))
  }

  /** The record `parseMatchElement` returns; `id`/`stamp` name the match, `errId`/`errStamp` a replacement error record. */
  function ParseMatchElement(doc: Node, element: Path, parse: Path -> Option<Player>,
                             id: string, stamp: string, errId: string, errStamp: string): (r: MatchRecord)
  {
    var header := MatchHeader(TextContent(At(doc, element)), id, stamp);
    var ex := ExtractAllPlayersData(doc, element, header, parse);
    Settle(ex, ExtractAlternativeMatchData(doc, element, ex.m, parse), errId, errStamp)
  }

  /**
   * What a parsed record can be: a match whose data has eight or more
   * players and whose `totalPlayers` is their count, a match with no data
   * and no error, an `INSUFFICIENT_PLAYERS` match, or the table-not-found
   * record; and its outcome mentions `Error` exactly in the last case.
   */
  predicate RecordShape(r: MatchRecord, id: string, outcome: string) {
    && (r.error.None? && r.fullMatchData.Some? ==>
          PlayerCount(r.fullMatchData.value) >= 8 && r.totalPlayers == Some(PlayerCount(r.fullMatchData.value)))
    && (r.error.None? ==> r.id == id && r.outcome == outcome)
    && (r.error.Some? ==> r.error.value == InsufficientPlayers || r.error.value == TableMissing)
    && (Contains(r.outcome, "Error") <==> r.error == Some(TableMissing))
  }

  /** The gate gives a record of that shape from any reading that leaves a header-only match untouched. */
  lemma SettleShape(ex: Extraction, alt: Option<MatchData>, header: MatchRecord, errId: string, errStamp: string)
    requires header.fullMatchData.None? && header.error.None? && !Contains(header.outcome, "Error")
    requires ex.data.Data? ==> ex.m == WithData(header, ex.data.md)
    requires !ex.data.Data? ==> ex.m == header
    ensures RecordShape(Settle(ex, alt, errId, errStamp), header.id, header.outcome)
  {
    TableMissingOutcomeIsError();
  }

  lemma ParsedRecordShape(doc: Node, element: Path, parse: Path -> Option<Player>,
                          id: string, stamp: string, errId: string, errStamp: string)
    ensures RecordShape(ParseMatchElement(doc, element, parse, id, stamp, errId, errStamp),
                        id, Outcome(TextContent(At(doc, element))))
  {
    var text := TextContent(At(doc, element));
    var header := MatchHeader(text, id, stamp);
    var ex := ExtractAllPlayersData(doc, element, header, parse);
    OutcomeNotError(text);
    SettleShape(ex, ExtractAlternativeMatchData(doc, element, ex.m, parse), header, errId, errStamp);
  }

  /** A missing table (no table in the wrapper, or none readable without a wrapper) yields the table-not-found record. */
  lemma TableNotFoundRecord(doc: Node, element: Path, parse: Path -> Option<Player>,
                            id: string, stamp: string, errId: string, errStamp: string)
    requires Query(doc, element, TableContainers).None? && Query(doc, element, Tables).None?
    ensures ParseMatchElement(doc, element, parse, id, stamp, errId, errStamp) == TableMissingRecord(errId, errStamp)
  {
    var header := MatchHeader(TextContent(At(doc, element)), id, stamp);
    var ex := ExtractAllPlayersData(doc, element, header, parse);
    assert ex.data.TableNotFound?;
    assert ParseMatchElement(doc, element, parse, id, stamp, errId, errStamp)
        == Settle(ex, ExtractAlternativeMatchData(doc, element, ex.m, parse), errId, errStamp);
  }

  /** An `INSUFFICIENT_PLAYERS` match names the count of the first reading, which is below eight. */
  lemma InsufficientNamesPrimaryCount(doc: Node, element: Path, parse: Path -> Option<Player>,
                                      id: string, stamp: string, errId: string, errStamp: string)
    requires ParseMatchElement(doc, element, parse, id, stamp, errId, errStamp).error == Some(InsufficientPlayers)
    ensures var header := MatchHeader(TextContent(At(doc, element)), id, stamp);
      var ex := ExtractAllPlayersData(doc, element, header, parse);
      && ex.data.Data? && PlayerCount(ex.data.md) < 8
      && ParseMatchElement(doc, element, parse, id, stamp, errId, errStamp).errorDetails
           == Some(InsufficientDetails(PlayerCount(ex.data.md)))
  {
    var header := MatchHeader(TextContent(At(doc, element)), id, stamp);
    var ex := ExtractAllPlayersData(doc, element, header, parse);
    var alt := ExtractAlternativeMatchData(doc, element, ex.m, parse);
    assert ParseMatchElement(doc, element, parse, id, stamp, errId, errStamp) == Settle(ex, alt, errId, errStamp);
    SettleInsufficient(ex, alt, errId, errStamp);
  }

  lemma SettleInsufficient(ex: Extraction, alt: Option<MatchData>, errId: string, errStamp: string)
    requires Settle(ex, alt, errId, errStamp).error == Some(InsufficientPlayers)
    requires ex.m.error.None?
    ensures ex.data.Data? && PlayerCount(ex.data.md) < 8
    ensures Settle(ex, alt, errId, errStamp).errorDetails == Some(InsufficientDetails(PlayerCount(ex.data.md)))
  {
  }

  /**
   * The reassignment of the `const` in the wrapper branch: a table read with
   * other than ten players whose alternative reading fills all ten slots
   * gives a match with neither data nor error.
   */
  lemma ConstReassignDropsData(doc: Node, element: Path, parse: Path -> Option<Player>,
                               id: string, stamp: string, errId: string, errStamp: string, c: Path, table: Path)
    requires Query(doc, element, TableContainers) == Some(c) && Query(doc, c, Tables) == Some(table)
    requires var header := MatchHeader(TextContent(At(doc, element)), id, stamp);
      var complete := ExtractCompleteMatchDataFromTable(doc, table, element, header, parse);
      var alt := ExtractAlternativeMatchData(doc, table, header, parse);
      complete.Some? && PlayerCount(complete.value) != 10 && alt.Some? && AllSlotsFilled(alt.value)
    ensures var r := ParseMatchElement(doc, element, parse, id, stamp, errId, errStamp);
      r.fullMatchData.None? && r.totalPlayers.None? && r.error.None?
  {
    var header := MatchHeader(TextContent(At(doc, element)), id, stamp);
    var ex := ExtractAllPlayersData(doc, element, header, parse);
    assert ex.data.NoData? && ex.m == header;
    assert ParseMatchElement(doc, element, parse, id, stamp, errId, errStamp)
        == Settle(ex, ExtractAlternativeMatchData(doc, element, ex.m, parse), errId, errStamp);
  }
}
