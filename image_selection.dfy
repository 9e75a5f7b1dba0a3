/**
 * The choices `ImageGenerator` makes before it draws anything: which roster it
 * works from, who the main player is, which team score is "ours", which radar
 * values are drawn, and the name of the downloaded file. The canvas itself is
 * not modelled; the current date is a parameter.
 */
module ImageSelection {
  import opened Base
  import opened JsText
  import opened MatchRecords
  import opened StatsCalculator

  // ---------------------------------------------------------------------------
  // Roster and main player
  // ---------------------------------------------------------------------------

  /** The roster read straight from the slots: winner 1..5, then defeated 1..5, empty slots dropped. */
  function SlotRoster(d: MatchData): (r: seq<Player>)
    ensures |r| == PlayerCount(d)
    ensures forall p :: p in r <==> Some(p) in d.winnerTeam.slots || Some(p) in d.defeatedTeam.slots
  {
    PresentAppend(d.winnerTeam.slots, d.defeatedTeam.slots);
    Present(d.winnerTeam.slots + d.defeatedTeam.slots)
  }

  /**
   * The roster of `generateAndDownload`: `statsCalculator.getAllPlayers` when
   * the calculator is loaded, and the slot roster when that gave nothing.
   */
  function Roster(calculator: bool, m: MatchRecord): (r: seq<Player>)
    requires m.fullMatchData.Some?
    ensures |r| == PlayerCount(m.fullMatchData.value)
    ensures forall p :: p in r <==>
      Some(p) in m.fullMatchData.value.winnerTeam.slots || Some(p) in m.fullMatchData.value.defeatedTeam.slots
  {
    var fromCalculator := if calculator then AllPlayers(Some(m)) else [];
    if |fromCalculator| == 0 then SlotRoster(m.fullMatchData.value) else fromCalculator
  }

  /** Whether the calculator is loaded makes no difference: its roster is the slot roster. */
  lemma RosterIgnoresCalculator(m: MatchRecord)
    requires m.fullMatchData.Some?
    ensures Roster(true, m) == Roster(false, m) == SlotRoster(m.fullMatchData.value)
  {
    AllPlayersOrder(m);
  }

  /** `p.playerName && source && p.playerName.toLowerCase() === source.toLowerCase()` */
  predicate NameMatches(p: Player, source: string) {
    p.playerName != "" && source != "" && Lower(p.playerName) == Lower(source)
  }

  /** `roster.find(p => NameMatches(p, source))` */
  function FindByName(roster: seq<Player>, source: string): (r: Option<Player>)
    ensures r.None? <==> forall i :: 0 <= i < |roster| ==> !NameMatches(roster[i], source)
    ensures r.Some? ==>
      exists i :: 0 <= i < |roster| && r.value == roster[i] && NameMatches(roster[i], source)
        && forall j :: 0 <= j < i ==> !NameMatches(roster[j], source)
  {
    if roster == [] then None
    else if NameMatches(roster[0], source) then Some(roster[0])
    else
      var r := FindByName(roster[1..], source);
      assert forall i :: 1 <= i < |roster| ==> roster[1..][i - 1] == roster[i];
      r
  }

  /**
   * The main player: the first roster player whose name equals the source
   * name ignoring case, else the first player; nobody for an empty roster.
   */
  function MainPlayer(roster: seq<Player>, source: string): (r: Option<Player>)
    ensures r.None? <==> roster == []
    ensures r.Some? ==> r.value in roster
    ensures (exists i :: 0 <= i < |roster| && NameMatches(roster[i], source)) ==> r.Some? && NameMatches(r.value, source)
    ensures (forall i :: 0 <= i < |roster| ==> !NameMatches(roster[i], source)) && roster != [] ==> r == Some(roster[0])
    ensures forall i :: 0 <= i < |roster| && NameMatches(roster[i], source) && (forall j :: 0 <= j < i ==> !NameMatches(roster[j], source)) ==>
      r == Some(roster[i])
  {
    if roster == [] then None
    else
      var found := FindByName(roster, source);
      if found.Some? then found else Some(roster[0])
  }

  /** Without a source name the main player is the first roster player. */
  lemma NoSourceTakesFirst(roster: seq<Player>)
    requires roster != []
    ensures MainPlayer(roster, "") == Some(roster[0])
  {
  }

  // ---------------------------------------------------------------------------
  // Score orientation
  // ---------------------------------------------------------------------------

  /** `slots.some(p => p && p.playerName === name)`, comparing names exactly. */
  function HasPlayerNamed(slots: seq<Option<Player>>, name: string): (r: bool)
    ensures r <==> exists i :: 0 <= i < |slots| && slots[i].Some? && slots[i].value.playerName == name
  {
    if slots == [] then false
    else
      assert forall i :: 1 <= i < |slots| ==> slots[1..][i - 1] == slots[i];
      (slots[0].Some? && slots[0].value.playerName == name) || HasPlayerNamed(slots[1..], name)
  }

  /** The top of the centre section: whether the main player won, and the two scores in the order drawn. */
  datatype Scoreboard = Scoreboard(isWinner: bool, teamScore: int, opponentScore: int)

  /** `isWinner`, `teamScore` and `opponentScore` of `drawCenterSection`. */
  function Scores(d: MatchData, main: Player): (r: Scoreboard)
    ensures r.isWinner <==> HasPlayerNamed(d.winnerTeam.slots, main.playerName)
    ensures r.isWinner ==> r.teamScore == d.winnerTeam.totalScore && r.opponentScore == d.defeatedTeam.totalScore
    ensures !r.isWinner ==> r.teamScore == d.defeatedTeam.totalScore && r.opponentScore == d.winnerTeam.totalScore
  {
    var isWinner := HasPlayerNamed(d.winnerTeam.slots, main.playerName);
    if isWinner then Scoreboard(true, d.winnerTeam.totalScore, d.defeatedTeam.totalScore)
    else Scoreboard(false, d.defeatedTeam.totalScore, d.winnerTeam.totalScore)
  }

  /** The two scores are always the two team scores, whichever way round. */
  lemma ScoresArePermuted(d: MatchData, main: Player)
    ensures multiset{Scores(d, main).teamScore, Scores(d, main).opponentScore}
         == multiset{d.winnerTeam.totalScore, d.defeatedTeam.totalScore}
  {
  }

  /**
   * A main player from a defeated slot is drawn as the loser unless a winner
   * shares the exact name; one from a winner slot is always drawn as the winner.
   */
  lemma ScoresFollowTeam(d: MatchData, main: Player)
    ensures Some(main) in d.winnerTeam.slots ==> Scores(d, main).isWinner
    ensures (forall i :: 0 <= i < 5 && d.winnerTeam.slots[i].Some? ==> d.winnerTeam.slots[i].value.playerName != main.playerName)
      ==> !Scores(d, main).isWinner
  {
    if Some(main) in d.winnerTeam.slots {
      var i :| 0 <= i < 5 && d.winnerTeam.slots[i] == Some(main);
      assert d.winnerTeam.slots[i].value.playerName == main.playerName;
    }
  }

  // ---------------------------------------------------------------------------
  // Radar values
  // ---------------------------------------------------------------------------

  /** The value drawn for a falsy radar entry. */
  const DefaultRadarValue: int := 50

  /** `v || 50` on a number: zero is falsy. */
  function OrDefault(v: int): (r: int)
    ensures r != 0
    ensures v != 0 ==> r == v
  {
    if v == 0 then DefaultRadarValue else v
  }

  /**
   * The six drawn values, on the axes Interrupts, Knockouts, Damage Taken,
   * Damage Dealt, Scoring, Assists. The radar object has no `interrupts`, and
   * there is no radar object at all without the calculator.
   */
  function RadarValues(radar: Option<Radar>): (r: seq<int>)
    ensures |r| == 6 && r[0] == DefaultRadarValue
    ensures forall i :: 0 <= i < 6 ==> r[i] != 0
    ensures radar.None? ==> forall i :: 0 <= i < 6 ==> r[i] == DefaultRadarValue
    ensures radar.Some? ==>
      && r[1] == OrDefault(radar.value.knockouts)
      && r[2] == OrDefault(radar.value.damageTaken)
      && r[3] == OrDefault(radar.value.damageDealt)
      && r[4] == OrDefault(radar.value.scoring)
      && r[5] == OrDefault(radar.value.assists)
  {
    match radar
    case None => [DefaultRadarValue, DefaultRadarValue, DefaultRadarValue, DefaultRadarValue, DefaultRadarValue, DefaultRadarValue]
    case Some(s) =>
      [DefaultRadarValue, OrDefault(s.knockouts), OrDefault(s.damageTaken), OrDefault(s.damageDealt),
       OrDefault(s.scoring), OrDefault(s.assists)]
  }

  /** The radar object of `drawCenterSection`: the calculator's percentages, or `{}` without it. */
  function DrawnRadar(calculator: bool, m: MatchRecord, main: Player): Option<Radar> {
    if calculator then Some(RadarStats(Some(main), AllPlayers(Some(m)))) else None
  }

  /**
   * For a player without negative counts every drawn value lies in 1..100; a
   * non-zero percentage is drawn as computed.
   */
  lemma RadarValuesInRange(calculator: bool, m: MatchRecord, main: Player)
    requires NonNegative(main)
    ensures var r := RadarValues(DrawnRadar(calculator, m, main));
      forall i :: 0 <= i < 6 ==> 1 <= r[i] <= 100
    ensures calculator && Percentage(main.kills, KnockoutsRef) != 0 ==>
      RadarValues(DrawnRadar(calculator, m, main))[1] == Percentage(main.kills, KnockoutsRef)
  {
    if calculator {
      RadarInRange(Some(main), AllPlayers(Some(m)));
    }
  }

  // ---------------------------------------------------------------------------
  // The download file name
  // ---------------------------------------------------------------------------

  predicate IsAsciiAlnum(c: char) {
    IsDigit(c) || IsLowerAscii(c) || IsUpperAscii(c)
  }

  /** `s.replace(/[^a-zA-Z0-9]/g, '_')` */
  function Sanitize(s: string): (r: string)
    ensures |r| == |s|
    ensures forall i :: 0 <= i < |s| ==> if IsAsciiAlnum(s[i]) then r[i] == s[i] else r[i] == '_'
    ensures '-' !in r
  {
    seq(|s|, i requires 0 <= i < |s| => if IsAsciiAlnum(s[i]) then s[i] else '_')
  }

  const FilePrefix: string := "unite-stats-"

  /** The date part: the match date with `/` turned into `-`, or today's date when the match has none. */
  function DatePart(date: Option<string>, today: string): (r: string)
    ensures date.Some? && date.value != "" ==> |r| == |date.value| && '/' !in r
    ensures date.Some? && date.value != "" ==>
      forall i :: 0 <= i < |r| ==> r[i] == if date.value[i] == '/' then '-' else date.value[i]
    ensures date.None? || date.value == "" ==> r == today
  {
    if date.Some? && date.value != "" then ReplaceChar(date.value, '/', '-') else today
  }

  /** `` `unite-stats-${playerName}-${dateStr}.png` `` */
  function DownloadName(playerName: string, date: Option<string>, today: string): string {
    FilePrefix + Sanitize(if playerName == "" then "player" else playerName) + "-" + DatePart(date, today) + ".png"
  }

  /** A name without `-` followed by `-`, the date part and `.png` can be read back after the prefix. */
  lemma {:induction false} NameAndDateParts(name: string, datePart: string)
    requires '-' !in name
    ensures var r := FilePrefix + name + "-" + datePart + ".png";
      && |r| == |FilePrefix| + |name| + 1 + |datePart| + 4
      && r[..|FilePrefix|] == FilePrefix
      && '-' in r[|FilePrefix|..]
      && IndexOfChar(r[|FilePrefix|..], '-') == |name|
      && r[|FilePrefix|..|FilePrefix| + |name|] == name
      && r[|FilePrefix| + |name| + 1..|r| - 4] == datePart
  {
    var tail := name + "-" + datePart + ".png";
    var r := FilePrefix + tail;
    assert r == FilePrefix + name + "-" + datePart + ".png";
    assert r[|FilePrefix|..] == tail;
    assert tail[..|name|] == name;
    assert tail[|name|] == '-';
    IndexOfCharAt(tail, '-', |name|);
    assert tail[|name| + 1..|tail| - 4] == datePart;
  }

  /**
   * The name part of the file name ends at the first `-` after the prefix, so
   * the sanitised name and the date part can be read back.
   */
  lemma DownloadNameParts(playerName: string, date: Option<string>, today: string)
    ensures var r := DownloadName(playerName, date, today);
      var name := Sanitize(if playerName == "" then "player" else playerName);
      && |r| >= |FilePrefix| && r[..|FilePrefix|] == FilePrefix
      && '-' in r[|FilePrefix|..]
      && IndexOfChar(r[|FilePrefix|..], '-') == |name|
      && r[|FilePrefix|..|FilePrefix| + |name|] == name
      && r[|FilePrefix| + |name| + 1..|r| - 4] == DatePart(date, today)
  {
    NameAndDateParts(Sanitize(if playerName == "" then "player" else playerName), DatePart(date, today));
  }

  // ---------------------------------------------------------------------------
  // Everything `generateAndDownload` decides
  // ---------------------------------------------------------------------------

  /** What the generated image shows and is saved as. */
  datatype Selection = Selection(
    roster: seq<Player>,
    mainPlayer: Player,
    scores: Scoreboard,
    radarValues: seq<int>,
    fileName: string)

  /** The two errors `generateAndDownload` throws before drawing. */
  datatype SelectionError = InvalidMatchData | MainPlayerNotFound

  datatype Generated = Selected(selection: Selection) | Failed(error: SelectionError)

  /**
   * `generateAndDownload(matchData, sourcePlayerName)` without the drawing:
   * invalid data and an empty roster fail; otherwise the main player, the
   * score orientation, the radar values and the file name.
   */
  function SelectForImage(matchData: Option<MatchRecord>, source: string, calculator: bool, today: string): (r: Generated)
    ensures (matchData.None? || matchData.value.fullMatchData.None?) <==> r == Failed(InvalidMatchData)
    ensures r == Failed(MainPlayerNotFound) <==>
      matchData.Some? && matchData.value.fullMatchData.Some? && PlayerCount(matchData.value.fullMatchData.value) == 0
    ensures r.Selected? ==>
      && r.selection.mainPlayer in r.selection.roster
      && |r.selection.radarValues| == 6
      && |FilePrefix| <= |r.selection.fileName| && r.selection.fileName[..|FilePrefix|] == FilePrefix
    ensures r.Selected? ==>
      && matchData.Some? && matchData.value.fullMatchData.Some?
      && r.selection.roster == Roster(calculator, matchData.value)
      && Some(r.selection.mainPlayer) == MainPlayer(r.selection.roster, source)
      && r.selection.scores == Scores(matchData.value.fullMatchData.value, r.selection.mainPlayer)
      && r.selection.radarValues == RadarValues(DrawnRadar(calculator, matchData.value, r.selection.mainPlayer))
      && r.selection.fileName == DownloadName(r.selection.mainPlayer.playerName, matchData.value.date, today)
  {
    if matchData.None? || matchData.value.fullMatchData.None? then Failed(InvalidMatchData)
    else
      var m := matchData.value;
      var roster := Roster(calculator, m);
      match MainPlayer(roster, source)
      case None => Failed(MainPlayerNotFound)
      case Some(main) =>
        DownloadNameParts(main.playerName, m.date, today);
        Selected(Selection(
          roster,
          main,
          Scores(m.fullMatchData.value, main),
          RadarValues(DrawnRadar(calculator, m, main)),
          DownloadName(main.playerName, m.date, today)))
  }
}
