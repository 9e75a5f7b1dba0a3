/**
 * `StatsCalculator`: the roster of a match, the match-wide totals with their
 * rough team-battle and KO-per-minute estimates, and the radar percentages of
 * one player against fixed reference values. All numbers are integers here:
 * `Math.round(x / d)` becomes the floor of `(2x + d) / 2d`, and the one-decimal
 * KO-per-minute figure is kept as a count of tenths.
 */
module StatsCalculator {
  import opened Base
  import opened MatchRecords

  // ---------------------------------------------------------------------------
  // The roster
  // ---------------------------------------------------------------------------

  /** The match data the calculator works on: present only when the record and its `fullMatchData` are. */
  function DataOf(matchData: Option<MatchRecord>): Option<MatchData> {
    if matchData.Some? then matchData.value.fullMatchData else None
  }

  /**
   * `getAllPlayers(matchData)`: the filled slots, winner team first, each team
   * in slot order; no players without match data.
   */
  function AllPlayers(matchData: Option<MatchRecord>): (r: seq<Player>)
    ensures DataOf(matchData).None? ==> r == []
    ensures |r| <= 10
    ensures DataOf(matchData).Some? ==>
      var d := DataOf(matchData).value;
      && |r| == PlayerCount(d)
      && forall p :: p in r <==> Some(p) in d.winnerTeam.slots || Some(p) in d.defeatedTeam.slots
  {
    match DataOf(matchData)
    case None => []
    case Some(d) => Present(d.winnerTeam.slots) + Present(d.defeatedTeam.slots)
  }

  /** Dropping the empty slots of two slot lists one after the other is dropping them from the joined list. */
  lemma {:induction false} PresentAppend(a: seq<Option<Player>>, b: seq<Option<Player>>)
    ensures Present(a + b) == Present(a) + Present(b)
  {
    if a != [] {
      assert (a + b)[1..] == a[1..] + b;
      PresentAppend(a[1..], b);
    } else {
      assert a + b == b;
    }
  }

  /** The roster is the ten slots `winner 1..5, defeated 1..5` with the `null` ones filtered out. */
  lemma AllPlayersOrder(m: MatchRecord)
    requires m.fullMatchData.Some?
    ensures AllPlayers(Some(m)) ==
      Present(m.fullMatchData.value.winnerTeam.slots + m.fullMatchData.value.defeatedTeam.slots)
  {
    var d := m.fullMatchData.value;
    PresentAppend(d.winnerTeam.slots, d.defeatedTeam.slots);
  }

  // ---------------------------------------------------------------------------
  // General statistics
  // ---------------------------------------------------------------------------

  /** `players.reduce((sum, p) => sum + (p.field || 0), 0)` */
  function Sum(players: seq<Player>, field: Player -> int): int {
    if players == [] then 0 else field(players[0]) + Sum(players[1..], field)
  }

  /** An independent reading of the same total: every slot contributes its player's value, an empty slot nothing. */
  function SlotSum(slots: seq<Option<Player>>, field: Player -> int): int {
    if slots == [] then 0
    else (if slots[0].Some? then field(slots[0].value) else 0) + SlotSum(slots[1..], field)
  }

  lemma {:induction false} SumAppend(a: seq<Player>, b: seq<Player>, field: Player -> int)
    ensures Sum(a + b, field) == Sum(a, field) + Sum(b, field)
  {
    if a != [] {
      assert (a + b)[1..] == a[1..] + b;
      SumAppend(a[1..], b, field);
    } else {
      assert a + b == b;
    }
  }

  lemma {:induction false} SumOfPresent(slots: seq<Option<Player>>, field: Player -> int)
    ensures Sum(Present(slots), field) == SlotSum(slots, field)
  {
    if slots != [] {
      var head := if slots[0].Some? then [slots[0].value] else [];
      assert Present(slots) == head + Present(slots[1..]);
      SumAppend(head, Present(slots[1..]), field);
      SumOfPresent(slots[1..], field);
    }
  }

  function Kills(p: Player): int { p.kills }
  function Assists(p: Player): int { p.assists }
  function DamageDone(p: Player): int { p.damageDone }

  /** Match-wide totals over the filled slots. */
  datatype Totals = Totals(kills: int, assists: int, damage: int)

  /**
   * The object `calculateGeneralStats` returns. `koPerMinTenths` is `koPerMin`
   * times ten. The totals are absent from the default object.
   */
  datatype GeneralStats = GeneralStats(teamBattles: int, koPerMinTenths: int, koAssistRatio: int, totals: Option<Totals>)

  /** The damage one team battle is assumed to deal. */
  const DamagePerTeamBattle: nat := 7500

  /** The assumed match length, in minutes. */
  const MatchMinutes: nat := 10

  /** `q` is `Math.round(n / d)`: the nearest integer, halves rounded up. */
  predicate RoundsTo(q: int, n: int, d: nat) {
    d * (2 * q - 1) <= 2 * n < d * (2 * q + 1)
  }

  /** `Math.round(n / d)` for a positive integer divisor. */
  function RoundDiv(n: int, d: nat): (q: int)
    requires d > 0
    ensures RoundsTo(q, n, d)
    ensures n >= 0 ==> q >= 0
  {
    (2 * n + d) / (2 * d)
  }

  /**
   * `calculateGeneralStats(matchData)`: zeros without match data; otherwise the
   * totals over the roster, about one team battle per 7500 damage, KO per
   * minute over an assumed ten minutes, and kills plus assists.
   */
  function GeneralStatsOf(matchData: Option<MatchRecord>): (r: GeneralStats)
    ensures DataOf(matchData).None? ==> r == GeneralStats(0, 0, 0, None)
    ensures DataOf(matchData).Some? ==>
      && r.totals.Some?
      && r.koAssistRatio == r.totals.value.kills + r.totals.value.assists
      && RoundsTo(r.teamBattles, r.totals.value.damage, DamagePerTeamBattle)
      && r.koPerMinTenths * MatchMinutes == 10 * r.totals.value.kills
  {
    match DataOf(matchData)
    case None => GeneralStats(0, 0, 0, None)
    case Some(_) =>
      var players := AllPlayers(matchData);
      var totals := Totals(Sum(players, Kills), Sum(players, Assists), Sum(players, DamageDone));
      GeneralStats(RoundDiv(totals.damage, DamagePerTeamBattle), totals.kills, totals.kills + totals.assists, Some(totals))
  }

  /** Each total adds up the field over the ten slots, an empty slot counting zero. */
  lemma TotalsOverSlots(m: MatchRecord)
    requires m.fullMatchData.Some?
    ensures var d := m.fullMatchData.value;
      var t := GeneralStatsOf(Some(m)).totals.value;
      && t.kills == SlotSum(d.winnerTeam.slots, Kills) + SlotSum(d.defeatedTeam.slots, Kills)
      && t.assists == SlotSum(d.winnerTeam.slots, Assists) + SlotSum(d.defeatedTeam.slots, Assists)
      && t.damage == SlotSum(d.winnerTeam.slots, DamageDone) + SlotSum(d.defeatedTeam.slots, DamageDone)
  {
    var d := m.fullMatchData.value;
    var w, l := Present(d.winnerTeam.slots), Present(d.defeatedTeam.slots);
    SumAppend(w, l, Kills);
    SumAppend(w, l, Assists);
    SumAppend(w, l, DamageDone);
    SumOfPresent(d.winnerTeam.slots, Kills);
    SumOfPresent(d.defeatedTeam.slots, Kills);
    SumOfPresent(d.winnerTeam.slots, Assists);
    SumOfPresent(d.defeatedTeam.slots, Assists);
    SumOfPresent(d.winnerTeam.slots, DamageDone);
    SumOfPresent(d.defeatedTeam.slots, DamageDone);
  }

  // ---------------------------------------------------------------------------
  // Radar percentages
  // ---------------------------------------------------------------------------

  /** The fixed reference values that count as 100%. */
  const KnockoutsRef: nat := 15
  const AssistsRef: nat := 20
  const ScoringRef: nat := 250
  const DamageDealtRef: nat := 170000
  const DamageTakenRef: nat := 120000
  const HealingRef: nat := 170000

  lemma MulMonotone(d: nat, a: int, b: int)
    requires a <= b
    ensures d * a <= d * b
  {
    assert d * b - d * a == d * (b - a);
  }

  /** A rounded quotient reaches `k` exactly when twice the dividend plus the divisor reaches `2k` divisors. */
  lemma RoundedAtLeast(q: int, n: int, d: nat, k: int)
    requires d > 0 && RoundsTo(q, n, d)
    ensures q >= k <==> 2 * n + d >= 2 * k * d
  {
    if q >= k {
      MulMonotone(d, 2 * k, 2 * q);
    } else {
      MulMonotone(d, 2 * q + 2, 2 * k);
    }
  }

  /** The six radar values, in percent. */
  datatype Radar = Radar(assists: int, knockouts: int, damageTaken: int, damageDealt: int, scoring: int, healing: int)

  /**
   * `Math.min(Math.round(value / reference * 100), 100)`: the nearest whole
   * percentage, capped at 100.
   */
  function Percentage(value: int, reference: nat): (r: int)
    requires reference > 0
    ensures r <= 100
    ensures r < 100 ==> RoundsTo(r, 100 * value, reference)
    ensures r == 100 <==> 200 * value + reference >= 200 * reference
    ensures value >= 0 ==> 0 <= r
  {
    var rounded := RoundDiv(100 * value, reference);
    RoundedAtLeast(rounded, 100 * value, reference, 100);
    if rounded < 100 then rounded else 100
  }

  /**
   * `calculateRadarStats(playerData, allPlayersData)`: all zeros without a
   * player; otherwise each field as a percentage of its reference. The scraped
   * player record has no `healing` property, so healing reads as zero.
   */
  function RadarStats(player: Option<Player>, allPlayers: seq<Player>): (r: Radar)
    ensures player.None? ==> r == Radar(0, 0, 0, 0, 0, 0)
    ensures player.Some? ==>
      var p := player.value;
      && r.assists == Percentage(p.assists, AssistsRef)
      && r.knockouts == Percentage(p.kills, KnockoutsRef)
      && r.damageTaken == Percentage(p.damageTaken, DamageTakenRef)
      && r.damageDealt == Percentage(p.damageDone, DamageDealtRef)
      && r.scoring == Percentage(p.playerScore, ScoringRef)
      && r.healing == 0
  {
    match player
    case None => Radar(0, 0, 0, 0, 0, 0)
    case Some(p) =>
      Radar(
        Percentage(p.assists, AssistsRef),
        Percentage(p.kills, KnockoutsRef),
        Percentage(p.damageTaken, DamageTakenRef),
        Percentage(p.damageDone, DamageDealtRef),
        Percentage(p.playerScore, ScoringRef),
        Percentage(0, HealingRef))
  }

  /** A player whose counted fields are not negative. */
  predicate NonNegative(p: Player) {
    p.assists >= 0 && p.kills >= 0 && p.damageTaken >= 0 && p.damageDone >= 0 && p.playerScore >= 0
  }

  /** Every radar value lies in 0..100 for a player without negative fields. */
  predicate InPercentRange(r: Radar) {
    && 0 <= r.assists <= 100 && 0 <= r.knockouts <= 100 && 0 <= r.damageTaken <= 100
    && 0 <= r.damageDealt <= 100 && 0 <= r.scoring <= 100 && 0 <= r.healing <= 100
  }

  lemma RadarInRange(player: Option<Player>, allPlayers: seq<Player>)
    requires player.Some? ==> NonNegative(player.value)
    ensures InPercentRange(RadarStats(player, allPlayers))
  {
  }

  /** Reaching the reference value gives the full 100%. */
  lemma FullAtReference(value: int, reference: nat)
    requires reference > 0 && value >= reference
    ensures Percentage(value, reference) == 100
  {
  }
}
