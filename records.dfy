/**
 * The records the extractor builds: players, the two five-slot teams, the
 * per-match data table and the match record itself.
 */
module MatchRecords {
  import opened Base
  import opened JsText

  /** One ability icon: its normalised code (`s11`, `s21`, …) and its rewritten image URL. */
  datatype Ability = Ability(code: string, url: Option<string>)

  /** One scraped player row. */
  datatype Player = Player(
    pokemon: string,
    battleItem: Option<string>,
    heldItems: seq<string>,
    playerName: string,
    playerScore: int,
    kills: int,
    assists: int,
    interrupts: int,
    damageDone: int,
    damageTaken: int,
    damageHealed: int,
    abilities: seq<Ability>)

  /** `player1` … `player5` of a team; `None` is a `null` slot. */
  type Slots = s: seq<Option<Player>> | |s| == 5 witness [None, None, None, None, None]

  /** A team: its header score and five slots; the defeated team also carries the `players` list. */
  datatype Team = Team(totalScore: int, slots: Slots, players: Option<seq<Player>>)

  /**
   * `fullMatchData`. The colour scores are `None` when no coloured score element
   * was seen (and in the alternative extraction, which does not set them).
   */
  datatype MatchData = MatchData(
    matchDate: string,
    matchType: string,
    winnerTeam: Team,
    defeatedTeam: Team,
    purpleScore: Option<Num>,
    orangeScore: Option<Num>)

  /** A match record; absent properties are `None`, and `mapName` is the `map` property. */
  datatype MatchRecord = MatchRecord(
    id: string,
    extractedAt: string,
    outcome: string,
    date: Option<string>,
    time: Option<string>,
    mapName: Option<string>,
    fullMatchData: Option<MatchData>,
    totalPlayers: Option<nat>,
    error: Option<string>,
    errorDetails: Option<string>)

  /** `{ player1: ps[0] || null, …, player5: ps[4] || null }` */
  function SlotsOf(ps: seq<Player>): (r: Slots)
    ensures forall i :: 0 <= i < 5 ==> r[i] == (if i < |ps| then Some(ps[i]) else None)
  {
    seq(5, i requires 0 <= i < 5 => if i < |ps| then Some(ps[i]) else None)
  }

  /** `[…].filter(p => p !== null)` */
  function Present(s: seq<Option<Player>>): (r: seq<Player>)
    ensures |r| <= |s|
    ensures forall p :: p in r <==> Some(p) in s
  {
    if s == [] then []
    else (if s[0].Some? then [s[0].value] else []) + Present(s[1..])
  }

  /** How many of a team's slots are filled. */
  function Filled(t: Team): (n: nat)
    ensures n <= 5
  {
    |Present(t.slots)|
  }

  /** The number of non-null players over both teams, as the validity checks count them. */
  function PlayerCount(d: MatchData): (n: nat)
    ensures n <= 10
  {
    Filled(d.winnerTeam) + Filled(d.defeatedTeam)
  }

  /** Every one of the ten slots holds a player. */
  predicate AllSlotsFilled(d: MatchData) {
    && (forall i :: 0 <= i < 5 ==> d.winnerTeam.slots[i].Some?)
    && (forall i :: 0 <= i < 5 ==> d.defeatedTeam.slots[i].Some?)
  }

  lemma {:induction false} PresentOfSlots(ps: seq<Player>)
    ensures Present(SlotsOf(ps)) == if |ps| <= 5 then ps else ps[..5]
  {
    var s := SlotsOf(ps);
    var n := if |ps| <= 5 then |ps| else 5;
    PresentOfPrefix(s, n);
    assert s[..n] == seq(n, i requires 0 <= i < n => Some(ps[i]));
    PresentOfSomes(ps[..n]);
    assert seq(n, i requires 0 <= i < n => Some(ps[i])) == seq(|ps[..n]|, i requires 0 <= i < |ps[..n]| => Some(ps[..n][i]));
    assert ps[..n] == (if |ps| <= 5 then ps else ps[..5]);
  }

  lemma {:induction false} PresentOfSomes(ps: seq<Player>)
    ensures Present(seq(|ps|, i requires 0 <= i < |ps| => Some(ps[i]))) == ps
  {
    if ps != [] {
      var s := seq(|ps|, i requires 0 <= i < |ps| => Some(ps[i]));
      assert s[1..] == seq(|ps[1..]|, i requires 0 <= i < |ps[1..]| => Some(ps[1..][i]));
      PresentOfSomes(ps[1..]);
    }
  }

  /** Only the slots before `n` can be present when every later slot is `None`. */
  lemma {:induction false} PresentOfPrefix(s: seq<Option<Player>>, n: nat)
    requires n <= |s|
    requires forall i :: n <= i < |s| ==> s[i].None?
    ensures Present(s) == Present(s[..n])
  {
    if n > 0 {
      assert s[1..][..n - 1] == s[..n][1..];
      PresentOfPrefix(s[1..], n - 1);
    } else if s != [] {
      PresentOfPrefix(s[1..], 0);
    }
  }

  /** Compacting a player list into slots keeps the first five players. */
  lemma FilledOfSlots(ps: seq<Player>, score: int, list: Option<seq<Player>>)
    ensures Filled(Team(score, SlotsOf(ps), list)) == if |ps| <= 5 then |ps| else 5
  {
    PresentOfSlots(ps);
  }

  lemma {:induction false} PresentAllSome(s: seq<Option<Player>>)
    requires forall i :: 0 <= i < |s| ==> s[i].Some?
    ensures |Present(s)| == |s|
  {
    if s != [] {
      PresentAllSome(s[1..]);
    }
  }

  /** When all ten slots are filled the count is ten. */
  lemma AllSlotsFilledCount(d: MatchData)
    requires AllSlotsFilled(d)
    ensures PlayerCount(d) == 10
  {
    PresentAllSome(d.winnerTeam.slots);
    PresentAllSome(d.defeatedTeam.slots);
  }
}
