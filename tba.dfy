/** Conversion of The Blue Alliance's raw event data (matches and teams) into the
    server's typed match and team records. Fetching and caching are not modelled:
    the raw records arrive as values, and whether a team has an avatar is a parameter. */
module Tba {
  import opened Wrappers
  import opened Text
  import opened Sorting
  import opened Seqs
  import Assoc

  const U32Bound: nat := 0x1_0000_0000

  /** A signed 16-bit score as TBA reports it. */
  type I16 = x: int | -0x8000 <= x < 0x8000

  datatype SetMatch = SetMatch(setNumber: nat, num: nat)

  datatype MatchId =
    | Practice(practice: SetMatch)
    | Qualification(qualification: SetMatch)
    | Quarterfinal(quarterfinal: SetMatch)
    | Semifinal(semifinal: SetMatch)
    | Final(final: SetMatch)

  datatype MatchResult = Tbd | Red | Blue

  datatype MatchInfo = MatchInfo(
    id: MatchId,
    startTime: nat,
    teamsBlue: seq<nat>,
    teamsRed: seq<nat>,
    result: MatchResult,
    scoreBlue: Option<nat>,
    scoreRed: Option<nat>)

  datatype RawTbaAlliance = RawTbaAlliance(score: Option<I16>, teamKeys: seq<string>)

  datatype RawTbaMatch = RawTbaMatch(
    blue: RawTbaAlliance,
    red: RawTbaAlliance,
    actualTime: Option<nat>,
    predictedTime: nat,
    compLevel: string,
    setNumber: nat,
    matchNumber: nat,
    winningAlliance: Option<string>)

  datatype RawTbaTeam = RawTbaTeam(teamNumber: nat, name: Option<string>, nickname: Option<string>)

  datatype TeamInfo = TeamInfo(num: nat, name: string, hasAvatar: bool)

  datatype EventInfo = EventInfo(matchInfos: seq<MatchInfo>, teamInfos: map<nat, TeamInfo>, event: string, year: nat)

  // ---------------------------------------------------------------------------
  // Matches

  /** The match id a competition level names, if it is one of the four known levels. */
  function LevelId(level: string, sm: SetMatch): (r: Option<MatchId>)
    ensures r.Some? <==> level in {"q", "qm", "qf", "sf", "f"}
    ensures r.Some? ==> !r.value.Practice?
    ensures level == "q" || level == "qm" ==> r == Some(Qualification(sm))
    ensures level == "qf" ==> r == Some(Quarterfinal(sm))
    ensures level == "sf" ==> r == Some(Semifinal(sm))
    ensures level == "f" ==> r == Some(Final(sm))
  {
    if level == "q" || level == "qm" then Some(Qualification(sm))
    else if level == "qf" then Some(Quarterfinal(sm))
    else if level == "sf" then Some(Semifinal(sm))
    else if level == "f" then Some(Final(sm))
    else None
  }

  /** `str::trim_start_matches("frc")`: strips every leading repetition of the prefix. */
  function TrimFrc(s: string): string
    decreases |s|
  {
    if StartsWith(s, "frc") then TrimFrc(s[3..]) else s
  }

  /** What is left is a suffix of the key that does not start with "frc". */
  lemma {:induction false} TrimFrcSuffix(s: string)
    ensures |TrimFrc(s)| <= |s| && TrimFrc(s) == s[|s| - |TrimFrc(s)|..]
    ensures !StartsWith(TrimFrc(s), "frc")
    decreases |s|
  {
    if StartsWith(s, "frc") {
      TrimFrcSuffix(s[3..]);
      assert s[3..][|s| - 3 - |TrimFrc(s)|..] == s[|s| - |TrimFrc(s)|..];
    }
  }

  /** Any number of "frc" prefixes in front of a string that does not start with one are stripped. */
  lemma {:induction false} TrimFrcPrefixes(n: nat, s: string)
    requires !StartsWith(s, "frc")
    ensures TrimFrc(Frcs(n) + s) == s
  {
    if n == 0 {
      FrcsNone(s);
    } else {
      FrcsStep(n, s);
      TrimFrcPrefixes(n - 1, s);
    }
  }

  lemma FrcsNone(s: string)
    ensures Frcs(0) + s == s
  {
  }

  /** One "frc" prefix fewer strips to the same string. */
  lemma FrcsStep(n: nat, s: string)
    requires n > 0
    ensures TrimFrc(Frcs(n) + s) == TrimFrc(Frcs(n - 1) + s)
  {
    var u := Frcs(n - 1) + s;
    assert Frcs(n) + s == "frc" + u;
    TrimFrcCons(u);
  }

  /** One "frc" prefix is stripped. */
  lemma TrimFrcCons(u: string)
    ensures TrimFrc("frc" + u) == TrimFrc(u)
  {
    var t := "frc" + u;
    assert StartsWith(t, "frc") && t[3..] == u;
  }

  function Frcs(n: nat): string {
    if n == 0 then "" else "frc" + Frcs(n - 1)
  }

  /** A team key as TBA writes it ("frc" and the number) yields the number back. */
  lemma TeamKeyRoundTrip(team: nat)
    requires team < U32Bound
    ensures TeamKeyParses("frc" + Decimal(team))
    ensures TeamNumberOf("frc" + Decimal(team)) == team
  {
    var d := Decimal(team);
    assert IsDigit(d[0]);
    assert Frcs(1) + d == "frc" + d;
    TrimFrcPrefixes(1, d);
    ParseUnsignedDecimal(team, U32Bound);
  }

  predicate TeamKeyParses(key: string) {
    ParseUnsigned(TrimFrc(key), U32Bound).Some?
  }

  /** The team number of a key; an unparsable key makes the conversion panic. */
  function TeamNumberOf(key: string): (r: nat)
    requires TeamKeyParses(key)
    ensures r < U32Bound
  {
    ParseUnsigned(TrimFrc(key), U32Bound).value
  }

  predicate AllTeamKeysParse(keys: seq<string>) {
    forall i :: 0 <= i < |keys| ==> TeamKeyParses(keys[i])
  }

  /** The team numbers of an alliance, in the order TBA lists them. */
  function TeamNumbers(keys: seq<string>): (r: seq<nat>)
    requires AllTeamKeysParse(keys)
    ensures |r| == |keys| && forall i :: 0 <= i < |keys| ==> r[i] == TeamNumberOf(keys[i])
  {
    seq(|keys|, i requires 0 <= i < |keys| => TeamNumberOf(keys[i]))
  }

  /** A negative score means "not played yet" and is dropped. */
  function SanitizeScore(score: Option<I16>): (r: Option<nat>)
    ensures r.Some? <==> score.Some? && score.value >= 0
    ensures r.Some? ==> r.value == score.value
  {
    match score
    case Some(s) => if s >= 0 then Some(s) else None
    case None => None
  }

  function Winner(w: Option<string>): (r: MatchResult)
    ensures r == Red <==> w == Some("red")
    ensures r == Blue <==> w == Some("blue")
  {
    match w
    case Some(s) => if s == "red" then Red else if s == "blue" then Blue else Tbd
    case None => Tbd
  }

  /** The conversion panics on an unparsable team key, but only once the level is known. */
  predicate Convertible(m: RawTbaMatch) {
    LevelId(m.compLevel, SetMatch(m.setNumber, m.matchNumber)).Some? ==>
      AllTeamKeysParse(m.blue.teamKeys) && AllTeamKeysParse(m.red.teamKeys)
  }

  /** `RawTbaMatch::into_match`. */
  function IntoMatch(m: RawTbaMatch): (r: Result<MatchInfo, string>)
    requires Convertible(m)
    ensures r.Ok? <==> m.compLevel in {"q", "qm", "qf", "sf", "f"}
    ensures r.Err? ==> r.error == "Unknown comp level: '" + m.compLevel + "'"
    ensures r.Ok? ==>
      && Some(r.value.id) == LevelId(m.compLevel, SetMatch(m.setNumber, m.matchNumber))
      && r.value.startTime == m.actualTime.GetOr(m.predictedTime)
      && r.value.teamsBlue == TeamNumbers(m.blue.teamKeys)
      && r.value.teamsRed == TeamNumbers(m.red.teamKeys)
      && r.value.scoreBlue == SanitizeScore(m.blue.score)
      && r.value.scoreRed == SanitizeScore(m.red.score)
      && r.value.result == Winner(m.winningAlliance)
  {
    match LevelId(m.compLevel, SetMatch(m.setNumber, m.matchNumber))
    case None => Err("Unknown comp level: '" + m.compLevel + "'")
    case Some(id) =>
      Ok(MatchInfo(
        id,
        m.actualTime.GetOr(m.predictedTime),
        TeamNumbers(m.blue.teamKeys),
        TeamNumbers(m.red.teamKeys),
        Winner(m.winningAlliance),
        SanitizeScore(m.blue.score),
        SanitizeScore(m.red.score)))
  }

  /** The converted matches, in input order, with the failed conversions dropped. */
  function ConvertedMatches(ms: seq<RawTbaMatch>): (r: seq<MatchInfo>)
    requires forall i :: 0 <= i < |ms| ==> Convertible(ms[i])
    ensures |r| <= |ms|
    ensures forall x :: x in r <==> exists i :: 0 <= i < |ms| && IntoMatch(ms[i]) == Ok(x)
  {
    if ms == [] then []
    else
      var rest := ConvertedMatches(ms[1..]);
      assert forall i :: 1 <= i < |ms| ==> ms[1..][i - 1] == ms[i];
      match IntoMatch(ms[0])
      case Ok(x) => [x] + rest
      case Err(_) => rest
  }

  /** When every match converts, the converted matches are the conversions in input
      order, one for one. */
  lemma {:induction false} ConvertedInOrder(ms: seq<RawTbaMatch>)
    requires forall i :: 0 <= i < |ms| ==> Convertible(ms[i])
    requires forall i :: 0 <= i < |ms| ==> IntoMatch(ms[i]).Ok?
    ensures |ConvertedMatches(ms)| == |ms|
    ensures forall i :: 0 <= i < |ms| ==> ConvertedMatches(ms)[i] == IntoMatch(ms[i]).value
  {
    if ms != [] {
      var rest := ms[1..];
      assert forall i :: 0 <= i < |rest| ==> rest[i] == ms[i + 1];
      ConvertedInOrder(rest);
      var r, tail := ConvertedMatches(ms), ConvertedMatches(rest);
      assert r == [IntoMatch(ms[0]).value] + tail;
      forall i | 0 <= i < |ms| ensures r[i] == IntoMatch(ms[i]).value {
        if i > 0 {
          assert r[i] == tail[i - 1] == IntoMatch(rest[i - 1]).value;
        }
      }
    }
  }

  function StartTime(m: MatchInfo): int {
    m.startTime
  }

  // ---------------------------------------------------------------------------
  // Teams

  /** The team numbers TBA uses for placeholder teams. */
  predicate IsPlaceholder(num: nat) {
    9990 <= num <= 9999
  }

  /** `teams.retain(...)`: the kept teams, in order. */
  function RealTeams(teams: seq<RawTbaTeam>): (r: seq<RawTbaTeam>)
    ensures forall t :: t in r <==> t in teams && !IsPlaceholder(t.teamNumber)
    ensures |r| <= |teams|
  {
    if teams == [] then []
    else
      var rest := RealTeams(teams[1..]);
      assert teams == [teams[0]] + teams[1..];
      if IsPlaceholder(teams[0].teamNumber) then rest else [teams[0]] + rest
  }

  /** A team's display name: its nickname, else its name, else "unknown". */
  function TeamName(t: RawTbaTeam): (r: string)
    ensures t.nickname.Some? ==> r == t.nickname.value
    ensures t.nickname.None? && t.name.Some? ==> r == t.name.value
    ensures t.nickname.None? && t.name.None? ==> r == "unknown"
  {
    match t.nickname
    case Some(n) => n
    case None => t.name.GetOr("unknown")
  }

  /** The record of one team. */
  function InfoOf(t: RawTbaTeam, hasAvatar: nat -> bool): TeamInfo {
    TeamInfo(t.teamNumber, TeamName(t), hasAvatar(t.teamNumber))
  }

  /** The team records of an event; `hasAvatar` stands for the avatar lookup. */
  function TeamInfos(teams: seq<RawTbaTeam>, hasAvatar: nat -> bool): (r: seq<TeamInfo>)
    ensures forall t :: t in r ==> !IsPlaceholder(t.num)
    ensures forall t :: t in teams && !IsPlaceholder(t.teamNumber) ==>
      TeamInfo(t.teamNumber, TeamName(t), hasAvatar(t.teamNumber)) in r
    ensures forall x :: x in r ==>
      exists t :: (t in teams && !IsPlaceholder(t.teamNumber) &&
                   x == TeamInfo(t.teamNumber, TeamName(t), hasAvatar(t.teamNumber)))
    ensures |r| == |RealTeams(teams)|
    ensures forall i :: 0 <= i < |r| ==>
      (r[i].num == RealTeams(teams)[i].teamNumber && r[i].name == TeamName(RealTeams(teams)[i]) &&
       r[i].hasAvatar == hasAvatar(r[i].num))
  {
    var info := t => InfoOf(t, hasAvatar);
    var kept := RealTeams(teams);
    var r := MapSeq(kept, info);
    assert forall t :: t in kept ==> InfoOf(t, hasAvatar) in r by {
      forall t | t in kept ensures InfoOf(t, hasAvatar) in r {
        assert info(t) in r;
      }
    }
    assert forall x :: x in r ==> exists t :: t in kept && x == InfoOf(t, hasAvatar) by {
      forall x | x in r ensures exists t :: t in kept && x == InfoOf(t, hasAvatar) {
        var t :| t in kept && x == info(t);
      }
    }
    r
  }

  function TeamPairs(teams: seq<TeamInfo>): (r: seq<(nat, TeamInfo)>)
    ensures |r| == |teams| && forall i :: 0 <= i < |teams| ==> r[i] == (teams[i].num, teams[i])
  {
    seq(|teams|, i requires 0 <= i < |teams| => (teams[i].num, teams[i]))
  }

  // ---------------------------------------------------------------------------
  // Event

  /** `EventInfo::new`. */
  function NewEventInfo(ms: seq<RawTbaMatch>, teams: seq<TeamInfo>, year: nat, event: string): EventInfo
    requires forall i :: 0 <= i < |ms| ==> Convertible(ms[i])
  {
    EventInfo(SortBy(ConvertedMatches(ms), StartTime), Assoc.Collect(TeamPairs(teams)), event, year)
  }

  /** The event's matches are the converted ones, ordered by start time; the failed
      conversions are gone. */
  lemma EventMatches(ms: seq<RawTbaMatch>, teams: seq<TeamInfo>, year: nat, event: string)
    requires forall i :: 0 <= i < |ms| ==> Convertible(ms[i])
    ensures var e := NewEventInfo(ms, teams, year, event);
      && multiset(e.matchInfos) == multiset(ConvertedMatches(ms))
      && (forall i, j :: 0 <= i < j < |e.matchInfos| ==> e.matchInfos[i].startTime <= e.matchInfos[j].startTime)
      && (forall x :: x in e.matchInfos ==> x.id.Practice? == false)
      && e.year == year && e.event == event
  {
    var e := NewEventInfo(ms, teams, year, event);
    var c := ConvertedMatches(ms);
    assert SortedBy(e.matchInfos, StartTime);
    forall x | x in e.matchInfos ensures !x.id.Practice? {
      assert x in multiset(c);
      var i :| 0 <= i < |ms| && IntoMatch(ms[i]) == Ok(x);
    }
  }

  /** Every team is filed under its own number, and every listed team number is present. */
  lemma EventTeams(ms: seq<RawTbaMatch>, teams: seq<TeamInfo>, year: nat, event: string)
    requires forall i :: 0 <= i < |ms| ==> Convertible(ms[i])
    ensures var e := NewEventInfo(ms, teams, year, event);
      && (forall n :: n in e.teamInfos ==> e.teamInfos[n].num == n && e.teamInfos[n] in teams)
      && (forall t :: t in teams ==> t.num in e.teamInfos)
  {
    var ps := TeamPairs(teams);
    var m := Assoc.Collect(ps);
    forall n | n in m ensures m[n].num == n && m[n] in teams {
      var i :| 0 <= i < |ps| && ps[i] == (n, m[n]);
    }
    forall t | t in teams ensures t.num in m {
      var i :| 0 <= i < |teams| && teams[i] == t;
      assert ps[i].0 == t.num;
    }
  }
}
