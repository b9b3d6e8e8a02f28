/** The match and team picker of the scouting form: a qualification match number is
    typed in, the match is looked up in the event's schedule, and one of its six teams
    is picked from the red teams and then the blue teams. */
module MatchSelector {
  import opened Wrappers
  import opened Text
  import Tba

  /** What the picker holds: the typed match number and the picked team. `None` stands
      for `undefined` and for the `NaN` that `parseInt` returns on text that is not a
      number. */
  datatype Selection = Selection(matchId: Option<int>, teamId: Option<int>)

  /** `parseInt` on the text of a team button: the value of a run of decimal digits. */
  function ParseDigits(s: string): (r: Option<int>)
    ensures r.Some? <==> |s| > 0 && AllDigits(s)
  {
    if |s| > 0 && AllDigits(s) then Some(DigitsValue(s)) else None
  }

  predicate IsQualification(m: Tba.MatchInfo, num: int) {
    m.id.Qualification? && m.id.qualification.num == num
  }

  /** The match whose teams are offered: none while the number is unset or zero;
      otherwise the first qualification match of the schedule with that number, if any. */
  function TeamsForMatch(matchId: Option<int>, schedule: seq<Tba.MatchInfo>): (r: Option<Tba.MatchInfo>)
    ensures matchId.None? || matchId.value == 0 ==> r.None?
    ensures r.Some? ==> r.value in schedule && IsQualification(r.value, matchId.value)
    ensures r.None? && matchId.Some? && matchId.value != 0 ==> forall i :: 0 <= i < |schedule| ==> !IsQualification(schedule[i], matchId.value)
  {
    if matchId.None? || matchId.value == 0 then None
    else FirstQualification(matchId.value, schedule)
  }

  function FirstQualification(num: int, schedule: seq<Tba.MatchInfo>): (r: Option<Tba.MatchInfo>)
    ensures r.Some? ==> r.value in schedule && IsQualification(r.value, num)
    ensures r.None? ==> forall i :: 0 <= i < |schedule| ==> !IsQualification(schedule[i], num)
  {
    if schedule == [] then None
    else if IsQualification(schedule[0], num) then Some(schedule[0])
    else
      var rest := FirstQualification(num, schedule[1..]);
      assert forall i :: 1 <= i < |schedule| ==> schedule[i] == schedule[1..][i - 1];
      rest
  }

  /** The lookup finds the earliest qualification match with the number. */
  lemma {:induction false} FirstQualificationIsFirst(num: int, schedule: seq<Tba.MatchInfo>, i: nat)
    requires i < |schedule| && IsQualification(schedule[i], num)
    ensures FirstQualification(num, schedule).Some?
    ensures (forall j :: 0 <= j < i ==> !IsQualification(schedule[j], num)) ==>
      FirstQualification(num, schedule) == Some(schedule[i])
  {
    if i > 0 && !IsQualification(schedule[0], num) {
      FirstQualificationIsFirst(num, schedule[1..], i - 1);
      assert forall j :: 0 <= j < i - 1 ==> schedule[1..][j] == schedule[j + 1];
    }
  }

  /** Typing a match number: the team is always reset. */
  function OnMatchInput(parsed: Option<int>): (r: Selection)
    ensures r.matchId == parsed && r.teamId.None?
  {
    Selection(parsed, None)
  }

  /** After a new match number the picked team is not one of the new match's buttons. */
  lemma NoStaleTeam(sel: Selection, parsed: Option<int>, schedule: seq<Tba.MatchInfo>)
    ensures var next := OnMatchInput(parsed);
      forall b :: b in TeamButtons(TeamsForMatch(next.matchId, schedule)) ==> !IsSelected(next, b)
  {
  }

  /** The buttons offered: the red teams, then the blue teams, as decimal text. */
  function TeamButtons(m: Option<Tba.MatchInfo>): (r: seq<string>)
    ensures m.None? ==> r == []
    ensures m.Some? ==> |r| == |m.value.teamsRed| + |m.value.teamsBlue|
    ensures m.Some? ==> forall i :: 0 <= i < |m.value.teamsRed| ==> r[i] == Decimal(m.value.teamsRed[i])
    ensures m.Some? ==> forall i :: 0 <= i < |m.value.teamsBlue| ==>
      r[|m.value.teamsRed| + i] == Decimal(m.value.teamsBlue[i])
  {
    match m
    case None => []
    case Some(info) => Labels(info.teamsRed) + Labels(info.teamsBlue)
  }

  function Labels(teams: seq<nat>): (r: seq<string>)
    ensures |r| == |teams| && forall i :: 0 <= i < |teams| ==> r[i] == Decimal(teams[i])
  {
    seq(|teams|, i requires 0 <= i < |teams| => Decimal(teams[i]))
  }

  /** Pressing a team button stores the number its text parses to. */
  function OnTeamButton(sel: Selection, button: string): (r: Selection)
    ensures r.matchId == sel.matchId && r.teamId == ParseDigits(button)
  {
    sel.(teamId := ParseDigits(button))
  }

  /** The button shown as pressed: the one whose text is the picked team's number. */
  predicate IsSelected(sel: Selection, button: string) {
    sel.teamId.Some? && sel.teamId.value >= 0 && button == Decimal(sel.teamId.value)
  }

  /** Pressing the button of a team picks that team, and it is then the only button of the
      match shown as pressed. */
  lemma PressTeam(sel: Selection, team: nat, other: nat)
    ensures OnTeamButton(sel, Decimal(team)).teamId == Some(team)
    ensures IsSelected(OnTeamButton(sel, Decimal(team)), Decimal(other)) <==> other == team
  {
    DecimalRoundTrip(team);
    if Decimal(other) == Decimal(team) {
      DecimalInjective(other, team);
    }
  }
}
