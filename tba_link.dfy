/** The link from a match to its page on The Blue Alliance. A match page lives at
    `https://www.thebluealliance.com/match/<event>_<part>`, where the part is the
    competition level followed by the match number for qualifications, and the level,
    the set number, `m` and the match number for playoff matches (The Blue Alliance
    API v3 match key format). */
module TbaLink {
  import opened Wrappers
  import opened Text
  import Tba

  const MatchPageUrl := "https://www.thebluealliance.com/match/"

  /** The level code a link starts its part with. */
  function LevelCode(id: Tba.MatchId): string {
    match id
    case Practice(_) => "pm"
    case Qualification(_) => "qm"
    case Quarterfinal(_) => "qf"
    case Semifinal(_) => "sf"
    case Final(_) => "f"
  }

  function SetMatchOf(id: Tba.MatchId): Tba.SetMatch {
    match id
    case Practice(sm) => sm
    case Qualification(sm) => sm
    case Quarterfinal(sm) => sm
    case Semifinal(sm) => sm
    case Final(sm) => sm
  }

  predicate IsPlayoff(id: Tba.MatchId) {
    id.Quarterfinal? || id.Semifinal? || id.Final?
  }

  /** The link part as the client writes it: for a playoff match the match number comes
      first and the set number last. */
  function MatchPartAsWritten(id: Tba.MatchId): (r: string)
    ensures StartsWith(r, LevelCode(id))
  {
    var sm := SetMatchOf(id);
    if IsPlayoff(id) then LevelCode(id) + Decimal(sm.num) + "m" + Decimal(sm.setNumber)
    else LevelCode(id) + Decimal(sm.num)
  }

  /** What follows the level code, in The Blue Alliance's order: the set number, then
      `m` and the match number for a playoff match; the match number otherwise. */
  function Numbers(id: Tba.MatchId): (r: string)
    ensures |r| > 0 && IsDigit(r[0])
  {
    var sm := SetMatchOf(id);
    if IsPlayoff(id) then Decimal(sm.setNumber) + "m" + Decimal(sm.num) else Decimal(sm.num)
  }

  /** The link part: the level code followed by the numbers. */
  function MatchPart(id: Tba.MatchId): (r: string)
    ensures StartsWith(r, LevelCode(id))
    ensures LevelCode(id) == if r[0] == 'f' then "f" else r[..2]
  {
    LevelCode(id) + Numbers(id)
  }

  /** The page address of a match at an event, as the client writes it. */
  function LinkUrl(event: string, id: Tba.MatchId): (r: string)
    ensures StartsWith(r, MatchPageUrl + event + "_")
    ensures r[|MatchPageUrl + event + "_"|..] == MatchPartAsWritten(id)
  {
    MatchPageUrl + event + "_" + MatchPartAsWritten(id)
  }

  /** The page address with the part in The Blue Alliance's order. */
  function CorrectedLinkUrl(event: string, id: Tba.MatchId): (r: string)
    ensures StartsWith(r, MatchPageUrl + event + "_")
    ensures r[|MatchPageUrl + event + "_"|..] == MatchPart(id)
  {
    MatchPageUrl + event + "_" + MatchPart(id)
  }

  /** Two digit strings joined by `m` read the same both ways round only when they are equal. */
  lemma SwappedEqual(c: string, a: string, b: string)
    requires 'm' !in a && 'm' !in b
    requires c + a + "m" + b == c + (b + "m" + a)
    ensures a == b
  {
    assert c + a + "m" + b == c + (a + "m" + b);
    assert (c + (a + "m" + b))[|c|..] == a + "m" + b;
    assert (c + (b + "m" + a))[|c|..] == b + "m" + a;
    SplitAtSeparator(a, b, b, a, 'm');
  }

  /** The part as written equals the corrected part exactly off the playoffs, or when the
      set and match numbers are equal. */
  lemma PartsAgree(id: Tba.MatchId)
    ensures MatchPartAsWritten(id) == MatchPart(id) <==>
      !IsPlayoff(id) || SetMatchOf(id).num == SetMatchOf(id).setNumber
  {
    var sm := SetMatchOf(id);
    if IsPlayoff(id) && MatchPartAsWritten(id) == MatchPart(id) {
      var c, a, b := LevelCode(id), Decimal(sm.num), Decimal(sm.setNumber);
      assert 'm' !in a && 'm' !in b by {
        assert !IsDigit('m');
      }
      SwappedEqual(c, a, b);
      DecimalInjective(sm.num, sm.setNumber);
    }
  }

  /** Practice and qualification links are the same as written and corrected; a playoff
      link differs unless its set and match numbers are equal. */
  lemma LinksAgreeOffPlayoffs(event: string, id: Tba.MatchId)
    ensures LinkUrl(event, id) == CorrectedLinkUrl(event, id) <==>
      !IsPlayoff(id) || SetMatchOf(id).num == SetMatchOf(id).setNumber
  {
    var pre := MatchPageUrl + event + "_";
    var u, v := LinkUrl(event, id), CorrectedLinkUrl(event, id);
    if u == v {
      assert u[|pre|..] == v[|pre|..];
    }
    PartsAgree(id);
  }

  /** The Blue Alliance's own key part for a match it reports. */
  function TbaKeyPart(m: Tba.RawTbaMatch): string {
    if m.compLevel == "qm" then "qm" + Decimal(m.matchNumber)
    else m.compLevel + Decimal(m.setNumber) + "m" + Decimal(m.matchNumber)
  }

  /** A match imported from The Blue Alliance links back to the page of the same match. */
  lemma LinkIsTbaKey(event: string, m: Tba.RawTbaMatch)
    requires Tba.Convertible(m) && m.compLevel in {"qm", "qf", "sf", "f"}
    ensures Tba.IntoMatch(m).Ok?
    ensures MatchPart(Tba.IntoMatch(m).value.id) == TbaKeyPart(m)
    ensures CorrectedLinkUrl(event, Tba.IntoMatch(m).value.id) == MatchPageUrl + event + "_" + TbaKeyPart(m)
  {
    var sm := Tba.SetMatch(m.setNumber, m.matchNumber);
    var id := Tba.LevelId(m.compLevel, sm).value;
    assert Tba.IntoMatch(m).value.id == id;
    MatchPartOfLevel(m.compLevel, sm);
  }

  /** The part of the match a level code and TBA's set and match numbers make. */
  lemma MatchPartOfLevel(level: string, sm: Tba.SetMatch)
    requires level in {"qm", "qf", "sf", "f"}
    ensures Tba.LevelId(level, sm).Some?
    ensures MatchPart(Tba.LevelId(level, sm).value) ==
      if level == "qm" then "qm" + Decimal(sm.num) else level + Decimal(sm.setNumber) + "m" + Decimal(sm.num)
  {
    var id := Tba.LevelId(level, sm).value;
    assert SetMatchOf(id) == sm;
    assert LevelCode(id) == level;
    assert IsPlayoff(id) <==> level != "qm";
  }

  /** As written, a final that The Blue Alliance numbers set 1, match 2 is linked to the
      page of set 2, match 1. */
  lemma AsWrittenLinksWrongMatch()
    ensures var m := Tba.RawTbaMatch(Tba.RawTbaAlliance(None, []), Tba.RawTbaAlliance(None, []), None, 0, "f", 1, 2, None);
      && Tba.IntoMatch(m).Ok?
      && TbaKeyPart(m) == "f1m2"
      && MatchPartAsWritten(Tba.IntoMatch(m).value.id) == "f2m1"
      && LinkUrl("2024casj", Tba.IntoMatch(m).value.id) == MatchPageUrl + "2024casj_f2m1"
  {
    var m := Tba.RawTbaMatch(Tba.RawTbaAlliance(None, []), Tba.RawTbaAlliance(None, []), None, 0, "f", 1, 2, None);
    var id := Tba.Final(Tba.SetMatch(1, 2));
    assert Tba.IntoMatch(m).value.id == id;
    assert Decimal(1) == "1" && Decimal(2) == "2";
    assert MatchPartAsWritten(id) == "f" + "2" + "m" + "1";
    assert TbaKeyPart(m) == "f" + "1" + "m" + "2";
  }

  /** Different matches have different links: the part gives back the level and the
      match number, and for a playoff match also the set number. */
  lemma MatchPartInjective(a: Tba.MatchId, b: Tba.MatchId)
    requires MatchPart(a) == MatchPart(b)
    ensures LevelCode(a) == LevelCode(b) && SetMatchOf(a).num == SetMatchOf(b).num
    ensures IsPlayoff(a) ==> a == b
  {
    var ca, cb := LevelCode(a), LevelCode(b);
    var sa, sb := SetMatchOf(a), SetMatchOf(b);
    assert ca == cb;
    var ra, rb := Numbers(a), Numbers(b);
    assert ra == MatchPart(a)[|ca|..] && rb == MatchPart(b)[|cb|..];
    assert IsPlayoff(a) == IsPlayoff(b);
    if IsPlayoff(a) {
      var da, db := Decimal(sa.setNumber), Decimal(sb.setNumber);
      assert 'm' !in da && 'm' !in db by {
        assert !IsDigit('m');
      }
      assert ra == da + ['m'] + Decimal(sa.num);
      assert rb == db + ['m'] + Decimal(sb.num);
      SplitAtSeparator(da, Decimal(sa.num), db, Decimal(sb.num), 'm');
      DecimalInjective(sa.setNumber, sb.setNumber);
      DecimalInjective(sa.num, sb.num);
    } else {
      DecimalInjective(sa.num, sb.num);
    }
  }
}
