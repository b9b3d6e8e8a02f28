/** The server's scout leaderboard: how many match, pit and drive-team records
    each scout has entered at the current event, and for which teams. */
module Leaderboard {
  import opened Wrappers
  import opened Assoc
  import opened Text
  import opened Data

  /** Which of the three stored lists a record comes from. */
  datatype EntryKind = MatchKind | PitKind | DriverKind

  /** A stored record with the team it is about. */
  datatype ScoutedEntry = ScoutedEntry(teamId: string, data: FullEntryData)

  datatype LeaderboardPerson = LeaderboardPerson(
    name: string,
    matchesScouted: nat,
    pitsScouted: nat,
    driversScouted: nat,
    teamsScouted: Assoc<nat, nat>)

  function Total(p: LeaderboardPerson): int {
    p.matchesScouted + p.pitsScouted + p.driversScouted
  }

  /** The grouping key of a scout name: trimmed and lower-cased. */
  function ScoutKey(scout: string): string {
    LowerAscii(Trim(scout, IsRustWhitespace))
  }

  const UsizeBound: nat := 0x1_0000_0000_0000_0000

  /** A team id the leaderboard can count: it parses as a `usize`. */
  predicate TeamIdParses(e: ScoutedEntry) {
    ParseUnsigned(e.teamId, UsizeBound).Some?
  }

  function TeamNumber(e: ScoutedEntry): nat
    requires TeamIdParses(e)
  {
    ParseUnsigned(e.teamId, UsizeBound).value
  }

  /** The records of the current year and event, tagged with their list. */
  function Tagged(year: nat, event: string, kind: EntryKind, es: seq<ScoutedEntry>): (r: seq<(EntryKind, ScoutedEntry)>)
    ensures forall x :: x in r <==> x.0 == kind && x.1 in es && x.1.data.year == year && x.1.data.event == event
  {
    if es == [] then []
    else
      var rest := Tagged(year, event, kind, es[1..]);
      assert es == [es[0]] + es[1..];
      if es[0].data.year == year && es[0].data.event == event then [(kind, es[0])] + rest else rest
  }

  function CountedEntries(year: nat, event: string, matches: seq<ScoutedEntry>, pits: seq<ScoutedEntry>,
                          drivers: seq<ScoutedEntry>): seq<(EntryKind, ScoutedEntry)>
  {
    Tagged(year, event, MatchKind, matches) + Tagged(year, event, PitKind, pits)
      + Tagged(year, event, DriverKind, drivers)
  }

  predicate AllTeamIdsParse(es: seq<(EntryKind, ScoutedEntry)>) {
    forall i :: 0 <= i < |es| ==> TeamIdParses(es[i].1)
  }

  lemma PrefixParses(es: seq<(EntryKind, ScoutedEntry)>, n: nat)
    requires AllTeamIdsParse(es) && n <= |es|
    ensures AllTeamIdsParse(es[..n])
  {
    assert forall i :: 0 <= i < n ==> es[..n][i] == es[i];
  }

  /** One record counted for its scout: the matching counter and the team's count go up by one. */
  function Bump(p: LeaderboardPerson, kind: EntryKind, team: nat): LeaderboardPerson {
    var p' := match kind
      case MatchKind => p.(matchesScouted := p.matchesScouted + 1)
      case PitKind => p.(pitsScouted := p.pitsScouted + 1)
      case DriverKind => p.(driversScouted := p.driversScouted + 1);
    p'.(teamsScouted := Increment(p.teamsScouted, team))
  }

  function NewPerson(name: string): LeaderboardPerson {
    LeaderboardPerson(name, 0, 0, 0, [])
  }

  /** The leaderboard after one more record. */
  function Step(acc: Assoc<string, LeaderboardPerson>, kind: EntryKind, e: ScoutedEntry): Assoc<string, LeaderboardPerson>
    requires TeamIdParses(e)
  {
    var key := ScoutKey(e.data.scout);
    var p := Get(acc, key).GetOr(NewPerson(e.data.scout));
    Put(acc, key, Bump(p, kind, TeamNumber(e)))
  }

  /** The leaderboard of a list of records, taken in order. */
  function LeaderboardOf(es: seq<(EntryKind, ScoutedEntry)>): Assoc<string, LeaderboardPerson>
    requires AllTeamIdsParse(es)
  {
    if es == [] then []
    else
      PrefixParses(es, |es| - 1);
      Step(LeaderboardOf(es[..|es| - 1]), es[|es| - 1].0, es[|es| - 1].1)
  }

  lemma LeaderboardOfNext(es: seq<(EntryKind, ScoutedEntry)>, i: nat)
    requires AllTeamIdsParse(es) && i < |es|
    ensures AllTeamIdsParse(es[..i]) && AllTeamIdsParse(es[..i + 1]) && TeamIdParses(es[i].1)
    ensures LeaderboardOf(es[..i + 1]) == Step(LeaderboardOf(es[..i]), es[i].0, es[i].1)
  {
    PrefixParses(es, i);
    PrefixParses(es, i + 1);
    assert es[..i + 1][..i] == es[..i];
  }

  /** The leaderboard of the current event. */
  method GetLeaderboard(year: nat, event: string, matches: seq<ScoutedEntry>, pits: seq<ScoutedEntry>,
                        drivers: seq<ScoutedEntry>) returns (scouts: Assoc<string, LeaderboardPerson>)
    requires AllTeamIdsParse(CountedEntries(year, event, matches, pits, drivers))
    ensures scouts == LeaderboardOf(CountedEntries(year, event, matches, pits, drivers))
  {
    var es := CountedEntries(year, event, matches, pits, drivers);
    scouts := [];
    for i := 0 to |es|
      invariant AllTeamIdsParse(es[..i]) && scouts == LeaderboardOf(es[..i])
    {
      LeaderboardOfNext(es, i);
      var (kind, entry) := es[i];
      var key := ScoutKey(entry.data.scout);
      var scout: LeaderboardPerson;
      match Get(scouts, key) {
        case Some(p) => scout := p;
        case None => scout := NewPerson(entry.data.scout);
      }
      scout := Bump(scout, kind, TeamNumber(entry));
      scouts := Put(scouts, key, scout);
    }
    assert es[..|es|] == es;
  }

  // ---------------------------------------------------------------------------
  // What the leaderboard promises

  /** How many records of `kind` the scouts grouped under `key` entered. */
  function CountOf(es: seq<(EntryKind, ScoutedEntry)>, kind: EntryKind, key: string): nat {
    if es == [] then 0
    else CountOf(es[..|es| - 1], kind, key)
         + (if es[|es| - 1].0 == kind && ScoutKey(es[|es| - 1].1.data.scout) == key then 1 else 0)
  }

  /** The position of the first element of `s` whose key under `k` is `key`. */
  function FirstIndexOf<T>(s: seq<T>, k: T -> string, key: string): (r: Option<nat>)
    ensures r.Some? ==> r.value < |s| && k(s[r.value]) == key
    ensures r.None? <==> forall i :: 0 <= i < |s| ==> k(s[i]) != key
  {
    if s == [] then None
    else
      var init := s[..|s| - 1];
      assert forall i :: 0 <= i < |init| ==> s[i] == init[i];
      match FirstIndexOf(init, k, key)
      case Some(i) => Some(i)
      case None => if k(s[|s| - 1]) == key then Some(|s| - 1) else None
  }

  /** The grouping key of a record. */
  function EntryKey(e: (EntryKind, ScoutedEntry)): string {
    ScoutKey(e.1.data.scout)
  }

  /** The position of the first record grouped under `key`. */
  function FirstWithKey(es: seq<(EntryKind, ScoutedEntry)>, key: string): (r: Option<nat>)
    ensures r.Some? ==> r.value < |es| && ScoutKey(es[r.value].1.data.scout) == key
    ensures r.None? <==> forall i :: 0 <= i < |es| ==> ScoutKey(es[i].1.data.scout) != key
  {
    FirstIndexOf(es, EntryKey, key)
  }

  /** A person's entry is consistent: the key is their name's key, and their
      teams add up to their counters. */
  predicate PersonOk(key: string, p: LeaderboardPerson) {
    key == ScoutKey(p.name) && DistinctKeys(p.teamsScouted) && SumBy(p.teamsScouted, Count) == Total(p)
  }

  /** Counting a record raises exactly the counter of its list, and the total, by one. */
  lemma BumpCounts(p: LeaderboardPerson, kind: EntryKind, team: nat)
    ensures var q := Bump(p, kind, team);
      && q.name == p.name
      && q.matchesScouted == p.matchesScouted + (if kind == MatchKind then 1 else 0)
      && q.pitsScouted == p.pitsScouted + (if kind == PitKind then 1 else 0)
      && q.driversScouted == p.driversScouted + (if kind == DriverKind then 1 else 0)
      && Total(q) == Total(p) + 1
  {
  }

  lemma BumpOk(key: string, p: LeaderboardPerson, kind: EntryKind, team: nat)
    requires PersonOk(key, p)
    ensures PersonOk(key, Bump(p, kind, team))
  {
    var q := Bump(p, kind, team);
    assert q.teamsScouted == Increment(p.teamsScouted, team);
    IncrementSum(p.teamsScouted, team);
    BumpCounts(p, kind, team);
  }

  /** A scout's first record gives them one record of its list and one team. */
  lemma NewPersonBump(name: string, kind: EntryKind, team: nat)
    ensures var q := Bump(NewPerson(name), kind, team);
      && q.name == name
      && q.matchesScouted == (if kind == MatchKind then 1 else 0)
      && q.pitsScouted == (if kind == PitKind then 1 else 0)
      && q.driversScouted == (if kind == DriverKind then 1 else 0)
      && PersonOk(ScoutKey(name), q)
  {
    var p, k := NewPerson(name), ScoutKey(name);
    assert PersonOk(k, p) by {
      assert p.teamsScouted == [] && Total(p) == 0;
      assert SumBy(p.teamsScouted, Count) == 0;
    }
    BumpCounts(p, kind, team);
    BumpOk(k, p, kind, team);
  }

  /** One step changes only the entry of the record's scout. */
  lemma StepGet(acc: Assoc<string, LeaderboardPerson>, kind: EntryKind, e: ScoutedEntry, key: string)
    requires TeamIdParses(e)
    ensures Get(Step(acc, kind, e), key)
         == if key == ScoutKey(e.data.scout)
            then Some(Bump(Get(acc, key).GetOr(NewPerson(e.data.scout)), kind, TeamNumber(e)))
            else Get(acc, key)
  {
    var k := ScoutKey(e.data.scout);
    if key != k {
      GetPutOther(acc, k, Bump(Get(acc, k).GetOr(NewPerson(e.data.scout)), kind, TeamNumber(e)), key);
    }
  }

  lemma {:induction false} CountOfAbsent(es: seq<(EntryKind, ScoutedEntry)>, kind: EntryKind, key: string)
    requires FirstWithKey(es, key).None?
    ensures CountOf(es, kind, key) == 0
  {
    if es != [] {
      var init := es[..|es| - 1];
      assert forall i :: 0 <= i < |init| ==> init[i] == es[i];
      CountOfAbsent(init, kind, key);
    }
  }

  /** Each counter of `p` is the number of records of its list under `key`. */
  ghost predicate CountsMatch(es: seq<(EntryKind, ScoutedEntry)>, key: string, p: LeaderboardPerson) {
    && p.matchesScouted == CountOf(es, MatchKind, key)
    && p.pitsScouted == CountOf(es, PitKind, key)
    && p.driversScouted == CountOf(es, DriverKind, key)
  }

  /** The person the leaderboard of `es` should hold under `key`. */
  ghost predicate Describes(es: seq<(EntryKind, ScoutedEntry)>, key: string, r: Option<LeaderboardPerson>) {
    && (r.None? <==> FirstWithKey(es, key).None?)
    && (r.Some? ==>
          && r.value.name == es[FirstWithKey(es, key).value].1.data.scout
          && CountsMatch(es, key, r.value)
          && PersonOk(key, r.value))
  }

  /** Appending a record: the first position under `key` moves only if there was none. */
  lemma AppendedFirst(init: seq<(EntryKind, ScoutedEntry)>, x: (EntryKind, ScoutedEntry), key: string)
    ensures forall i :: 0 <= i < |init| ==> (init + [x])[i] == init[i]
    ensures FirstWithKey(init + [x], key)
         == match FirstWithKey(init, key)
            case Some(i) => Some(i)
            case None => if ScoutKey(x.1.data.scout) == key then Some(|init|) else None
  {
    assert (init + [x])[..|init|] == init;
  }

  /** Appending a record: the count of its list and scout goes up by one. */
  lemma AppendedCount(init: seq<(EntryKind, ScoutedEntry)>, x: (EntryKind, ScoutedEntry), key: string, kind: EntryKind)
    ensures CountOf(init + [x], kind, key)
         == CountOf(init, kind, key) + (if x.0 == kind && ScoutKey(x.1.data.scout) == key then 1 else 0)
  {
    assert (init + [x])[..|init|] == init;
  }

  lemma AppendedCounts(init: seq<(EntryKind, ScoutedEntry)>, x: (EntryKind, ScoutedEntry), key: string)
    ensures CountOf(init + [x], MatchKind, key)
         == CountOf(init, MatchKind, key) + (if x.0 == MatchKind && ScoutKey(x.1.data.scout) == key then 1 else 0)
    ensures CountOf(init + [x], PitKind, key)
         == CountOf(init, PitKind, key) + (if x.0 == PitKind && ScoutKey(x.1.data.scout) == key then 1 else 0)
    ensures CountOf(init + [x], DriverKind, key)
         == CountOf(init, DriverKind, key) + (if x.0 == DriverKind && ScoutKey(x.1.data.scout) == key then 1 else 0)
  {
    AppendedCount(init, x, key, MatchKind);
    AppendedCount(init, x, key, PitKind);
    AppendedCount(init, x, key, DriverKind);
  }

  /** A record of another scout leaves what describes `key` as it was. */
  lemma DescribesOther(init: seq<(EntryKind, ScoutedEntry)>, x: (EntryKind, ScoutedEntry), key: string,
                       r: Option<LeaderboardPerson>)
    requires ScoutKey(x.1.data.scout) != key
    requires Describes(init, key, r)
    ensures Describes(init + [x], key, r)
  {
    AppendedFirst(init, x, key);
    AppendedCounts(init, x, key);
  }

  /** A record of the scout bumps the counter of its list, which keeps the counters right. */
  lemma BumpCountsMatch(init: seq<(EntryKind, ScoutedEntry)>, x: (EntryKind, ScoutedEntry), key: string,
                        p: LeaderboardPerson, team: nat)
    requires ScoutKey(x.1.data.scout) == key && CountsMatch(init, key, p)
    ensures CountsMatch(init + [x], key, Bump(p, x.0, team))
  {
    var q := Bump(p, x.0, team);
    BumpCounts(p, x.0, team);
    AppendedCount(init, x, key, MatchKind);
    AppendedCount(init, x, key, PitKind);
    AppendedCount(init, x, key, DriverKind);
    match x.0
    case MatchKind =>
      assert q.matchesScouted == p.matchesScouted + 1 == CountOf(init + [x], MatchKind, key);
    case PitKind =>
      assert q.pitsScouted == p.pitsScouted + 1 == CountOf(init + [x], PitKind, key);
    case DriverKind =>
      assert q.driversScouted == p.driversScouted + 1 == CountOf(init + [x], DriverKind, key);
  }

  /** The first record of a scout creates their entry. */
  lemma DescribesNew(init: seq<(EntryKind, ScoutedEntry)>, kind: EntryKind, e: ScoutedEntry, key: string)
    requires ScoutKey(e.data.scout) == key && TeamIdParses(e)
    requires Describes(init, key, None)
    ensures Describes(init + [(kind, e)], key, Some(Bump(NewPerson(e.data.scout), kind, TeamNumber(e))))
  {
    var es := init + [(kind, e)];
    var p := NewPerson(e.data.scout);
    AppendedFirst(init, (kind, e), key);
    assert FirstWithKey(es, key) == Some(|init|);
    assert es[|init|] == (kind, e);
    CountOfAbsent(init, MatchKind, key);
    CountOfAbsent(init, PitKind, key);
    CountOfAbsent(init, DriverKind, key);
    assert CountsMatch(init, key, p);
    BumpCountsMatch(init, (kind, e), key, p, TeamNumber(e));
    NewPersonBump(e.data.scout, kind, TeamNumber(e));
  }

  /** A later record of a scout bumps their entry. */
  lemma DescribesAgain(init: seq<(EntryKind, ScoutedEntry)>, kind: EntryKind, e: ScoutedEntry, key: string,
                       p: LeaderboardPerson)
    requires ScoutKey(e.data.scout) == key && TeamIdParses(e)
    requires Describes(init, key, Some(p))
    ensures Describes(init + [(kind, e)], key, Some(Bump(p, kind, TeamNumber(e))))
  {
    AppendedFirst(init, (kind, e), key);
    BumpCountsMatch(init, (kind, e), key, p, TeamNumber(e));
    BumpOk(key, p, kind, TeamNumber(e));
  }

  /** If `acc` describes `init`, one step describes `init` plus one record. */
  lemma DescribesStep(init: seq<(EntryKind, ScoutedEntry)>, acc: Assoc<string, LeaderboardPerson>,
                      kind: EntryKind, e: ScoutedEntry, key: string)
    requires TeamIdParses(e)
    requires Describes(init, key, Get(acc, key))
    ensures Describes(init + [(kind, e)], key, Get(Step(acc, kind, e), key))
  {
    StepGet(acc, kind, e, key);
    if key != ScoutKey(e.data.scout) {
      DescribesOther(init, (kind, e), key, Get(acc, key));
    } else if Get(acc, key).None? {
      DescribesNew(init, kind, e, key);
    } else {
      DescribesAgain(init, kind, e, key, Get(acc, key).value);
    }
  }

  /** The leaderboard of `es` describes every key, and lists each key once. */
  lemma {:induction false} LeaderboardDescribes(es: seq<(EntryKind, ScoutedEntry)>, key: string)
    requires AllTeamIdsParse(es)
    ensures DistinctKeys(LeaderboardOf(es)) && Describes(es, key, Get(LeaderboardOf(es), key))
  {
    if es != [] {
      var init, x := es[..|es| - 1], es[|es| - 1];
      assert es == init + [x];
      var kind, e := x.0, x.1;
      PrefixParses(es, |es| - 1);
      var acc := LeaderboardOf(init);
      LeaderboardDescribes(init, key);
      DescribesStep(init, acc, kind, e, key);
      var k := ScoutKey(e.data.scout);
      PutDistinct(acc, k, Bump(Get(acc, k).GetOr(NewPerson(e.data.scout)), kind, TeamNumber(e)));
    }
  }

  /** Each person is the scouts grouped under their key: named after the first
      of their records, with each counter the number of their records from that
      list, and teams adding up to the total. Keys are distinct and belong to
      someone who entered a record. */
  lemma LeaderboardPersons(es: seq<(EntryKind, ScoutedEntry)>, key: string)
    requires AllTeamIdsParse(es)
    ensures DistinctKeys(LeaderboardOf(es))
    ensures Get(LeaderboardOf(es), key).None? <==> FirstWithKey(es, key).None?
    ensures Get(LeaderboardOf(es), key).Some? ==>
      var p := Get(LeaderboardOf(es), key).value;
      && p.name == es[FirstWithKey(es, key).value].1.data.scout
      && p.matchesScouted == CountOf(es, MatchKind, key)
      && p.pitsScouted == CountOf(es, PitKind, key)
      && p.driversScouted == CountOf(es, DriverKind, key)
      && PersonOk(key, p)
  {
    LeaderboardDescribes(es, key);
  }

  /** Summed over all persons, the counters add up to the number of records. */
  lemma {:induction false} LeaderboardTotal(es: seq<(EntryKind, ScoutedEntry)>)
    requires AllTeamIdsParse(es)
    ensures SumBy(LeaderboardOf(es), Total) == |es|
  {
    if es != [] {
      var init := es[..|es| - 1];
      var (kind, e) := es[|es| - 1];
      PrefixParses(es, |es| - 1);
      var acc := LeaderboardOf(init);
      var k := ScoutKey(e.data.scout);
      LeaderboardTotal(init);
      var p := Get(acc, k).GetOr(NewPerson(e.data.scout));
      BumpCounts(p, kind, TeamNumber(e));
      SumByPut(acc, k, Bump(p, kind, TeamNumber(e)), Total);
    }
  }

  /** The records counted are exactly those of the current year and event, tagged with
      the list they come from. */
  lemma CountedEntriesExact(year: nat, event: string, matches: seq<ScoutedEntry>, pits: seq<ScoutedEntry>,
                            drivers: seq<ScoutedEntry>, x: (EntryKind, ScoutedEntry))
    ensures x in CountedEntries(year, event, matches, pits, drivers) <==>
      && x.1.data.year == year && x.1.data.event == event
      && match x.0
         case MatchKind => x.1 in matches
         case PitKind => x.1 in pits
         case DriverKind => x.1 in drivers
  {
  }
}
