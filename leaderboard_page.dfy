/** The client's leaderboard table: one row per scout, the most prolific first, with
    the scout's name, total, per-kind counts and number of distinct teams. */
module LeaderboardPage {
  import opened Wrappers
  import opened Text
  import opened Assoc
  import opened Sorting
  import opened Seqs
  import Leaderboard

  /** The row comparator: negative when `a` has more records than `b`, so that `a`
      comes first. */
  function SortScouts(a: Leaderboard.LeaderboardPerson, b: Leaderboard.LeaderboardPerson): int {
    Leaderboard.Total(b) - Leaderboard.Total(a)
  }

  /** The comparator is antisymmetric, zero on equal totals (in particular on a scout
      and itself), and orders by total. */
  lemma SortScoutsConsistent(a: Leaderboard.LeaderboardPerson, b: Leaderboard.LeaderboardPerson)
    ensures SortScouts(a, b) == -SortScouts(b, a)
    ensures SortScouts(a, a) == 0
    ensures SortScouts(a, b) < 0 <==> Leaderboard.Total(a) > Leaderboard.Total(b)
    ensures SortScouts(a, b) == 0 <==> Leaderboard.Total(a) == Leaderboard.Total(b)
  {
  }

  function NegTotal(p: Leaderboard.LeaderboardPerson): int {
    -Leaderboard.Total(p)
  }

  /** The scouts in row order: a stable sort by the comparator, which puts the larger
      totals first. */
  function SortedScouts(board: Assoc<string, Leaderboard.LeaderboardPerson>): seq<Leaderboard.LeaderboardPerson> {
    SortBy(Values(board), NegTotal)
  }

  /** The sorted rows are the board's scouts, with non-increasing totals. */
  lemma SortedScoutsSpec(board: Assoc<string, Leaderboard.LeaderboardPerson>)
    ensures multiset(SortedScouts(board)) == multiset(Values(board))
    ensures forall i, j :: 0 <= i < j < |SortedScouts(board)| ==>
      Leaderboard.Total(SortedScouts(board)[i]) >= Leaderboard.Total(SortedScouts(board)[j])
    ensures forall i, j :: 0 <= i < j < |SortedScouts(board)| ==>
      SortScouts(SortedScouts(board)[i], SortedScouts(board)[j]) <= 0
  {
    var r := SortedScouts(board);
    forall i, j | 0 <= i < j < |r| ensures Leaderboard.Total(r[i]) >= Leaderboard.Total(r[j]) {
      assert NegTotal(r[i]) <= NegTotal(r[j]);
    }
  }

  /** The name shown: "Unknown" for a name that is empty or only blanks. */
  function DisplayName(name: string): (r: string)
    ensures (forall i :: 0 <= i < |name| ==> IsJsWhitespace(name[i])) ==> r == "Unknown"
    ensures (exists i :: 0 <= i < |name| && !IsJsWhitespace(name[i])) ==> r == name
  {
    TrimEmpty(name, IsJsWhitespace);
    if |Trim(name, IsJsWhitespace)| == 0 then "Unknown" else name
  }

  datatype Row = Row(name: string, total: int, matches: nat, pits: nat, drivers: nat, uniqueTeams: nat)

  /** One table row. */
  function RowOf(p: Leaderboard.LeaderboardPerson): (r: Row)
    ensures r.total == Leaderboard.Total(p) == r.matches + r.pits + r.drivers
    ensures r.matches == p.matchesScouted && r.pits == p.pitsScouted && r.drivers == p.driversScouted
    ensures r.uniqueTeams == |Keys(p.teamsScouted)|
  {
    Row(DisplayName(p.name), Leaderboard.Total(p), p.matchesScouted, p.pitsScouted, p.driversScouted,
        |p.teamsScouted|)
  }

  /** The table: the row of every scout on the board and no other, in row order, so with
      non-increasing totals. */
  function Table(board: Assoc<string, Leaderboard.LeaderboardPerson>): (r: seq<Row>)
    ensures |r| == |board|
    ensures forall i :: 0 <= i < |r| ==> r[i] == RowOf(SortedScouts(board)[i])
    ensures forall i, j :: 0 <= i < j < |r| ==> r[i].total >= r[j].total
    ensures forall k :: 0 <= k < |board| ==> RowOf(board[k].1) in r
    ensures forall x :: x in r ==> exists k :: 0 <= k < |board| && x == RowOf(board[k].1)
  {
    var scouts := SortedScouts(board);
    SortedScoutsSpec(board);
    var r := MapSeq(scouts, RowOf);
    MapPermuted(scouts, Values(board), RowOf, r);
    r
  }

  /** With distinct team keys, the unique-teams column counts the distinct teams. */
  lemma UniqueTeamsCount(p: Leaderboard.LeaderboardPerson)
    requires DistinctKeys(p.teamsScouted)
    ensures RowOf(p).uniqueTeams == |set i | 0 <= i < |p.teamsScouted| :: p.teamsScouted[i].0|
  {
    var ks := Keys(p.teamsScouted);
    var s := set i | 0 <= i < |p.teamsScouted| :: p.teamsScouted[i].0;
    assert s == set i | 0 <= i < |ks| :: ks[i];
    DistinctCard(ks);
  }

  lemma {:induction false} DistinctCard(ks: seq<nat>)
    requires forall i, j :: 0 <= i < j < |ks| ==> ks[i] != ks[j]
    ensures |set i | 0 <= i < |ks| :: ks[i]| == |ks|
  {
    if ks != [] {
      var init := ks[..|ks| - 1];
      DistinctCard(init);
      var s := set i | 0 <= i < |init| :: init[i];
      assert (set i | 0 <= i < |ks| :: ks[i]) == s + {ks[|ks| - 1]};
      assert ks[|ks| - 1] !in s;
    }
  }

  /** The sum of the totals of some scouts. */
  function SumTotals(ps: seq<Leaderboard.LeaderboardPerson>): int {
    if ps == [] then 0 else SumTotals(ps[..|ps| - 1]) + Leaderboard.Total(ps[|ps| - 1])
  }

  lemma {:induction false} SumTotalsAppend(a: seq<Leaderboard.LeaderboardPerson>, b: seq<Leaderboard.LeaderboardPerson>)
    ensures SumTotals(a + b) == SumTotals(a) + SumTotals(b)
  {
    if b == [] {
      assert a + b == a;
    } else {
      var init := b[..|b| - 1];
      assert (a + b)[..|a + b| - 1] == a + init;
      assert (a + b)[|a + b| - 1] == b[|b| - 1];
      SumTotalsAppend(a, init);
    }
  }

  /** A list is what comes before its `k`-th element, that element, and what follows. */
  lemma SplitAround<T>(b: seq<T>, k: nat)
    requires k < |b|
    ensures b == b[..k] + [b[k]] + b[k + 1..]
  {
    assert b[..k + 1] == b[..k] + [b[k]];
    assert b == b[..k + 1] + b[k + 1..];
  }

  /** Taking one scout out of a list takes its total out of the sum. */
  lemma SumTotalsRemove(b: seq<Leaderboard.LeaderboardPerson>, k: nat)
    requires k < |b|
    ensures SumTotals(b) == SumTotals(b[..k] + b[k + 1..]) + Leaderboard.Total(b[k])
  {
    var before, x, after := b[..k], b[k], b[k + 1..];
    calc {
      SumTotals(b);
      { SplitAround(b, k); }
      SumTotals(before + [x] + after);
      { SumTotalsAppend(before + [x], after); }
      SumTotals(before + [x]) + SumTotals(after);
      { assert (before + [x])[..|before|] == before; }
      SumTotals(before) + Leaderboard.Total(x) + SumTotals(after);
      { SumTotalsAppend(before, after); }
      SumTotals(before + after) + Leaderboard.Total(x);
    }
  }

  /** Taking one scout out of a list takes it out of the multiset. */
  lemma MultisetRemove(b: seq<Leaderboard.LeaderboardPerson>, k: nat)
    requires k < |b|
    ensures multiset(b[..k] + b[k + 1..]) == multiset(b) - multiset{b[k]}
  {
    SplitAround(b, k);
  }

  /** Reordering the scouts does not change the sum of their totals. */
  lemma {:induction false} SumTotalsPermutation(a: seq<Leaderboard.LeaderboardPerson>, b: seq<Leaderboard.LeaderboardPerson>)
    requires multiset(a) == multiset(b)
    ensures SumTotals(a) == SumTotals(b)
    decreases |a|
  {
    if a == [] {
      assert |b| == |multiset(b)| == 0;
    } else {
      var x := a[|a| - 1];
      var init := a[..|a| - 1];
      assert a == init + [x];
      assert x in multiset(b);
      var k :| 0 <= k < |b| && b[k] == x;
      MultisetRemove(b, k);
      SumTotalsPermutation(init, b[..k] + b[k + 1..]);
      SumTotalsRemove(b, k);
    }
  }

  lemma {:induction false} SumByValues(board: Assoc<string, Leaderboard.LeaderboardPerson>)
    ensures SumBy(board, Leaderboard.Total) == SumTotals(Values(board))
  {
    if board != [] {
      SumByValues(board[..|board| - 1]);
      assert Values(board[..|board| - 1]) == Values(board)[..|board| - 1];
    }
  }

  /** The rows of the leaderboard the server computes are ordered by total, and their
      totals together count every record. */
  lemma TableOfLeaderboard(es: seq<(Leaderboard.EntryKind, Leaderboard.ScoutedEntry)>)
    requires Leaderboard.AllTeamIdsParse(es)
    ensures forall i, j :: 0 <= i < j < |Table(Leaderboard.LeaderboardOf(es))| ==>
      Table(Leaderboard.LeaderboardOf(es))[i].total >= Table(Leaderboard.LeaderboardOf(es))[j].total
    ensures SumTotals(SortedScouts(Leaderboard.LeaderboardOf(es))) == |es|
  {
    var board := Leaderboard.LeaderboardOf(es);
    SortedScoutsSpec(board);
    SumTotalsPermutation(SortedScouts(board), Values(board));
    SumByValues(board);
    Leaderboard.LeaderboardTotal(es);
  }
}
