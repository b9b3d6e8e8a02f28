/** The word cloud shown for a statistic made of free-text answers. The answers are
    split into words and the words counted. The most frequent ones are kept, together
    with a "?" placeholder, and each kept word is weighted by its share of the kept
    counts. */
module WordCloud {
  import opened Wrappers
  import opened Text
  import opened Assoc
  import opened Sorting

  /** Words that are never counted. */
  const Excluded: seq<string> := ["the", "of", "it", "in", "and", "or", "by", "is", "a", "this", "that", "then", "s"]

  /** The most words a cloud shows. */
  const MaxWords: nat := 15

  const MinWeight: nat := 10
  const MaxWeight: nat := 100

  // ---------------------------------------------------------------------------
  // Splitting

  /** `\w` in a JavaScript regular expression. */
  predicate IsWordChar(c: char) {
    'a' <= c <= 'z' || 'A' <= c <= 'Z' || '0' <= c <= '9' || c == '_'
  }

  predicate AllWordChars(s: string) {
    forall i :: 0 <= i < |s| ==> IsWordChar(s[i])
  }

  /** The word characters of `s`, in order. */
  function WordChars(s: string): string {
    if s == [] then []
    else WordChars(s[..|s| - 1]) + (if IsWordChar(s[|s| - 1]) then [s[|s| - 1]] else [])
  }

  /** The tokens run together. */
  function Concat(ts: seq<string>): string {
    if ts == [] then [] else Concat(ts[..|ts| - 1]) + ts[|ts| - 1]
  }

  /** `s.split(/[^\w]+/)`, read from the left one character at a time: a word character
      extends the last token, and a non-word character starts a new, empty token unless
      it continues a run of them. So the tokens are separated by whole runs of non-word
      characters, and the first and the last token are empty when `s` starts or ends
      with such a run. */
  function SplitWords(s: string): (r: seq<string>)
    ensures |r| > 0
    ensures s != [] && !IsWordChar(s[|s| - 1]) ==> |r| >= 2 && r[|r| - 1] == []
    ensures s != [] && IsWordChar(s[|s| - 1]) ==> r[|r| - 1] != []
  {
    if s == [] then [""]
    else
      var init, c := s[..|s| - 1], s[|s| - 1];
      var p := SplitWords(init);
      if IsWordChar(c) then
        var r := p[..|p| - 1] + [p[|p| - 1] + [c]];
        assert r[|r| - 1] == p[|p| - 1] + [c];
        r
      else if init != [] && !IsWordChar(init[|init| - 1]) then p
      else p + [""]
  }

  /** The runs of non-word characters between the tokens of `SplitWords(s)`. */
  function Separators(s: string): (r: seq<string>)
    ensures |r| == |SplitWords(s)| - 1
  {
    if s == [] then []
    else
      var init, c := s[..|s| - 1], s[|s| - 1];
      var q := Separators(init);
      if IsWordChar(c) then q
      else if init != [] && !IsWordChar(init[|init| - 1]) then q[..|q| - 1] + [q[|q| - 1] + [c]]
      else q + [[c]]
  }

  /** A non-empty run of non-word characters. */
  predicate IsSeparator(x: string) {
    x != [] && forall j :: 0 <= j < |x| ==> !IsWordChar(x[j])
  }

  /** The tokens with the separators put back between them. */
  function Join(ts: seq<string>, seps: seq<string>): string
    requires |ts| == |seps| + 1
  {
    if seps == [] then ts[0]
    else Join(ts[..|ts| - 1], seps[..|seps| - 1]) + seps[|seps| - 1] + ts[|ts| - 1]
  }

  /** The tokens hold exactly the word characters of `s`. */
  lemma {:induction false} SplitWordsConcat(s: string)
    ensures Concat(SplitWords(s)) == WordChars(s)
  {
    if s != [] {
      var init, c := s[..|s| - 1], s[|s| - 1];
      var p := SplitWords(init);
      SplitWordsConcat(init);
      if IsWordChar(c) {
        var r := p[..|p| - 1] + [p[|p| - 1] + [c]];
        assert r[..|r| - 1] == p[..|p| - 1];
        assert Concat(r) == Concat(p[..|p| - 1]) + p[|p| - 1] + [c];
      } else if !(init != [] && !IsWordChar(init[|init| - 1])) {
        assert (p + [""])[..|p|] == p;
      }
    }
  }

  /** Every token is made of word characters, and only the first and the last can be empty. */
  lemma {:induction false} SplitWordsShape(s: string)
    ensures forall i :: 0 <= i < |SplitWords(s)| ==> AllWordChars(SplitWords(s)[i])
    ensures forall i :: 0 < i < |SplitWords(s)| - 1 ==> SplitWords(s)[i] != []
  {
    if s != [] {
      var init, c := s[..|s| - 1], s[|s| - 1];
      var p := SplitWords(init);
      SplitWordsShape(init);
      if IsWordChar(c) {
        var r := SplitWords(s);
        assert r == p[..|p| - 1] + [p[|p| - 1] + [c]];
        assert forall i :: 0 <= i < |r| - 1 ==> r[i] == p[i];
      }
    }
  }

  /** The first token is empty exactly when `s` is empty or starts with a separator, and
      otherwise starts with the first character of `s`. */
  lemma {:induction false} SplitWordsFirst(s: string)
    ensures s != [] && !IsWordChar(s[0]) ==> |SplitWords(s)| >= 2 && SplitWords(s)[0] == []
    ensures s != [] && IsWordChar(s[0]) ==> SplitWords(s)[0] != [] && SplitWords(s)[0][0] == s[0]
  {
    if s != [] {
      var init, c := s[..|s| - 1], s[|s| - 1];
      var p := SplitWords(init);
      if init != [] {
        assert init[0] == s[0];
        SplitWordsFirst(init);
        if IsWordChar(c) && |p| == 1 {
          assert SplitWords(s)[0] == p[0] + [c];
        }
      }
    }
  }

  lemma JoinSnoc(ts: seq<string>, seps: seq<string>, x: string, t: string)
    requires |ts| == |seps| + 1
    ensures Join(ts + [t], seps + [x]) == Join(ts, seps) + x + t
  {
    assert (ts + [t])[..|ts|] == ts && (seps + [x])[..|seps|] == seps;
  }

  /** Every separator is a non-empty run of non-word characters. */
  lemma {:induction false} SeparatorsRuns(s: string)
    ensures forall i :: 0 <= i < |Separators(s)| ==> IsSeparator(Separators(s)[i])
  {
    if s != [] {
      var init, c := s[..|s| - 1], s[|s| - 1];
      var q := Separators(init);
      SeparatorsRuns(init);
      if !IsWordChar(c) && init != [] && !IsWordChar(init[|init| - 1]) {
        var seps := q[..|q| - 1] + [q[|q| - 1] + [c]];
        assert IsSeparator(q[|q| - 1] + [c]);
        assert forall i :: 0 <= i < |seps| - 1 ==> seps[i] == q[i];
      }
    }
  }

  /** A word character extends the last token. */
  lemma JoinWordStep(ps: seq<string>, q: seq<string>, t: string, c: char)
    requires |ps| == |q|
    ensures Join(ps + [t + [c]], q) == Join(ps + [t], q) + [c]
  {
    if q == [] {
      assert ps + [t + [c]] == [t + [c]] && ps + [t] == [t];
    } else {
      var qs, x := q[..|q| - 1], q[|q| - 1];
      assert q == qs + [x];
      JoinExtendLast(ps, qs, x, t, c);
    }
  }

  /** The same, with the last token named by its position. */
  lemma JoinExtendToken(p: seq<string>, q: seq<string>, c: char)
    requires |p| == |q| + 1
    ensures Join(p[..|p| - 1] + [p[|p| - 1] + [c]], q) == Join(p, q) + [c]
  {
    var ps, t := p[..|p| - 1], p[|p| - 1];
    assert p == ps + [t];
    JoinWordStep(ps, q, t, c);
  }

  lemma JoinExtendLast(ps: seq<string>, qs: seq<string>, x: string, t: string, c: char)
    requires |ps| == |qs| + 1
    ensures Join(ps + [t + [c]], qs + [x]) == Join(ps + [t], qs + [x]) + [c]
  {
    JoinSnoc(ps, qs, x, t);
    JoinSnoc(ps, qs, x, t + [c]);
    var front := Join(ps, qs) + x;
    assert front + (t + [c]) == (front + t) + [c];
  }

  /** A non-word character after a separator, at the end, lengthens that separator. */
  lemma JoinRunStep(p: seq<string>, q: seq<string>, c: char)
    requires |p| == |q| + 1 && q != [] && p[|p| - 1] == []
    ensures Join(p, q[..|q| - 1] + [q[|q| - 1] + [c]]) == Join(p, q) + [c]
  {
    var ps, qs, x := p[..|p| - 1], q[..|q| - 1], q[|q| - 1];
    assert p == ps + [[]];
    assert q == qs + [x];
    JoinSnoc(ps, qs, x, []);
    JoinSnoc(ps, qs, x + [c], []);
  }

  /** How a word character changes the tokens and the separators. */
  lemma SplitWordChar(init: string, c: char)
    requires IsWordChar(c)
    ensures var p := SplitWords(init);
      SplitWords(init + [c]) == p[..|p| - 1] + [p[|p| - 1] + [c]]
    ensures Separators(init + [c]) == Separators(init)
  {
    var s := init + [c];
    assert s[..|s| - 1] == init;
  }

  /** A word character more, when `JoinSplit` holds for what comes before it. */
  lemma JoinSplitWordChar(init: string, c: char)
    requires IsWordChar(c) && Join(SplitWords(init), Separators(init)) == init
    ensures Join(SplitWords(init + [c]), Separators(init + [c])) == init + [c]
  {
    SplitWordChar(init, c);
    JoinExtendToken(SplitWords(init), Separators(init), c);
  }

  /** A non-word character that continues a run, when `JoinSplit` holds for what comes
      before it. */
  lemma JoinSplitRunChar(init: string, c: char)
    requires !IsWordChar(c) && init != [] && !IsWordChar(init[|init| - 1])
    requires Join(SplitWords(init), Separators(init)) == init
    ensures Join(SplitWords(init + [c]), Separators(init + [c])) == init + [c]
  {
    var s := init + [c];
    assert s[..|s| - 1] == init;
    var p, q := SplitWords(init), Separators(init);
    assert SplitWords(s) == p && Separators(s) == q[..|q| - 1] + [q[|q| - 1] + [c]];
    JoinRunStep(p, q, c);
  }

  /** A non-word character that starts a run, when `JoinSplit` holds for what comes
      before it. */
  lemma JoinSplitNewRun(init: string, c: char)
    requires !IsWordChar(c) && (init == [] || IsWordChar(init[|init| - 1]))
    requires Join(SplitWords(init), Separators(init)) == init
    ensures Join(SplitWords(init + [c]), Separators(init + [c])) == init + [c]
  {
    var s := init + [c];
    assert s[..|s| - 1] == init;
    var p, q := SplitWords(init), Separators(init);
    assert SplitWords(s) == p + [""] && Separators(s) == q + [[c]];
    JoinSnoc(p, q, [c], "");
  }

  lemma {:induction false} JoinSplit(s: string)
    ensures Join(SplitWords(s), Separators(s)) == s
  {
    if s != [] {
      var init := s[..|s| - 1];
      JoinSplit(init);
      var c := s[|s| - 1];
      if IsWordChar(c) {
        JoinSplitWordChar(init, c);
      } else if init != [] && !IsWordChar(init[|init| - 1]) {
        JoinSplitRunChar(init, c);
      } else {
        JoinSplitNewRun(init, c);
      }
      assert s == init + [c];
    }
  }

  /** The tokens, joined by the separators, give back `s`; every separator is a non-empty
      run of non-word characters. */
  lemma SplitWordsJoin(s: string)
    ensures |Separators(s)| == |SplitWords(s)| - 1
    ensures forall i :: 0 <= i < |Separators(s)| ==> IsSeparator(Separators(s)[i])
    ensures Join(SplitWords(s), Separators(s)) == s
  {
    SeparatorsRuns(s);
    JoinSplit(s);
  }

  /** The shape of a split: tokens of word characters, only the first and the last of
      which can be empty, and each of those is empty exactly when `s` starts, or ends,
      with a separator (or is empty). */
  lemma SplitWordsTokens(s: string)
    ensures forall i :: 0 <= i < |SplitWords(s)| ==> AllWordChars(SplitWords(s)[i])
    ensures forall i :: 0 < i < |SplitWords(s)| - 1 ==> SplitWords(s)[i] != []
    ensures SplitWords(s)[0] == [] <==> s == [] || !IsWordChar(s[0])
    ensures SplitWords(s)[|SplitWords(s)| - 1] == [] <==> s == [] || !IsWordChar(s[|s| - 1])
    ensures s != [] && !IsWordChar(s[0]) ==> |SplitWords(s)| >= 2
  {
    SplitWordsShape(s);
    SplitWordsFirst(s);
  }

  // ---------------------------------------------------------------------------
  // Counting

  function Lowered(ts: seq<string>): (r: seq<string>)
    ensures |r| == |ts|
  {
    seq(|ts|, i requires 0 <= i < |ts| => LowerAscii(ts[i]))
  }

  /** Every token of the answers, lower-cased, answer after answer. */
  function Words(answers: seq<string>): seq<string> {
    if answers == [] then []
    else Words(answers[..|answers| - 1]) + Lowered(SplitWords(answers[|answers| - 1]))
  }

  /** Counting one word, unless it is excluded. */
  function Tally(counts: Assoc<string, nat>, w: string): Assoc<string, nat> {
    if w in Excluded then counts else Increment(counts, w)
  }

  /** The count of every word, in the order the words first appear. */
  function CountWords(ws: seq<string>): Assoc<string, nat> {
    if ws == [] then [] else Tally(CountWords(ws[..|ws| - 1]), ws[|ws| - 1])
  }

  /** Every word is listed once. */
  lemma {:induction false} CountWordsDistinct(ws: seq<string>)
    ensures DistinctKeys(CountWords(ws))
  {
    if ws != [] {
      var last := ws[|ws| - 1];
      CountWordsDistinct(ws[..|ws| - 1]);
      if last !in Excluded {
        IncrementSum(CountWords(ws[..|ws| - 1]), last);
      }
    }
  }

  /** Tallying a word raises its count, unless it is excluded, and no other count. */
  lemma TallyGet(c: Assoc<string, nat>, last: string, w: string)
    ensures last in Excluded ==> Get(Tally(c, last), w) == Get(c, w)
    ensures last !in Excluded && w != last ==> Get(Tally(c, last), w) == Get(c, w)
    ensures last !in Excluded && w == last ==> Get(Tally(c, last), w) == Some(Get(c, w).GetOr(0) + 1)
  {
    if last !in Excluded && w != last {
      IncrementOther(c, last, w);
    }
  }

  /** How a word occurs in a list of words and in the list without its last word. */
  lemma WordsSnoc(ws: seq<string>, w: string)
    requires ws != []
    ensures multiset(ws)[w] == multiset(ws[..|ws| - 1])[w] + (if w == ws[|ws| - 1] then 1 else 0)
    ensures w in ws <==> w in ws[..|ws| - 1] || w == ws[|ws| - 1]
  {
    assert ws == ws[..|ws| - 1] + [ws[|ws| - 1]];
  }

  /** Every word that is not excluded is counted once per occurrence; excluded words are
      not counted. */
  lemma {:induction false} CountWordsExact(ws: seq<string>, w: string)
    ensures Get(CountWords(ws), w).Some? <==> w in ws && w !in Excluded
    ensures w !in Excluded ==> Get(CountWords(ws), w).GetOr(0) == multiset(ws)[w]
  {
    if ws != [] {
      var init := ws[..|ws| - 1];
      var last := ws[|ws| - 1];
      CountWordsExact(init, w);
      TallyGet(CountWords(init), last, w);
      WordsSnoc(ws, w);
    }
  }

  /** Every listed count is the word's number of occurrences, so it is at least one. */
  lemma CountsPositive(ws: seq<string>)
    ensures forall i :: 0 <= i < |CountWords(ws)| ==> CountWords(ws)[i].1 >= 1
  {
    var c := CountWords(ws);
    CountWordsDistinct(ws);
    forall i | 0 <= i < |c| ensures c[i].1 >= 1 {
      CountWordsExact(ws, c[i].0);
      GetListed(c, i);
    }
  }

  // ---------------------------------------------------------------------------
  // Ranking and weighting

  /** The counted words and the "?" placeholder, which counts one. */
  function Entries(answers: seq<string>): seq<(string, nat)> {
    CountWords(Words(answers)) + [("?", 1)]
  }

  function NegCount(e: (string, nat)): int {
    -(e.1 as int)
  }

  /** The entries by non-increasing count, ties in their original order. */
  function Ranked(answers: seq<string>): seq<(string, nat)> {
    SortBy(Entries(answers), NegCount)
  }

  function KeptLength(n: nat): (r: nat)
    ensures r <= n && r <= MaxWords && (r == n || r == MaxWords)
  {
    if n < MaxWords then n else MaxWords
  }

  /** The first entries of the ranking, at most fifteen. */
  function Kept(answers: seq<string>): seq<(string, nat)> {
    var r := Ranked(answers);
    r[..KeptLength(|r|)]
  }

  function TotalOf(es: seq<(string, nat)>): int {
    if es == [] then 0 else TotalOf(es[..|es| - 1]) + es[|es| - 1].1
  }

  /** `Math.round(count * 250 / total)`: the share of 250, rounded half up. */
  function RoundedShare(count: nat, total: int): int
    requires total > 0
  {
    (500 * count + total) / (2 * total)
  }

  /** The share is the integer nearest to `count * 250 / total`, halves rounded up. */
  lemma RoundedShareNearest(count: nat, total: int)
    requires total > 0
    ensures var r := RoundedShare(count, total);
      2 * total * r <= 500 * count + total < 2 * total * r + 2 * total
  {
  }

  lemma MulMonotone(d: int, x: int, y: int)
    requires d > 0 && x <= y
    ensures d * x <= d * y
  {
    assert d * y - d * x == d * (y - x);
  }

  lemma DivMonotone(a: int, b: int, d: int)
    requires a >= b && d > 0
    ensures a / d >= b / d
  {
    var qa, qb := a / d, b / d;
    assert d * qb <= b && a < d * qa + d;
    assert d * (qa + 1) == d * qa + d;
    if qa + 1 <= qb {
      MulMonotone(d, qa + 1, qb);
      assert false;
    }
  }

  /** The share clamped to [10, 100]. */
  function Weight(count: nat, total: int): (r: nat)
    requires total > 0
    ensures MinWeight <= r <= MaxWeight
    ensures MinWeight <= RoundedShare(count, total) <= MaxWeight ==> r == RoundedShare(count, total)
  {
    var share := RoundedShare(count, total);
    if share < MinWeight then MinWeight else if share > MaxWeight then MaxWeight else share
  }

  /** Each count replaced by its weight. */
  function Weighed(es: seq<(string, nat)>, total: int): (r: seq<(string, nat)>)
    requires total > 0
    ensures |r| == |es|
  {
    seq(|es|, i requires 0 <= i < |es| => (es[i].0, Weight(es[i].1, total)))
  }

  /** The words shown and their weights. */
  function Cloud(answers: seq<string>): seq<(string, nat)>
    requires TotalOf(Kept(answers)) > 0
  {
    Weighed(Kept(answers), TotalOf(Kept(answers)))
  }

  lemma {:induction false} TotalAtLeast(es: seq<(string, nat)>)
    requires forall i :: 0 <= i < |es| ==> es[i].1 >= 1
    ensures TotalOf(es) >= |es|
  {
    if es != [] {
      TotalAtLeast(es[..|es| - 1]);
    }
  }

  /** The ranking is a permutation of the entries by non-increasing count, and every
      count in it is at least one. */
  lemma RankedSpec(answers: seq<string>)
    ensures multiset(Ranked(answers)) == multiset(Entries(answers))
    ensures |Ranked(answers)| >= 1
    ensures forall i, j :: 0 <= i < j < |Ranked(answers)| ==> Ranked(answers)[i].1 >= Ranked(answers)[j].1
    ensures forall i :: 0 <= i < |Ranked(answers)| ==> Ranked(answers)[i].1 >= 1
  {
    var es := Entries(answers);
    var r := Ranked(answers);
    CountsPositive(Words(answers));
    forall i | 0 <= i < |r| ensures r[i].1 >= 1 {
      assert r[i] in multiset(es);
    }
    forall i, j | 0 <= i < j < |r| ensures r[i].1 >= r[j].1 {
      assert NegCount(r[i]) <= NegCount(r[j]);
    }
  }

  /** At least one word is kept, so the total is positive. */
  lemma KeptTotalPositive(answers: seq<string>)
    ensures 1 <= |Kept(answers)| <= MaxWords
    ensures TotalOf(Kept(answers)) > 0
  {
    RankedSpec(answers);
    TotalAtLeast(Kept(answers));
  }

  lemma WeightMonotone(c1: nat, c2: nat, total: int)
    requires total > 0 && c1 >= c2
    ensures Weight(c1, total) >= Weight(c2, total)
  {
    DivMonotone(500 * c1 + total, 500 * c2 + total, 2 * total);
  }

  /** The cloud shows one to fifteen words, each weighted within [10, 100], with
      non-increasing weights; the words are the most frequent ones, in ranking order. */
  lemma CloudSpec(answers: seq<string>)
    ensures TotalOf(Kept(answers)) > 0
    ensures 1 <= |Cloud(answers)| <= MaxWords
    ensures forall i :: 0 <= i < |Cloud(answers)| ==>
      Cloud(answers)[i].0 == Ranked(answers)[i].0 && MinWeight <= Cloud(answers)[i].1 <= MaxWeight
    ensures forall i, j :: 0 <= i < j < |Cloud(answers)| ==> Cloud(answers)[i].1 >= Cloud(answers)[j].1
  {
    KeptTotalPositive(answers);
    RankedSpec(answers);
    var r := Ranked(answers);
    var kept := Kept(answers);
    var total := TotalOf(kept);
    var c := Cloud(answers);
    assert c == Weighed(kept, total);
    forall i | 0 <= i < |c| ensures c[i].0 == r[i].0 && MinWeight <= c[i].1 <= MaxWeight {
      assert c[i] == (kept[i].0, Weight(kept[i].1, total)) && kept[i] == r[i];
    }
    forall i, j | 0 <= i < j < |c| ensures c[i].1 >= c[j].1 {
      assert kept[i] == r[i] && kept[j] == r[j];
      WeightMonotone(kept[i].1, kept[j].1, total);
    }
  }

  /** A word that is left out of the cloud is counted no more often than any word shown. */
  lemma KeptAreMostFrequent(answers: seq<string>, e: (string, nat), i: nat)
    requires e in Entries(answers) && e !in Kept(answers)
    requires i < |Kept(answers)|
    ensures e.1 <= Kept(answers)[i].1
  {
    RankedSpec(answers);
    var r := Ranked(answers);
    var k := KeptLength(|r|);
    assert e in multiset(r);
    var j :| 0 <= j < |r| && r[j] == e;
  }

  // ---------------------------------------------------------------------------
  // The computation

  lemma WordsStep(answers: seq<string>, i: nat)
    requires i < |answers|
    ensures Words(answers[..i + 1]) == Words(answers[..i]) + Lowered(SplitWords(answers[i]))
  {
    assert answers[..i + 1][..i] == answers[..i];
  }

  lemma CountStep(ws: seq<string>, ts: seq<string>, j: nat)
    requires j < |ts|
    ensures CountWords(ws + Lowered(ts[..j + 1])) == Tally(CountWords(ws + Lowered(ts[..j])), LowerAscii(ts[j]))
  {
    var w := LowerAscii(ts[j]);
    var prefix := ws + Lowered(ts[..j]);
    assert Lowered(ts[..j + 1]) == Lowered(ts[..j]) + [w];
    var xs := prefix + [w];
    assert ws + Lowered(ts[..j + 1]) == xs;
    assert xs[..|xs| - 1] == prefix && xs[|xs| - 1] == w;
  }

  /** The words of the answers with their counts, in the order they first appear. */
  method CountAnswers(answers: seq<string>) returns (words: Assoc<string, nat>)
    ensures words == CountWords(Words(answers))
  {
    words := [];
    var i := 0;
    while i < |answers|
      invariant 0 <= i <= |answers|
      invariant words == CountWords(Words(answers[..i]))
    {
      var tokens := SplitWords(answers[i]);
      var j := 0;
      assert Words(answers[..i]) + Lowered(tokens[..0]) == Words(answers[..i]);
      while j < |tokens|
        invariant 0 <= j <= |tokens|
        invariant words == CountWords(Words(answers[..i]) + Lowered(tokens[..j]))
      {
        var word := LowerAscii(tokens[j]);
        CountStep(Words(answers[..i]), tokens, j);
        if word !in Excluded {
          words := Increment(words, word);
        }
        j := j + 1;
      }
      WordsStep(answers, i);
      assert tokens[..j] == tokens;
      i := i + 1;
    }
    assert answers[..i] == answers;
  }

  /** The sum of the counts. */
  method SumCounts(a: array<(string, nat)>) returns (total: int)
    ensures total == TotalOf(a[..])
  {
    total := 0;
    for k := 0 to a.Length
      invariant total == TotalOf(a[..k])
    {
      assert a[..k + 1][..k] == a[..k];
      total := total + a[k].1;
    }
    assert a[..a.Length] == a[..];
  }

  /** Replaces every count by its weight, in place. */
  method ApplyWeights(a: array<(string, nat)>, total: int)
    requires total > 0
    modifies a
    ensures a[..] == Weighed(old(a[..]), total)
  {
    for k := 0 to a.Length
      invariant forall m :: 0 <= m < k ==> a[m] == (old(a[m]).0, Weight(old(a[m]).1, total))
      invariant forall m :: k <= m < a.Length ==> a[m] == old(a[m])
    {
      a[k] := (a[k].0, Weight(a[k].1, total));
    }
  }

  /** The cloud's words and weights: the counts are ranked and cut to fifteen, summed,
      and each replaced by its weight in place. */
  method ComputeCloud(answers: seq<string>) returns (cloud: seq<(string, nat)>)
    ensures TotalOf(Kept(answers)) > 0
    ensures cloud == Cloud(answers)
  {
    var words := CountAnswers(answers);
    var ranked := SortBy(words + [("?", 1)], NegCount);
    var n := KeptLength(|ranked|);
    var a := new (string, nat)[n](k requires 0 <= k < n => ranked[k]);
    assert a[..] == Kept(answers);
    KeptTotalPositive(answers);
    var total := SumCounts(a);
    ApplyWeights(a, total);
    cloud := a[..];
  }
}
