/** The per-stage entry forms derived from a game configuration: which metrics a
    scout fills in during a match, in the pits or with the drive team, and on
    which page each appears. */
module MatchEntry {
  import opened Wrappers
  import opened Assoc
  import opened Sorting
  import Config

  /** The scouting stage a form is for. */
  datatype EntryType = DriveTeam | Match | Pit

  /** The kind of one form entry, with the parameters of its metric. */
  datatype MatchEntryType =
    | Ability(ability: Config.AbilityMetric)
    | Enum(enumeration: Config.EnumMetric)
    | Bool
    | Counter(counter: Config.CounterMetric)
    | TextEntry(text: Config.TextEntryMetric)
    | Image(image: Config.ImageMetric)
    | Timer

  datatype MatchEntryPage = MatchEntryPage(title: string, description: Option<string>, layout: seq<string>)
  datatype MatchEntry = MatchEntry(title: string, description: string, page: string, entry: MatchEntryType)

  /** Pages in display order, and every entry by metric id. */
  datatype MatchEntryFields = MatchEntryFields(pages: seq<MatchEntryPage>, entries: map<string, MatchEntry>)

  /** Whether a stage collects a metric with collection option `c`. */
  predicate Collected(c: Config.CollectionOption, t: EntryType) {
    match t
    case DriveTeam => c.CollectFromDrive()
    case Match => c.CollectInMatch()
    case Pit => c.CollectInPit()
  }

  /** Statistics fetched from Statbotics are never entered by a scout. */
  predicate Collectable(m: Config.CollectedMetricType) {
    !m.StatboticsTeam?
  }

  /** The metric kind an entry kind comes from. */
  function MetricOf(e: MatchEntryType): (r: Config.CollectedMetricType)
    ensures Collectable(r)
  {
    match e
    case Ability(a) => Config.Ability(a)
    case Enum(en) => Config.Enum(en)
    case Bool => Config.Bool
    case Counter(c) => Config.Counter(c)
    case TextEntry(x) => Config.TextEntry(x)
    case Image(i) => Config.Image(i)
    case Timer => Config.Timer
  }

  /** The entry kind of a metric in a stage: every kind keeps its kind and its
      parameters, except that the pits ask a yes/no question for an ability. */
  function EntryTypeFrom(m: Config.CollectedMetricType, t: EntryType): (r: MatchEntryType)
    requires Collectable(m)
    ensures m.Ability? && t == Pit ==> r == Bool
    ensures !(m.Ability? && t == Pit) ==> MetricOf(r) == m
  {
    match m
    case Ability(a) => if t == Pit then Bool else Ability(a)
    case Enum(en) => Enum(en)
    case Bool => Bool
    case Timer => Timer
    case Counter(c) => Counter(c)
    case TextEntry(x) => TextEntry(x)
    case Image(i) => Image(i)
  }

  /** The metrics of a category that stage `t` collects, in the category's order. */
  function Admitted(metrics: Assoc<string, Config.CollectedMetric>, t: EntryType): (r: Assoc<string, Config.CollectedMetric>)
    ensures forall p :: p in r <==> p in metrics && Collected(p.1.collect, t)
  {
    if metrics == [] then []
    else
      var rest := Admitted(metrics[1..], t);
      assert metrics == [metrics[0]] + metrics[1..];
      if Collected(metrics[0].1.collect, t) then [metrics[0]] + rest else rest
  }

  function MetricOrder(p: (string, Config.CollectedMetric)): int {
    p.1.order
  }

  /** The admitted metrics of a category sorted by their `order`. */
  function SortedAdmitted(cat: Config.MetricCategory, t: EntryType): (r: Assoc<string, Config.CollectedMetric>)
    ensures multiset(r) == multiset(Admitted(cat.metrics, t))
    ensures SortedBy(r, MetricOrder)
  {
    SortBy(Admitted(cat.metrics, t), MetricOrder)
  }

  /** Every id of the sorted metrics is an admitted metric's. */
  lemma SortedIdsAdmitted(cat: Config.MetricCategory, t: EntryType, i: nat)
    requires i < |SortedAdmitted(cat, t)|
    ensures exists m :: (SortedAdmitted(cat, t)[i].0, m) in cat.metrics && Collected(m.collect, t)
  {
    var s := SortedAdmitted(cat, t);
    assert s[i] in multiset(Admitted(cat.metrics, t));
    assert s[i] in Admitted(cat.metrics, t);
  }

  /** Every admitted metric is among the sorted ones. */
  lemma AdmittedIdsSorted(cat: Config.MetricCategory, t: EntryType, id: string, m: Config.CollectedMetric)
    requires (id, m) in cat.metrics && Collected(m.collect, t)
    ensures exists i :: 0 <= i < |SortedAdmitted(cat, t)| && SortedAdmitted(cat, t)[i].0 == id
  {
    var s := SortedAdmitted(cat, t);
    assert (id, m) in Admitted(cat.metrics, t);
    assert (id, m) in multiset(s);
    var i :| 0 <= i < |s| && s[i] == (id, m);
    assert s[i].0 == id;
  }

  /** The ids a category's page lists: exactly the admitted metric ids. */
  function Layout(cat: Config.MetricCategory, t: EntryType): (r: seq<string>)
    ensures |r| == |SortedAdmitted(cat, t)|
    ensures forall i :: 0 <= i < |r| ==> r[i] == SortedAdmitted(cat, t)[i].0
    ensures forall id :: id in r <==> exists m :: (id, m) in cat.metrics && Collected(m.collect, t)
  {
    var s := SortedAdmitted(cat, t);
    var r := Keys(s);
    forall id | id in r ensures exists m :: (id, m) in cat.metrics && Collected(m.collect, t) {
      var i :| 0 <= i < |r| && r[i] == id;
      SortedIdsAdmitted(cat, t, i);
    }
    forall id, m | (id, m) in cat.metrics && Collected(m.collect, t) ensures id in r {
      AdmittedIdsSorted(cat, t, id, m);
    }
    r
  }

  /** A category's position (missing: 1000) and its page. */
  function PageOf(cat: Config.MetricCategory, t: EntryType): (int, MatchEntryPage) {
    (cat.order.GetOr(1000), MatchEntryPage(cat.name, None, Layout(cat, t)))
  }

  /** The pages of all categories that have something to collect, in category order. */
  function CategoryPages(cats: Assoc<string, Config.MetricCategory>, t: EntryType): seq<(int, MatchEntryPage)> {
    if cats == [] then []
    else
      var rest := CategoryPages(cats[1..], t);
      var p := PageOf(cats[0].1, t);
      if |p.1.layout| > 0 then [p] + rest else rest
  }

  lemma ValuesCons(cats: Assoc<string, Config.MetricCategory>)
    requires cats != []
    ensures Values(cats) == [cats[0].1] + Values(cats[1..])
  {
  }

  /** Every page is that of a category with something to collect. */
  lemma {:induction false} CategoryPageFrom(cats: Assoc<string, Config.MetricCategory>, t: EntryType, q: (int, MatchEntryPage))
    requires q in CategoryPages(cats, t)
    ensures exists cat :: cat in Values(cats) && PageOf(cat, t) == q && |q.1.layout| > 0
  {
    if cats != [] {
      ValuesCons(cats);
      var p := PageOf(cats[0].1, t);
      if q == p && |p.1.layout| > 0 {
        assert cats[0].1 in Values(cats);
      } else {
        CategoryPageFrom(cats[1..], t, q);
        var cat :| cat in Values(cats[1..]) && PageOf(cat, t) == q && |q.1.layout| > 0;
        assert cat in Values(cats);
      }
    }
  }

  /** Every category with something to collect has its page. */
  lemma {:induction false} CategoryPageListed(cats: Assoc<string, Config.MetricCategory>, t: EntryType, cat: Config.MetricCategory)
    requires cat in Values(cats) && |PageOf(cat, t).1.layout| > 0
    ensures PageOf(cat, t) in CategoryPages(cats, t)
  {
    ValuesCons(cats);
    if cat != cats[0].1 {
      CategoryPageListed(cats[1..], t, cat);
    }
  }

  function PageKey(p: (int, MatchEntryPage)): int {
    p.0
  }

  /** The pages paired with their positions, sorted by position. */
  function OrderedPages(g: Config.GameConfig, t: EntryType): (r: seq<(int, MatchEntryPage)>)
    ensures multiset(r) == multiset(CategoryPages(g.categories, t))
    ensures SortedBy(r, PageKey)
  {
    SortBy(CategoryPages(g.categories, t), PageKey)
  }

  /** Every metric that stage `t` collects can be turned into an entry. */
  predicate AdmittedCollectable(g: Config.GameConfig, t: EntryType) {
    forall cat, p :: cat in Values(g.categories) && p in cat.metrics && Collected(p.1.collect, t) ==> Collectable(p.1.metric)
  }

  function EntryOf(cat: Config.MetricCategory, m: Config.CollectedMetric, t: EntryType): (r: MatchEntry)
    requires Collectable(m.metric)
    ensures r.page == cat.name && r.title == m.name
  {
    MatchEntry(m.name, m.description, cat.name, EntryTypeFrom(m.metric, t))
  }

  /** The (id, entry) pairs of one category's admitted metrics. */
  function CategoryEntries(cat: Config.MetricCategory, ms: Assoc<string, Config.CollectedMetric>, t: EntryType): (r: seq<(string, MatchEntry)>)
    requires forall p :: p in ms ==> Collectable(p.1.metric)
    ensures forall q :: q in r <==> exists m :: (q.0, m) in ms && q.1 == EntryOf(cat, m, t)
  {
    if ms == [] then []
    else
      var rest := CategoryEntries(cat, ms[1..], t);
      assert ms == [ms[0]] + ms[1..];
      [(ms[0].0, EntryOf(cat, ms[0].1, t))] + rest
  }

  /** The (id, entry) pairs of all categories, category after category. */
  function EntryPairs(cats: Assoc<string, Config.MetricCategory>, t: EntryType): (r: seq<(string, MatchEntry)>)
    requires forall cat, p :: cat in Values(cats) && p in cat.metrics && Collected(p.1.collect, t) ==> Collectable(p.1.metric)
    ensures forall q :: q in r <==> exists cat, m :: cat in Values(cats) && (q.0, m) in cat.metrics
                                      && Collected(m.collect, t) && q.1 == EntryOf(cat, m, t)
  {
    if cats == [] then []
    else
      assert Values(cats) == [cats[0].1] + Values(cats[1..]);
      CategoryEntries(cats[0].1, Admitted(cats[0].1.metrics, t), t) + EntryPairs(cats[1..], t)
  }

  /** The form of stage `t`. */
  function FromGameConfig(g: Config.GameConfig, t: EntryType): (r: MatchEntryFields)
    requires AdmittedCollectable(g, t)
    ensures |r.pages| == |OrderedPages(g, t)|
    ensures forall i :: 0 <= i < |r.pages| ==> r.pages[i] == OrderedPages(g, t)[i].1
  {
    var ordered := OrderedPages(g, t);
    MatchEntryFields(seq(|ordered|, i requires 0 <= i < |ordered| => ordered[i].1),
                     Collect(EntryPairs(g.categories, t)))
  }

  /** Every entry is a metric stage `t` collects, on the page of a category that holds it. */
  lemma EntriesAreCollected(g: Config.GameConfig, t: EntryType, id: string)
    requires AdmittedCollectable(g, t)
    requires id in FromGameConfig(g, t).entries
    ensures exists cat, m :: (cat in Values(g.categories) && (id, m) in cat.metrics && Collected(m.collect, t)
                              && FromGameConfig(g, t).entries[id] == EntryOf(cat, m, t))
  {
    var ps := EntryPairs(g.categories, t);
    var e := FromGameConfig(g, t).entries[id];
    var i :| 0 <= i < |ps| && ps[i] == (id, e);
    assert (id, e) in ps;
  }

  /** Every metric stage `t` collects has an entry. */
  lemma CollectedAreEntries(g: Config.GameConfig, t: EntryType, cat: Config.MetricCategory, id: string, m: Config.CollectedMetric)
    requires AdmittedCollectable(g, t)
    requires cat in Values(g.categories) && (id, m) in cat.metrics && Collected(m.collect, t)
    ensures id in FromGameConfig(g, t).entries
  {
    var ps := EntryPairs(g.categories, t);
    var q := (id, EntryOf(cat, m, t));
    assert q in ps;
    var i :| 0 <= i < |ps| && ps[i] == q;
    assert ps[i].0 == id;
  }

  /** Each page belongs to a category with something to collect: it carries that
      category's position (1000 when unset), name and non-empty layout. */
  lemma PageFromCategory(g: Config.GameConfig, t: EntryType, i: nat)
    requires AdmittedCollectable(g, t)
    requires i < |FromGameConfig(g, t).pages|
    ensures exists cat :: cat in Values(g.categories) && PageOf(cat, t) == OrderedPages(g, t)[i]
    ensures |FromGameConfig(g, t).pages[i].layout| > 0
  {
    var ordered := OrderedPages(g, t);
    assert ordered[i] in multiset(CategoryPages(g.categories, t));
    CategoryPageFrom(g.categories, t, ordered[i]);
  }

  /** Pages appear by non-decreasing category position. */
  lemma PagesSorted(g: Config.GameConfig, t: EntryType, i: nat, j: nat)
    requires AdmittedCollectable(g, t)
    requires i < j < |FromGameConfig(g, t).pages|
    ensures FromGameConfig(g, t).pages[i] == OrderedPages(g, t)[i].1
    ensures FromGameConfig(g, t).pages[j] == OrderedPages(g, t)[j].1
    ensures OrderedPages(g, t)[i].0 <= OrderedPages(g, t)[j].0
  {
  }

  /** Every category with something to collect has its page. */
  lemma CategoryHasPage(g: Config.GameConfig, t: EntryType, cat: Config.MetricCategory)
    requires AdmittedCollectable(g, t)
    requires cat in Values(g.categories) && |Layout(cat, t)| > 0
    ensures PageOf(cat, t).1 in FromGameConfig(g, t).pages
  {
    var ordered := OrderedPages(g, t);
    CategoryPageListed(g.categories, t, cat);
    assert PageOf(cat, t) in multiset(ordered);
    var i :| 0 <= i < |ordered| && ordered[i] == PageOf(cat, t);
    assert FromGameConfig(g, t).pages[i] == PageOf(cat, t).1;
  }

  /** An id listed on the `i`-th page has an entry. */
  lemma PageIdIsEntry(g: Config.GameConfig, t: EntryType, i: nat, id: string)
    requires AdmittedCollectable(g, t)
    requires i < |FromGameConfig(g, t).pages| && id in FromGameConfig(g, t).pages[i].layout
    ensures id in FromGameConfig(g, t).entries
  {
    PageFromCategory(g, t, i);
    var cat :| cat in Values(g.categories) && PageOf(cat, t) == OrderedPages(g, t)[i];
    assert id in Layout(cat, t);
    var m :| (id, m) in cat.metrics && Collected(m.collect, t);
    CollectedAreEntries(g, t, cat, id, m);
  }

  /** Every id a page lists has an entry, because pages and entries admit metrics
      by the same stage predicate. */
  lemma LayoutIdsAreEntries(g: Config.GameConfig, t: EntryType)
    requires AdmittedCollectable(g, t)
    ensures forall page, id :: page in FromGameConfig(g, t).pages && id in page.layout ==>
      id in FromGameConfig(g, t).entries
  {
    var r := FromGameConfig(g, t);
    forall page, id | page in r.pages && id in page.layout ensures id in r.entries {
      var i :| 0 <= i < |r.pages| && r.pages[i] == page;
      PageIdIsEntry(g, t, i, id);
    }
  }
}
