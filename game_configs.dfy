/** The configurations derived from one season's game configuration, and the
    merge of the common configuration into each season's. */
module GameConfigs {
  import opened Wrappers
  import opened Assoc
  import opened Sorting
  import opened Config
  import MatchEntry

  /** A game configuration with the three stage forms and the list of every
      metric id, category after category. */
  datatype GameConfigs = GameConfigs(
    gameConfig: GameConfig,
    matchEntryFields: MatchEntry.MatchEntryFields,
    driverEntryFields: MatchEntry.MatchEntryFields,
    pitEntryFields: MatchEntry.MatchEntryFields,
    allMetrics: seq<string>)

  /** The placeholder metric standing for one property of a match on The Blue Alliance. */
  function TbaMetric(idx: nat): (m: CollectedMetric)
    ensures m.collect == Never && m.metric == Bool && m.order == idx
  {
    CollectedMetric("N/A", idx, "N/A", Never, Bool)
  }

  /** The "TBA" category: one metric per property, with id `tbaPrefix` + the
      property's name, numbered in the properties' order. */
  function TbaCategory(tba: TbaConfig, tbaPrefix: string): (c: MetricCategory)
    ensures c.name == "TBA" && c.order == Some(tba.order)
    ensures |c.metrics| == |tba.props|
    ensures forall i :: 0 <= i < |tba.props| ==> c.metrics[i] == (tbaPrefix + tba.props[i].0, TbaMetric(i))
  {
    MetricCategory("TBA", Some(tba.order),
      seq(|tba.props|, i requires 0 <= i < |tba.props| => (tbaPrefix + tba.props[i].0, TbaMetric(i))))
  }

  function CategoryKey(c: MetricCategory): int {
    OptionKey(c.order)
  }

  /** The categories with the TBA one added, sorted by order, unordered ones first. */
  function AllCategories(g: GameConfig, tbaPrefix: string): (r: seq<MetricCategory>)
    ensures multiset(r) == multiset(Values(g.categories) + [TbaCategory(g.tba, tbaPrefix)])
    ensures SortedBy(r, CategoryKey)
  {
    SortBy(Values(g.categories) + [TbaCategory(g.tba, tbaPrefix)], CategoryKey)
  }

  /** A category without an order never follows one with an order. */
  lemma UnorderedCategoriesFirst(g: GameConfig, tbaPrefix: string, i: nat, j: nat)
    requires i < j < |AllCategories(g, tbaPrefix)|
    requires AllCategories(g, tbaPrefix)[j].order.None?
    ensures AllCategories(g, tbaPrefix)[i].order.None?
  {
    var r := AllCategories(g, tbaPrefix);
    assert CategoryKey(r[i]) <= CategoryKey(r[j]) == -1;
  }

  /** The ids one metric contributes: one per Statbotics property, else its own id. */
  function MetricIds(id: string, m: CollectedMetric): (r: seq<string>)
    ensures m.metric.StatboticsTeam? ==> |r| == |m.metric.props|
    ensures m.metric.StatboticsTeam? ==> forall i :: 0 <= i < |r| ==> r[i] == "statbotics-" + m.metric.props[i]
    ensures !m.metric.StatboticsTeam? ==> r == [id]
  {
    match m.metric
    case StatboticsTeam(props) => seq(|props|, i requires 0 <= i < |props| => "statbotics-" + props[i])
    case _ => [id]
  }

  function MetricIdsOf(ms: Assoc<string, CollectedMetric>): seq<string> {
    if ms == [] then [] else MetricIds(ms[0].0, ms[0].1) + MetricIdsOf(ms[1..])
  }

  lemma {:induction false} MetricIdsOfExact(ms: Assoc<string, CollectedMetric>, x: string)
    ensures x in MetricIdsOf(ms) <==> exists p :: p in ms && x in MetricIds(p.0, p.1)
  {
    if ms != [] {
      MetricIdsOfExact(ms[1..], x);
      assert ms == [ms[0]] + ms[1..];
    }
  }

  /** A category's ids, metrics taken by ascending order. */
  function CategoryMetricIds(c: MetricCategory): seq<string> {
    MetricIdsOf(SortBy(c.metrics, MatchEntry.MetricOrder))
  }

  function AllMetricIds(cats: seq<MetricCategory>): seq<string> {
    if cats == [] then [] else CategoryMetricIds(cats[0]) + AllMetricIds(cats[1..])
  }

  /** A category contributes the ids of its own metrics, whatever their order. */
  lemma CategoryMetricIdsExact(c: MetricCategory, x: string)
    ensures x in CategoryMetricIds(c) <==> exists p :: p in c.metrics && x in MetricIds(p.0, p.1)
  {
    var sorted := SortBy(c.metrics, MatchEntry.MetricOrder);
    MetricIdsOfExact(sorted, x);
    forall p ensures p in sorted <==> p in c.metrics {
      assert p in multiset(sorted) <==> p in multiset(c.metrics);
    }
  }

  lemma {:induction false} AllMetricIdsExact(cats: seq<MetricCategory>, x: string)
    ensures x in AllMetricIds(cats) <==> exists c, p :: c in cats && p in c.metrics && x in MetricIds(p.0, p.1)
  {
    if cats != [] {
      var rest := cats[1..];
      AllMetricIdsExact(rest, x);
      CategoryMetricIdsExact(cats[0], x);
      assert AllMetricIds(cats) == CategoryMetricIds(cats[0]) + AllMetricIds(rest);
      assert forall c :: c in cats <==> c == cats[0] || c in rest;
    }
  }

  /** Every metric of the configuration can be entered in every stage that collects it. */
  predicate FormsDerivable(g: GameConfig) {
    forall t: MatchEntry.EntryType :: MatchEntry.AdmittedCollectable(g, t)
  }

  /** The derived configurations. */
  function From(g: GameConfig, tbaPrefix: string): (r: GameConfigs)
    requires FormsDerivable(g)
    ensures r.gameConfig == g
    ensures r.matchEntryFields == MatchEntry.FromGameConfig(g, MatchEntry.Match)
    ensures r.driverEntryFields == MatchEntry.FromGameConfig(g, MatchEntry.DriveTeam)
    ensures r.pitEntryFields == MatchEntry.FromGameConfig(g, MatchEntry.Pit)
    ensures r.allMetrics == AllMetricIds(AllCategories(g, tbaPrefix))
  {
    GameConfigs(
      g,
      MatchEntry.FromGameConfig(g, MatchEntry.Match),
      MatchEntry.FromGameConfig(g, MatchEntry.DriveTeam),
      MatchEntry.FromGameConfig(g, MatchEntry.Pit),
      AllMetricIds(AllCategories(g, tbaPrefix)))
  }

  lemma AllCategoriesMembers(g: GameConfig, tbaPrefix: string, c: MetricCategory)
    ensures c in AllCategories(g, tbaPrefix) <==> c in Values(g.categories) || c == TbaCategory(g.tba, tbaPrefix)
  {
    assert c in multiset(AllCategories(g, tbaPrefix)) <==> c in multiset(Values(g.categories) + [TbaCategory(g.tba, tbaPrefix)]);
  }

  /** Each property's id is contributed by its metric. */
  lemma TbaIdOfProp(tba: TbaConfig, tbaPrefix: string, prop: string)
    requires prop in Keys(tba.props)
    ensures exists p :: p in TbaCategory(tba, tbaPrefix).metrics && tbaPrefix + prop in MetricIds(p.0, p.1)
  {
    var ms := TbaCategory(tba, tbaPrefix).metrics;
    var i :| 0 <= i < |tba.props| && Keys(tba.props)[i] == prop;
    assert ms[i] in ms && MetricIds(ms[i].0, ms[i].1) == [tbaPrefix + prop];
  }

  /** Each id a TBA metric contributes is a property's. */
  lemma TbaIdIsProp(tba: TbaConfig, tbaPrefix: string, p: (string, CollectedMetric), x: string)
    requires p in TbaCategory(tba, tbaPrefix).metrics && x in MetricIds(p.0, p.1)
    ensures exists prop :: prop in Keys(tba.props) && x == tbaPrefix + prop
  {
    var ms := TbaCategory(tba, tbaPrefix).metrics;
    var i :| 0 <= i < |ms| && ms[i] == p;
    assert Keys(tba.props)[i] in Keys(tba.props) && x == tbaPrefix + Keys(tba.props)[i];
  }

  /** The TBA category contributes `tbaPrefix` + each property name. */
  lemma TbaCategoryIds(tba: TbaConfig, tbaPrefix: string, x: string)
    ensures (exists p :: p in TbaCategory(tba, tbaPrefix).metrics && x in MetricIds(p.0, p.1))
        <==> exists prop :: prop in Keys(tba.props) && x == tbaPrefix + prop
  {
    var ms := TbaCategory(tba, tbaPrefix).metrics;
    forall prop | prop in Keys(tba.props) && x == tbaPrefix + prop
      ensures exists p :: p in ms && x in MetricIds(p.0, p.1)
    {
      TbaIdOfProp(tba, tbaPrefix, prop);
    }
    forall p | p in ms && x in MetricIds(p.0, p.1)
      ensures exists prop :: prop in Keys(tba.props) && x == tbaPrefix + prop
    {
      TbaIdIsProp(tba, tbaPrefix, p, x);
    }
  }

  /** An id some listed category contributes comes from a configured metric or a TBA property. */
  lemma ListedIdSource(g: GameConfig, tbaPrefix: string, x: string, c: MetricCategory, p: (string, CollectedMetric))
    requires c in AllCategories(g, tbaPrefix) && p in c.metrics && x in MetricIds(p.0, p.1)
    ensures (exists c, p :: c in Values(g.categories) && p in c.metrics && x in MetricIds(p.0, p.1))
         || exists prop :: prop in Keys(g.tba.props) && x == tbaPrefix + prop
  {
    AllCategoriesMembers(g, tbaPrefix, c);
    if c == TbaCategory(g.tba, tbaPrefix) {
      TbaIdIsProp(g.tba, tbaPrefix, p, x);
    }
  }

  /** An id a configured metric contributes is listed. */
  lemma ConfiguredIdListed(g: GameConfig, tbaPrefix: string, x: string, c: MetricCategory, p: (string, CollectedMetric))
    requires c in Values(g.categories) && p in c.metrics && x in MetricIds(p.0, p.1)
    ensures exists c, p :: c in AllCategories(g, tbaPrefix) && p in c.metrics && x in MetricIds(p.0, p.1)
  {
    AllCategoriesMembers(g, tbaPrefix, c);
  }

  /** The id of each TBA property is listed. */
  lemma TbaIdListed(g: GameConfig, tbaPrefix: string, prop: string)
    requires prop in Keys(g.tba.props)
    ensures exists c, p :: c in AllCategories(g, tbaPrefix) && p in c.metrics && tbaPrefix + prop in MetricIds(p.0, p.1)
  {
    AllCategoriesMembers(g, tbaPrefix, TbaCategory(g.tba, tbaPrefix));
    TbaIdOfProp(g.tba, tbaPrefix, prop);
  }

  /** `allMetrics` (the ids of the listed categories, as `From` ensures) holds exactly
      the ids that the configured metrics and the TBA properties contribute. */
  lemma ListedIdsExact(g: GameConfig, tbaPrefix: string, x: string)
    ensures x in AllMetricIds(AllCategories(g, tbaPrefix)) <==>
      (exists c, p :: c in Values(g.categories) && p in c.metrics && x in MetricIds(p.0, p.1))
      || exists prop :: prop in Keys(g.tba.props) && x == tbaPrefix + prop
  {
    var cats := AllCategories(g, tbaPrefix);
    AllMetricIdsExact(cats, x);
    forall c, p | c in cats && p in c.metrics && x in MetricIds(p.0, p.1)
      ensures (exists c, p :: c in Values(g.categories) && p in c.metrics && x in MetricIds(p.0, p.1))
           || exists prop :: prop in Keys(g.tba.props) && x == tbaPrefix + prop
    {
      ListedIdSource(g, tbaPrefix, x, c, p);
    }
    forall c, p | c in Values(g.categories) && p in c.metrics && x in MetricIds(p.0, p.1)
      ensures exists c, p :: c in cats && p in c.metrics && x in MetricIds(p.0, p.1)
    {
      ConfiguredIdListed(g, tbaPrefix, x, c, p);
    }
    forall prop | prop in Keys(g.tba.props) && x == tbaPrefix + prop
      ensures exists c, p :: c in cats && p in c.metrics && x in MetricIds(p.0, p.1)
    {
      TbaIdListed(g, tbaPrefix, prop);
    }
  }

  // ---------------------------------------------------------------------------
  // Merging the common configuration into a season's configuration

  /** What a common column becomes: the placeholder expands to the season's row. */
  function Expand(col: DisplayColumn, yearRow: seq<DisplayColumn>): seq<DisplayColumn> {
    if col.CommonYearSpecific? then yearRow else [col]
  }

  /** The common row with every placeholder replaced, in place, by the season's row. */
  function MergeTeamRow(commonRow: seq<DisplayColumn>, yearRow: seq<DisplayColumn>): seq<DisplayColumn> {
    if commonRow == [] then []
    else MergeTeamRow(commonRow[..|commonRow| - 1], yearRow) + Expand(commonRow[|commonRow| - 1], yearRow)
  }

  /** A common row without placeholder is kept as it is. */
  lemma {:induction false} MergeTeamRowNoPlaceholder(commonRow: seq<DisplayColumn>, yearRow: seq<DisplayColumn>)
    requires CommonYearSpecific !in commonRow
    ensures MergeTeamRow(commonRow, yearRow) == commonRow
  {
    if commonRow != [] {
      var init := commonRow[..|commonRow| - 1];
      assert commonRow == init + [commonRow[|commonRow| - 1]];
      MergeTeamRowNoPlaceholder(init, yearRow);
    }
  }

  /** Expanding into the placeholder itself gives back the common row. */
  lemma {:induction false} MergeTeamRowIdentity(commonRow: seq<DisplayColumn>)
    ensures MergeTeamRow(commonRow, [CommonYearSpecific]) == commonRow
  {
    if commonRow != [] {
      var init := commonRow[..|commonRow| - 1];
      assert commonRow == init + [commonRow[|commonRow| - 1]];
      MergeTeamRowIdentity(init);
    }
  }

  /** Without a placeholder in the season's row, none is left. */
  lemma {:induction false} MergeTeamRowResolved(commonRow: seq<DisplayColumn>, yearRow: seq<DisplayColumn>)
    requires CommonYearSpecific !in yearRow
    ensures CommonYearSpecific !in MergeTeamRow(commonRow, yearRow)
  {
    if commonRow != [] {
      MergeTeamRowResolved(commonRow[..|commonRow| - 1], yearRow);
    }
  }

  /** A season category that exists in the common configuration: it inherits the
      common order when it has none, and the common metrics are inserted over its own. */
  function MergeCategory(yearCat: MetricCategory, commonCat: MetricCategory): MetricCategory {
    yearCat.(order := if yearCat.order.None? then commonCat.order else yearCat.order,
             metrics := InsertAll(yearCat.metrics, commonCat.metrics))
  }

  /** The season's categories after the common categories are merged in, one by one. */
  function MergeCategories(yearCats: Assoc<string, MetricCategory>, commonCats: Assoc<string, MetricCategory>): Assoc<string, MetricCategory> {
    if commonCats == [] then yearCats
    else
      var acc := MergeCategories(yearCats, commonCats[..|commonCats| - 1]);
      var (id, commonCat) := commonCats[|commonCats| - 1];
      match Get(acc, id)
      case Some(cat) => Put(acc, id, MergeCategory(cat, commonCat))
      case None => Put(acc, id, commonCat)
  }

  /** A category only the season has is unchanged, one only the common
      configuration has is added whole, and one both have is merged. */
  lemma {:induction false} GetMergeCategories(yearCats: Assoc<string, MetricCategory>, commonCats: Assoc<string, MetricCategory>, id: string)
    requires DistinctKeys(commonCats)
    ensures Get(MergeCategories(yearCats, commonCats), id)
         == match (Get(yearCats, id), Get(commonCats, id))
            case (y, None) => y
            case (None, Some(c)) => Some(c)
            case (Some(y), Some(c)) => Some(MergeCategory(y, c))
  {
    if commonCats != [] {
      var init := commonCats[..|commonCats| - 1];
      var (last, commonCat) := commonCats[|commonCats| - 1];
      assert DistinctKeys(init);
      var acc := MergeCategories(yearCats, init);
      GetMergeCategories(yearCats, init, id);
      GetMergeCategories(yearCats, init, last);
      if id == last {
        GetListed(commonCats, |commonCats| - 1);
      } else {
        GetInit(commonCats, id);
        match Get(acc, last)
        case Some(cat) => GetPutOther(acc, last, MergeCategory(cat, commonCat), id);
        case None => GetPutOther(acc, last, commonCat, id);
      }
    }
  }

  /** The metrics of a merged category: a common metric overrides the season's
      metric with the same id; the season's other metrics stay. */
  lemma MergeCategoryMetrics(yearCat: MetricCategory, commonCat: MetricCategory, id: string)
    requires DistinctKeys(commonCat.metrics)
    ensures MergeCategory(yearCat, commonCat).order == (if yearCat.order.Some? then yearCat.order else commonCat.order)
    ensures Get(MergeCategory(yearCat, commonCat).metrics, id)
         == if Get(commonCat.metrics, id).Some? then Get(commonCat.metrics, id) else Get(yearCat.metrics, id)
  {
    GetInsertAll(yearCat.metrics, commonCat.metrics, id);
  }

  /** Statistics fetched from Statbotics are never collected by scouts. */
  function NeverIfStatbotics(m: CollectedMetric): (r: CollectedMetric)
    ensures r.metric == m.metric
    ensures r.metric.StatboticsTeam? ==> r.collect == Never
    ensures !r.metric.StatboticsTeam? ==> r == m
  {
    if m.metric.StatboticsTeam? then m.(collect := Never) else m
  }

  function ForceNeverMetrics(ms: Assoc<string, CollectedMetric>): (r: Assoc<string, CollectedMetric>)
    ensures Keys(r) == Keys(ms)
  {
    seq(|ms|, j requires 0 <= j < |ms| => (ms[j].0, NeverIfStatbotics(ms[j].1)))
  }

  function ForceNeverCategory(c: MetricCategory): MetricCategory {
    c.(metrics := ForceNeverMetrics(c.metrics))
  }

  function ForceNever(cats: Assoc<string, MetricCategory>): (r: Assoc<string, MetricCategory>)
    ensures Keys(r) == Keys(cats)
  {
    seq(|cats|, i requires 0 <= i < |cats| => (cats[i].0, ForceNeverCategory(cats[i].1)))
  }

  /** A season's configuration with the common configuration merged in. */
  function Merged(common: GameConfig, config: GameConfig): GameConfig {
    config.(display := config.display.(teamRow := MergeTeamRow(common.display.teamRow, config.display.teamRow)),
            categories := ForceNever(MergeCategories(config.categories, common.categories)))
  }

  /** After `ForceNever` a Statbotics metric is never collected. */
  lemma ForceNeverStatbotics(cats: Assoc<string, MetricCategory>, c: MetricCategory, p: (string, CollectedMetric))
    requires c in Values(ForceNever(cats)) && p in c.metrics
    ensures p.1.metric.StatboticsTeam? ==> p.1.collect == Never
  {
    var forced := ForceNever(cats);
    var i :| 0 <= i < |forced| && Values(forced)[i] == c;
    var ms := cats[i].1.metrics;
    assert c.metrics == ForceNeverMetrics(ms);
    var j :| 0 <= j < |c.metrics| && c.metrics[j] == p;
    assert p.1 == NeverIfStatbotics(ms[j].1);
  }

  /** A metric that some stage collects after `ForceNever` can be entered. */
  lemma ForceNeverCollectable(cats: Assoc<string, MetricCategory>, c: MetricCategory, p: (string, CollectedMetric),
                              t: MatchEntry.EntryType)
    requires c in Values(ForceNever(cats)) && p in c.metrics && MatchEntry.Collected(p.1.collect, t)
    ensures MatchEntry.Collectable(p.1.metric)
  {
    ForceNeverStatbotics(cats, c, p);
    Config.CollectionPredicates(p.1.collect);
  }

  /** After the merge every Statbotics metric has collection `Never`, so all
      three stage forms can be derived. */
  lemma MergedFormsDerivable(common: GameConfig, config: GameConfig)
    ensures forall c, p :: (c in Values(Merged(common, config).categories) && p in c.metrics
                            && p.1.metric.StatboticsTeam?) ==> p.1.collect == Never
    ensures FormsDerivable(Merged(common, config))
  {
    var cats := MergeCategories(config.categories, common.categories);
    assert Merged(common, config).categories == ForceNever(cats);
    forall c, p | c in Values(ForceNever(cats)) && p in c.metrics
      ensures p.1.metric.StatboticsTeam? ==> p.1.collect == Never
    {
      ForceNeverStatbotics(cats, c, p);
    }
    forall t: MatchEntry.EntryType, c, p | c in Values(ForceNever(cats)) && p in c.metrics && MatchEntry.Collected(p.1.collect, t)
      ensures MatchEntry.Collectable(p.1.metric)
    {
      ForceNeverCollectable(cats, c, p, t);
    }
  }

  /** The team row: each common column, or the season's row for a placeholder. */
  method MergeRow(commonRow: seq<DisplayColumn>, yearRow: seq<DisplayColumn>) returns (row: seq<DisplayColumn>)
    ensures row == MergeTeamRow(commonRow, yearRow)
  {
    row := [];
    for i := 0 to |commonRow|
      invariant row == MergeTeamRow(commonRow[..i], yearRow)
    {
      assert commonRow[..i + 1][..i] == commonRow[..i];
      row := row + Expand(commonRow[i], yearRow);
    }
    assert commonRow[..|commonRow|] == commonRow;
  }

  /** The common metrics inserted one by one over a season category's metrics. */
  method InsertMetrics(metrics: Assoc<string, CollectedMetric>, common: Assoc<string, CollectedMetric>)
    returns (r: Assoc<string, CollectedMetric>)
    ensures r == InsertAll(metrics, common)
  {
    r := metrics;
    for j := 0 to |common|
      invariant r == InsertAll(metrics, common[..j])
    {
      assert common[..j + 1][..j] == common[..j];
      r := Put(r, common[j].0, common[j].1);
    }
    assert common[..|common|] == common;
  }

  /** Each common category merged into the season's categories. */
  method MergeCategoriesInto(yearCats: Assoc<string, MetricCategory>, commonCats: Assoc<string, MetricCategory>)
    returns (cats: Assoc<string, MetricCategory>)
    ensures cats == MergeCategories(yearCats, commonCats)
  {
    cats := yearCats;
    for i := 0 to |commonCats|
      invariant cats == MergeCategories(yearCats, commonCats[..i])
    {
      assert commonCats[..i + 1][..i] == commonCats[..i];
      var (id, commonCat) := commonCats[i];
      match Get(cats, id) {
        case Some(cat) =>
          var order := cat.order;
          if order.None? {
            order := commonCat.order;
          }
          var metrics := InsertMetrics(cat.metrics, commonCat.metrics);
          cats := Put(cats, id, cat.(order := order, metrics := metrics));
        case None =>
          cats := Put(cats, id, commonCat);
      }
    }
    assert commonCats[..|commonCats|] == commonCats;
  }

  /** A category's Statbotics metrics set to `Never`, one position at a time. */
  method ForceNeverIn(metrics: Assoc<string, CollectedMetric>) returns (ms: Assoc<string, CollectedMetric>)
    ensures ms == ForceNeverMetrics(metrics)
  {
    ms := metrics;
    for j := 0 to |ms|
      invariant |ms| == |metrics|
      invariant forall k :: 0 <= k < j ==> ms[k] == (metrics[k].0, NeverIfStatbotics(metrics[k].1))
      invariant forall k :: j <= k < |ms| ==> ms[k] == metrics[k]
    {
      if ms[j].1.metric.StatboticsTeam? {
        ms := ms[j := (ms[j].0, ms[j].1.(collect := Never))];
      }
    }
  }

  /** Every category's Statbotics metrics set to `Never`. */
  method ForceNeverAll(before: Assoc<string, MetricCategory>) returns (cats: Assoc<string, MetricCategory>)
    ensures cats == ForceNever(before)
  {
    cats := before;
    for i := 0 to |cats|
      invariant |cats| == |before|
      invariant forall k :: 0 <= k < i ==> cats[k] == (before[k].0, ForceNeverCategory(before[k].1))
      invariant forall k :: i <= k < |cats| ==> cats[k] == before[k]
    {
      var (id, cat) := cats[i];
      var ms := ForceNeverIn(cat.metrics);
      cats := cats[i := (id, cat.(metrics := ms))];
    }
  }

  /** The merge body, updating the season's configuration step by step. */
  method MergeCommon(common: GameConfig, config: GameConfig) returns (merged: GameConfig)
    ensures merged == Merged(common, config)
    ensures FormsDerivable(merged)
  {
    var row := MergeRow(common.display.teamRow, config.display.teamRow);
    var cats := MergeCategoriesInto(config.categories, common.categories);
    cats := ForceNeverAll(cats);
    merged := config.(display := config.display.(teamRow := row), categories := cats);
    MergedFormsDerivable(common, config);
  }
}
