/** The game configuration: the metrics scouts collect, grouped in categories,
    plus the display and The Blue Alliance settings of one season's game. */
module Config {
  import opened Wrappers
  import opened Assoc

  /** Which scouting stages collect a metric; `MatchOnly` when the file says nothing. */
  datatype CollectionOption = MatchOnly | MatchPit | PitOnly | DriveOnly | Never
  {
    predicate CollectFromDrive() { this == DriveOnly }
    predicate CollectInMatch() { this == MatchOnly || this == MatchPit }
    predicate CollectInPit() { this == PitOnly || this == MatchPit }
  }

  const DefaultCollection: CollectionOption := MatchOnly

  /** The three stage predicates partition the collected options: `Never` passes
      none of them, drive-team metrics are collected nowhere else, and `MatchPit`
      is the only option collected in two stages. */
  lemma CollectionPredicates(c: CollectionOption)
    ensures c == Never <==> !c.CollectFromDrive() && !c.CollectInMatch() && !c.CollectInPit()
    ensures c.CollectFromDrive() ==> !c.CollectInMatch() && !c.CollectInPit()
    ensures c.CollectInMatch() && c.CollectInPit() <==> c == MatchPit
    ensures DefaultCollection.CollectInMatch() && !DefaultCollection.CollectInPit()
  {
  }

  datatype AbilityMetric = AbilityMetric(implies: seq<string>)
  datatype EnumMetric = EnumMetric(options: seq<string>)
  datatype CounterRange = CounterRange(start: int, endInclusive: int)
  datatype CounterMetric = CounterMetric(limitRange: Option<CounterRange>)
  datatype TextEntryMetric = TextEntryMetric(multiline: bool)
  datatype ImageMetric = ImageMetric(allowVideo: bool)

  /** How a metric is collected, with the parameters of each kind. */
  datatype CollectedMetricType =
    | Ability(ability: AbilityMetric)
    | Enum(enumeration: EnumMetric)
    | Bool
    | Timer
    | Counter(counter: CounterMetric)
    | TextEntry(text: TextEntryMetric)
    | Image(image: ImageMetric)
    | StatboticsTeam(props: seq<string>)

  datatype CollectedMetric = CollectedMetric(
    name: string,
    order: nat,
    description: string,
    collect: CollectionOption,
    metric: CollectedMetricType)

  /** A category; `metrics` maps metric ids to metrics. */
  datatype MetricCategory = MetricCategory(
    name: string,
    order: Option<nat>,
    metrics: Assoc<string, CollectedMetric>)

  datatype TbaMatchPropType = PropBool | PropEnum | PropNumber | PropSum
  datatype TbaMatchPropOption = TbaMatchPropOption(id: string, name: Option<string>)
  datatype TbaMatchProp = TbaMatchProp(
    ty: TbaMatchPropType,
    property: string,
    name: string,
    options: Option<seq<TbaMatchPropOption>>)
  datatype TbaConfig = TbaConfig(order: nat, props: Assoc<string, TbaMatchProp>)

  /** A column of the team-list table; `CommonYearSpecific` is the placeholder that
      the common configuration uses for "the year's own columns go here". */
  datatype DisplayColumn =
    | Single(metric: string, display: bool)
    | Filtered(metric: string, filterBy: string, display: bool)
    | TeamName(display: bool)
    | CommonYearSpecific

  datatype PreMatchGraphElement = PreMatchGraphElement(name: string, metric: string)
  datatype PreMatchDisplay = PreMatchDisplay(
    score: string,
    graph: seq<PreMatchGraphElement>,
    metrics: seq<string>)
  datatype DisplayConfig = DisplayConfig(teamRow: seq<DisplayColumn>, preMatch: PreMatchDisplay)

  /** The configuration of one season's game; `categories` maps category ids to categories. */
  datatype GameConfig = GameConfig(
    name: string,
    year: nat,
    categories: Assoc<string, MetricCategory>,
    tba: TbaConfig,
    rankingPoints: seq<string>,
    display: DisplayConfig)
}
