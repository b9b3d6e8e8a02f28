/** Scouting values exchanged between the client and the server. */
module Data {
  import opened Wrappers
  import Config
  import MatchEntry

  /** The outcome of an ability, sent as one of three snake_case ids. */
  datatype MatchAbilityValue = Nothing | Attempted | Succeeded

  function AbilityId(v: MatchAbilityValue): string {
    match v
    case Nothing => "nothing"
    case Attempted => "attempted"
    case Succeeded => "succeeded"
  }

  /** The ability whose id is `s`, if any. */
  function ParseAbility(s: string): (r: Option<MatchAbilityValue>)
    ensures r.Some? ==> AbilityId(r.value) == s
    ensures s in {"nothing", "attempted", "succeeded"} ==> r.Some?
  {
    if s == "nothing" then Some(Nothing)
    else if s == "attempted" then Some(Attempted)
    else if s == "succeeded" then Some(Succeeded)
    else None
  }

  /** Ids and abilities correspond one to one. */
  lemma AbilityIdRoundTrip(v: MatchAbilityValue)
    ensures ParseAbility(AbilityId(v)) == Some(v)
    ensures AbilityId(v) in {"nothing", "attempted", "succeeded"}
  {
  }

  /** A picture of an entry; `local` while it has only been stored on the device. */
  datatype ImageRef = ImageRef(imageMime: string, imageId: string, local: bool)

  /** The value of one entry. The enum value is the chosen option's text and
      the timer value a whole number of milliseconds. */
  datatype MatchEntryValue =
    | Ability(ability: MatchAbilityValue)
    | Enum(option: string)
    | Bool(flag: bool)
    | Timer(timeMs: int)
    | Counter(count: int)
    | TextEntry(text: string)
    | Image(images: seq<ImageRef>)

  /** One scouting record as the server receives it. */
  datatype FullEntryData = FullEntryData(
    year: nat,
    event: string,
    scout: string,
    timestampMs: int,
    entries: map<string, MatchEntryValue>)

  /** One stored record's entries. */
  datatype MatchEntryData = MatchEntryData(entries: map<string, MatchEntryValue>)

  /** The entry kinds of the API's type list, which covers four metric kinds. */
  datatype ApiEntryType =
    | ApiAbility(ability: Config.AbilityMetric)
    | ApiEnum(enumeration: Config.EnumMetric)
    | ApiBool
    | ApiTimer

  predicate ApiConvertible(m: Config.CollectedMetricType) {
    m.Ability? || m.Enum? || m.Bool? || m.Timer?
  }

  /** The API kind of a metric: the same kind with the same parameters. */
  function ApiEntryTypeFrom(m: Config.CollectedMetricType): (r: ApiEntryType)
    requires ApiConvertible(m)
    ensures AsEntryType(r) == MatchEntry.EntryTypeFrom(m, MatchEntry.Match)
  {
    match m
    case Ability(a) => ApiAbility(a)
    case Enum(e) => ApiEnum(e)
    case Bool => ApiBool
    case Timer => ApiTimer
  }

  /** The stage form's kind that an API kind stands for. */
  function AsEntryType(a: ApiEntryType): MatchEntry.MatchEntryType {
    match a
    case ApiAbility(x) => MatchEntry.Ability(x)
    case ApiEnum(e) => MatchEntry.Enum(e)
    case ApiBool => MatchEntry.Bool
    case ApiTimer => MatchEntry.Timer
  }
}
