/** The rules of the client's entry widgets: what value each control stores in the
    record when it is used. A widget's answer is the field's new value: `None` clears
    the field. */
module EntryComponents {
  import opened Wrappers
  import opened Text
  import Config
  import Data

  // ---------------------------------------------------------------------------
  // Image file types

  const ImageMimes: set<string> := {"image/png", "image/jpeg", "image/heic", "image/webp", "image/gif", "image/bmp"}

  /** The MIME type of an image file, from the end of its name. */
  function ToMime(filename: string): (r: string)
    ensures r in ImageMimes
    ensures EndsWith(filename, ".png") ==> r == "image/png"
  {
    if EndsWith(filename, ".png") then "image/png"
    else if EndsWith(filename, ".jpg") || EndsWith(filename, ".jpeg") || EndsWith(filename, ".jfif") then "image/jpeg"
    else if EndsWith(filename, ".heic") || EndsWith(filename, ".heif") then "image/heic"
    else if EndsWith(filename, ".webp") then "image/webp"
    else if EndsWith(filename, ".gif") then "image/gif"
    else if EndsWith(filename, ".bmp") then "image/bmp"
    else "image/jpeg"
  }

  /** The extensions the type is chosen from. */
  const Extensions: seq<string> := [".png", ".jpg", ".jpeg", ".jfif", ".heic", ".heif", ".webp", ".gif", ".bmp"]

  /** A name that ends with `e` has `e`'s last three characters. */
  lemma LastChars(f: string, e: string)
    requires EndsWith(f, e) && |e| >= 3
    ensures f[|f| - 1] == e[|e| - 1] && f[|f| - 2] == e[|e| - 2] && f[|f| - 3] == e[|e| - 3]
  {
    var t := f[|f| - |e|..];
    assert t[|e| - 1] == f[|f| - 1] && t[|e| - 2] == f[|f| - 2] && t[|e| - 3] == f[|f| - 3];
  }

  /** A name whose `k`-th character from the end differs from `e`'s does not end with `e`. */
  lemma NotEndsWith(f: string, e: string, k: nat)
    requires k < |e| && k < |f| && f[|f| - 1 - k] != e[|e| - 1 - k]
    ensures !EndsWith(f, e)
  {
    if |f| >= |e| {
      assert f[|f| - |e|..][|e| - 1 - k] == f[|f| - 1 - k];
    }
  }

  // Each recognised extension gets its own type whatever the order of the checks: a
  // name ends with at most one of the extensions of different types.

  /** A `.jpg`, `.jpeg` or `.jfif` name is a JPEG. */
  lemma ToMimeJpeg(f: string)
    requires EndsWith(f, ".jpg") || EndsWith(f, ".jpeg") || EndsWith(f, ".jfif")
    ensures ToMime(f) == "image/jpeg"
  {
    if EndsWith(f, ".jpg") {
      LastChars(f, ".jpg");
      NotEndsWith(f, ".png", 1);
    } else if EndsWith(f, ".jpeg") {
      LastChars(f, ".jpeg");
      NotEndsWith(f, ".png", 1);
    } else {
      LastChars(f, ".jfif");
      NotEndsWith(f, ".png", 0);
    }
  }

  /** A `.heic` or `.heif` name is HEIC. */
  lemma ToMimeHeic(f: string)
    requires EndsWith(f, ".heic") || EndsWith(f, ".heif")
    ensures ToMime(f) == "image/heic"
  {
    if EndsWith(f, ".heic") {
      LastChars(f, ".heic");
      NotEndsWith(f, ".png", 0); NotEndsWith(f, ".jpg", 0); NotEndsWith(f, ".jpeg", 0); NotEndsWith(f, ".jfif", 0);
    } else {
      LastChars(f, ".heif");
      NotEndsWith(f, ".png", 0); NotEndsWith(f, ".jpg", 0); NotEndsWith(f, ".jpeg", 0); NotEndsWith(f, ".jfif", 2);
    }
  }

  /** A `.webp` name is WebP. */
  lemma ToMimeWebp(f: string)
    requires EndsWith(f, ".webp")
    ensures ToMime(f) == "image/webp"
  {
    LastChars(f, ".webp");
    NotEndsWith(f, ".png", 0); NotEndsWith(f, ".jpg", 0); NotEndsWith(f, ".jpeg", 0); NotEndsWith(f, ".jfif", 0);
    NotEndsWith(f, ".heic", 0); NotEndsWith(f, ".heif", 0);
  }

  /** A `.gif` name is a GIF. */
  lemma ToMimeGif(f: string)
    requires EndsWith(f, ".gif")
    ensures ToMime(f) == "image/gif"
  {
    LastChars(f, ".gif");
    NotEndsWith(f, ".png", 0); NotEndsWith(f, ".jpg", 0); NotEndsWith(f, ".jpeg", 0); NotEndsWith(f, ".jfif", 2);
    NotEndsWith(f, ".heic", 0); NotEndsWith(f, ".heif", 2); NotEndsWith(f, ".webp", 0);
  }

  /** A `.bmp` name is a bitmap. */
  lemma ToMimeBmp(f: string)
    requires EndsWith(f, ".bmp")
    ensures ToMime(f) == "image/bmp"
  {
    LastChars(f, ".bmp");
    NotEndsWith(f, ".png", 0); NotEndsWith(f, ".jpg", 0); NotEndsWith(f, ".jpeg", 0); NotEndsWith(f, ".jfif", 0);
    NotEndsWith(f, ".heic", 0); NotEndsWith(f, ".heif", 0); NotEndsWith(f, ".webp", 1); NotEndsWith(f, ".gif", 0);
  }

  /** A name with none of the recognised extensions is taken for a JPEG. */
  lemma ToMimeFallback(f: string)
    requires forall i :: 0 <= i < |Extensions| ==> !EndsWith(f, Extensions[i])
    ensures ToMime(f) == "image/jpeg"
  {
    assert !EndsWith(f, Extensions[0]) && !EndsWith(f, Extensions[4]) && !EndsWith(f, Extensions[5]);
    assert !EndsWith(f, Extensions[6]) && !EndsWith(f, Extensions[7]) && !EndsWith(f, Extensions[8]);
  }

  // ---------------------------------------------------------------------------
  // Counters

  predicate InRange(count: int, range: Config.CounterRange) {
    range.start <= count <= range.endInclusive
  }

  /** The "−" button: the value it passes to `setValue`, or `None` when it makes no call. */
  function CounterMinus(current: Option<Data.MatchEntryValue>, metric: Config.CounterMetric): (r: Option<Data.MatchEntryValue>)
    ensures r.Some? ==> r.value.Counter?
    ensures !(current.Some? && current.value.Counter?) ==>
      r == Some(Data.Counter(match metric.limitRange case Some(range) => range.start case None => 0))
    ensures current.Some? && current.value.Counter? ==>
      if metric.limitRange.None? || current.value.count > metric.limitRange.value.start
      then r == Some(Data.Counter(current.value.count - 1))
      else r.None?
  {
    if !(current.Some? && current.value.Counter?) then
      Some(Data.Counter(match metric.limitRange case Some(range) => range.start case None => 0))
    else if metric.limitRange.None? || current.value.count > metric.limitRange.value.start then
      Some(Data.Counter(current.value.count - 1))
    else None
  }

  /** The "+" button: the value it passes to `setValue`, or `None` when it makes no call. */
  function CounterPlus(current: Option<Data.MatchEntryValue>, metric: Config.CounterMetric): (r: Option<Data.MatchEntryValue>)
    ensures r.Some? ==> r.value.Counter?
    ensures !(current.Some? && current.value.Counter?) ==>
      r == Some(Data.Counter(match metric.limitRange case Some(range) => range.start case None => 0))
    ensures current.Some? && current.value.Counter? ==>
      if metric.limitRange.None? || current.value.count < metric.limitRange.value.endInclusive
      then r == Some(Data.Counter(current.value.count + 1))
      else r.None?
  {
    if !(current.Some? && current.value.Counter?) then
      Some(Data.Counter(match metric.limitRange case Some(range) => range.start case None => 0))
    else if metric.limitRange.None? || current.value.count < metric.limitRange.value.endInclusive then
      Some(Data.Counter(current.value.count + 1))
    else None
  }

  /** The field's value after a button press: the value passed to `setValue` if there was a
      call, else the value it had. */
  function Pressed(current: Option<Data.MatchEntryValue>, call: Option<Data.MatchEntryValue>): Option<Data.MatchEntryValue> {
    if call.Some? then call else current
  }

  /** A field that is empty, of another kind, or a counter inside the range. */
  predicate WithinLimit(current: Option<Data.MatchEntryValue>, range: Config.CounterRange) {
    current.Some? && current.value.Counter? ==> InRange(current.value.count, range)
  }

  /** With a (non-empty) range, both buttons leave a counter inside it. */
  lemma ButtonsStayInRange(current: Option<Data.MatchEntryValue>, metric: Config.CounterMetric)
    requires metric.limitRange.Some? && metric.limitRange.value.start <= metric.limitRange.value.endInclusive
    requires WithinLimit(current, metric.limitRange.value)
    ensures var after := Pressed(current, CounterMinus(current, metric));
      after.Some? && after.value.Counter? && InRange(after.value.count, metric.limitRange.value)
    ensures var after := Pressed(current, CounterPlus(current, metric));
      after.Some? && after.value.Counter? && InRange(after.value.count, metric.limitRange.value)
  {
  }

  /** The typed input: `parsed` is the number the text parses to (`None` when it is not
      a number). It is stored only inside the range, if there is one; otherwise the
      field is cleared. */
  function CounterTyped(parsed: Option<int>, metric: Config.CounterMetric): (r: Option<Data.MatchEntryValue>)
    ensures r.Some? <==>
      parsed.Some? && (metric.limitRange.None? || InRange(parsed.value, metric.limitRange.value))
    ensures r.Some? ==> r.value == Data.Counter(parsed.value)
  {
    match parsed
    case None => None
    case Some(v) =>
      if metric.limitRange.None? || InRange(v, metric.limitRange.value) then Some(Data.Counter(v)) else None
  }

  // ---------------------------------------------------------------------------
  // Text

  /** The text with every line feed removed. */
  function RemoveNewlines(s: string): (r: string)
    ensures '\n' !in r
    ensures |r| <= |s|
  {
    if s == [] then []
    else (if s[0] == '\n' then [] else [s[0]]) + RemoveNewlines(s[1..])
  }

  /** Text without line feeds is kept as it is; in particular removal is idempotent. */
  lemma {:induction false} RemoveNewlinesKeeps(s: string)
    requires '\n' !in s
    ensures RemoveNewlines(s) == s
  {
    if s != [] {
      assert s == [s[0]] + s[1..];
      RemoveNewlinesKeeps(s[1..]);
    }
  }

  /** Only line feeds are removed: everything else keeps its number of occurrences. */
  lemma {:induction false} RemoveNewlinesCount(s: string, c: char)
    requires c != '\n'
    ensures multiset(RemoveNewlines(s))[c] == multiset(s)[c]
  {
    if s != [] {
      assert s == [s[0]] + s[1..];
      RemoveNewlinesCount(s[1..], c);
    }
  }

  /** Removal works piece by piece, so the characters that are kept stay in their order. */
  lemma {:induction false} RemoveNewlinesAppend(a: string, b: string)
    ensures RemoveNewlines(a + b) == RemoveNewlines(a) + RemoveNewlines(b)
  {
    if a != [] {
      assert (a + b)[0] == a[0] && (a + b)[1..] == a[1..] + b;
      RemoveNewlinesAppend(a[1..], b);
    } else {
      assert a + b == b;
    }
  }

  /** A text field stores what was typed, without line feeds unless it is multiline. */
  function TextValue(typed: string, metric: Config.TextEntryMetric): (r: Data.MatchEntryValue)
    ensures r.TextEntry?
    ensures metric.multiline ==> r.text == typed
    ensures !metric.multiline ==> '\n' !in r.text && ('\n' !in typed ==> r.text == typed)
  {
    if metric.multiline then Data.TextEntry(typed)
    else
      assert '\n' !in typed ==> RemoveNewlines(typed) == typed by {
        if '\n' !in typed {
          RemoveNewlinesKeeps(typed);
        }
      }
      Data.TextEntry(RemoveNewlines(typed))
  }

  // ---------------------------------------------------------------------------
  // Choices: enumerations, abilities and yes/no

  datatype ChoiceKind = EnumChoice | AbilityChoice | BoolChoice

  /** The option id a choice button carries. */
  predicate ValidChoice(kind: ChoiceKind, id: string) {
    match kind
    case AbilityChoice => Data.ParseAbility(id).Some?
    case BoolChoice => id == "true" || id == "false"
    case EnumChoice => true
  }

  /** The value a toggle group stores: no selection clears the field. */
  function Choose(kind: ChoiceKind, selected: Option<string>): (r: Option<Data.MatchEntryValue>)
    requires selected.Some? ==> ValidChoice(kind, selected.value)
    ensures r.None? <==> selected.None?
    ensures r.Some? && kind == BoolChoice ==> r.value == Data.Bool(selected.value == "true")
    ensures r.Some? && kind == EnumChoice ==> r.value == Data.Enum(selected.value)
    ensures r.Some? && kind == AbilityChoice ==> r.value.Ability? && Data.AbilityId(r.value.ability) == selected.value
  {
    match selected
    case None => None
    case Some(id) =>
      match kind
      case BoolChoice => Some(Data.Bool(id == "true"))
      case EnumChoice => Some(Data.Enum(id))
      case AbilityChoice => Some(Data.Ability(Data.ParseAbility(id).value))
  }

  predicate OfKind(kind: ChoiceKind, v: Data.MatchEntryValue) {
    match kind
    case EnumChoice => v.Enum?
    case AbilityChoice => v.Ability?
    case BoolChoice => v.Bool?
  }

  /** The option a toggle group shows as selected for a stored value ("" for none). */
  function Selected(v: Option<Data.MatchEntryValue>): string {
    match v
    case Some(Enum(option)) => option
    case Some(Ability(a)) => Data.AbilityId(a)
    case Some(Bool(b)) => if b then "true" else "false"
    case _ => ""
  }

  /** Choosing the option that is shown as selected stores the same value again. */
  lemma ChooseSelected(kind: ChoiceKind, v: Data.MatchEntryValue)
    requires OfKind(kind, v)
    ensures ValidChoice(kind, Selected(Some(v)))
    ensures Choose(kind, Some(Selected(Some(v)))) == Some(v)
  {
    if v.Ability? {
      Data.AbilityIdRoundTrip(v.ability);
    }
  }

  // ---------------------------------------------------------------------------
  // Images

  function ImagesOf(current: Option<Data.MatchEntryValue>): seq<Data.ImageRef> {
    if current.Some? && current.value.Image? then current.value.images else []
  }

  /** A newly taken picture is appended, marked local, after the field's images. */
  function AddImage(current: Option<Data.MatchEntryValue>, fileName: string, imageId: string): (r: Data.MatchEntryValue)
    ensures r.Image? && |r.images| == |ImagesOf(current)| + 1
    ensures r.images[..|r.images| - 1] == ImagesOf(current)
    ensures r.images[|r.images| - 1] == Data.ImageRef(ToMime(fileName), imageId, true)
  {
    Data.Image(ImagesOf(current) + [Data.ImageRef(ToMime(fileName), imageId, true)])
  }

  /** The images without those with id `imageId`, in order. */
  function WithoutId(images: seq<Data.ImageRef>, imageId: string): seq<Data.ImageRef> {
    if images == [] then []
    else (if images[0].imageId == imageId then [] else [images[0]]) + WithoutId(images[1..], imageId)
  }

  /** `WithoutId` keeps exactly the images with another id. */
  lemma {:induction false} WithoutIdMembers(images: seq<Data.ImageRef>, imageId: string)
    ensures forall x :: x in WithoutId(images, imageId) <==> x in images && x.imageId != imageId
  {
    if images != [] {
      WithoutIdMembers(images[1..], imageId);
      assert images == [images[0]] + images[1..];
    }
  }

  /** Removing a picture drops every image with its id and keeps the others in order. */
  function RemoveImage(current: Option<Data.MatchEntryValue>, imageId: string): (r: Data.MatchEntryValue)
    ensures r.Image? && r.images == WithoutId(ImagesOf(current), imageId)
    ensures forall x :: x in r.images <==> x in ImagesOf(current) && x.imageId != imageId
  {
    WithoutIdMembers(ImagesOf(current), imageId);
    Data.Image(WithoutId(ImagesOf(current), imageId))
  }

  lemma {:induction false} WithoutAbsentId(images: seq<Data.ImageRef>, imageId: string)
    requires forall i :: 0 <= i < |images| ==> images[i].imageId != imageId
    ensures WithoutId(images, imageId) == images
  {
    if images != [] {
      WithoutAbsentId(images[1..], imageId);
    }
  }

  lemma {:induction false} WithoutIdAppend(a: seq<Data.ImageRef>, b: seq<Data.ImageRef>, imageId: string)
    ensures WithoutId(a + b, imageId) == WithoutId(a, imageId) + WithoutId(b, imageId)
  {
    if a != [] {
      var head := if a[0].imageId == imageId then [] else [a[0]];
      var ab := a + b;
      assert ab != [] && ab[0] == a[0] && ab[1..] == a[1..] + b;
      calc {
        WithoutId(ab, imageId);
        head + WithoutId(a[1..] + b, imageId);
        { WithoutIdAppend(a[1..], b, imageId); }
        head + (WithoutId(a[1..], imageId) + WithoutId(b, imageId));
        (head + WithoutId(a[1..], imageId)) + WithoutId(b, imageId);
        WithoutId(a, imageId) + WithoutId(b, imageId);
      }
    } else {
      assert a + b == b;
    }
  }

  /** Removing a picture just added with a fresh id restores the field's images. */
  lemma RemoveAdded(current: Option<Data.MatchEntryValue>, fileName: string, imageId: string)
    requires forall i :: 0 <= i < |ImagesOf(current)| ==> ImagesOf(current)[i].imageId != imageId
    ensures RemoveImage(Some(AddImage(current, fileName, imageId)), imageId).images == ImagesOf(current)
  {
    var old_ := ImagesOf(current);
    var added := Data.ImageRef(ToMime(fileName), imageId, true);
    WithoutIdAppend(old_, [added], imageId);
    WithoutAbsentId(old_, imageId);
    assert WithoutId([added], imageId) == [];
  }

  // ---------------------------------------------------------------------------
  // The timer

  /** Not started, running since `startTime`, or stopped after `totalTime` (milliseconds). */
  datatype TimerState = NullTimer | RunningTimer(startTime: int) | ValueTimer(totalTime: int)

  /** A timer widget: its state, and what it last asked the record to store for the field
      (`None` clears it). */
  datatype TimerEntry = TimerEntry(state: TimerState, stored: Option<Data.MatchEntryValue>)

  /** The time the widget shows at `now`. */
  function Elapsed(s: TimerState, now: int): int {
    match s
    case NullTimer => 0
    case RunningTimer(start) => now - start
    case ValueTimer(total) => total
  }

  /** The state the widget takes when the field's value changes from outside. */
  function Synced(v: Option<Data.MatchEntryValue>): (r: TimerState)
    ensures r.NullTimer? <==> !(v.Some? && v.value.Timer?)
    ensures r.ValueTimer? ==> r.totalTime == v.value.timeMs
  {
    if v.Some? && v.value.Timer? then ValueTimer(v.value.timeMs) else NullTimer
  }

  /** "Start", shown when the timer has not run. */
  function Start(t: TimerEntry, now: int): (r: TimerEntry)
    requires t.state.NullTimer?
    ensures r.state.RunningTimer? && Elapsed(r.state, now) == 0 && r.stored == t.stored
  {
    t.(state := RunningTimer(now))
  }

  /** "Stop", shown while running: the elapsed time is kept and stored in the field. */
  function Stop(t: TimerEntry, now: int): (r: TimerEntry)
    requires t.state.RunningTimer?
    ensures r.state.ValueTimer? && r.state.totalTime == Elapsed(t.state, now)
    ensures r.stored == Some(Data.Timer(Elapsed(t.state, now)))
  {
    TimerEntry(ValueTimer(now - t.state.startTime), Some(Data.Timer(now - t.state.startTime)))
  }

  /** "Continue", shown when stopped: running again from the stopped time. */
  function Continue(t: TimerEntry, now: int): (r: TimerEntry)
    requires t.state.ValueTimer?
    ensures r.state.RunningTimer? && r.stored == t.stored
    ensures forall later :: Elapsed(r.state, later) == t.state.totalTime + (later - now)
  {
    t.(state := RunningTimer(now - t.state.totalTime))
  }

  /** "Reset", shown when stopped: back to not started, and the field is cleared. */
  function Reset(t: TimerEntry): (r: TimerEntry)
    requires t.state.ValueTimer?
    ensures r == TimerEntry(NullTimer, None)
  {
    TimerEntry(NullTimer, None)
  }

  /** Stopping and continuing at the same moment loses no time, and the field's new
      value brings the widget back to the stopped state. */
  lemma StopContinue(t: TimerEntry, now: int)
    requires t.state.RunningTimer?
    ensures Elapsed(Continue(Stop(t, now), now).state, now) == Elapsed(t.state, now)
    ensures Synced(Stop(t, now).stored) == Stop(t, now).state
    ensures Synced(Reset(Stop(t, now)).stored) == Reset(Stop(t, now)).state
  {
  }
}
