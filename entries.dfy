/** The client's record store: scouting records kept in the browser's local storage
    under keys derived from the record kind, the match and the team. JSON encoding
    is the identity here: a stored item is either a record or a setting. */
module Entries {
  import opened Wrappers
  import opened Text
  import Data

  const MatchPrefix: string := "match-"
  const PitPrefix: string := "team-"
  const DriverPrefix: string := "driver-"

  /** A field value as the client keeps it, with the scout who entered it (if recorded). */
  datatype FieldValue = FieldValue(value: Data.MatchEntryValue, scout: Option<string>)

  datatype EntryData = EntryData(year: nat, event: string, entries: map<string, FieldValue>, timestampMs: int)

  /** The three kinds of record; the ids are the strings the entry pages store. */
  datatype EntryRecord =
    | MatchEntryIdData(matchId: string, teamId: string, data: EntryData)
    | PitEntryIdData(teamId: string, data: EntryData)
    | DriverEntryIdData(matchId: string, teamId: string, data: EntryData)

  /** A local-storage item: a record, or one of the app's settings (kept as its JSON text). */
  datatype Stored = Record(rec: EntryRecord) | Setting(json: string)

  // ---------------------------------------------------------------------------
  // Keys

  function MatchKey(matchId: string, teamId: string): string {
    MatchPrefix + "-" + matchId + "-" + teamId
  }

  function PitKey(teamId: string): string {
    PitPrefix + "-" + teamId
  }

  function DriverKey(matchId: string, teamId: string): string {
    DriverPrefix + "-" + matchId + "-" + teamId
  }

  /** The key each save function writes a record under. */
  function RecordKey(r: EntryRecord): string {
    match r
    case MatchEntryIdData(m, t, _) => MatchKey(m, t)
    case PitEntryIdData(t, _) => PitKey(t)
    case DriverEntryIdData(m, t, _) => DriverKey(m, t)
  }

  /** The prefix scan that lists records of the same kind. */
  function KindPrefix(r: EntryRecord): string {
    match r
    case MatchEntryIdData(_, _, _) => MatchPrefix
    case PitEntryIdData(_, _) => PitPrefix
    case DriverEntryIdData(_, _, _) => DriverPrefix
  }

  /** A record's key starts with its own kind's prefix and with neither other prefix. */
  lemma RecordKeyPrefix(r: EntryRecord)
    ensures StartsWith(RecordKey(r), KindPrefix(r))
    ensures forall p :: p in {MatchPrefix, PitPrefix, DriverPrefix} && p != KindPrefix(r) ==> !StartsWith(RecordKey(r), p)
  {
    var k := RecordKey(r);
    assert k[..|KindPrefix(r)|] == KindPrefix(r);
    match r {
      case MatchEntryIdData(_, _, _) =>
        assert k[0] == 'm';
      case PitEntryIdData(_, _) =>
        assert k[0] == 't';
      case DriverEntryIdData(_, _, _) =>
        assert k[0] == 'd';
    }
  }

  /** The keys the app's settings are stored under. */
  const SettingKeys: set<string> :=
    {"matchList", "matchFields", "driverFields", "pitFields", "scoutName",
     "lastMatchSave", "lastPitSave", "lastDriverSave"}

  /** No setting is ever listed by a prefix scan. */
  lemma SettingsNotScanned(k: string)
    requires k in SettingKeys
    ensures !StartsWith(k, MatchPrefix) && !StartsWith(k, PitPrefix) && !StartsWith(k, DriverPrefix)
  {
    assert |k| >= 7 && k[0] != 't' && k[5] != '-' && k[6] != '-';
  }

  /** Match keys of distinct (match, team) pairs differ, as long as match ids hold no '-'
      (numbers never do). */
  lemma MatchKeyInjective(m1: string, t1: string, m2: string, t2: string)
    requires '-' !in m1 && '-' !in m2
    requires MatchKey(m1, t1) == MatchKey(m2, t2)
    ensures m1 == m2 && t1 == t2
  {
    var k1, k2 := MatchKey(m1, t1), MatchKey(m2, t2);
    assert k1[7..] == m1 + ['-'] + t1;
    assert k2[7..] == m2 + ['-'] + t2;
    SplitAtSeparator(m1, t1, m2, t2, '-');
  }

  lemma DriverKeyInjective(m1: string, t1: string, m2: string, t2: string)
    requires '-' !in m1 && '-' !in m2
    requires DriverKey(m1, t1) == DriverKey(m2, t2)
    ensures m1 == m2 && t1 == t2
  {
    var k1, k2 := DriverKey(m1, t1), DriverKey(m2, t2);
    assert k1[8..] == m1 + ['-'] + t1;
    assert k2[8..] == m2 + ['-'] + t2;
    SplitAtSeparator(m1, t1, m2, t2, '-');
  }

  lemma PitKeyInjective(t1: string, t2: string)
    requires PitKey(t1) == PitKey(t2)
    ensures t1 == t2
  {
    assert t1 == PitKey(t1)[6..];
  }

  /** A decimal number never holds the '-' separator. */
  lemma DecimalHasNoDash(n: nat)
    ensures '-' !in Decimal(n)
  {
    var d := Decimal(n);
    assert forall i :: 0 <= i < |d| ==> IsDigit(d[i]);
  }

  // ---------------------------------------------------------------------------
  // Local storage

  /** The browser's local storage: its items, and the order in which `key(i)` lists them. */
  class LocalStorage {
    var keys: seq<string>
    var items: map<string, Stored>

    ghost predicate Valid()
      reads this
    {
      && (forall k :: k in items <==> k in keys)
      && (forall i, j :: 0 <= i < j < |keys| ==> keys[i] != keys[j])
    }

    constructor()
      ensures Valid() && keys == [] && items == map[]
    {
      keys := [];
      items := map[];
    }

    function GetItem(k: string): (r: Option<Stored>)
      reads this
      ensures r.Some? <==> k in items
      ensures r.Some? ==> r.value == items[k]
    {
      if k in items then Some(items[k]) else None
    }

    /** `localStorage.setItem`: a new key is listed last, an existing key keeps its place. */
    method SetItem(k: string, v: Stored)
      requires Valid()
      modifies this
      ensures Valid()
      ensures items == old(items)[k := v]
      ensures keys == if k in old(items) then old(keys) else old(keys) + [k]
    {
      if k !in items {
        keys := keys + [k];
      }
      items := items[k := v];
    }

    /** `saveMatch`, `savePit`, `saveDriver`: the record is stored under its kind's key. */
    method Save(r: EntryRecord)
      requires Valid()
      modifies this
      ensures Valid()
      ensures items == old(items)[RecordKey(r) := Record(r)]
      ensures keys == if RecordKey(r) in old(items) then old(keys) else old(keys) + [RecordKey(r)]
    {
      SetItem(RecordKey(r), Record(r));
    }
  }

  /** Saving a record and reading its key gives the record back; no other key changes. */
  lemma SaveThenGet(items: map<string, Stored>, r: EntryRecord, k: string)
    ensures k == RecordKey(r) ==> items[RecordKey(r) := Record(r)][k] == Record(r)
    ensures k != RecordKey(r) && k in items ==> k in items[RecordKey(r) := Record(r)] && items[RecordKey(r) := Record(r)][k] == items[k]
  {
  }

  /** Saving the record a key already holds changes nothing. */
  lemma SaveAgain(keys: seq<string>, items: map<string, Stored>, r: EntryRecord)
    requires RecordKey(r) in items && items[RecordKey(r)] == Record(r)
    ensures items[RecordKey(r) := Record(r)] == items
    ensures (if RecordKey(r) in items then keys else keys + [RecordKey(r)]) == keys
  {
  }

  // ---------------------------------------------------------------------------
  // Prefix scans

  /** Every item under the prefix is a record (the scan parses each of them as one). */
  ghost predicate RecordsUnder(items: map<string, Stored>, prefix: string) {
    forall k :: k in items && StartsWith(k, prefix) ==> items[k].Record?
  }

  /** The records a scan of `keys` collects, in key order. */
  function Scan(keys: seq<string>, items: map<string, Stored>, prefix: string, year: nat, event: string): seq<EntryRecord>
    requires forall i :: 0 <= i < |keys| ==> keys[i] in items
    requires RecordsUnder(items, prefix)
  {
    if keys == [] then []
    else
      var init := keys[..|keys| - 1];
      var k := keys[|keys| - 1];
      var rest := Scan(init, items, prefix, year, event);
      if StartsWith(k, prefix) && items[k].rec.data.year == year && items[k].rec.data.event == event
      then rest + [items[k].rec]
      else rest
  }

  /** A scan returns exactly the stored records under the prefix whose year and event match. */
  lemma {:induction false} ScanExact(keys: seq<string>, items: map<string, Stored>, prefix: string, year: nat,
                                     event: string, x: EntryRecord)
    requires forall i :: 0 <= i < |keys| ==> keys[i] in items
    requires RecordsUnder(items, prefix)
    ensures x in Scan(keys, items, prefix, year, event) <==>
      && x.data.year == year && x.data.event == event
      && exists i :: 0 <= i < |keys| && StartsWith(keys[i], prefix) && items[keys[i]] == Record(x)
  {
    if keys != [] {
      var init := keys[..|keys| - 1];
      assert forall i :: 0 <= i < |init| ==> init[i] == keys[i];
      ScanExact(init, items, prefix, year, event, x);
      var k := keys[|keys| - 1];
      if x in Scan(keys, items, prefix, year, event) && x !in Scan(init, items, prefix, year, event) {
        assert items[keys[|keys| - 1]] == Record(x);
      }
    }
  }

  /** `getEntries`: walks the storage's keys and collects the matching records;
      the storage is left as it was. */
  method GetEntries(store: LocalStorage, prefix: string, year: nat, event: string) returns (r: seq<EntryRecord>)
    requires store.Valid() && RecordsUnder(store.items, prefix)
    ensures r == Scan(store.keys, store.items, prefix, year, event)
  {
    r := [];
    var i := 0;
    while i < |store.keys|
      invariant 0 <= i <= |store.keys|
      invariant r == Scan(store.keys[..i], store.items, prefix, year, event)
    {
      var key := store.keys[i];
      assert store.keys[..i + 1][..i] == store.keys[..i];
      if StartsWith(key, prefix) {
        var entry := store.items[key].rec;
        if entry.data.year == year && entry.data.event == event {
          r := r + [entry];
        }
      }
      i := i + 1;
    }
    assert store.keys[..i] == store.keys;
  }

  /** A saved record of the current event is listed by its kind's scan. */
  lemma SavedIsScanned(keys: seq<string>, items: map<string, Stored>, r: EntryRecord, i: nat)
    requires forall j :: 0 <= j < |keys| ==> keys[j] in items
    requires RecordsUnder(items, KindPrefix(r))
    requires i < |keys| && keys[i] == RecordKey(r) && items[keys[i]] == Record(r)
    ensures r in Scan(keys, items, KindPrefix(r), r.data.year, r.data.event)
  {
    RecordKeyPrefix(r);
    ScanExact(keys, items, KindPrefix(r), r.data.year, r.data.event, r);
  }

  // ---------------------------------------------------------------------------
  // Scouts of a record

  /** The name a field's scout is listed under: empty or missing names become "Unknown". */
  function ScoutName(v: FieldValue): (r: string)
    ensures r != ""
    ensures v.scout.Some? && v.scout.value != "" ==> r == v.scout.value
    ensures !(v.scout.Some? && v.scout.value != "") ==> r == "Unknown"
  {
    match v.scout
    case Some(s) => if s != "" then s else "Unknown"
    case None => "Unknown"
  }

  /** The names of the scouts who entered a record's fields. */
  ghost function ScoutsOf(entries: map<string, FieldValue>): set<string> {
    set id | id in entries :: ScoutName(entries[id])
  }

  /** Collects each distinct scout name of a record's fields once. */
  method Scouts(entries: map<string, FieldValue>) returns (r: seq<string>)
    ensures forall i, j :: 0 <= i < j < |r| ==> r[i] != r[j]
    ensures forall s :: s in r <==> s in ScoutsOf(entries)
  {
    r := [];
    var pending := entries.Keys;
    while pending != {}
      invariant pending <= entries.Keys
      invariant forall i, j :: 0 <= i < j < |r| ==> r[i] != r[j]
      invariant forall s :: s in r <==> exists id :: id in entries && id !in pending && ScoutName(entries[id]) == s
      decreases pending
    {
      var id :| id in pending;
      var name := ScoutName(entries[id]);
      if name !in r {
        r := r + [name];
      }
      pending := pending - {id};
    }
  }

  /** `getMatchScouts` and `getPitScouts`: the scouts of the record under `key`, or none
      when it is missing or belongs to another year or event. */
  method RecordScouts(store: LocalStorage, key: string, year: nat, event: string) returns (r: seq<string>)
    requires key in store.items ==> store.items[key].Record?
    ensures key !in store.items ==> r == []
    ensures key in store.items ==>
      var d := store.items[key].rec.data;
      if d.year == year && d.event == event
      then (forall s :: s in r <==> s in ScoutsOf(d.entries)) && (forall i, j :: 0 <= i < j < |r| ==> r[i] != r[j])
      else r == []
  {
    match store.GetItem(key) {
      case None => r := [];
      case Some(item) =>
        var d := item.rec.data;
        if d.year != year || d.event != event {
          r := [];
        } else {
          r := Scouts(d.entries);
        }
    }
  }

  method GetMatchScouts(store: LocalStorage, matchId: nat, teamId: nat, year: nat, event: string) returns (r: seq<string>)
    requires var k := MatchKey(Decimal(matchId), Decimal(teamId)); k in store.items ==> store.items[k].Record?
    ensures var k := MatchKey(Decimal(matchId), Decimal(teamId));
      && (k !in store.items ==> r == [])
      && (k in store.items ==>
            var d := store.items[k].rec.data;
            if d.year == year && d.event == event
            then (forall s :: s in r <==> s in ScoutsOf(d.entries)) && (forall i, j :: 0 <= i < j < |r| ==> r[i] != r[j])
            else r == [])
  {
    r := RecordScouts(store, MatchKey(Decimal(matchId), Decimal(teamId)), year, event);
  }

  method GetPitScouts(store: LocalStorage, teamId: nat, year: nat, event: string) returns (r: seq<string>)
    requires var k := PitKey(Decimal(teamId)); k in store.items ==> store.items[k].Record?
    ensures var k := PitKey(Decimal(teamId));
      && (k !in store.items ==> r == [])
      && (k in store.items ==>
            var d := store.items[k].rec.data;
            if d.year == year && d.event == event
            then (forall s :: s in r <==> s in ScoutsOf(d.entries)) && (forall i, j :: 0 <= i < j < |r| ==> r[i] != r[j])
            else r == [])
  {
    r := RecordScouts(store, PitKey(Decimal(teamId)), year, event);
  }

  // ---------------------------------------------------------------------------
  // The entry-page hook

  /** JavaScript truthiness of an optional string: present and not empty. */
  predicate Truthy(s: Option<string>) {
    s.Some? && s.value != ""
  }

  /** The record a page starts from when nothing usable is stored. */
  function EmptyData(year: Option<nat>, eventCode: Option<string>): EntryData {
    EntryData(year.GetOr(0), eventCode.GetOr(""), map[], 0)
  }

  /** The setter's rule: no value removes the field, a value replaces it. */
  function Edited(entries: map<string, FieldValue>, id: string, value: Option<FieldValue>): (r: map<string, FieldValue>)
    ensures id in r <==> value.Some?
    ensures value.Some? ==> r[id] == value.value
    ensures forall other :: other != id ==> (other in r <==> other in entries)
    ensures forall other :: other != id && other in r ==> r[other] == entries[other]
  {
    match value
    case None => entries - {id}
    case Some(v) => entries[id := v]
  }

  /** What loading a key yields: the stored record's data if it is for this year and event. */
  function Loaded(item: Option<Stored>, year: Option<nat>, eventCode: Option<string>): (r: EntryData)
    requires item.Some? ==> item.value.Record?
    ensures item.Some? && Some(item.value.rec.data.year) == year && Some(item.value.rec.data.event) == eventCode
            ==> r == item.value.rec.data
    ensures !(item.Some? && Some(item.value.rec.data.year) == year && Some(item.value.rec.data.event) == eventCode)
            ==> r == EmptyData(year, eventCode) && r.entries == map[] && r.timestampMs == 0
  {
    match item
    case Some(Record(rec)) =>
      if Some(rec.data.year) == year && Some(rec.data.event) == eventCode then rec.data
      else EmptyData(year, eventCode)
    case None => EmptyData(year, eventCode)
  }

  /** `useEntries`: the record a page edits, whether it was edited since it was loaded,
      and the arguments the page passed in. */
  class EntryHook {
    const scoutName: Option<string>
    const year: Option<nat>
    const eventCode: Option<string>
    const key: Option<string>
    var data: EntryData
    var changed: bool

    constructor(scoutName: Option<string>, year: Option<nat>, eventCode: Option<string>, key: Option<string>)
      ensures this.scoutName == scoutName && this.year == year && this.eventCode == eventCode && this.key == key
      ensures data == EmptyData(year, eventCode) && !changed
    {
      this.scoutName := scoutName;
      this.year := year;
      this.eventCode := eventCode;
      this.key := key;
      data := EmptyData(year, eventCode);
      changed := false;
    }

    /** The setter: edits one field, marks the record changed, and re-stamps it with the
        page's year and event and a zero timestamp. */
    method SetEntry(id: string, value: Option<FieldValue>)
      modifies this
      ensures data == EntryData(year.GetOr(0), eventCode.GetOr(""), Edited(old(data.entries), id, value), 0)
      ensures changed
    {
      var newEntries := data.entries;
      match value {
        case None => newEntries := newEntries - {id};
        case Some(v) => newEntries := newEntries[id := v];
      }
      changed := true;
      data := EntryData(year.GetOr(0), eventCode.GetOr(""), newEntries, 0);
    }

    /** A record is written only when it changed, has a key and a scout, and holds a field. */
    predicate ShouldPersist()
      reads this
    {
      changed && Truthy(key) && Truthy(scoutName) && |data.entries| > 0
    }

    /** The save effect: writes the record that `maker` builds from the data under the key. */
    method Persist(store: LocalStorage, maker: EntryData -> EntryRecord)
      requires store.Valid()
      modifies store
      ensures store.Valid()
      ensures ShouldPersist() ==>
        store.items == old(store.items)[key.value := Record(maker(data))]
        && store.keys == KeysAfterSet(old(store.keys), old(store.items), key.value)
      ensures !ShouldPersist() ==> store.items == old(store.items) && store.keys == old(store.keys)
    {
      if changed && key.Some? && key.value != "" && scoutName.Some? && scoutName.value != "" && |data.entries| > 0 {
        store.SetItem(key.value, Record(maker(data)));
      }
    }

    /** The load effect: with a key, the stored record for this year and event is taken,
        otherwise an empty one; either way the record counts as unchanged. */
    method Load(store: LocalStorage)
      requires Truthy(key) && key.value in store.items ==> store.items[key.value].Record?
      modifies this
      ensures Truthy(key) ==> !changed && data == Loaded(store.GetItem(key.value), year, eventCode)
      ensures !Truthy(key) ==> data == old(data) && changed == old(changed)
    {
      if key.Some? && key.value != "" {
        var item := store.GetItem(key.value);
        match item {
          case Some(Record(rec)) =>
            if Some(rec.data.year) == year && Some(rec.data.event) == eventCode {
              data := rec.data;
            } else {
              data := EmptyData(year, eventCode);
            }
          case None =>
            data := EmptyData(year, eventCode);
        }
        changed := false;
      }
    }
  }

  /** A record the page saved is what the page loads back for the same year and event,
      when `maker` keeps the data it is given. */
  lemma LoadSaved(d: EntryData, year: nat, eventCode: string, maker: EntryData -> EntryRecord)
    requires d.year == year && d.event == eventCode && maker(d).data == d
    ensures Loaded(Some(Record(maker(d))), Some(year), Some(eventCode)) == d
  {
  }

  // ---------------------------------------------------------------------------
  // Image upload and promotion

  /** An image stays local unless it was local and its upload was accepted. */
  function PromoteImage(img: Data.ImageRef, accepted: string -> bool): (r: Data.ImageRef)
    ensures r.imageId == img.imageId && r.imageMime == img.imageMime
    ensures r.local <==> img.local && !accepted(img.imageId)
  {
    if img.local && accepted(img.imageId) then img.(local := false) else img
  }

  /** The first `j` images promoted, the rest as they were. */
  function PromoteFirst(images: seq<Data.ImageRef>, accepted: string -> bool, j: nat): (r: seq<Data.ImageRef>)
    requires j <= |images|
    ensures |r| == |images|
    ensures forall t :: 0 <= t < |images| ==> r[t] == if t < j then PromoteImage(images[t], accepted) else images[t]
  {
    seq(|images|, t requires 0 <= t < |images| => if t < j then PromoteImage(images[t], accepted) else images[t])
  }

  function PromoteValue(v: FieldValue, accepted: string -> bool): FieldValue {
    match v.value
    case Image(images) => v.(value := Data.Image(PromoteFirst(images, accepted, |images|)))
    case _ => v
  }

  /** The record with the fields in `done` promoted. */
  function PromoteFields(e: EntryRecord, done: set<string>, accepted: string -> bool): EntryRecord {
    var es := e.data.entries;
    e.(data := e.data.(entries := map id | id in es :: if id in done then PromoteValue(es[id], accepted) else es[id]))
  }

  function PromoteRecord(e: EntryRecord, accepted: string -> bool): EntryRecord {
    PromoteFields(e, e.data.entries.Keys, accepted)
  }

  /** A field holds a local image whose upload is accepted. */
  predicate Uploads(v: FieldValue, accepted: string -> bool) {
    v.value.Image? && exists t :: 0 <= t < |v.value.images| && v.value.images[t].local && accepted(v.value.images[t].imageId)
  }

  predicate RecordUploads(e: EntryRecord, accepted: string -> bool) {
    exists id :: id in e.data.entries && Uploads(e.data.entries[id], accepted)
  }

  /** Storage after the promoted records are written back, in order. */
  function WriteBack(keys: seq<string>, items: map<string, Stored>, es: seq<EntryRecord>,
                     getKey: EntryRecord -> string, accepted: string -> bool): (seq<string>, map<string, Stored>)
  {
    if es == [] then (keys, items)
    else
      var (ks, its) := WriteBack(keys, items, es[..|es| - 1], getKey, accepted);
      var e := es[|es| - 1];
      if RecordUploads(e, accepted)
      then (if getKey(e) in its then ks else ks + [getKey(e)], its[getKey(e) := Record(PromoteRecord(e, accepted))])
      else (ks, its)
  }

  /** `saveImageData`: each local image is sent; when the upload is accepted the image
      stops being local and its whole record is written again under `getKey`.
      A failed upload leaves the image local; images already sent are not sent again.
      `accepted` stands for the outcome of each upload. The answer is always true. */
  method SaveImageData(store: LocalStorage, entries: seq<EntryRecord>, getKey: EntryRecord -> string,
                       accepted: string -> bool) returns (ok: bool, promoted: seq<EntryRecord>)
    requires store.Valid()
    modifies store
    ensures store.Valid()
    ensures ok
    ensures |promoted| == |entries| && forall i :: 0 <= i < |entries| ==> promoted[i] == PromoteRecord(entries[i], accepted)
    ensures (store.keys, store.items) == WriteBack(old(store.keys), old(store.items), entries, getKey, accepted)
  {
    promoted := [];
    for i := 0 to |entries|
      invariant store.Valid()
      invariant |promoted| == i && forall t :: 0 <= t < i ==> promoted[t] == PromoteRecord(entries[t], accepted)
      invariant (store.keys, store.items) == WriteBack(old(store.keys), old(store.items), entries[..i], getKey, accepted)
    {
      assert entries[..i + 1][..i] == entries[..i];
      var e := SendRecordImages(store, entries[i], getKey(entries[i]), accepted);
      promoted := promoted + [e];
    }
    assert entries[..|entries|] == entries;
    ok := true;
  }

  /** The keys after `setItem(k, ...)`. */
  function KeysAfterSet(keys: seq<string>, items: map<string, Stored>, k: string): seq<string> {
    if k in items then keys else keys + [k]
  }

  /** A field without an accepted local image is left as it is. */
  lemma PromoteValueUnchanged(v: FieldValue, accepted: string -> bool)
    requires !Uploads(v, accepted)
    ensures PromoteValue(v, accepted) == v
  {
    if v.value.Image? {
      assert PromoteFirst(v.value.images, accepted, |v.value.images|) == v.value.images;
    }
  }

  /** Promoting one more field of the record. */
  lemma PromoteFieldsStep(e: EntryRecord, done: set<string>, id: string, accepted: string -> bool)
    requires id in e.data.entries
    ensures SetField(PromoteFields(e, done, accepted), id, PromoteValue(e.data.entries[id], accepted))
         == PromoteFields(e, done + {id}, accepted)
  {
  }

  /** Some field in `done` holds an accepted local image. */
  ghost predicate UploadsAmong(e: EntryRecord, done: set<string>, accepted: string -> bool) {
    exists id :: id in done && id in e.data.entries && Uploads(e.data.entries[id], accepted)
  }

  /** The storage holds `cur` under `key` once some upload was accepted, and is untouched before. */
  ghost predicate Written(store: LocalStorage, wrote: bool, cur: EntryRecord, key: string,
                          keys0: seq<string>, items0: map<string, Stored>)
    reads store
  {
    && store.Valid()
    && (wrote ==> store.items == items0[key := Record(cur)] && store.keys == KeysAfterSet(keys0, items0, key))
    && (!wrote ==> store.items == items0 && store.keys == keys0)
  }

  /** Some image before position `j` is local and accepted. */
  ghost predicate SentBefore(images: seq<Data.ImageRef>, accepted: string -> bool, j: nat)
    requires j <= |images|
  {
    exists t :: 0 <= t < j && images[t].local && accepted(images[t].imageId)
  }

  lemma SentBeforeNext(images: seq<Data.ImageRef>, accepted: string -> bool, j: nat)
    requires j < |images|
    ensures SentBefore(images, accepted, j + 1)
        <==> SentBefore(images, accepted, j) || (images[j].local && accepted(images[j].imageId))
  {
    if SentBefore(images, accepted, j + 1) && !(images[j].local && accepted(images[j].imageId)) {
      var t :| 0 <= t < j + 1 && images[t].local && accepted(images[t].imageId);
      assert t < j;
    }
  }

  /** The image at position `j`: if it is local and accepted, it is marked sent and the
      record is written under `key`. */
  method SendImage(store: LocalStorage, base: EntryRecord, id: string, v: FieldValue, key: string,
                   accepted: string -> bool, images: seq<Data.ImageRef>, imgs: seq<Data.ImageRef>, j: nat,
                   ghost wrote: bool, ghost keys0: seq<string>, ghost items0: map<string, Stored>)
    returns (imgs': seq<Data.ImageRef>, cur: EntryRecord)
    requires j < |images| && imgs == PromoteFirst(images, accepted, j)
    requires Written(store, wrote, SetField(base, id, v.(value := Data.Image(imgs))), key, keys0, items0)
    modifies store
    ensures imgs' == PromoteFirst(images, accepted, j + 1)
    ensures cur == SetField(base, id, v.(value := Data.Image(imgs')))
    ensures Written(store, wrote || (images[j].local && accepted(images[j].imageId)), cur, key, keys0, items0)
  {
    imgs' := imgs;
    if imgs[j].local && accepted(imgs[j].imageId) {
      imgs' := imgs[j := imgs[j].(local := false)];
      cur := SetField(base, id, v.(value := Data.Image(imgs')));
      store.SetItem(key, Record(cur));
    } else {
      cur := SetField(base, id, v.(value := Data.Image(imgs')));
    }
    assert imgs' == PromoteFirst(images, accepted, j + 1);
  }

  /** The images of field `id`, which holds `v`: each accepted upload marks the image
      sent and rewrites the whole record under `key`. */
  method SendImages(store: LocalStorage, base: EntryRecord, id: string, v: FieldValue, key: string,
                    accepted: string -> bool, ghost wrote: bool, ghost keys0: seq<string>,
                    ghost items0: map<string, Stored>)
    returns (cur: EntryRecord)
    requires id in base.data.entries && base.data.entries[id] == v && v.value.Image?
    requires Written(store, wrote, base, key, keys0, items0)
    modifies store
    ensures cur == SetField(base, id, PromoteValue(v, accepted))
    ensures Written(store, wrote || Uploads(v, accepted), cur, key, keys0, items0)
  {
    var images := v.value.images;
    var imgs := images;
    assert SetField(base, id, v) == base;
    assert v.(value := Data.Image(imgs)) == v;
    cur := base;
    for j := 0 to |images|
      invariant imgs == PromoteFirst(images, accepted, j)
      invariant cur == SetField(base, id, v.(value := Data.Image(imgs)))
      invariant Written(store, wrote || SentBefore(images, accepted, j), cur, key, keys0, items0)
    {
      SentBeforeNext(images, accepted, j);
      imgs, cur := SendImage(store, base, id, v, key, accepted, images, imgs, j,
                             wrote || SentBefore(images, accepted, j), keys0, items0);
    }
  }

  /** One field of the record: its images are sent, and the record so far is updated. */
  method SendField(store: LocalStorage, e: EntryRecord, ghost done: set<string>, id: string, base: EntryRecord,
                   key: string, accepted: string -> bool, ghost keys0: seq<string>, ghost items0: map<string, Stored>)
    returns (cur: EntryRecord)
    requires id in e.data.entries && id !in done && base == PromoteFields(e, done, accepted)
    requires Written(store, UploadsAmong(e, done, accepted), base, key, keys0, items0)
    modifies store
    ensures cur == PromoteFields(e, done + {id}, accepted)
    ensures Written(store, UploadsAmong(e, done + {id}, accepted), cur, key, keys0, items0)
  {
    var v := e.data.entries[id];
    assert UploadsAmong(e, done + {id}, accepted) == (UploadsAmong(e, done, accepted) || Uploads(v, accepted));
    PromoteFieldsStep(e, done, id, accepted);
    assert base.data.entries[id] == v;
    if v.value.Image? {
      cur := SendImages(store, base, id, v, key, accepted, UploadsAmong(e, done, accepted), keys0, items0);
    } else {
      PromoteValueUnchanged(v, accepted);
      assert SetField(base, id, v) == base;
      cur := base;
    }
  }

  /** The images of one record: each accepted upload rewrites the record under `key`. */
  method SendRecordImages(store: LocalStorage, e: EntryRecord, key: string, accepted: string -> bool)
    returns (cur: EntryRecord)
    requires store.Valid()
    modifies store
    ensures store.Valid()
    ensures cur == PromoteRecord(e, accepted)
    ensures RecordUploads(e, accepted) ==>
      store.items == old(store.items)[key := Record(cur)] && store.keys == KeysAfterSet(old(store.keys), old(store.items), key)
    ensures !RecordUploads(e, accepted) ==> store.items == old(store.items) && store.keys == old(store.keys)
  {
    ghost var keys0, items0 := store.keys, store.items;
    cur := e;
    var pending := e.data.entries.Keys;
    PromoteNothing(e, accepted);
    assert e.data.entries.Keys - pending == {};
    while pending != {}
      invariant pending <= e.data.entries.Keys
      invariant cur == PromoteFields(e, e.data.entries.Keys - pending, accepted)
      invariant Written(store, UploadsAmong(e, e.data.entries.Keys - pending, accepted), cur, key, keys0, items0)
      decreases pending
    {
      var id :| id in pending;
      ghost var done := e.data.entries.Keys - pending;
      cur := SendField(store, e, done, id, cur, key, accepted, keys0, items0);
      pending := pending - {id};
      assert done + {id} == e.data.entries.Keys - pending;
    }
    assert e.data.entries.Keys - pending == e.data.entries.Keys;
    assert UploadsAmong(e, e.data.entries.Keys, accepted) == RecordUploads(e, accepted);
  }

  /** Promoting no field leaves the record as it is. */
  lemma PromoteNothing(e: EntryRecord, accepted: string -> bool)
    ensures PromoteFields(e, {}, accepted) == e
  {
    assert PromoteFields(e, {}, accepted).data.entries == e.data.entries;
  }

  /** The record with one field set. */
  function SetField(e: EntryRecord, id: string, v: FieldValue): EntryRecord {
    e.(data := e.data.(entries := e.data.entries[id := v]))
  }
}
