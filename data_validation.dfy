/** Server-side check of an uploaded record against the stage's form. */
module DataValidation {
  import opened Data
  import MatchEntry

  /** Whether a value has the kind its form entry declares. */
  predicate KindMatches(e: MatchEntry.MatchEntryType, v: MatchEntryValue) {
    || (e.Ability? && v.Ability?)
    || (e.Enum? && v.Enum?)
    || (e.Bool? && v.Bool?)
    || (e.Timer? && v.Timer?)
    || (e.Counter? && v.Counter?)
    || (e.TextEntry? && v.TextEntry?)
    || (e.Image? && v.Image?)
  }

  /** An entry survives when the form declares its id with a matching kind. */
  predicate Keep(fields: MatchEntry.MatchEntryFields, id: string, v: MatchEntryValue) {
    id in fields.entries && KindMatches(fields.entries[id].entry, v)
  }

  /** The entries that survive validation. */
  function Retained(entries: map<string, MatchEntryValue>, fields: MatchEntry.MatchEntryFields): (r: map<string, MatchEntryValue>)
    ensures r.Keys <= entries.Keys
    ensures forall id :: id in r ==> id in fields.entries && KindMatches(fields.entries[id].entry, r[id])
    ensures forall id :: id in r ==> r[id] == entries[id]
    ensures forall id :: id in entries && id !in r ==> !Keep(fields, id, entries[id])
  {
    map id | id in entries && Keep(fields, id, entries[id]) :: entries[id]
  }

  /** Drops every entry whose id is undeclared or whose kind differs from the
      declared one; the rest of the record is returned as it came. */
  method ValidateMatch(data: FullEntryData, fields: MatchEntry.MatchEntryFields) returns (r: FullEntryData)
    ensures r == data.(entries := Retained(data.entries, fields))
  {
    var entries := data.entries;
    var pending := data.entries.Keys;
    while pending != {}
      invariant pending <= data.entries.Keys
      invariant forall id :: id in entries <==> id in data.entries && (id in pending || Keep(fields, id, data.entries[id]))
      invariant forall id :: id in entries ==> entries[id] == data.entries[id]
      decreases pending
    {
      var id :| id in pending;
      if !Keep(fields, id, entries[id]) {
        entries := entries - {id};
      }
      pending := pending - {id};
    }
    assert entries == Retained(data.entries, fields);
    r := data.(entries := entries);
  }

  /** Validating an already validated record changes nothing. */
  lemma ValidateIdempotent(entries: map<string, MatchEntryValue>, fields: MatchEntry.MatchEntryFields)
    ensures Retained(Retained(entries, fields), fields) == Retained(entries, fields)
  {
  }
}
