/** The server's store of match entries: a byte-keyed tree whose keys join the
    event, match id and team with the separator byte 255. */
module Database {
  import opened Wrappers
  import opened Data

  type Byte = b: int | 0 <= b < 256

  /** The bytes of a Rust string. UTF-8 never uses the byte 255, which is all
      this model needs of the encoding. */
  type Text = s: seq<Byte> | 255 !in s

  const Separator: Byte := 255

  /** "match_entry" in ASCII. */
  const Tag: Text := [109, 97, 116, 99, 104, 95, 101, 110, 116, 114, 121]

  /** The key of an (event, match id, team) triple. */
  function KeyOf(event: Text, matchId: Text, team: Text): seq<Byte> {
    Tag + [Separator] + event + [Separator] + matchId + [Separator] + team
  }

  /** Builds the key by appending to a byte vector. */
  method MatchEntryKey(event: Text, matchId: Text, team: Text) returns (bytes: seq<Byte>)
    ensures bytes == KeyOf(event, matchId, team)
    ensures |bytes| == |Tag| + |event| + |matchId| + |team| + 3
  {
    bytes := Tag;
    bytes := bytes + [Separator];
    bytes := bytes + event;
    bytes := bytes + [Separator];
    bytes := bytes + matchId;
    bytes := bytes + [Separator];
    bytes := bytes + team;
  }

  /** Splits `s` at its first separator byte, if it has one. */
  function SplitFirst(s: seq<Byte>): (r: Option<(Text, seq<Byte>)>)
    ensures r.Some? ==> s == r.value.0 + [Separator] + r.value.1
    ensures r.None? <==> Separator !in s
  {
    if s == [] then None
    else if s[0] == Separator then Some(([], s[1..]))
    else match SplitFirst(s[1..])
      case None => None
      case Some(p) => Some(([s[0]] + p.0, p.1))
  }

  lemma {:induction false} SplitFirstOf(a: Text, b: seq<Byte>)
    ensures SplitFirst(a + [Separator] + b) == Some((a, b))
  {
    if a != [] {
      var s := a + [Separator] + b;
      assert s[0] == a[0] && a[0] != Separator;
      assert s[1..] == a[1..] + [Separator] + b;
      SplitFirstOf(a[1..], b);
      assert [a[0]] + a[1..] == a;
    }
  }

  /** Recovers the triple from a key. */
  function DecodeKey(key: seq<Byte>): Option<(Text, Text, Text)> {
    match SplitFirst(key)
    case None => None
    case Some((tag, rest1)) =>
      if tag != Tag then None
      else match SplitFirst(rest1)
        case None => None
        case Some((event, rest2)) =>
          match SplitFirst(rest2)
          case None => None
          case Some((matchId, team)) =>
            if Separator in team then None else Some((event, matchId, team))
  }

  /** Decoding a key gives back its triple. */
  lemma DecodeKeyOf(event: Text, matchId: Text, team: Text)
    ensures DecodeKey(KeyOf(event, matchId, team)) == Some((event, matchId, team))
  {
    var k := KeyOf(event, matchId, team);
    assert k == Tag + [Separator] + (event + [Separator] + matchId + [Separator] + team);
    SplitFirstOf(Tag, event + [Separator] + matchId + [Separator] + team);
    assert event + [Separator] + matchId + [Separator] + team == event + [Separator] + (matchId + [Separator] + team);
    SplitFirstOf(event, matchId + [Separator] + team);
    SplitFirstOf(matchId, team);
  }

  /** Distinct triples have distinct keys. */
  lemma KeyInjective(e1: Text, m1: Text, t1: Text, e2: Text, m2: Text, t2: Text)
    requires KeyOf(e1, m1, t1) == KeyOf(e2, m2, t2)
    ensures e1 == e2 && m1 == m2 && t1 == t2
  {
    DecodeKeyOf(e1, m1, t1);
    DecodeKeyOf(e2, m2, t2);
  }

  /** What a tree holds for a triple. */
  function Lookup(tree: map<seq<Byte>, MatchEntryData>, event: Text, matchId: Text, team: Text): Option<MatchEntryData> {
    var key := KeyOf(event, matchId, team);
    if key in tree then Some(tree[key]) else None
  }

  /** After a write to one triple every triple reads what was written last:
      the written data for that triple, the old data for every other one. */
  lemma LookupAfterStore(tree: map<seq<Byte>, MatchEntryData>, event: Text, matchId: Text, team: Text,
                         data: MatchEntryData, e: Text, m: Text, t: Text)
    ensures Lookup(tree[KeyOf(event, matchId, team) := data], e, m, t)
         == if (e, m, t) == (event, matchId, team) then Some(data) else Lookup(tree, e, m, t)
  {
    if (e, m, t) != (event, matchId, team) && KeyOf(e, m, t) == KeyOf(event, matchId, team) {
      KeyInjective(e, m, t, event, matchId, team);
    }
  }

  /** The match-entry tree, as a map from key bytes to records. */
  class Database {
    var matchEntries: map<seq<Byte>, MatchEntryData>

    constructor ()
      ensures matchEntries == map[]
    {
      matchEntries := map[];
    }

    method GetMatchEntryData(event: Text, matchId: Text, team: Text) returns (r: Option<MatchEntryData>)
      ensures r == Lookup(matchEntries, event, matchId, team)
    {
      var key := MatchEntryKey(event, matchId, team);
      if key in matchEntries {
        r := Some(matchEntries[key]);
      } else {
        r := None;
      }
    }

    method SetMatchEntryData(event: Text, matchId: Text, team: Text, data: MatchEntryData)
      modifies this
      ensures matchEntries == old(matchEntries)[KeyOf(event, matchId, team) := data]
      ensures Lookup(matchEntries, event, matchId, team) == Some(data)
      ensures forall e: Text, m: Text, t: Text :: (e, m, t) != (event, matchId, team) ==>
        Lookup(matchEntries, e, m, t) == Lookup(old(matchEntries), e, m, t)
    {
      var key := MatchEntryKey(event, matchId, team);
      matchEntries := matchEntries[key := data];
      forall e: Text, m: Text, t: Text | (e, m, t) != (event, matchId, team)
        ensures Lookup(matchEntries, e, m, t) == Lookup(old(matchEntries), e, m, t)
      {
        LookupAfterStore(old(matchEntries), event, matchId, team, data, e, m, t);
      }
    }
  }

  /** A fresh tree holds nothing. */
  lemma LookupEmpty(event: Text, matchId: Text, team: Text)
    ensures Lookup(map[], event, matchId, team) == None
  {
  }
}
