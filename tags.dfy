/** Flattening a sample's tag map into parallel label-name and label-value sequences. */
module Tags {
  import opened Samples

  /** The two sequences handed to a metrics backend: names[i] is labelled with values[i]. */
  datatype Labels = Labels(names: seq<string>, values: seq<string>)

  /** The key/value map an entry sequence denotes. */
  function EntriesMap(entries: seq<(string, string)>): map<string, string> {
    if entries == [] then map[] else EntriesMap(entries[1..])[entries[0].0 := entries[0].1]
  }

  /** The tag map of a sample as a map; a missing tag map is an empty one. */
  function AsMap(tags: Option<TagMap>): map<string, string> {
    match tags
    case None => map[]
    case Some(entries) => EntriesMap(entries)
  }

  /** The map a pair of parallel name and value sequences denotes. */
  function Zip(names: seq<string>, values: seq<string>): map<string, string>
    requires |names| == |values|
  {
    if names == [] then map[] else Zip(names[1..], values[1..])[names[0] := values[0]]
  }

  function Names(entries: seq<(string, string)>): (r: seq<string>)
    ensures |r| == |entries|
    ensures forall i :: 0 <= i < |entries| ==> r[i] == entries[i].0
  {
    if entries == [] then [] else [entries[0].0] + Names(entries[1..])
  }

  function Values(entries: seq<(string, string)>): (r: seq<string>)
    ensures |r| == |entries|
    ensures forall i :: 0 <= i < |entries| ==> r[i] == entries[i].1
  {
    if entries == [] then [] else [entries[0].1] + Values(entries[1..])
  }

  /** With distinct keys, every entry is in the map with its own value, and nothing else is. */
  lemma {:induction false} EntriesMapFacts(entries: seq<(string, string)>)
    requires DistinctKeys(entries)
    ensures |EntriesMap(entries)| == |entries|
    ensures forall i :: 0 <= i < |entries| ==>
      entries[i].0 in EntriesMap(entries) && EntriesMap(entries)[entries[i].0] == entries[i].1
    ensures forall k :: k in EntriesMap(entries) ==> k in Names(entries)
  {
    if entries != [] {
      var rest := entries[1..];
      assert DistinctKeys(rest) by {
        forall i, j | 0 <= i < j < |rest| ensures rest[i].0 != rest[j].0 {
          assert rest[i] == entries[i + 1] && rest[j] == entries[j + 1];
        }
      }
      EntriesMapFacts(rest);
      assert entries[0].0 !in EntriesMap(rest) by {
        assert forall j :: 0 <= j < |rest| ==> rest[j] == entries[j + 1];
      }
      forall i | 0 <= i < |entries|
        ensures entries[i].0 in EntriesMap(entries) && EntriesMap(entries)[entries[i].0] == entries[i].1
      {
        if i > 0 {
          assert entries[i] == rest[i - 1];
          assert entries[i].0 != entries[0].0;
        }
      }
      assert Names(entries) == [entries[0].0] + Names(rest);
    }
  }

  /**
   * getTags: a missing or empty tag map gives two empty sequences; otherwise the
   * names are the map's keys, each exactly once, and values[i] is the value of names[i].
   */
  function GetTags(tags: Option<TagMap>): (r: Labels)
    ensures (tags == None || tags == Some([])) ==> r == Labels([], [])
    ensures |r.names| == |r.values| == |AsMap(tags)|
    ensures forall i :: 0 <= i < |r.names| ==>
      r.names[i] in AsMap(tags) && AsMap(tags)[r.names[i]] == r.values[i]
    ensures forall i, j :: 0 <= i < j < |r.names| ==> r.names[i] != r.names[j]
    ensures forall k :: k in AsMap(tags) ==> k in r.names
  {
    match tags
    case None => Labels([], [])
    case Some(entries) =>
      if |entries| == 0 then Labels([], [])
      else
        EntriesMapFacts(entries);
        Labels(Names(entries), Values(entries))
  }

  /** Zipping the two sequences back together gives the tag map again. */
  lemma {:induction false} GetTagsRoundTrip(tags: Option<TagMap>)
    ensures Zip(GetTags(tags).names, GetTags(tags).values) == AsMap(tags)
  {
    match tags
    case None =>
    case Some(entries) =>
      ZipEntries(entries);
  }

  lemma {:induction false} ZipEntries(entries: seq<(string, string)>)
    ensures Zip(Names(entries), Values(entries)) == EntriesMap(entries)
  {
    if entries != [] {
      ZipEntries(entries[1..]);
      assert Names(entries)[1..] == Names(entries[1..]);
      assert Values(entries)[1..] == Values(entries[1..]);
    }
  }
}
