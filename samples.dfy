/** The sample model the reporter consumes: metric types, samples and their tag maps. */
module Samples {

  /** A value that may be absent, standing for a Java reference that may be null. */
  datatype Option<+T> = None | Some(value: T)

  /** What a call into code outside the core did: returned a value, or threw. */
  datatype Outcome<+T> = Returns(value: T) | Throws

  /** The sample types the dispatch switch knows, and any other value of the enum. */
  datatype MetricType = Gauge | Counter | Unsupported(typeName: string)

  /** The entries of a tag map, in the map's iteration order: no key occurs twice. */
  predicate DistinctKeys(entries: seq<(string, string)>) {
    forall i, j :: 0 <= i < j < |entries| ==> entries[i].0 != entries[j].0
  }

  type TagMap = entries: seq<(string, string)> | DistinctKeys(entries)

  /**
   * One observed metric. `kind` is None when the sample reports no type,
   * `tags` is None when it has no tag map. The value is kept opaque.
   */
  datatype Sample = Sample(name: string, kind: Option<MetricType>, tags: Option<TagMap>, value: int)
}
