/**
 The parts of a parsed Compose document that the `local up` command reads:
 the file it came from and, for each service in order, its name and labels.
 */
module Compose {

  /** One `key: value` entry of a service's `labels` mapping. */
  datatype Label = Label(key: string, value: string)

  /** A Compose service. The labels are a mapping in the document; they are
      held here in the order in which iterating over that mapping visits
      them, which Go leaves unspecified (see `DistinctKeys`). */
  datatype Service = Service(name: string, labels: seq<Label>)

  /** A parsed Compose file: where it was read from, and its services in
      the order of the parsed configuration's `Services` slice. */
  datatype Config = Config(filename: string, services: seq<Service>)

  /** A label sequence that stems from a mapping mentions each key once. */
  predicate DistinctKeys(labels: seq<Label>)
  {
    forall i, j :: 0 <= i < j < |labels| ==> labels[i].key != labels[j].key
  }
}
