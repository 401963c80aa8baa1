/** The rrweb data the whole system passes around: serialized DOM nodes, event payloads, events.

    Characters stand for UTF-16 code units, so lengths are JavaScript's. */
module Rrweb {
  import opened Prelude

  /** A serialized node, or the null the walks tolerate. */
  datatype Node =
    | Absent
    | Node(id: Option<int>, kind: int, tagName: Option<string>, attributes: map<string, string>,
           textContent: Option<string>, childNodes: seq<Node>)

  /** One argument of a console call: a string, or any other value as `String` renders it. */
  datatype ConsoleArg = Quoted(text: string) | Other(text: string)

  /** The arguments of a console call, or a value that is not an array as `String` renders it. */
  datatype ConsoleArgs = Scalar(text: string) | Args(args: seq<ConsoleArg>)

  /** The fields of an event's data that are read anywhere; `None` is an absent field or one of the
      wrong type. */
  datatype Data =
    | NoData
    | Data(node: Option<Node>, source: Option<int>, adds: Option<seq<Node>>, plugin: Option<string>,
           level: Option<string>, args: ConsoleArgs, href: Option<string>, interaction: Option<int>,
           target: Option<int>)

  const FULL_SNAPSHOT := 2
  const INCREMENTAL := 3
  const META := 4
  const PLUGIN := 6

  datatype RawEvent = RawEvent(kind: int, data: Data, timestamp: int)
}
