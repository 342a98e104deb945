/** The plain data of mocktracer/include/opentracing/mocktracer/recorder.h and include/opentracing. */
module SpanData {
  import opened Bytes

  datatype SpanContextData =
    SpanContextData(traceId: UInt64, spanId: UInt64, baggage: map<ByteString, ByteString>)

  /** A value-initialised context. */
  const EMPTY_CONTEXT := SpanContextData(0, 0, map[])

  datatype ReferenceType = ChildOf | FollowsFrom

  datatype SpanReferenceData = SpanReferenceData(kind: ReferenceType, traceId: UInt64, spanId: UInt64)

  type Int64 = x: int | -0x8000_0000_0000_0000 <= x < 0x8000_0000_0000_0000

  /** What `operator<<` makes of a double. The text of a finite one is taken as given. */
  datatype Double = NaN | PosInf | NegInf | Finite(text: string)

  /** A tag or log value; a dictionary is given by its entries in iteration order. */
  datatype Value =
    | Bool(b: bool)
    | Number(d: Double)
    | Signed(i: Int64)
    | Unsigned(u: UInt64)
    | String(s: string)
    | Null
    | Array(values: seq<Value>)
    | Dictionary(entries: seq<(string, Value)>)

  /** Times are nanoseconds since the clock's epoch. */
  datatype LogRecord = LogRecord(timestamp: Int64, fields: seq<(string, Value)>)

  datatype SpanData = SpanData(
    context: SpanContextData,
    references: seq<SpanReferenceData>,
    operationName: string,
    startTimestamp: Int64,
    duration: Int64,
    tags: map<ByteString, Value>,
    logs: seq<LogRecord>)
}
