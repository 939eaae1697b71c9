/** The dynamically typed values a `Map<String,Object>` holds, as far as the
    JSON converter distinguishes them, and the JSON tree it converts them to. */
module Values {
  import opened Results
  import opened AssocLists
  import Base64
  import Instants

  newtype int64 = x: int | -0x8000_0000_0000_0000 <= x < 0x8000_0000_0000_0000

  const TwoTo64: int := 0x1_0000_0000_0000_0000

  /** The low 64 bits of `x` read as a two's-complement `long`: what
      `BigDecimal.longValue()` returns for an integral number. */
  function Wrap64(x: int): (r: int64)
    ensures (r as int - x) % TwoTo64 == 0
    ensures -0x8000_0000_0000_0000 <= x < 0x8000_0000_0000_0000 ==> r as int == x
  {
    var m := x % TwoTo64;
    if m < 0x8000_0000_0000_0000 then m as int64 else (m - TwoTo64) as int64
  }

  /** The integral boxed types that the converter writes with `longValue()`. */
  datatype IntegralKind = ByteKind | ShortKind | IntegerKind | LongKind

  /** A decimal number `unscaled * 10^(-scale)`, as a `java.math.BigDecimal`
      holds it. */
  datatype Decimal = Decimal(unscaled: int, scale: int)

  /** The kinds of object the converter tells apart.
      - `Integral`: a Long, Integer, Short or Byte;
      - `Real`: any other `Number`, held as the decimal expansion of its
        `doubleValue()`;
      - `Time`: a `java.time.Instant`, the only `TemporalAccessor` modelled;
      - `Binary`: a `byte[]`;
      - `List`: a `java.util.List`;
      - `Map`: a `java.util.Map`, as its entries in iteration order; a `None`
        key is a null key;
      - `Unsupported`: an object of any other class, by its canonical name. */
  datatype Value =
    | Null
    | Bool(b: bool)
    | Integral(kind: IntegralKind, n: int64)
    | Real(d: Decimal)
    | Text(s: string)
    | Time(t: Instants.Instant)
    | Binary(bytes: seq<Base64.byte>)
    | List(items: seq<Value>)
    | Map(entries: seq<Pair<Option<string>, Value>>)
    | Unsupported(className: string)

  type Entry = Pair<Option<string>, Value>

  /** A JSON value, as `javax.json` represents it. A number is the decimal it
      denotes; an object is its members in insertion order. */
  datatype Json =
    | JNull
    | JBool(b: bool)
    | JNumber(unscaled: int, scale: int)
    | JString(s: string)
    | JArray(items: seq<Json>)
    | JObject(members: seq<Pair<string, Json>>)

  type Member = Pair<string, Json>
}
