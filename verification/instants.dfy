/** Instants and their ISO-8601 text form.

    `java.time.format.DateTimeFormatter.ISO_INSTANT` (calendar arithmetic and
    all) is not modelled: a `TimeCodec` is a formatter together with a strict
    parser, and `Valid` says that the parser recovers every formatted instant,
    which is all the converter relies on. */
module Instants {
  import opened Results

  /** A point on the UTC time-line: seconds from the epoch plus a nanosecond
      adjustment, like `java.time.Instant`. */
  datatype Instant = Instant(epochSecond: int, nano: int)

  /** `format` is `ISO_INSTANT.format`; `parse` is `Instant.from(ISO_INSTANT.parse(_))`,
      with `None` where Java throws DateTimeParseException. */
  datatype TimeCodec = TimeCodec(format: Instant -> string, parse: string -> Option<Instant>)

  /** The parser is a left inverse of the formatter. */
  ghost predicate Valid(codec: TimeCodec)
  {
    forall t :: codec.parse(codec.format(t)) == Some(t)
  }

  /** A valid codec never gives two instants the same text. */
  lemma FormatInjective(codec: TimeCodec, a: Instant, b: Instant)
    requires Valid(codec)
    ensures codec.format(a) == codec.format(b) ==> a == b
  {
    assert codec.parse(codec.format(a)) == Some(a);
    assert codec.parse(codec.format(b)) == Some(b);
  }
}
