/** `fillMap` decodes an array under a key ending in `@base64` or `@ISOtime`
    element by element, but stores the list under the key WITH its suffix,
    while a single instant or byte array loses the suffix. A written map
    holding a list of byte arrays or of instants therefore does not read back
    as itself, and every further write/read pass appends another suffix. The
    reader as written is `JsonConverter.ConstructMapAsWritten`; the corrected
    reader `JsonConverter.ConstructMap` removes the suffix, and the round trip
    is proved for it in `JsonProperties.ExactRoundTrip`. */
module ArraySuffixFinding {
  import opened Results
  import opened AssocLists
  import opened Values
  import opened Instants
  import opened JsonConverter
  import opened JsonRoundTrip
  import Base64

  /** A one-entry map is written as a one-member object. */
  lemma WriteOne(e: Entry, codec: TimeCodec, m: Member)
    requires StoreEntry(e, codec) == Ok(Some(m))
    ensures ConstructJsonObject([e], codec) == Ok([m])
  {
    var es := [e];
    assert es[..0] == [];
    assert Keys<string, Json>([]) == [];
    assert Put([], m.key, m.value) == [] + [m] == [m];
  }

  /** A one-member object is read as a one-entry map. */
  lemma ReadOne(m: Member, codec: TimeCodec, stripArrays: bool, k: string, v: Value)
    requires ParseMember(m, codec, stripArrays) == Ok((k, v))
    ensures FillMap([m], codec, stripArrays) == Ok([Pair(Some(k), v)])
  {
    var ms := [m];
    assert ms[..0] == [];
    assert Keys<Option<string>, Value>([]) == [];
    assert Put([], Some(k), v) == [] + [Pair(Some(k), v)] == [Pair(Some(k), v)];
  }

  /** As written, a list of byte arrays under `k` comes back under
      `k + "@base64"`. */
  lemma {:induction false} BinaryListKeepsSuffixAsWritten(k: string, items: seq<Value>, codec: TimeCodec)
    requires IsBinaryList(items)
    ensures ConstructJsonObject([Pair(Some(k), List(items))], codec) == Ok([Pair(k + BinarySuffix, JArray(EncodeByteArrays(items)))])
    ensures ConstructMapAsWritten([Pair(k + BinarySuffix, JArray(EncodeByteArrays(items)))], codec)
            == Ok([Pair(Some(k + BinarySuffix), List(items))])
  {
    BinaryListRoundTrip(k, items, codec);
    WriteOne(Pair(Some(k), List(items)), codec, Pair(k + BinarySuffix, JArray(EncodeByteArrays(items))));
    AppendedSuffixEnds(k, BinarySuffix);
    BinaryNameNotTimeName(k);
    ByteArraysRoundTrip(items);
    ReadOne(Pair(k + BinarySuffix, JArray(EncodeByteArrays(items))), codec, false, k + BinarySuffix, List(items));
  }

  /** As written, a list of instants under `k` comes back under
      `k + "@ISOtime"`. */
  lemma {:induction false} TimeListKeepsSuffixAsWritten(k: string, items: seq<Value>, codec: TimeCodec)
    requires Valid(codec) && IsTimeList(items)
    ensures ConstructJsonObject([Pair(Some(k), List(items))], codec) == Ok([Pair(k + TimeSuffix, JArray(FormatTimes(items, codec)))])
    ensures ConstructMapAsWritten([Pair(k + TimeSuffix, JArray(FormatTimes(items, codec)))], codec)
            == Ok([Pair(Some(k + TimeSuffix), List(items))])
  {
    TimeListRoundTrip(k, items, codec);
    WriteOne(Pair(Some(k), List(items)), codec, Pair(k + TimeSuffix, JArray(FormatTimes(items, codec))));
    AppendedSuffixEnds(k, TimeSuffix);
    TimesRoundTrip(items, codec);
    ReadOne(Pair(k + TimeSuffix, JArray(FormatTimes(items, codec))), codec, false, k + TimeSuffix, List(items));
  }

  /** The input that shows it: `{"b": [[1]]}`, a map holding one list of one
      one-byte array. Written, it is `{"b@base64": ["AQ=="]}`; read back as
      written, it is `{"b@base64": [[1]]}`, not the map written; written
      again, it is `{"b@base64@base64": ["AQ=="]}`. */
  lemma SuffixDriftExample(codec: TimeCodec)
    ensures var m: seq<Entry> := [Pair(Some("b"), List([Binary([1])]))];
            var once := ConstructJsonObject(m, codec);
            && once == Ok([Pair("b@base64", JArray([JString("AQ==")]))])
            && ConstructMapAsWritten(once.value, codec) == Ok([Pair(Some("b@base64"), List([Binary([1])]))])
            && ConstructMapAsWritten(once.value, codec) != Ok(m)
            && ConstructJsonObject(ConstructMapAsWritten(once.value, codec).value, codec)
               == Ok([Pair("b@base64@base64", JArray([JString("AQ==")]))])
  {
    var items := [Binary([1])];
    assert IsBinaryList(items);
    var texts := EncodeByteArrays(items);
    ExampleTexts();
    ExampleNames();
    BinaryListKeepsSuffixAsWritten("b", items, codec);
    BinaryListRoundTrip("b@base64", items, codec);
    WriteOne(Pair(Some("b@base64"), List(items)), codec, Pair("b@base64@base64", JArray(texts)));
  }

  lemma ExampleTexts()
    ensures EncodeByteArrays([Binary([1])]) == [JString("AQ==")]
  {
    assert Base64.Encode([1]) == "AQ==";
    assert EncodeByteArrays([Binary([1])]) == EncodeByteArrays([]) + [JString(Base64.Encode([1]))];
  }

  lemma ExampleNames()
    ensures "b" + BinarySuffix == "b@base64"
    ensures "b@base64" + BinarySuffix == "b@base64@base64"
  {
  }

  /** The corrected reader gives the list back under its own key. */
  lemma BinaryListRoundTripCorrected(k: string, items: seq<Value>, codec: TimeCodec)
    requires IsBinaryList(items)
    ensures ConstructMap([Pair(k + BinarySuffix, JArray(EncodeByteArrays(items)))], codec)
            == Ok([Pair(Some(k), List(items))])
  {
    BinaryListRoundTrip(k, items, codec);
    ReadOne(Pair(k + BinarySuffix, JArray(EncodeByteArrays(items))), codec, true, k, List(items));
  }
}
