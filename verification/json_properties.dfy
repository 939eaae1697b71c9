/** The promises of `JSONConverter` beyond the per-call contracts: the
    "reverse operation" round trip in its exact form, the stability of a
    second pass, and the behaviours the code shows at its edges. */
module JsonProperties {
  import opened Results
  import opened AssocLists
  import opened Values
  import opened Instants
  import opened JsonConverter
  import opened JsonRoundTrip

  // ---------------------------------------------------------------------------
  // Values as the reader produces them.

  /** A value in the form the reader produces: every integral number a long,
      every other number a decimal with a non-zero scale. */
  predicate NormalForm(v: Value)
    decreases v, 0
  {
    match v
    case Integral(kind, _) => kind == LongKind
    case Real(d) => d.scale != 0
    case List(items) => forall i :: 0 <= i < |items| ==> NormalForm(items[i])
    case Map(es) => forall i :: 0 <= i < |es| ==> NormalFormEntry(es[i])
    case _ => true
  }

  predicate NormalFormEntry(e: Entry)
    decreases e, 1
  {
    NormalForm(e.value)
  }

  /** What the reader makes of a value is in normal form. */
  lemma {:induction false} NormalizeGivesNormalForm(v: Value)
    ensures NormalForm(Normalize(v))
    decreases v, 1
  {
    match v
    case List(items) =>
      forall i | 0 <= i < |items|
        ensures NormalForm(NormalizeItems(items)[i])
      {
        NormalizeGivesNormalForm(items[i]);
      }
    case Map(es) =>
      forall i | 0 <= i < |es|
        ensures NormalFormEntry(NormalizeEntries(es)[i])
      {
        NormalizeEntryGivesNormalForm(es[i]);
      }
    case _ =>
  }

  lemma {:induction false} NormalizeEntryGivesNormalForm(e: Entry)
    ensures NormalFormEntry(NormalizeEntry(e))
    decreases e, 2
  {
    NormalizeGivesNormalForm(e.value);
  }

  /** A value in normal form is left alone by the reader's number handling. */
  lemma {:induction false} NormalFormFixed(v: Value)
    requires NormalForm(v)
    ensures Normalize(v) == v
    decreases v, 1
  {
    match v
    case List(items) =>
      forall i | 0 <= i < |items|
        ensures NormalizeItems(items)[i] == items[i]
      {
        NormalFormFixed(items[i]);
      }
    case Map(es) =>
      forall i | 0 <= i < |es|
        ensures NormalizeEntries(es)[i] == es[i]
      {
        NormalFormEntryFixed(es[i]);
      }
    case _ =>
  }

  lemma {:induction false} NormalFormEntryFixed(e: Entry)
    requires NormalFormEntry(e)
    ensures NormalizeEntry(e) == e
    decreases e, 2
  {
    NormalFormFixed(e.value);
  }

  /** Normalising twice is normalising once. */
  lemma NormalizeIdempotent(v: Value)
    ensures Normalize(Normalize(v)) == Normalize(v)
  {
    NormalizeGivesNormalForm(v);
    NormalFormFixed(Normalize(v));
  }

  // ---------------------------------------------------------------------------
  // The round trip, exactly.

  /** `constructMap(constructJSONObject(m))` is `m` for every map whose keys
      survive and whose numbers are already in the reader's form: the
      "reverse operation" of the doc-comment, with the corrected reader. */
  lemma ExactRoundTrip(es: seq<Entry>, codec: TimeCodec)
    requires Valid(codec) && RoundTripEntries(es, true)
    requires forall i :: 0 <= i < |es| ==> NormalFormEntry(es[i])
    ensures ConstructJsonObject(es, codec).Ok?
    ensures ConstructMap(ConstructJsonObject(es, codec).value, codec) == Ok(es)
  {
    EntriesRoundTrip(es, codec, true);
    NormalFormFixed(Map(es));
  }

  /** The round trip through the reader as the source writes it also holds,
      as long as no list of instants or byte arrays occurs under a key. */
  lemma ExactRoundTripAsWritten(es: seq<Entry>, codec: TimeCodec)
    requires Valid(codec) && RoundTripEntries(es, false)
    requires forall i :: 0 <= i < |es| ==> NormalFormEntry(es[i])
    ensures ConstructJsonObject(es, codec).Ok?
    ensures ConstructMapAsWritten(ConstructJsonObject(es, codec).value, codec) == Ok(es)
  {
    EntriesRoundTrip(es, codec, false);
    NormalFormFixed(Map(es));
  }

  // ---------------------------------------------------------------------------
  // Normalising keeps a map inside the round-trip domain.

  lemma NormalizeKeepsKinds(v: Value)
    ensures Normalize(v).Time? <==> v.Time?
    ensures Normalize(v).Binary? <==> v.Binary?
    ensures Normalize(v).Unsupported? <==> v.Unsupported?
    ensures Normalize(v).List? <==> v.List?
    ensures Normalize(v).Map? <==> v.Map?
  {
  }

  lemma NormalizeKeepsTags(items: seq<Value>)
    ensures IsTimeList(NormalizeItems(items)) <==> IsTimeList(items)
    ensures IsBinaryList(NormalizeItems(items)) <==> IsBinaryList(items)
  {
    forall i | 0 <= i < |items|
      ensures NormalizeItems(items)[i].Time? <==> items[i].Time?
      ensures NormalizeItems(items)[i].Binary? <==> items[i].Binary?
    {
      NormalizeKeepsKinds(items[i]);
    }
  }

  lemma {:induction false} NormalizeKeepsRoundTrips(v: Value, stripArrays: bool)
    requires RoundTrips(v, stripArrays)
    ensures RoundTrips(Normalize(v), stripArrays)
    ensures IsTagged(Normalize(v)) <==> IsTagged(v)
    decreases v, 1
  {
    match v
    case List(items) =>
      NormalizeKeepsTags(items);
      if !(stripArrays && (IsTimeList(items) || IsBinaryList(items))) {
        NormalizeKeepsPlainItems(items, stripArrays);
      }
    case Map(es) =>
      NormalizeKeepsRoundTripEntries(es, stripArrays);
    case _ =>
  }

  lemma {:induction false} NormalizeKeepsPlainItem(v: Value, stripArrays: bool)
    requires PlainItem(v, stripArrays)
    ensures PlainItem(Normalize(v), stripArrays)
    decreases v, 1
  {
    match v
    case List(items) => NormalizeKeepsPlainItems(items, stripArrays);
    case Map(es) => NormalizeKeepsRoundTripEntries(es, stripArrays);
    case _ =>
  }

  lemma {:induction false} NormalizeKeepsPlainItems(items: seq<Value>, stripArrays: bool)
    requires forall i :: 0 <= i < |items| ==> PlainItem(items[i], stripArrays)
    ensures forall i :: 0 <= i < |items| ==> PlainItem(NormalizeItems(items)[i], stripArrays)
    decreases items, 0
  {
    forall i | 0 <= i < |items|
      ensures PlainItem(NormalizeItems(items)[i], stripArrays)
    {
      NormalizeKeepsPlainItem(items[i], stripArrays);
    }
  }

  lemma {:induction false} NormalizeKeepsRoundTripEntries(es: seq<Entry>, stripArrays: bool)
    requires RoundTripEntries(es, stripArrays)
    ensures RoundTripEntries(NormalizeEntries(es), stripArrays)
    decreases es, 0
  {
    var r := NormalizeEntries(es);
    forall i | 0 <= i < |es|
      ensures RoundTripEntry(r[i], stripArrays)
    {
      NormalizeKeepsRoundTripEntry(es[i], stripArrays);
    }
    forall i, j | 0 <= i < j < |r|
      ensures r[i].key != r[j].key
    {
      assert r[i].key == es[i].key && r[j].key == es[j].key;
    }
  }

  lemma {:induction false} NormalizeKeepsRoundTripEntry(e: Entry, stripArrays: bool)
    requires RoundTripEntry(e, stripArrays)
    ensures RoundTripEntry(NormalizeEntry(e), stripArrays)
    decreases e, 1
  {
    NormalizeKeepsRoundTrips(e.value, stripArrays);
  }

  /** The second pass of the self-test, with the corrected reader: the map
      read back from a written map is itself written and read back
      unchanged. */
  lemma SecondPassStable(es: seq<Entry>, codec: TimeCodec)
    requires Valid(codec) && RoundTripEntries(es, true)
    ensures ConstructJsonObject(es, codec).Ok?
    ensures ConstructMap(ConstructJsonObject(es, codec).value, codec) == Ok(NormalizeEntries(es))
    ensures var once := NormalizeEntries(es);
            && ConstructJsonObject(once, codec).Ok?
            && ConstructMap(ConstructJsonObject(once, codec).value, codec) == Ok(once)
  {
    var once := NormalizeEntries(es);
    EntriesRoundTrip(es, codec, true);
    NormalizeKeepsRoundTripEntries(es, true);
    forall i | 0 <= i < |once|
      ensures NormalFormEntry(once[i])
    {
      NormalizeEntryGivesNormalForm(es[i]);
    }
    ExactRoundTrip(once, codec);
  }

  /** The same second pass through the reader as the source writes it, for
      maps without a list of instants or byte arrays under a key; the
      self-test's `constructMap` is that reader. */
  lemma SecondPassStableAsWritten(es: seq<Entry>, codec: TimeCodec)
    requires Valid(codec) && RoundTripEntries(es, false)
    ensures ConstructJsonObject(es, codec).Ok?
    ensures ConstructMapAsWritten(ConstructJsonObject(es, codec).value, codec) == Ok(NormalizeEntries(es))
    ensures var once := NormalizeEntries(es);
            && ConstructJsonObject(once, codec).Ok?
            && ConstructMapAsWritten(ConstructJsonObject(once, codec).value, codec) == Ok(once)
  {
    var once := NormalizeEntries(es);
    EntriesRoundTrip(es, codec, false);
    NormalizeKeepsRoundTripEntries(es, false);
    forall i | 0 <= i < |once|
      ensures NormalFormEntry(once[i])
    {
      NormalizeEntryGivesNormalForm(es[i]);
    }
    ExactRoundTripAsWritten(once, codec);
  }

  // ---------------------------------------------------------------------------
  // Writing: null keys, null values and failures.

  /** The entries of `es` whose key is not null, in order. */
  function KeyedEntries(es: seq<Entry>): (r: seq<Entry>)
    ensures |r| <= |es|
    ensures forall i :: 0 <= i < |r| ==> r[i].key.Some? && r[i] in es
  {
    if es == [] then []
    else if es[|es| - 1].key.None? then KeyedEntries(es[..|es| - 1])
    else KeyedEntries(es[..|es| - 1]) + [es[|es| - 1]]
  }

  /** An entry with a null key is skipped entirely: the JSON object is the one
      written for the map without such entries. */
  lemma {:induction false} NullKeysSkipped(es: seq<Entry>, codec: TimeCodec)
    ensures ConstructJsonObject(es, codec) == ConstructJsonObject(KeyedEntries(es), codec)
  {
    if es != [] {
      var init := es[..|es| - 1];
      var last := es[|es| - 1];
      NullKeysSkipped(init, codec);
      if last.key.Some? {
        var ks := KeyedEntries(init) + [last];
        assert ks[..|ks| - 1] == KeyedEntries(init);
        assert ks[|ks| - 1] == last;
      }
    }
  }

  /** A null value is written as JSON null under its unchanged key, whatever
      the key; it is read back as null when the key carries no suffix (under
      a suffixed key the reader tries to decode the null and fails). */
  lemma NullValueWritten(k: string, codec: TimeCodec, stripArrays: bool)
    ensures ConstructJsonObject([Pair(Some(k), Null)], codec) == Ok([Pair(k, JNull)])
    ensures PlainKey(k) ==> FillMap([Pair(k, JNull)], codec, stripArrays) == Ok([Pair(Some(k), Null)])
    ensures !PlainKey(k) ==> FillMap([Pair(k, JNull)], codec, stripArrays).Err?
  {
    var es: seq<Entry> := [Pair(Some(k), Null)];
    assert es[..0] == [];
    assert StoreEntry(es[0], codec) == Ok(Some(Pair(k, JNull)));
    assert Keys<string, Json>([]) == [];
    assert ConstructJsonObject(es[..0], codec) == Ok([]);
    assert Put([], k, JNull) == [] + [Pair(k, JNull)] == [Pair(k, JNull)];
    if PlainKey(k) {
      NullValueRead(k, codec, stripArrays);
    } else {
      NullUnderSuffixRejected(k, codec, stripArrays);
    }
  }

  lemma NullUnderSuffixRejected(k: string, codec: TimeCodec, stripArrays: bool)
    requires !PlainKey(k)
    ensures FillMap([Pair(k, JNull)], codec, stripArrays).Err?
  {
    var ms := [Pair(k, JNull)];
    assert ms[..0] == [];
    assert ParseMember(ms[0], codec, stripArrays).Err?;
  }

  lemma NullValueRead(k: string, codec: TimeCodec, stripArrays: bool)
    requires PlainKey(k)
    ensures FillMap([Pair(k, JNull)], codec, stripArrays) == Ok([Pair(Some(k), Null)])
  {
    var ms := [Pair(k, JNull)];
    assert ms[..0] == [];
    assert ParseMember(ms[0], codec, stripArrays) == Ok((k, Null));
    assert Keys<Option<string>, Value>([]) == [];
    assert FillMap(ms[..0], codec, stripArrays) == Ok([]);
    assert Put([], Some(k), Null) == [] + [Pair(Some(k), Null)] == [Pair(Some(k), Null)];
  }

  /** The conversion fails at the first entry it cannot store, with an error
      naming that entry's key. */
  lemma {:induction false} FirstFailureNamed(es: seq<Entry>, codec: TimeCodec, i: int)
    requires 0 <= i < |es|
    requires forall j :: 0 <= j < i ==> SupportedEntry(es[j])
    requires !SupportedEntry(es[i])
    ensures ConstructJsonObject(es, codec).Err?
    ensures ConstructJsonObject(es, codec).error == FailedToStore(es[i].key.value, StoreValue(es[i].key.value, es[i].value, codec).error)
  {
    var init := es[..|es| - 1];
    if i < |es| - 1 {
      FirstFailureNamed(init, codec, i);
    } else {
      assert SupportedEntries(init);
    }
  }

  /** An instant or a byte array in a list that is not made of that kind
      alone makes the list fail. */
  lemma TaggedAmongOthersFails(items: seq<Value>, i: int, codec: TimeCodec)
    requires 0 <= i < |items| && (items[i].Time? || items[i].Binary?)
    requires !IsTimeList(items) && !IsBinaryList(items)
    ensures ConstructJsonArray(items, codec).Err?
  {
    assert !SupportedItem(items[i]);
  }

  // ---------------------------------------------------------------------------
  // Reading: suffixed scalar keys, numbers and nested arrays.

  /** A non-array value under a key ending in `@ISOtime` is read as an
      instant under the key without that suffix; a text that does not parse,
      or a value that is not a text, fails with an error naming the entry. */
  lemma TimeKeyRead(k: string, j: Json, codec: TimeCodec, stripArrays: bool)
    requires !j.JArray?
    ensures var r := ParseMember(Pair(k + TimeSuffix, j), codec, stripArrays);
            && (j.JString? && codec.parse(j.s).Some? ==> r == Ok((k, Time(codec.parse(j.s).value))))
            && (j.JString? && codec.parse(j.s).None? ==> r == Err(ParseFailed(k + TimeSuffix, j, BadTime(j.s))))
            && (!j.JString? ==> r == Err(ParseFailed(k + TimeSuffix, j, NotAString(j))))
  {
    StripAppendedSuffix(k, TimeSuffix);
  }

  /** A non-array value under a key ending in `@base64` is read as a byte
      array under the key without that suffix; text that is not base64, or a
      value that is not a text, fails with an error naming the entry. */
  lemma BinaryKeyRead(k: string, j: Json, codec: TimeCodec, stripArrays: bool)
    requires !j.JArray?
    ensures var r := ParseMember(Pair(k + BinarySuffix, j), codec, stripArrays);
            && (j.JString? && Base64.Decode(j.s).Some? ==> r == Ok((k, Binary(Base64.Decode(j.s).value))))
            && (j.JString? && Base64.Decode(j.s).None? ==> r == Err(ParseFailed(k + BinarySuffix, j, BadBase64(j.s))))
            && (!j.JString? ==> r == Err(ParseFailed(k + BinarySuffix, j, NotAString(j))))
  {
    StripAppendedSuffix(k, BinarySuffix);
    BinaryNameNotTimeName(k);
  }

  /** Every integral kind is written as a JSON integer and read back as the
      same number, now a long. */
  lemma IntegralReadAsLong(k: string, kind: IntegralKind, n: int64, codec: TimeCodec, stripArrays: bool)
    requires PlainKey(k)
    ensures StoreValue(k, Integral(kind, n), codec) == Ok(Pair(k, JNumber(n as int, 0)))
    ensures ParseValue(k, JNumber(n as int, 0), codec, stripArrays) == Ok((k, Integral(LongKind, n)))
  {
  }

  /** The texts of a list of instants, as the reader leaves them when the list
      is nested in another list. */
  function TimeTexts(items: seq<Value>, codec: TimeCodec): (r: seq<Value>)
    requires forall i :: 0 <= i < |items| ==> items[i].Time?
    ensures |r| == |items|
    ensures forall i :: 0 <= i < |items| ==> r[i] == Text(codec.format(items[i].t))
  {
    if items == [] then []
    else TimeTexts(items[..|items| - 1], codec) + [Text(codec.format(items[|items| - 1].t))]
  }

  /** Arrays nested in arrays are never suffix-decoded: a list of instants
      inside a list is written as ISO texts and read back as plain texts. */
  lemma {:induction false} NestedTimeListReadAsTexts(items: seq<Value>, codec: TimeCodec, stripArrays: bool)
    requires IsTimeList(items)
    ensures ArrayElement(List(items), codec) == Ok(JArray(FormatTimes(items, codec)))
    ensures ListElement(JArray(FormatTimes(items, codec)), codec, stripArrays) == Ok(List(TimeTexts(items, codec)))
  {
    assert ConstructJsonArray(items, codec) == Ok(FormatTimes(items, codec));
    TimesAsTexts(items, codec, stripArrays);
  }

  lemma {:induction false} TimesAsTexts(items: seq<Value>, codec: TimeCodec, stripArrays: bool)
    requires forall i :: 0 <= i < |items| ==> items[i].Time?
    ensures FillList(FormatTimes(items, codec), codec, stripArrays) == Ok(TimeTexts(items, codec))
  {
    if items != [] {
      var init := items[..|items| - 1];
      TimesAsTexts(init, codec, stripArrays);
      var texts := FormatTimes(items, codec);
      assert texts[..|texts| - 1] == FormatTimes(init, codec);
      assert texts[|texts| - 1] == JString(codec.format(items[|items| - 1].t));
    }
  }
}
