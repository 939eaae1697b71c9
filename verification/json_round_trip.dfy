/** What reading back a written map gives: the "reverse operation" promise of
    `constructJSONObject`, its limits, and where the source falls short of it. */
module JsonRoundTrip {
  import opened Results
  import opened AssocLists
  import opened Values
  import opened Instants
  import opened JsonConverter
  import Base64

  // ---------------------------------------------------------------------------
  // The maps that survive a round trip.

  /** A value the writer marks with a suffix. */
  predicate IsTagged(v: Value)
  {
    v.Time? || v.Binary? || (v.List? && (IsTimeList(v.items) || IsBinaryList(v.items)))
  }

  /** A key that the reader leaves alone. */
  predicate PlainKey(k: string)
  {
    !EndsWith(k, TimeSuffix) && !EndsWith(k, BinarySuffix)
  }

  /** A value under a key that comes back from JSON. A tagged list comes back
      only if the reader strips array keys. */
  predicate RoundTrips(v: Value, stripArrays: bool)
  {
    match v
    case Unsupported(_) => false
    case Map(es) => RoundTripEntries(es, stripArrays)
    case List(items) =>
      (stripArrays && (IsTimeList(items) || IsBinaryList(items)))
      || forall i :: 0 <= i < |items| ==> PlainItem(items[i], stripArrays)
    case _ => true
  }

  /** A list element that comes back from JSON: nested lists are never
      suffix-decoded, so no instant or byte array may occur inside them. */
  predicate PlainItem(v: Value, stripArrays: bool)
  {
    match v
    case Time(_) => false
    case Binary(_) => false
    case Unsupported(_) => false
    case Map(es) => RoundTripEntries(es, stripArrays)
    case List(items) => forall i :: 0 <= i < |items| ==> PlainItem(items[i], stripArrays)
    case _ => true
  }

  /** A non-null key whose value comes back, and which is either tagged on
      write or does not itself end in a suffix. */
  predicate RoundTripEntry(e: Entry, stripArrays: bool)
  {
    e.key.Some? && RoundTrips(e.value, stripArrays) && (IsTagged(e.value) || PlainKey(e.key.value))
  }

  predicate RoundTripEntries(es: seq<Entry>, stripArrays: bool)
  {
    UniqueKeys(es) && forall i :: 0 <= i < |es| ==> RoundTripEntry(es[i], stripArrays)
  }

  // ---------------------------------------------------------------------------
  // What the reader makes of numbers: every integral kind comes back as a
  // long, and a decimal with scale 0 comes back as a long too.

  function Normalize(v: Value): Value
  {
    match v
    case Integral(_, n) => Integral(LongKind, n)
    case Real(d) => ToNumber(d.unscaled, d.scale)
    case List(items) => List(NormalizeItems(items))
    case Map(es) => Map(NormalizeEntries(es))
    case _ => v
  }

  function NormalizeItems(items: seq<Value>): (r: seq<Value>)
    ensures |r| == |items|
    ensures forall i :: 0 <= i < |items| ==> r[i] == Normalize(items[i])
  {
    if items == [] then [] else NormalizeItems(items[..|items| - 1]) + [Normalize(items[|items| - 1])]
  }

  function NormalizeEntry(e: Entry): Entry
  {
    Pair(e.key, Normalize(e.value))
  }

  function NormalizeEntries(es: seq<Entry>): (r: seq<Entry>)
    ensures Keys(r) == Keys(es)
    ensures |r| == |es| && forall i :: 0 <= i < |es| ==> r[i] == NormalizeEntry(es[i])
  {
    if es == [] then []
    else
      var init := es[..|es| - 1];
      var last := es[|es| - 1];
      assert es == init + [last];
      KeysSnoc(init, last);
      KeysSnoc(NormalizeEntries(init), NormalizeEntry(last));
      NormalizeEntries(init) + [NormalizeEntry(last)]
  }

  lemma NormalizeSnoc(init: seq<Entry>, last: Entry)
    ensures NormalizeEntries(init + [last]) == NormalizeEntries(init) + [NormalizeEntry(last)]
  {
    var es := init + [last];
    assert es[..|es| - 1] == init;
  }

  // ---------------------------------------------------------------------------
  // Suffix facts.

  lemma AppendedSuffixEnds(k: string, suffix: string)
    ensures EndsWith(k + suffix, suffix)
  {
    assert (k + suffix)[|k|..] == suffix;
  }

  lemma StripAppendedSuffix(k: string, suffix: string)
    ensures EndsWith(k + suffix, suffix) && StripSuffix(k + suffix, suffix) == k
  {
    AppendedSuffixEnds(k, suffix);
    var r := StripSuffix(k + suffix, suffix);
    assert |r| == |k|;
    assert r == (r + suffix)[..|r|] == (k + suffix)[..|k|] == k;
  }

  /** No name ends with both suffixes: their last characters differ. */
  lemma SuffixesExclusive(s: string)
    requires EndsWith(s, TimeSuffix)
    ensures !EndsWith(s, BinarySuffix)
  {
    assert s[|s| - 1] == s[|s| - |TimeSuffix|..][|TimeSuffix| - 1] == 'e';
  }

  /** The key a reader recovers from a JSON name by removing a suffix. */
  function KeyOfName(n: string): string
  {
    if EndsWith(n, TimeSuffix) then StripSuffix(n, TimeSuffix)
    else if EndsWith(n, BinarySuffix) then StripSuffix(n, BinarySuffix)
    else n
  }

  /** Removing the suffix from the name a value is written under gives the
      key back, unless an untagged value sits under a key that itself ends in
      a suffix. */
  lemma KeyOfTaggedName(k: string, v: Value)
    requires IsTagged(v) || PlainKey(k)
    ensures KeyOfName(TaggedName(k, v)) == k
  {
    if v.Time? || (v.List? && IsTimeList(v.items)) {
      StripAppendedSuffix(k, TimeSuffix);
    } else if v.Binary? || (v.List? && IsBinaryList(v.items)) {
      StripAppendedSuffix(k, BinarySuffix);
      BinaryNameNotTimeName(k);
    }
  }

  /** Distinct keys of round-tripping entries get distinct JSON names. */
  lemma TaggedNamesDistinct(e1: Entry, e2: Entry, stripArrays: bool)
    requires RoundTripEntry(e1, stripArrays) && RoundTripEntry(e2, stripArrays)
    requires e1.key != e2.key
    ensures TaggedName(e1.key.value, e1.value) != TaggedName(e2.key.value, e2.value)
  {
    KeyOfTaggedName(e1.key.value, e1.value);
    KeyOfTaggedName(e2.key.value, e2.value);
  }

  lemma BinaryNameNotTimeName(k: string)
    ensures !EndsWith(k + BinarySuffix, TimeSuffix)
  {
    var s := k + BinarySuffix;
    if |TimeSuffix| <= |s| {
      assert s[|s| - |TimeSuffix|..][|TimeSuffix| - 1] == s[|s| - 1] == '4';
    }
  }

  // ---------------------------------------------------------------------------
  // The round trip.

  /** Normalising leaves instants and byte arrays alone. */
  lemma {:induction false} NormalizeKeepsTaggedItems(items: seq<Value>)
    requires forall i :: 0 <= i < |items| ==> items[i].Time? || items[i].Binary?
    ensures NormalizeItems(items) == items
  {
    if items != [] {
      NormalizeKeepsTaggedItems(items[..|items| - 1]);
      assert items == items[..|items| - 1] + [items[|items| - 1]];
    }
  }

  /** Reading the texts of a written time list gives the instants back. */
  lemma {:induction false} TimesRoundTrip(items: seq<Value>, codec: TimeCodec)
    requires Valid(codec)
    requires forall i :: 0 <= i < |items| ==> items[i].Time?
    ensures FillListWithTimes(FormatTimes(items, codec), codec) == Ok(items)
  {
    if items != [] {
      var init := items[..|items| - 1];
      var last := items[|items| - 1];
      TimesRoundTrip(init, codec);
      var texts := FormatTimes(items, codec);
      assert texts[..|texts| - 1] == FormatTimes(init, codec);
      assert texts[|texts| - 1] == JString(codec.format(last.t));
      assert codec.parse(codec.format(last.t)) == Some(last.t);
      assert ParseTime(texts[|texts| - 1], codec) == Ok(last.t);
      SplitLast(items);
    }
  }

  /** Reading the texts of a written byte-array list gives the arrays back. */
  lemma {:induction false} ByteArraysRoundTrip(items: seq<Value>)
    requires forall i :: 0 <= i < |items| ==> items[i].Binary?
    ensures FillListWithByteArrays(EncodeByteArrays(items)) == Ok(items)
  {
    if items != [] {
      var init := items[..|items| - 1];
      var last := items[|items| - 1];
      ByteArraysRoundTrip(init);
      var texts := EncodeByteArrays(items);
      assert texts[..|texts| - 1] == EncodeByteArrays(init);
      assert texts[|texts| - 1] == JString(Base64.Encode(last.bytes));
      Base64.DecodeEncode(last.bytes);
      assert ParseBinary(texts[|texts| - 1]) == Ok(last.bytes);
      SplitLast(items);
    }
  }

  /** Writing one more entry whose JSON name is new appends its member. */
  lemma ConstructSnoc(init: seq<Entry>, last: Entry, codec: TimeCodec, ms0: seq<Member>, m: Member)
    requires ConstructJsonObject(init, codec) == Ok(ms0)
    requires StoreEntry(last, codec) == Ok(Some(m))
    requires m.key !in Keys(ms0)
    ensures ConstructJsonObject(init + [last], codec) == Ok(ms0 + [m])
  {
    var es := init + [last];
    assert es[..|es| - 1] == init;
    assert es[|es| - 1] == last;
  }

  /** Reading one more member whose key is new appends its entry. */
  lemma FillMapSnoc(ms0: seq<Member>, m: Member, codec: TimeCodec, stripArrays: bool, es0: seq<Entry>, k: string, v: Value)
    requires FillMap(ms0, codec, stripArrays) == Ok(es0)
    requires ParseMember(m, codec, stripArrays) == Ok((k, v))
    requires Some(k) !in Keys(es0)
    ensures FillMap(ms0 + [m], codec, stripArrays) == Ok(es0 + [Pair(Some(k), v)])
  {
    var ms := ms0 + [m];
    assert ms[..|ms| - 1] == ms0;
    assert ms[|ms| - 1] == m;
  }

  /** The JSON members `ms` carry, one for one and in order, the tagged keys
      of the entries `es`. */
  predicate NamedAsWritten(es: seq<Entry>, ms: seq<Member>)
  {
    && |ms| == |es|
    && forall i :: 0 <= i < |es| ==> es[i].key.Some? && ms[i].key == TaggedName(es[i].key.value, es[i].value)
  }

  /** The round trip of a whole map: writing succeeds, the JSON names are the
      tagged keys in the same order, and reading gives the map back with its
      numbers normalised. */
  lemma {:induction false} EntriesRoundTrip(es: seq<Entry>, codec: TimeCodec, stripArrays: bool)
    requires Valid(codec) && RoundTripEntries(es, stripArrays)
    ensures ConstructJsonObject(es, codec).Ok?
    ensures NamedAsWritten(es, ConstructJsonObject(es, codec).value)
    ensures FillMap(ConstructJsonObject(es, codec).value, codec, stripArrays) == Ok(NormalizeEntries(es))
    decreases es, 0
  {
    if es != [] {
      var init := es[..|es| - 1];
      var last := es[|es| - 1];
      SplitLast(es);
      assert RoundTripEntries(init, stripArrays) && RoundTripEntry(last, stripArrays) by {
        assert forall i :: 0 <= i < |init| ==> init[i] == es[i];
      }
      EntriesRoundTrip(init, codec, stripArrays);
      EntryRoundTrip(last, codec, stripArrays);
      EntriesStep(init, last, codec, stripArrays,
                  ConstructJsonObject(init, codec).value, StoreEntry(last, codec).value.value);
    }
  }

  /** The step of the round trip of a map: from the round trip of all but
      the last entry, and that of the last entry, to the whole map. */
  lemma EntriesStep(init: seq<Entry>, last: Entry, codec: TimeCodec, stripArrays: bool, ms0: seq<Member>, m: Member)
    requires RoundTripEntries(init + [last], stripArrays)
    requires ConstructJsonObject(init, codec) == Ok(ms0) && NamedAsWritten(init, ms0)
    requires FillMap(ms0, codec, stripArrays) == Ok(NormalizeEntries(init))
    requires last.key.Some? && StoreEntry(last, codec) == Ok(Some(m))
    requires ParseMember(m, codec, stripArrays) == Ok((last.key.value, Normalize(last.value)))
    ensures ConstructJsonObject(init + [last], codec) == Ok(ms0 + [m])
    ensures NamedAsWritten(init + [last], ms0 + [m])
    ensures FillMap(ms0 + [m], codec, stripArrays) == Ok(NormalizeEntries(init + [last]))
  {
    var es0 := NormalizeEntries(init);
    NewName(init + [last], ms0, m, stripArrays);
    assert (init + [last])[..|init|] == init;
    ConstructSnoc(init, last, codec, ms0, m);
    FillMapSnoc(ms0, m, codec, stripArrays, es0, last.key.value, Normalize(last.value));
    NormalizeSnoc(init, last);
    NamesSnoc(init, last, ms0, m);
  }

  /** The last entry of a round-tripping map has a key, and a JSON name, that
      no earlier entry has. */
  lemma NewName(es: seq<Entry>, ms0: seq<Member>, m: Member, stripArrays: bool)
    requires RoundTripEntries(es, stripArrays) && |es| > 0
    requires NamedAsWritten(es[..|es| - 1], ms0)
    requires es[|es| - 1].key.Some? && m.key == TaggedName(es[|es| - 1].key.value, es[|es| - 1].value)
    ensures m.key !in Keys(ms0)
    ensures es[|es| - 1].key !in Keys(NormalizeEntries(es[..|es| - 1]))
  {
    var last := es[|es| - 1];
    var init := es[..|es| - 1];
    forall i | 0 <= i < |ms0|
      ensures Keys(ms0)[i] != m.key
    {
      assert init[i] == es[i];
      TaggedNamesDistinct(es[i], last, stripArrays);
    }
    forall i | 0 <= i < |init|
      ensures Keys(init)[i] != last.key
    {
      assert init[i] == es[i];
    }
  }

  lemma NamesSnoc(init: seq<Entry>, last: Entry, ms0: seq<Member>, m: Member)
    requires NamedAsWritten(init, ms0)
    requires last.key.Some? && m.key == TaggedName(last.key.value, last.value)
    ensures NamedAsWritten(init + [last], ms0 + [m])
  {
    var es, ms := init + [last], ms0 + [m];
    forall i | 0 <= i < |es|
      ensures es[i].key.Some? && ms[i].key == TaggedName(es[i].key.value, es[i].value)
    {
      if i < |init| {
        assert es[i] == init[i] && ms[i] == ms0[i];
      }
    }
  }

  lemma {:induction false} EntryRoundTrip(e: Entry, codec: TimeCodec, stripArrays: bool)
    requires Valid(codec) && RoundTripEntry(e, stripArrays)
    ensures StoreEntry(e, codec).Ok? && StoreEntry(e, codec).value.Some?
    ensures ParseMember(StoreEntry(e, codec).value.value, codec, stripArrays) == Ok((e.key.value, Normalize(e.value)))
    decreases e, 1
  {
    ValueRoundTrip(e.key.value, e.value, codec, stripArrays);
  }

  lemma {:induction false} ValueRoundTrip(k: string, v: Value, codec: TimeCodec, stripArrays: bool)
    requires Valid(codec) && RoundTrips(v, stripArrays) && (IsTagged(v) || PlainKey(k))
    ensures StoreValue(k, v, codec).Ok?
    ensures var m := StoreValue(k, v, codec).value;
            ParseValue(m.key, m.value, codec, stripArrays) == Ok((k, Normalize(v)))
    decreases v, 2
  {
    match v
    case Time(t) => TimeRoundTrip(k, t, codec, stripArrays);
    case Binary(b) => BinaryRoundTrip(k, b, codec, stripArrays);
    case Map(es) =>
      EntriesRoundTrip(es, codec, stripArrays);
      MapStep(k, es, codec, stripArrays, ConstructJsonObject(es, codec).value, NormalizeEntries(es));
    case List(items) =>
      if stripArrays && IsTimeList(items) {
        TimeListRoundTrip(k, items, codec);
        NormalizeKeepsTaggedItems(items);
      } else if stripArrays && IsBinaryList(items) {
        BinaryListRoundTrip(k, items, codec);
        NormalizeKeepsTaggedItems(items);
      } else {
        ItemsRoundTrip(items, codec, stripArrays);
        PlainItemsUntagged(items, stripArrays);
        ListStep(k, items, codec, stripArrays, ConstructGenericArray(items, codec).value, NormalizeItems(items));
      }
    case _ => ScalarRoundTrip(k, v, codec, stripArrays);
  }

  lemma ScalarRoundTrip(k: string, v: Value, codec: TimeCodec, stripArrays: bool)
    requires v.Null? || v.Bool? || v.Integral? || v.Real? || v.Text?
    requires PlainKey(k)
    ensures StoreValue(k, v, codec).Ok?
    ensures var m := StoreValue(k, v, codec).value;
            ParseValue(m.key, m.value, codec, stripArrays) == Ok((k, Normalize(v)))
  {
  }

  lemma TimeRoundTrip(k: string, t: Instant, codec: TimeCodec, stripArrays: bool)
    requires Valid(codec)
    ensures StoreValue(k, Time(t), codec) == Ok(Pair(k + TimeSuffix, JString(codec.format(t))))
    ensures ParseValue(k + TimeSuffix, JString(codec.format(t)), codec, stripArrays) == Ok((k, Time(t)))
  {
    StripAppendedSuffix(k, TimeSuffix);
    assert codec.parse(codec.format(t)) == Some(t);
    assert ParseTime(JString(codec.format(t)), codec) == Ok(t);
  }

  lemma BinaryRoundTrip(k: string, b: seq<Base64.byte>, codec: TimeCodec, stripArrays: bool)
    ensures StoreValue(k, Binary(b), codec) == Ok(Pair(k + BinarySuffix, JString(Base64.Encode(b))))
    ensures ParseValue(k + BinarySuffix, JString(Base64.Encode(b)), codec, stripArrays) == Ok((k, Binary(b)))
  {
    StripAppendedSuffix(k, BinarySuffix);
    BinaryNameNotTimeName(k);
    Base64.DecodeEncode(b);
    assert ParseBinary(JString(Base64.Encode(b))) == Ok(b);
  }

  lemma TimeListRoundTrip(k: string, items: seq<Value>, codec: TimeCodec)
    requires Valid(codec) && IsTimeList(items)
    ensures StoreValue(k, List(items), codec) == Ok(Pair(k + TimeSuffix, JArray(FormatTimes(items, codec))))
    ensures ParseValue(k + TimeSuffix, JArray(FormatTimes(items, codec)), codec, true) == Ok((k, List(items)))
  {
    StripAppendedSuffix(k, TimeSuffix);
    TimesRoundTrip(items, codec);
    assert ConstructJsonArray(items, codec) == Ok(FormatTimes(items, codec));
  }

  lemma BinaryListRoundTrip(k: string, items: seq<Value>, codec: TimeCodec)
    requires IsBinaryList(items)
    ensures StoreValue(k, List(items), codec) == Ok(Pair(k + BinarySuffix, JArray(EncodeByteArrays(items))))
    ensures ParseValue(k + BinarySuffix, JArray(EncodeByteArrays(items)), codec, true) == Ok((k, List(items)))
  {
    StripAppendedSuffix(k, BinarySuffix);
    BinaryNameNotTimeName(k);
    assert !IsTimeList(items) by { assert !items[0].Time?; }
    ByteArraysRoundTrip(items);
    assert ConstructJsonArray(items, codec) == Ok(EncodeByteArrays(items));
  }

  lemma MapStep(k: string, es: seq<Entry>, codec: TimeCodec, stripArrays: bool, ms: seq<Member>, back: seq<Entry>)
    requires PlainKey(k)
    requires ConstructJsonObject(es, codec) == Ok(ms)
    requires FillMap(ms, codec, stripArrays) == Ok(back)
    ensures StoreValue(k, Map(es), codec) == Ok(Pair(k, JObject(ms)))
    ensures ParseValue(k, JObject(ms), codec, stripArrays) == Ok((k, Map(back)))
  {
  }

  /** A list of plain items is neither a time list nor a binary list. */
  lemma PlainItemsUntagged(items: seq<Value>, stripArrays: bool)
    requires forall i :: 0 <= i < |items| ==> PlainItem(items[i], stripArrays)
    ensures !IsTimeList(items) && !IsBinaryList(items)
  {
    if |items| > 0 {
      assert PlainItem(items[0], stripArrays);
    }
  }

  lemma ListStep(k: string, items: seq<Value>, codec: TimeCodec, stripArrays: bool, js: seq<Json>, back: seq<Value>)
    requires PlainKey(k) && !IsTimeList(items) && !IsBinaryList(items)
    requires ConstructGenericArray(items, codec) == Ok(js)
    requires FillList(js, codec, stripArrays) == Ok(back)
    ensures StoreValue(k, List(items), codec) == Ok(Pair(k, JArray(js)))
    ensures ParseValue(k, JArray(js), codec, stripArrays) == Ok((k, List(back)))
  {
    assert ConstructJsonArray(items, codec) == Ok(js);
  }

  lemma {:induction false} ItemsRoundTrip(items: seq<Value>, codec: TimeCodec, stripArrays: bool)
    requires Valid(codec) && forall i :: 0 <= i < |items| ==> PlainItem(items[i], stripArrays)
    ensures ConstructGenericArray(items, codec).Ok?
    ensures FillList(ConstructGenericArray(items, codec).value, codec, stripArrays) == Ok(NormalizeItems(items))
    decreases items, 0
  {
    if items != [] {
      var init := items[..|items| - 1];
      var last := items[|items| - 1];
      assert forall i :: 0 <= i < |init| ==> init[i] == items[i];
      ItemsRoundTrip(init, codec, stripArrays);
      ItemRoundTrip(last, codec, stripArrays);
      var js := ConstructGenericArray(items, codec).value;
      assert js[..|js| - 1] == ConstructGenericArray(init, codec).value;
    }
  }

  lemma {:induction false} ItemRoundTrip(v: Value, codec: TimeCodec, stripArrays: bool)
    requires Valid(codec) && PlainItem(v, stripArrays)
    ensures ArrayElement(v, codec).Ok?
    ensures ListElement(ArrayElement(v, codec).value, codec, stripArrays) == Ok(Normalize(v))
    decreases v, 1
  {
    match v
    case Map(es) =>
      EntriesRoundTrip(es, codec, stripArrays);
      ItemMapStep(es, codec, stripArrays, ConstructJsonObject(es, codec).value, NormalizeEntries(es));
    case List(xs) =>
      ItemsRoundTrip(xs, codec, stripArrays);
      PlainItemsUntagged(xs, stripArrays);
      ItemListStep(xs, codec, stripArrays, ConstructGenericArray(xs, codec).value, NormalizeItems(xs));
    case _ =>
  }

  lemma ItemMapStep(es: seq<Entry>, codec: TimeCodec, stripArrays: bool, ms: seq<Member>, back: seq<Entry>)
    requires ConstructJsonObject(es, codec) == Ok(ms)
    requires FillMap(ms, codec, stripArrays) == Ok(back)
    ensures ArrayElement(Map(es), codec) == Ok(JObject(ms))
    ensures ListElement(JObject(ms), codec, stripArrays) == Ok(Map(back))
  {
  }

  lemma ItemListStep(xs: seq<Value>, codec: TimeCodec, stripArrays: bool, js: seq<Json>, back: seq<Value>)
    requires !IsTimeList(xs) && !IsBinaryList(xs)
    requires ConstructGenericArray(xs, codec) == Ok(js)
    requires FillList(js, codec, stripArrays) == Ok(back)
    ensures ArrayElement(List(xs), codec) == Ok(JArray(js))
    ensures ListElement(JArray(js), codec, stripArrays) == Ok(List(back))
  {
    assert ConstructJsonArray(xs, codec) == Ok(js);
  }
}
