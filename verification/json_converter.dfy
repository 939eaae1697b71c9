/** `JSONConverter`: the value-tagging conversion between a nested
    `Map<String,Object>` and a JSON object.

    JSON has no timestamp or binary type, so a value of either kind (or a
    non-empty list of only one of them) is written under its key followed by
    `@ISOtime` or `@base64`, and the suffix tells the reader how to decode the
    text. */
module JsonConverter {
  import opened Results
  import opened AssocLists
  import opened Values
  import opened Instants
  import Base64

  const TimeSuffix: string := "@ISOtime"
  const BinarySuffix: string := "@base64"

  /** Why a conversion failed. The wrapping constructors carry the entry key,
      as the `IllegalArgumentException` messages do. */
  datatype ConversionError =
    | CannotStore(className: string)                          // "Cannot store object of type …"
    | FailedToStore(key: string, cause: ConversionError)      // "Failed to store entry …"
    | NotAString(found: Json)                                 // ClassCastException from getString
    | BadTime(text: string)                                   // DateTimeParseException
    | BadBase64(text: string)                                 // IllegalArgumentException from the decoder
    | ParseFailed(key: string, raw: Json, cause: ConversionError) // "Error while parsing entry …"

  predicate EndsWith(s: string, suffix: string)
  {
    |suffix| <= |s| && s[|s| - |suffix|..] == suffix
  }

  predicate OccursAt(s: string, p: string, j: int)
  {
    0 <= j <= |s| - |p| && s[j..j + |p|] == p
  }

  /** `String.lastIndexOf(p)`, searching down from position `from`. */
  function LastIndexFrom(s: string, p: string, from: int): (r: int)
    requires from <= |s| - |p|
    ensures r == -1 || (r <= from && OccursAt(s, p, r))
    ensures forall j :: r < j <= from ==> !OccursAt(s, p, j)
    decreases from + 1
  {
    if from < 0 then -1
    else if s[from..from + |p|] == p then from
    else LastIndexFrom(s, p, from - 1)
  }

  /** `String.lastIndexOf(p)`: the last position where `p` occurs, or -1. */
  function LastIndexOf(s: string, p: string): (r: int)
    ensures r == -1 || OccursAt(s, p, r)
    ensures forall j :: r < j <= |s| - |p| ==> !OccursAt(s, p, j)
  {
    LastIndexFrom(s, p, |s| - |p|)
  }

  /** `name.substring(0, name.lastIndexOf(suffix))` for a name that ends with
      `suffix`: exactly that one suffix is removed. */
  function StripSuffix(name: string, suffix: string): (r: string)
    requires EndsWith(name, suffix)
    ensures r + suffix == name
  {
    var i := LastIndexOf(name, suffix);
    assert OccursAt(name, suffix, |name| - |suffix|);
    assert i == |name| - |suffix|;
    assert name[..i] + name[i..] == name;
    name[..i]
  }

  /** `isTimeList`: a non-empty list of instants only. */
  predicate IsTimeList(items: seq<Value>)
  {
    |items| > 0 && forall i :: 0 <= i < |items| ==> items[i].Time?
  }

  /** `isBinaryList`: a non-empty list of byte arrays only. */
  predicate IsBinaryList(items: seq<Value>)
  {
    |items| > 0 && forall i :: 0 <= i < |items| ==> items[i].Binary?
  }

  /** The JSON name under which a non-null value stored under `name` is
      written. */
  function TaggedName(name: string, v: Value): string
  {
    if v.Time? || (v.List? && IsTimeList(v.items)) then name + TimeSuffix
    else if v.Binary? || (v.List? && IsBinaryList(v.items)) then name + BinarySuffix
    else name
  }

  /** The two list tests of `constructJSONObject` exclude each other, and
      decide both the suffix a list is written under and the branch of
      `constructJSONArray` that writes it. */
  lemma ListTagging(k: string, items: seq<Value>, codec: TimeCodec)
    ensures !(IsTimeList(items) && IsBinaryList(items))
    ensures IsTimeList(items) ==>
              TaggedName(k, List(items)) == k + TimeSuffix && ConstructJsonArray(items, codec) == Ok(FormatTimes(items, codec))
    ensures IsBinaryList(items) ==>
              TaggedName(k, List(items)) == k + BinarySuffix && ConstructJsonArray(items, codec) == Ok(EncodeByteArrays(items))
    ensures !IsTimeList(items) && !IsBinaryList(items) ==> TaggedName(k, List(items)) == k
  {
    if |items| > 0 {
      var first := items[0];
      assert !(first.Time? && first.Binary?);
    }
  }

  // ---------------------------------------------------------------------------
  // Which values the writer accepts (the declarative side of the writer).

  /** A value that can be stored under a key. */
  predicate Supported(v: Value)
  {
    match v
    case List(items) => SupportedList(items)
    case Map(es) => SupportedEntries(es)
    case Unsupported(_) => false
    case _ => true
  }

  /** A value that can be stored as an element of a list that is neither a
      time list nor a binary list. */
  predicate SupportedItem(v: Value)
  {
    match v
    case List(items) => SupportedList(items)
    case Map(es) => SupportedEntries(es)
    case Time(_) => false
    case Binary(_) => false
    case Unsupported(_) => false
    case _ => true
  }

  predicate SupportedList(items: seq<Value>)
  {
    IsTimeList(items) || IsBinaryList(items) || forall i :: 0 <= i < |items| ==> SupportedItem(items[i])
  }

  /** An entry with a null key is skipped, so its value does not matter. */
  predicate SupportedEntry(e: Entry)
  {
    e.key.None? || Supported(e.value)
  }

  predicate SupportedEntries(es: seq<Entry>)
  {
    forall i :: 0 <= i < |es| ==> SupportedEntry(es[i])
  }

  // ---------------------------------------------------------------------------
  // Writing: constructJSONObject and constructJSONArray.

  /** `constructJSONObject`: every entry in iteration order; the first entry
      that fails aborts the conversion with an error naming its key. */
  function ConstructJsonObject(es: seq<Entry>, codec: TimeCodec): (r: Result<seq<Member>, ConversionError>)
    ensures r.Ok? <==> SupportedEntries(es)
    ensures r.Ok? ==> UniqueKeys(r.value)
    ensures r.Err? ==> r.error.FailedToStore?
    decreases es, 0
  {
    if es == [] then Ok([])
    else
      var init := es[..|es| - 1];
      assert SupportedEntries(es) <==> SupportedEntries(init) && SupportedEntry(es[|es| - 1]) by {
        assert forall i :: 0 <= i < |init| ==> init[i] == es[i];
      }
      match ConstructJsonObject(init, codec)
      case Err(e) => Err(e)
      case Ok(members) =>
        match StoreEntry(es[|es| - 1], codec)
        case Err(e) => Err(e)
        case Ok(None) => Ok(members)
        case Ok(Some(m)) =>
          PutKeepsKeysUnique(members, m.key, m.value);
          Ok(Put(members, m.key, m.value))
  }

  /** The body of `constructJSONObject`'s loop for one entry: a null key is
      skipped; any failure is wrapped as "Failed to store entry <key>". */
  function StoreEntry(e: Entry, codec: TimeCodec): (r: Result<Option<Member>, ConversionError>)
    ensures r.Ok? <==> SupportedEntry(e)
    ensures r.Ok? ==> (r.value.None? <==> e.key.None?)
    ensures r.Ok? && e.key.Some? ==> r.value.value.key == TaggedName(e.key.value, e.value)
    ensures r.Err? ==> e.key.Some? && r.error.FailedToStore? && r.error.key == e.key.value
    decreases e, 1
  {
    match e.key
    case None => Ok(None)
    case Some(name) =>
      match StoreValue(name, e.value, codec)
      case Err(cause) => Err(FailedToStore(name, cause))
      case Ok(m) => Ok(Some(m))
  }

  /** The dispatch on the value's kind in `constructJSONObject`. */
  function StoreValue(name: string, v: Value, codec: TimeCodec): (r: Result<Member, ConversionError>)
    ensures r.Ok? <==> Supported(v)
    ensures r.Ok? ==> r.value.key == TaggedName(name, v)
    decreases v, 2
  {
    match v
    case Null => Ok(Pair(name, JNull))
    case Time(t) => Ok(Pair(name + TimeSuffix, JString(codec.format(t))))
    case Binary(bytes) => Ok(Pair(name + BinarySuffix, JString(Base64.Encode(bytes))))
    case List(items) =>
      var tagged :=
        if IsTimeList(items) then name + TimeSuffix
        else if IsBinaryList(items) then name + BinarySuffix
        else name;
      (match ConstructJsonArray(items, codec)
       case Err(e) => Err(e)
       case Ok(elements) => Ok(Pair(tagged, JArray(elements))))
    case Map(es) =>
      (match ConstructJsonObject(es, codec)
       case Err(e) => Err(e)
       case Ok(members) => Ok(Pair(name, JObject(members))))
    case Integral(_, n) => Ok(Pair(name, JNumber(n as int, 0)))
    case Real(d) => Ok(Pair(name, JNumber(d.unscaled, d.scale)))
    case Bool(b) => Ok(Pair(name, JBool(b)))
    case Text(s) => Ok(Pair(name, JString(s)))
    case Unsupported(c) => Err(CannotStore(c))
  }

  /** `constructJSONArray`: a time list becomes ISO texts, a binary list
      base64 texts, any other list is converted element by element. */
  function ConstructJsonArray(items: seq<Value>, codec: TimeCodec): (r: Result<seq<Json>, ConversionError>)
    ensures r.Ok? <==> SupportedList(items)
    ensures r.Ok? ==> |r.value| == |items|
    decreases items, 1
  {
    if IsTimeList(items) then Ok(FormatTimes(items, codec))
    else if IsBinaryList(items) then Ok(EncodeByteArrays(items))
    else ConstructGenericArray(items, codec)
  }

  /** The time-list branch of `constructJSONArray`: each instant as ISO text. */
  function FormatTimes(items: seq<Value>, codec: TimeCodec): (r: seq<Json>)
    requires forall i :: 0 <= i < |items| ==> items[i].Time?
    ensures |r| == |items|
    ensures forall i :: 0 <= i < |items| ==> r[i] == JString(codec.format(items[i].t))
  {
    if items == [] then []
    else FormatTimes(items[..|items| - 1], codec) + [JString(codec.format(items[|items| - 1].t))]
  }

  /** The binary-list branch of `constructJSONArray`: each array as base64. */
  function EncodeByteArrays(items: seq<Value>): (r: seq<Json>)
    requires forall i :: 0 <= i < |items| ==> items[i].Binary?
    ensures |r| == |items|
    ensures forall i :: 0 <= i < |items| ==> r[i] == JString(Base64.Encode(items[i].bytes))
  {
    if items == [] then []
    else EncodeByteArrays(items[..|items| - 1]) + [JString(Base64.Encode(items[|items| - 1].bytes))]
  }

  /** The element-wise branch of `constructJSONArray`. */
  function ConstructGenericArray(items: seq<Value>, codec: TimeCodec): (r: Result<seq<Json>, ConversionError>)
    ensures r.Ok? <==> forall i :: 0 <= i < |items| ==> SupportedItem(items[i])
    ensures r.Ok? ==> |r.value| == |items|
    decreases items, 0
  {
    if items == [] then Ok([])
    else
      var init := items[..|items| - 1];
      assert forall i :: 0 <= i < |init| ==> init[i] == items[i];
      match ConstructGenericArray(init, codec)
      case Err(e) => Err(e)
      case Ok(prefix) =>
        match ArrayElement(items[|items| - 1], codec)
        case Err(e) => Err(e)
        case Ok(j) => Ok(prefix + [j])
  }

  /** One element of a generic list. An instant or a byte array among other
      kinds has no JSON form and fails. */
  function ArrayElement(v: Value, codec: TimeCodec): (r: Result<Json, ConversionError>)
    ensures r.Ok? <==> SupportedItem(v)
    decreases v, 2
  {
    match v
    case Null => Ok(JNull)
    case Integral(_, n) => Ok(JNumber(n as int, 0))
    case Real(d) => Ok(JNumber(d.unscaled, d.scale))
    case Bool(b) => Ok(JBool(b))
    case Text(s) => Ok(JString(s))
    case Map(es) =>
      (match ConstructJsonObject(es, codec)
       case Err(e) => Err(e)
       case Ok(members) => Ok(JObject(members)))
    case List(xs) =>
      (match ConstructJsonArray(xs, codec)
       case Err(e) => Err(e)
       case Ok(elements) => Ok(JArray(elements)))
    case Time(_) => Err(CannotStore("java.time.Instant"))
    case Binary(_) => Err(CannotStore("byte[]"))
    case Unsupported(c) => Err(CannotStore(c))
  }

  // ---------------------------------------------------------------------------
  // Reading: constructMap, fillMap, fillList, fillListWithTimes,
  // fillListWithByteArrays.

  /** `toNumber`: an integral JSON number becomes a `long`, any other a
      `double`. */
  function ToNumber(unscaled: int, scale: int): (r: Value)
    ensures r.Integral? <==> scale == 0
    ensures r.Integral? ==> r.kind == LongKind && (r.n as int - unscaled) % TwoTo64 == 0
    ensures !r.Integral? ==> r == Real(Decimal(unscaled, scale))
  {
    if scale == 0 then Integral(LongKind, Wrap64(unscaled)) else Real(Decimal(unscaled, scale))
  }

  /** `json.getString(name)` followed by `parseAsTime`: a non-string is a
      ClassCastException, unparsable text a DateTimeParseException. */
  function ParseTime(j: Json, codec: TimeCodec): (r: Result<Instant, ConversionError>)
    ensures r.Ok? <==> j.JString? && codec.parse(j.s).Some?
    ensures r.Ok? ==> codec.parse(j.s) == Some(r.value)
    ensures r.Err? ==> r.error == if j.JString? then BadTime(j.s) else NotAString(j)
  {
    match j
    case JString(s) =>
      (match codec.parse(s)
       case Some(t) => Ok(t)
       case None => Err(BadTime(s)))
    case _ => Err(NotAString(j))
  }

  /** `json.getString(name)` followed by `parseAsByteArray`: a non-string is
      a ClassCastException, text that is not base64 an
      IllegalArgumentException. */
  function ParseBinary(j: Json): (r: Result<seq<Base64.byte>, ConversionError>)
    ensures r.Ok? <==> j.JString? && Base64.Decode(j.s).Some?
    ensures r.Ok? ==> Base64.Decode(j.s) == Some(r.value)
    ensures r.Err? ==> r.error == if j.JString? then BadBase64(j.s) else NotAString(j)
  {
    match j
    case JString(s) =>
      (match Base64.Decode(s)
       case Some(b) => Ok(b)
       case None => Err(BadBase64(s)))
    case _ => Err(NotAString(j))
  }

  /** `parseAsTime` reads back what `timeToJSONEntry` writes. */
  lemma ParseFormattedTime(t: Instant, codec: TimeCodec)
    requires Valid(codec)
    ensures ParseTime(JString(codec.format(t)), codec) == Ok(t)
  {
    assert codec.parse(codec.format(t)) == Some(t);
  }

  /** `parseAsByteArray` reads back what `byteArrayToJSONEntry` writes. */
  lemma ParseEncodedBinary(b: seq<Base64.byte>)
    ensures ParseBinary(JString(Base64.Encode(b))) == Ok(b)
  {
    Base64.DecodeEncode(b);
  }

  /** `constructMap` as the source writes it: an array under a suffixed key is
      decoded but kept under the suffixed key. */
  function ConstructMapAsWritten(members: seq<Member>, codec: TimeCodec): (r: Result<seq<Entry>, ConversionError>)
    ensures r.Ok? ==> UniqueKeys(r.value)
    ensures r.Ok? ==> forall i :: 0 <= i < |r.value| ==> r.value[i].key.Some?
    ensures r.Err? ==> r.error.ParseFailed?
  {
    FillMap(members, codec, false)
  }

  /** `constructMap` with the suffix of an array key removed as well, which is
      what the write side and the "reverse operation" doc-comment call for. */
  function ConstructMap(members: seq<Member>, codec: TimeCodec): (r: Result<seq<Entry>, ConversionError>)
    ensures r.Ok? ==> UniqueKeys(r.value)
    ensures r.Ok? ==> forall i :: 0 <= i < |r.value| ==> r.value[i].key.Some?
    ensures r.Err? ==> r.error.ParseFailed?
  {
    FillMap(members, codec, true)
  }

  /** `fillMap`: every member in order, put into a fresh map; the first member
      that fails aborts with an error naming it. `stripArrays` selects whether a
      suffixed array key loses its suffix. */
  function FillMap(members: seq<Member>, codec: TimeCodec, stripArrays: bool): (r: Result<seq<Entry>, ConversionError>)
    ensures r.Ok? ==> UniqueKeys(r.value)
    ensures r.Ok? ==> forall i :: 0 <= i < |r.value| ==> r.value[i].key.Some?
    ensures r.Err? ==> r.error.ParseFailed?
    decreases members, 0
  {
    if members == [] then Ok([])
    else
      match FillMap(members[..|members| - 1], codec, stripArrays)
      case Err(e) => Err(e)
      case Ok(entries) =>
        match ParseMember(members[|members| - 1], codec, stripArrays)
        case Err(e) => Err(e)
        case Ok(p) =>
          PutKeepsKeysUnique(entries, Some(p.0), p.1);
          var r := Put(entries, Some(p.0), p.1);
          assert forall i :: 0 <= i < |r| ==> r[i].key.Some? by {
            forall i | 0 <= i < |r| ensures r[i].key.Some? {
              assert Keys(r)[i] == r[i].key;
              if Some(p.0) !in Keys(entries) && i == |entries| {
              } else {
                assert Keys(entries)[i] == entries[i].key;
              }
            }
          }
          Ok(r)
  }

  /** The body of `fillMap`'s loop for one member: any failure is wrapped as
      "Error while parsing entry <key>: <value>". */
  function ParseMember(m: Member, codec: TimeCodec, stripArrays: bool): (r: Result<(string, Value), ConversionError>)
    ensures r.Err? ==> r.error.ParseFailed? && r.error.key == m.key && r.error.raw == m.value
    decreases m, 1
  {
    match ParseValue(m.key, m.value, codec, stripArrays)
    case Err(cause) => Err(ParseFailed(m.key, m.value, cause))
    case Ok(p) => Ok(p)
  }

  /** The dispatch of `fillMap` on the key's suffix and the JSON value's kind. */
  function ParseValue(name: string, j: Json, codec: TimeCodec, stripArrays: bool): (r: Result<(string, Value), ConversionError>)
    ensures EndsWith(name, TimeSuffix) && !j.JArray? ==>
              (r.Ok? <==> ParseTime(j, codec).Ok?) &&
              (r.Ok? ==> r.value == (StripSuffix(name, TimeSuffix), Time(ParseTime(j, codec).value)))
    ensures !EndsWith(name, TimeSuffix) && EndsWith(name, BinarySuffix) && !j.JArray? ==>
              (r.Ok? <==> ParseBinary(j).Ok?) &&
              (r.Ok? ==> r.value == (StripSuffix(name, BinarySuffix), Binary(ParseBinary(j).value)))
    ensures !EndsWith(name, TimeSuffix) && !EndsWith(name, BinarySuffix) && !j.JArray? && !j.JObject? ==> r.Ok?
    ensures !EndsWith(name, TimeSuffix) && !EndsWith(name, BinarySuffix) && r.Ok? ==> r.value.0 == name
    ensures j.JArray? && !stripArrays && r.Ok? ==> r.value.0 == name
    ensures j.JArray? && stripArrays && EndsWith(name, TimeSuffix) && r.Ok? ==> r.value.0 == StripSuffix(name, TimeSuffix)
    ensures j.JArray? && stripArrays && !EndsWith(name, TimeSuffix) && EndsWith(name, BinarySuffix) && r.Ok? ==>
              r.value.0 == StripSuffix(name, BinarySuffix)
    ensures j.JArray? && EndsWith(name, TimeSuffix) && r.Ok? ==>
              r.value.1.List? && forall i :: 0 <= i < |r.value.1.items| ==> r.value.1.items[i].Time?
    decreases j, 2
  {
    if EndsWith(name, TimeSuffix) && !j.JArray? then
      match ParseTime(j, codec)
      case Err(e) => Err(e)
      case Ok(t) => Ok((StripSuffix(name, TimeSuffix), Time(t)))
    else if EndsWith(name, BinarySuffix) && !j.JArray? then
      match ParseBinary(j)
      case Err(e) => Err(e)
      case Ok(b) => Ok((StripSuffix(name, BinarySuffix), Binary(b)))
    else
      match j
      case JNull => Ok((name, Null))
      case JNumber(u, s) => Ok((name, ToNumber(u, s)))
      case JBool(b) => Ok((name, Bool(b)))
      case JObject(ms) =>
        (match FillMap(ms, codec, stripArrays)
         case Err(e) => Err(e)
         case Ok(es) => Ok((name, Map(es))))
      case JArray(items) =>
        if EndsWith(name, TimeSuffix) then
          (match FillListWithTimes(items, codec)
           case Err(e) => Err(e)
           case Ok(ts) => Ok((if stripArrays then StripSuffix(name, TimeSuffix) else name, List(ts))))
        else if EndsWith(name, BinarySuffix) then
          (match FillListWithByteArrays(items)
           case Err(e) => Err(e)
           case Ok(bs) => Ok((if stripArrays then StripSuffix(name, BinarySuffix) else name, List(bs))))
        else
          (match FillList(items, codec, stripArrays)
           case Err(e) => Err(e)
           case Ok(vs) => Ok((name, List(vs))))
      case JString(s) => Ok((name, Text(s)))
  }

  /** `fillListWithTimes`: every element must be an ISO instant text. */
  function FillListWithTimes(items: seq<Json>, codec: TimeCodec): (r: Result<seq<Value>, ConversionError>)
    ensures r.Ok? ==> |r.value| == |items| && forall i :: 0 <= i < |items| ==> r.value[i].Time?
  {
    if items == [] then Ok([])
    else
      match FillListWithTimes(items[..|items| - 1], codec)
      case Err(e) => Err(e)
      case Ok(prefix) =>
        match ParseTime(items[|items| - 1], codec)
        case Err(e) => Err(e)
        case Ok(t) => Ok(prefix + [Time(t)])
  }

  /** `fillListWithByteArrays`: every element must be base64 text. */
  function FillListWithByteArrays(items: seq<Json>): (r: Result<seq<Value>, ConversionError>)
    ensures r.Ok? ==> |r.value| == |items| && forall i :: 0 <= i < |items| ==> r.value[i].Binary?
  {
    if items == [] then Ok([])
    else
      match FillListWithByteArrays(items[..|items| - 1])
      case Err(e) => Err(e)
      case Ok(prefix) =>
        match ParseBinary(items[|items| - 1])
        case Err(e) => Err(e)
        case Ok(b) => Ok(prefix + [Binary(b)])
  }

  /** `fillList`: element-wise, with no suffix decoding at any depth. */
  function FillList(items: seq<Json>, codec: TimeCodec, stripArrays: bool): (r: Result<seq<Value>, ConversionError>)
    ensures r.Ok? ==> |r.value| == |items|
    ensures r.Err? ==> r.error.ParseFailed?
    decreases items, 0
  {
    if items == [] then Ok([])
    else
      match FillList(items[..|items| - 1], codec, stripArrays)
      case Err(e) => Err(e)
      case Ok(prefix) =>
        match ListElement(items[|items| - 1], codec, stripArrays)
        case Err(e) => Err(e)
        case Ok(v) => Ok(prefix + [v])
  }

  /** One element of `fillList`. Only a nested object can fail. */
  function ListElement(j: Json, codec: TimeCodec, stripArrays: bool): (r: Result<Value, ConversionError>)
    ensures r.Err? ==> (j.JObject? || j.JArray?) && r.error.ParseFailed?
    decreases j, 1
  {
    match j
    case JNull => Ok(Null)
    case JNumber(u, s) => Ok(ToNumber(u, s))
    case JBool(b) => Ok(Bool(b))
    case JArray(xs) =>
      (match FillList(xs, codec, stripArrays)
       case Err(e) => Err(e)
       case Ok(vs) => Ok(List(vs)))
    case JObject(ms) =>
      (match FillMap(ms, codec, stripArrays)
       case Err(e) => Err(e)
       case Ok(es) => Ok(Map(es)))
    case JString(s) => Ok(Text(s))
  }
}
