/** The concrete methods of `ArchiveResourceManager`, over an abstract store.

    The archive is a map from locator (a path inside the archive) to the
    resource held there. The abstract methods these build on
    (`getProperty`, the three-argument `getImage`, the input and output
    streams) are given the behaviour their doc-comments promise. */
module ArchiveResources {
  import opened Results
  import opened AssocLists
  import opened Values
  import opened Instants
  import opened JsonConverter
  import opened NumberText
  import opened JsonRoundTrip
  import opened JsonProperties
  import opened ArraySuffixFinding

  type Locator = string

  /** A decoded image; its pixels are not modelled beyond equality. */
  datatype Image = Image(width: nat, height: nat, pixels: seq<int>)

  /** What a locator can hold: a properties file, a JSON document, or an
      image in some format. */
  datatype Resource =
    | PropertiesFile(props: seq<Pair<string, string>>)
    | JsonDocument(doc: Json)
    | ImageFile(format: string, image: Image)

  datatype Store = Store(resources: map<Locator, Resource>)

  /** The exceptions of these methods.
      - `Unreadable`: the locator does not hold a resource of the kind asked
        for (the input stream is null, or the reader throws);
      - `StreamFailed`: opening the output stream threw IOException;
      - `NumberFormat`: `getNumber` found a text it cannot classify;
      - `ConversionFailed`: `JSONConverter` threw, with its message. */
  datatype ResourceError =
    | Unreadable(locator: Locator)
    | StreamFailed(locator: Locator)
    | NumberFormat(text: string)
    | ConversionFailed(error: ConversionError)

  /** The value of a property, if the locator holds a properties file that
      sets it. */
  function StoredProperty(st: Store, loc: Locator, name: string): Option<string>
  {
    if loc in st.resources && st.resources[loc].PropertiesFile? then Lookup(st.resources[loc].props, name)
    else None
  }

  /** `getProperty` as documented: the stored property, or else the default,
      which is then set. */
  function GetProperty(st: Store, loc: Locator, name: string, default: string): (r: Result<(string, Store), ResourceError>)
    ensures r.Err? <==> loc in st.resources && !st.resources[loc].PropertiesFile?
    ensures r.Ok? && StoredProperty(st, loc, name).Some? ==> r.value == (StoredProperty(st, loc, name).value, st)
    ensures r.Ok? && StoredProperty(st, loc, name).None? ==> r.value.0 == default
    ensures r.Ok? ==> StoredProperty(r.value.1, loc, name) == Some(r.value.0)
    ensures r.Ok? ==> forall l :: l != loc ==> (l in r.value.1.resources <==> l in st.resources)
    ensures r.Ok? ==> forall l :: l != loc && l in st.resources ==> r.value.1.resources[l] == st.resources[l]
  {
    if loc !in st.resources then
      var props := Put([], name, default);
      PutLookup([], name, default, name);
      Ok((default, Store(st.resources[loc := PropertiesFile(props)])))
    else
      match st.resources[loc]
      case PropertiesFile(props) =>
        (match Lookup(props, name)
         case Some(v) => Ok((v, st))
         case None =>
           PutLookup(props, name, default, name);
           Ok((default, Store(st.resources[loc := PropertiesFile(Put(props, name, default))]))))
      case _ => Err(Unreadable(loc))
  }

  /** `setProperty` as documented: the property is set in the properties
      file at the locator, which is created if absent. */
  function SetProperty(st: Store, loc: Locator, name: string, value: string): (r: Result<Store, ResourceError>)
    ensures r.Err? <==> loc in st.resources && !st.resources[loc].PropertiesFile?
    ensures r.Ok? ==> StoredProperty(r.value, loc, name) == Some(value)
    ensures r.Ok? ==> forall n :: n != name ==> StoredProperty(r.value, loc, n) == StoredProperty(st, loc, n)
    ensures r.Ok? ==> forall l :: l != loc ==> (l in r.value.resources <==> l in st.resources)
    ensures r.Ok? ==> forall l :: l != loc && l in st.resources ==> r.value.resources[l] == st.resources[l]
  {
    var props := if loc in st.resources && st.resources[loc].PropertiesFile? then st.resources[loc].props else [];
    if loc in st.resources && !st.resources[loc].PropertiesFile? then Err(Unreadable(loc))
    else
      var st' := Store(st.resources[loc := PropertiesFile(Put(props, name, value))]);
      assert forall n :: StoredProperty(st', loc, n) == Lookup(Put(props, name, value), n);
      assert forall n :: StoredProperty(st, loc, n) == Lookup(props, n);
      PutEveryLookup(props, name, value);
      Ok(st')
  }

  lemma PutEveryLookup(ps: seq<Pair<string, string>>, k: string, v: string)
    ensures forall k' :: Lookup(Put(ps, k, v), k') == if k' == k then Some(v) else Lookup(ps, k')
  {
    forall k' ensures Lookup(Put(ps, k, v), k') == if k' == k then Some(v) else Lookup(ps, k') {
      PutLookup(ps, k, v, k');
    }
  }

  /** `setNumber`: the number's `toString()` text is set as the property. */
  function SetNumber(st: Store, loc: Locator, name: string, text: string): (r: Result<Store, ResourceError>)
    ensures r.Ok? ==> StoredProperty(r.value, loc, name) == Some(text)
  {
    SetProperty(st, loc, name, text)
  }

  /** `hasProperty` as documented: whether the property has been set to some
      value; a locator holding another kind of resource cannot be opened as
      a properties file. */
  function HasProperty(st: Store, loc: Locator, name: string): (r: Result<bool, ResourceError>)
    ensures r.Err? <==> loc in st.resources && !st.resources[loc].PropertiesFile?
    ensures r.Ok? ==> (r.value <==> StoredProperty(st, loc, name).Some?)
  {
    if loc in st.resources && !st.resources[loc].PropertiesFile? then Err(Unreadable(loc))
    else Ok(StoredProperty(st, loc, name).Some?)
  }

  /** `hasNumber`: `hasProperty` under the read lock. */
  function HasNumber(st: Store, loc: Locator, name: string): (r: Result<bool, ResourceError>)
    ensures r.Err? <==> loc in st.resources && !st.resources[loc].PropertiesFile?
    ensures r.Ok? ==> (r.value <==> StoredProperty(st, loc, name).Some?)
  {
    HasProperty(st, loc, name)
  }

  /** A property is present exactly when `getProperty` returns it without
      storing the default, whatever the default is. */
  lemma HasPropertyMeansNoDefault(st: Store, loc: Locator, name: string, default: string)
    ensures HasProperty(st, loc, name) == Ok(true) <==>
            GetProperty(st, loc, name, default).Ok? && GetProperty(st, loc, name, default).value.1 == st
  {
    var g := GetProperty(st, loc, name, default);
    if g.Ok? && StoredProperty(st, loc, name).None? {
      assert StoredProperty(g.value.1, loc, name).Some?;
    }
  }

  /** After `getProperty` succeeds the property is present. */
  lemma GetThenHas(st: Store, loc: Locator, name: string, default: string)
    requires GetProperty(st, loc, name, default).Ok?
    ensures HasProperty(GetProperty(st, loc, name, default).value.1, loc, name) == Ok(true)
  {
  }

  /** After `setProperty` succeeds the property is present, and whether any
      other property, at this locator or another, is present is unchanged. */
  lemma SetThenHas(st: Store, loc: Locator, name: string, value: string, l: Locator, n: string)
    requires SetProperty(st, loc, name, value).Ok?
    ensures HasProperty(SetProperty(st, loc, name, value).value, loc, name) == Ok(true)
    ensures (l, n) != (loc, name) ==>
              HasProperty(SetProperty(st, loc, name, value).value, l, n) == HasProperty(st, l, n)
  {
    var st' := SetProperty(st, loc, name, value).value;
    if l == loc && n != name {
      assert StoredProperty(st', loc, n) == StoredProperty(st, loc, n);
    }
  }

  /** A number set with `setNumber` is then reported by `hasNumber`. */
  lemma SetThenHasNumber(st: Store, loc: Locator, name: string, text: string)
    requires SetNumber(st, loc, name, text).Ok?
    ensures HasNumber(SetNumber(st, loc, name, text).value, loc, name) == Ok(true)
  {
    SetThenHas(st, loc, name, text, loc, name);
  }

  /** The outcome of `getNumber`: the number or the exception, and the store,
      in which `getProperty` has already set an absent property to the
      default, whether or not the text then parses. */
  datatype NumberRead = NumberRead(result: Result<Number, ResourceError>, store: Store)

  /** `getNumber`: the property's text (the default's `toString()` if
      absent), classified. */
  function GetNumber(st: Store, loc: Locator, name: string, defaultText: string, parsesAsDouble: string -> bool): (r: NumberRead)
    ensures GetProperty(st, loc, name, defaultText).Err? ==>
              r == NumberRead(Err(GetProperty(st, loc, name, defaultText).error), st)
    ensures GetProperty(st, loc, name, defaultText).Ok? ==>
              var (text, st') := GetProperty(st, loc, name, defaultText).value;
              r.store == st' &&
              (r.result.Ok? <==> ClassifyNumber(text, parsesAsDouble).Ok?) &&
              (r.result.Ok? ==> r.result.value == ClassifyNumber(text, parsesAsDouble).value) &&
              (r.result.Err? ==> r.result.error == NumberFormat(text))
  {
    match GetProperty(st, loc, name, defaultText)
    case Err(e) => NumberRead(Err(e), st)
    case Ok((text, st')) =>
      match ClassifyNumber(text, parsesAsDouble)
      case Ok(n) => NumberRead(Ok(n), st')
      case Err(NumberFormatError(t)) => NumberRead(Err(NumberFormat(t)), st')
  }

  /** An absent property with a `long` default reads back as that `long`. */
  lemma LongDefaultReturned(st: Store, loc: Locator, name: string, n: int64, parsesAsDouble: string -> bool)
    requires loc in st.resources ==> st.resources[loc].PropertiesFile?
    requires StoredProperty(st, loc, name).None?
    ensures GetNumber(st, loc, name, LongToString(n), parsesAsDouble).result == Ok(LongValue(n))
    ensures StoredProperty(GetNumber(st, loc, name, LongToString(n), parsesAsDouble).store, loc, name) == Some(LongToString(n))
  {
    LongTextClassified(n, parsesAsDouble);
  }

  /** A stored `long` is read back whatever the default, and nothing changes. */
  lemma StoredLongReturned(st: Store, loc: Locator, name: string, n: int64, defaultText: string, parsesAsDouble: string -> bool)
    requires StoredProperty(st, loc, name) == Some(LongToString(n))
    ensures GetNumber(st, loc, name, defaultText, parsesAsDouble) == NumberRead(Ok(LongValue(n)), st)
  {
    LongTextClassified(n, parsesAsDouble);
  }

  /** A `long` set with `setNumber` is what `getNumber` reads, whatever the
      default, and the read changes nothing. */
  lemma SetThenGetLong(st: Store, loc: Locator, name: string, n: int64, defaultText: string, parsesAsDouble: string -> bool)
    requires SetNumber(st, loc, name, LongToString(n)).Ok?
    ensures var st' := SetNumber(st, loc, name, LongToString(n)).value;
            GetNumber(st', loc, name, defaultText, parsesAsDouble) == NumberRead(Ok(LongValue(n)), st')
  {
    StoredLongReturned(SetNumber(st, loc, name, LongToString(n)).value, loc, name, n, defaultText, parsesAsDouble);
  }

  /** The three-argument `getImage` as documented: the stored image; else the
      supplier's image, which is then stored; and nothing stored when the
      supplier yields null (`supplied == None`). */
  function GetImageOr(st: Store, loc: Locator, format: string, supplied: Option<Image>): (r: Result<(Option<Image>, Store), ResourceError>)
    ensures r.Err? <==> loc in st.resources && !st.resources[loc].ImageFile?
    ensures r.Ok? && loc in st.resources ==> r.value == (Some(st.resources[loc].image), st)
    ensures r.Ok? && loc !in st.resources ==> r.value.0 == supplied
    ensures r.Ok? && supplied.None? ==> r.value.1 == st
    ensures r.Ok? && supplied.Some? && loc !in st.resources ==>
              r.value.1.resources == st.resources[loc := ImageFile(format, supplied.value)]
  {
    if loc in st.resources then
      match st.resources[loc]
      case ImageFile(_, img) => Ok((Some(img), st))
      case _ => Err(Unreadable(loc))
    else
      match supplied
      case None => Ok((None, st))
      case Some(img) => Ok((Some(img), Store(st.resources[loc := ImageFile(format, img)])))
  }

  /** The two-argument `getImage`: the stored image or null; the supplier it
      passes yields null, so nothing is ever stored. */
  function GetImage(st: Store, loc: Locator, format: string): (r: Result<(Option<Image>, Store), ResourceError>)
    ensures r.Ok? ==> r.value.1 == st
    ensures r.Ok? ==> (r.value.0.Some? <==> loc in st.resources)
  {
    GetImageOr(st, loc, format, None)
  }

  /** Reading the JSON object at a locator and converting it with
      `constructMap` as the source writes it, which keeps the suffix on a
      list of instants or byte arrays. */
  function ReadEntries(st: Store, loc: Locator, codec: TimeCodec): (r: Result<seq<Entry>, ResourceError>)
    ensures r.Ok? ==> UniqueKeys(r.value)
    ensures r.Err? && r.error.ConversionFailed? ==> r.error.error.ParseFailed?
  {
    if loc in st.resources && st.resources[loc].JsonDocument? && st.resources[loc].doc.JObject? then
      match ConstructMapAsWritten(st.resources[loc].doc.members, codec)
      case Ok(es) => Ok(es)
      case Err(e) => Err(ConversionFailed(e))
    else Err(Unreadable(loc))
  }

  /** `readDataMap`: the document's entries are put into the caller's map,
      which is returned; on an exception the caller's map is not touched. */
  function ReadDataMap(st: Store, loc: Locator, m: seq<Entry>, codec: TimeCodec): (r: Result<seq<Entry>, ResourceError>)
    ensures r.Ok? <==> ReadEntries(st, loc, codec).Ok?
    ensures r.Err? ==> r.error == ReadEntries(st, loc, codec).error
    ensures r.Ok? && UniqueKeys(m) ==> UniqueKeys(r.value)
  {
    match ReadEntries(st, loc, codec)
    case Err(e) => Err(e)
    case Ok(es) => Ok(PutAll(m, es))
  }

  /** The merge of `readDataMap`: a key of the document takes the document's
      value, and every other key of the caller's map keeps its value. */
  lemma ReadDataMapMerge(st: Store, loc: Locator, m: seq<Entry>, codec: TimeCodec, es: seq<Entry>, k: Option<string>)
    requires ReadEntries(st, loc, codec) == Ok(es)
    ensures ReadDataMap(st, loc, m, codec).Ok?
    ensures Lookup(ReadDataMap(st, loc, m, codec).value, k) == if k in Keys(es) then Lookup(es, k) else Lookup(m, k)
  {
    PutAllLookup(m, es, k);
    LastValueUnique(es, k);
  }

  /** `writeDataMap`: the output stream is opened first (`streamOpens` is
      whether that succeeds), then the map is converted and written as the
      document at the locator. */
  function WriteDataMap(st: Store, loc: Locator, m: seq<Entry>, codec: TimeCodec, streamOpens: bool): (r: Result<Store, ResourceError>)
    ensures r.Err? && r.error.StreamFailed? <==> !streamOpens
    ensures r.Err? && r.error.ConversionFailed? <==> streamOpens && !SupportedEntries(m)
    ensures r.Err? ==> r.error.StreamFailed? || (r.error.ConversionFailed? && r.error.error.FailedToStore?)
    ensures r.Ok? ==> ConstructJsonObject(m, codec).Ok?
    ensures r.Ok? ==> loc in r.value.resources && r.value.resources[loc] == JsonDocument(JObject(ConstructJsonObject(m, codec).value))
    ensures r.Ok? ==> forall l :: l != loc ==> (l in r.value.resources <==> l in st.resources)
    ensures r.Ok? ==> forall l :: l != loc && l in st.resources ==> r.value.resources[l] == st.resources[l]
  {
    if !streamOpens then Err(StreamFailed(loc))
    else
      match ConstructJsonObject(m, codec)
      case Err(e) => Err(ConversionFailed(e))
      case Ok(ms) => Ok(Store(st.resources[loc := JsonDocument(JObject(ms))]))
  }

  /** A map the converter round-trips, written with `writeDataMap` and read
      into an empty map with `readDataMap`, comes back unchanged; with the
      reader as written, that excludes lists of instants or byte arrays. */
  lemma WriteThenRead(st: Store, loc: Locator, m: seq<Entry>, codec: TimeCodec, st': Store)
    requires Valid(codec) && RoundTripEntries(m, false)
    requires forall i :: 0 <= i < |m| ==> NormalFormEntry(m[i])
    requires WriteDataMap(st, loc, m, codec, true) == Ok(st')
    ensures ReadDataMap(st', loc, [], codec) == Ok(m)
  {
    ExactRoundTripAsWritten(m, codec);
    PutAllIntoEmpty(m);
  }

  /** The suffix defect reaches `readDataMap`: a list of byte arrays written
      under `k` is read back into an empty map under `k + "@base64"`. */
  lemma WriteThenReadKeepsListSuffix(st: Store, loc: Locator, k: string, items: seq<Value>, codec: TimeCodec, st': Store)
    requires IsBinaryList(items)
    requires WriteDataMap(st, loc, [Pair(Some(k), List(items))], codec, true) == Ok(st')
    ensures ReadDataMap(st', loc, [], codec) == Ok([Pair(Some(k + BinarySuffix), List(items))])
  {
    BinaryListKeepsSuffixAsWritten(k, items, codec);
    PutAllIntoEmpty([Pair(Some(k + BinarySuffix), List(items))]);
  }
}
