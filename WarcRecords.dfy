/** Turning the records of one WARC file into pages: the cld2 language line
    of a metadata record, the three header fields a page keeps, and the
    generator that pairs each response record with the metadata record
    after it. */
module WarcRecords {
  import opened Wrappers
  import opened Strings
  import opened Records

  const LanguagePrefix := "languages-cld2:"
  const DateKey := "WARC-Date"
  const IdKey := "WARC-Record-ID"
  const UrlKey := "WARC-Target-URI"

  /** Python truthiness of a JSON value. */
  predicate Truthy(j: Json) {
    match j
    case JNull => false
    case JBool(b) => b
    case JNumber(x) => x != 0.0
    case JString(s) => |s| > 0
    case JArray(es) => |es| > 0
    case JObject(m) => |m| > 0
  }

  /** What parse_metadata can raise: UnicodeDecodeError from the strict
      decode of the payload, JSONDecodeError, KeyError on obj['reliable'],
      or TypeError where a value has the wrong shape. */
  datatype MetadataError = BadUtf8 | BadJson | MissingReliable | WrongType

  /** One element of the comprehension `lang['code'] for lang in … if 'code'
      in lang`: Some(code) is kept, None skipped.  For a dict, `in` tests the
      keys; for a str it is a substring test and for a list a membership
      test, and a hit there makes the subscript raise TypeError. */
  function CodeOf(lang: Json): Result<Option<Json>, MetadataError> {
    match lang
    case JObject(m) => Success(if "code" in m then Some(m["code"]) else None)
    case JString(s) => if Contains(s, "code") then Failure(WrongType) else Success(None)
    case JArray(es) => if JString("code") in es then Failure(WrongType) else Success(None)
    case _ => Failure(WrongType)
  }

  /** The comprehension over a list of language entries, in order. */
  function CodesOf(langs: seq<Json>): Result<seq<Json>, MetadataError>
    decreases |langs|
  {
    if |langs| == 0 then Success([])
    else match CodesOf(langs[..|langs| - 1])
      case Failure(e) => Failure(e)
      case Success(cs) =>
        match CodeOf(langs[|langs| - 1])
        case Failure(e) => Failure(e)
        case Success(c) => Success(cs + (if c.Some? then [c.value] else []))
  }

  /** The comprehension over obj.get('languages', []): a dict is iterated by
      its keys and a str by its one-character strings, neither of which can
      hold 'code' as a dict key; a key containing 'code' raises. */
  function LanguagesField(obj: map<string, Json>): Result<seq<Json>, MetadataError> {
    var v := if "languages" in obj then obj["languages"] else JArray([]);
    match v
    case JArray(es) => CodesOf(es)
    case JObject(m) => if exists k | k in m :: Contains(k, "code") then Failure(WrongType) else Success([])
    case JString(_) => Success([])
    case _ => Failure(WrongType)
  }

  /** One line of a metadata record: Success(None) to go on with the next
      line, Success(Some(codes)) to return the codes.  decode is json.loads
      (None where it raises). */
  function LineLanguages(line: string, decode: string -> Option<Json>): (r: Result<Option<seq<Json>>, MetadataError>)
    ensures r.Success? && r.value.Some? ==> |r.value.value| > 0
    ensures !(LanguagePrefix <= line) ==> r == Success(None)
  {
    if !(LanguagePrefix <= line) then Success(None)
    else match decode(Strip(line[|LanguagePrefix|..]))
      case None => Failure(BadJson)
      case Some(obj) =>
        if !obj.JObject? then Failure(WrongType)
        else if "reliable" !in obj.members then Failure(MissingReliable)
        else if !Truthy(obj.members["reliable"]) then Success(None)
        else match LanguagesField(obj.members)
          case Failure(e) => Failure(e)
          case Success(cs) => Success(if |cs| > 0 then Some(cs) else None)
  }

  /** Every line before index i lets the scan go on. */
  ghost predicate PassedBefore(lines: seq<string>, decode: string -> Option<Json>, i: nat)
    requires i <= |lines|
  {
    forall j | 0 <= j < i :: LineLanguages(lines[j], decode) == Success(None)
  }

  /** A line that lets the scan go on shifts PassedBefore by one. */
  lemma ShiftPassed(lines: seq<string>, decode: string -> Option<Json>)
    requires |lines| > 0 && LineLanguages(lines[0], decode) == Success(None)
    ensures forall i | 0 <= i <= |lines| - 1 ::
      PassedBefore(lines[1..], decode, i) <==> PassedBefore(lines, decode, i + 1)
  {
    assert forall j | 0 <= j < |lines| - 1 :: lines[1..][j] == lines[j + 1];
  }

  /** The scan over the lines with its early return.  It returns the codes of
      the first reliable cld2 line that has some, [] when there is none, and
      raises at the first line that raises before that. */
  function FirstLanguages(lines: seq<string>, decode: string -> Option<Json>): (r: Result<seq<Json>, MetadataError>)
    ensures r.Success? ==> (|r.value| == 0 <==> PassedBefore(lines, decode, |lines|))
    ensures r.Success? && |r.value| > 0 ==> exists i | 0 <= i < |lines| ::
      PassedBefore(lines, decode, i) && LineLanguages(lines[i], decode) == Success(Some(r.value))
    ensures r.Failure? ==> exists i | 0 <= i < |lines| ::
      PassedBefore(lines, decode, i) && LineLanguages(lines[i], decode) == Failure(r.error)
    decreases |lines|
  {
    if |lines| == 0 then Success([])
    else
      var l := LineLanguages(lines[0], decode);
      if l.Failure? then
        assert PassedBefore(lines, decode, 0);
        Failure(l.error)
      else if l.value.Some? then
        assert PassedBefore(lines, decode, 0);
        Success(l.value.value)
      else
        var rest := FirstLanguages(lines[1..], decode);
        ShiftPassed(lines, decode);
        rest
  }

  /** parse_metadata over the (decoded) payload of a metadata record. */
  function ParseMetadata(text: string, decode: string -> Option<Json>): Result<seq<Json>, MetadataError> {
    FirstLanguages(SplitOn(text, '\n'), decode)
  }

  /** The value of the last header named key. */
  function LastValue(headers: seq<(string, string)>, key: string): (r: Option<string>)
    ensures r.None? <==> forall i | 0 <= i < |headers| :: headers[i].0 != key
    ensures r.Some? ==> exists i | 0 <= i < |headers| ::
      headers[i] == (key, r.value) && forall j | i < j < |headers| :: headers[j].0 != key
    decreases |headers|
  {
    if |headers| == 0 then None
    else if headers[|headers| - 1].0 == key then Some(headers[|headers| - 1].1)
    else
      var init := headers[..|headers| - 1];
      assert forall i | 0 <= i < |init| :: init[i] == headers[i];
      LastValue(init, key)
  }

  /** The dict parse_wart_headers builds: only the three fields, each from
      the last header of its name. */
  function HeaderFields(headers: seq<(string, string)>): Page {
    Page(LastValue(headers, DateKey), LastValue(headers, IdKey), LastValue(headers, UrlKey), None, None, None)
  }

  lemma HeaderFieldsSnoc(headers: seq<(string, string)>, h: (string, string))
    ensures var next := HeaderFields(headers + [h]); var prev := HeaderFields(headers);
      && next.timestamp == (if h.0 == DateKey then Some(h.1) else prev.timestamp)
      && next.id == (if h.0 == IdKey then Some(h.1) else prev.id)
      && next.url == (if h.0 == UrlKey then Some(h.1) else prev.url)
      && next.content == None && next.languages == None && next.title == None
  {
    assert (headers + [h])[..|headers|] == headers;
  }

  /** parse_wart_headers: the header loop, a later header with the same name
      overwriting an earlier one. */
  method ParseWarcHeaders(headers: seq<(string, string)>) returns (data: Page)
    ensures data == HeaderFields(headers)
  {
    data := EmptyPage;
    assert headers[..0] == [];
    for i := 0 to |headers|
      invariant data == HeaderFields(headers[..i])
    {
      var (key, val) := headers[i];
      HeaderFieldsSnoc(headers[..i], headers[i]);
      assert headers[..i + 1] == headers[..i] + [headers[i]];
      if key == DateKey {
        data := data.(timestamp := Some(val));
      } else if key == IdKey {
        data := data.(id := Some(val));
      } else if key == UrlKey {
        data := data.(url := Some(val));
      }
    }
    assert headers[..|headers|] == headers;
  }

  /** A WARC record as the archive iterator presents it.  body is the
      payload decoded with invalid bytes dropped, which is how the content
      of a response is read; strictUtf8 says whether the payload is valid
      UTF-8, which the strict decode of a metadata payload demands (the two
      decodes agree when it is). */
  datatype Record = Record(recType: string, headers: seq<(string, string)>, body: string, strictUtf8: bool)

  /** A downloaded archive: the records the iterator yields, and whether the
      gzip stream or the archive iterator then raises (a truncated or
      corrupt download) instead of ending. */
  datatype Archive = Archive(records: seq<Record>, broken: bool)

  /** parse_metadata on the payload of a metadata record. */
  function MetadataOf(rec: Record, decode: string -> Option<Json>): (r: Result<seq<Json>, MetadataError>)
    ensures !rec.strictUtf8 ==> r == Failure(BadUtf8)
    ensures rec.strictUtf8 ==> r == ParseMetadata(rec.body, decode)
  {
    if !rec.strictUtf8 then Failure(BadUtf8) else ParseMetadata(rec.body, decode)
  }

  /** The generator's progress: the pages yielded so far, the pending page
      dict, and the error that ended it, if one did. */
  datatype Split = Split(yielded: seq<Page>, pending: Page, failed: Option<MetadataError>)

  /** One record of split_wart_file.  A response record first yields the
      pending page when it has any key, then starts a new page from its
      headers and content; a metadata record completes a page that has
      content with its languages, yields it and starts over from {}. */
  function Step(st: Split, rec: Record, decode: string -> Option<Json>): Split {
    if rec.recType == "response" then
      var page := HeaderFields(rec.headers).(content := Some(rec.body));
      Split(st.yielded + (if Size(st.pending) > 0 then [st.pending] else []), page, None)
    else if rec.recType == "metadata" && st.pending.content.Some? then
      match MetadataOf(rec, decode)
      case Failure(e) => Split(st.yielded, st.pending, Some(e))
      case Success(codes) =>
        Split(st.yielded + [st.pending.(languages := Some(Codes(codes)))], EmptyPage, None)
    else st
  }

  /** The generator run over the records, stopping at the first error. */
  function Grouped(records: seq<Record>, decode: string -> Option<Json>): Split
    decreases |records|
  {
    if |records| == 0 then Split([], EmptyPage, None)
    else
      var prev := Grouped(records[..|records| - 1], decode);
      if prev.failed.Some? then prev else Step(prev, records[|records| - 1], decode)
  }

  /** Once the generator has raised, later records change nothing. */
  lemma {:induction false} GroupedStops(records: seq<Record>, decode: string -> Option<Json>, i: nat)
    requires i <= |records| && Grouped(records[..i], decode).failed.Some?
    ensures Grouped(records, decode) == Grouped(records[..i], decode)
    decreases |records|
  {
    if i < |records| {
      var init := records[..|records| - 1];
      assert init[..i] == records[..i];
      GroupedStops(init, decode, i);
    } else {
      assert records[..i] == records;
    }
  }

  function ResponseCount(records: seq<Record>): nat
    decreases |records|
  {
    if |records| == 0 then 0
    else ResponseCount(records[..|records| - 1]) + (if records[|records| - 1].recType == "response" then 1 else 0)
  }

  /** Every yielded page has content; the pending page is either {} or a
      page with content still waiting for its languages; and each page,
      yielded or pending, comes from its own response record, so a page
      still pending after the last record is one that was never yielded. */
  lemma {:induction false} GroupedShape(records: seq<Record>, decode: string -> Option<Json>)
    ensures var g := Grouped(records, decode);
      && (forall k | 0 <= k < |g.yielded| :: g.yielded[k].content.Some?)
      && (g.pending == EmptyPage || (g.pending.content.Some? && g.pending.languages.None?))
      && |g.yielded| + (if g.pending == EmptyPage then 0 else 1) <= ResponseCount(records)
    decreases |records|
  {
    if |records| > 0 {
      var init := records[..|records| - 1];
      GroupedShape(init, decode);
      var prev := Grouped(init, decode);
      var rec := records[|records| - 1];
      if prev.failed.None? && rec.recType == "response" {
        var page := HeaderFields(rec.headers).(content := Some(rec.body));
        assert page != EmptyPage;
        assert Size(prev.pending) > 0 <==> prev.pending != EmptyPage;
      }
    }
  }

  /** Why split_wart_file stops early: parse_metadata raises, or the
      archive breaks off after its records. */
  datatype SplitError = Metadata(cause: MetadataError) | Truncated

  /** split_wart_file over one downloaded archive: the pages it yields and
      the error that stopped it.  Pages yielded before an error stay
      yielded; the page still pending when the archive breaks off is lost. */
  method SplitWarc(archive: Archive, decode: string -> Option<Json>)
    returns (pages: seq<Page>, error: Option<SplitError>)
    ensures pages == Grouped(archive.records, decode).yielded
    ensures error.None? <==> Grouped(archive.records, decode).failed.None? && !archive.broken
    ensures Grouped(archive.records, decode).failed.Some? ==>
      error == Some(Metadata(Grouped(archive.records, decode).failed.value))
    ensures Grouped(archive.records, decode).failed.None? && archive.broken ==> error == Some(Truncated)
  {
    var records := archive.records;
    pages, error := [], None;
    var page := EmptyPage;
    assert records[..0] == [];
    for i := 0 to |records|
      invariant Grouped(records[..i], decode) == Split(pages, page, None)
    {
      var rec := records[i];
      assert records[..i + 1][..i] == records[..i];
      if rec.recType == "response" {
        if Size(page) > 0 {
          pages := pages + [page];
        }
        page := ParseWarcHeaders(rec.headers);
        page := page.(content := Some(rec.body));
      } else if rec.recType == "metadata" {
        if page.content.Some? {
          var langs := MetadataOf(rec, decode);
          if langs.Failure? {
            GroupedStops(records, decode, i + 1);
            return pages, Some(Metadata(langs.error));
          }
          page := page.(languages := Some(Codes(langs.value)));
          pages := pages + [page];
          page := EmptyPage;
        }
      }
    }
    assert records[..|records|] == records;
    if archive.broken {
      error := Some(Truncated);
    }
  }
}
