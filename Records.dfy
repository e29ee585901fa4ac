/** The values that flow between the pipeline's stages: parsed JSON, the
    language field of a page, and the page/record dict itself. */
module Records {
  import opened Wrappers
  import opened Strings

  /** A value json.loads can produce (numbers kept as reals). */
  datatype Json =
    | JNull
    | JBool(b: bool)
    | JNumber(x: real)
    | JString(s: string)
    | JArray(elems: seq<Json>)
    | JObject(members: map<string, Json>)

  /** page['languages']: either the list of cld2 codes taken from the WARC
      metadata record, or the single code langdetect chose (a str). */
  datatype Languages = Codes(codes: seq<Json>) | Detected(code: string)

  /** `code in page['languages']`: list membership for a list, substring
      search for a str. */
  predicate HasLanguage(langs: Languages, code: string) {
    match langs
    case Codes(cs) => JString(code) in cs
    case Detected(s) => Contains(s, code)
  }

  /** The page/record dict, restricted to the keys the pipeline reads or
      writes; None stands for a missing key. */
  datatype Page = Page(
    timestamp: Option<string>,
    id: Option<string>,
    url: Option<string>,
    content: Option<string>,
    languages: Option<Languages>,
    title: Option<string>)

  /** {} */
  const EmptyPage := Page(None, None, None, None, None, None)

  function KeyCount<T>(o: Option<T>): nat {
    if o.Some? then 1 else 0
  }

  /** len(page): the number of keys present. */
  function Size(p: Page): (n: nat)
    ensures n == 0 <==> p == EmptyPage
  {
    KeyCount(p.timestamp) + KeyCount(p.id) + KeyCount(p.url)
    + KeyCount(p.content) + KeyCount(p.languages) + KeyCount(p.title)
  }
}
