/**
 * The static-asset header policy: the `setHeaders` callback that `express.static`
 * runs for every file it serves (server.js:35-51).
 *
 * The callback is two independent chains of suffix tests, each of which may call
 * `res.setHeader` once. The model keeps that shape in `SetHeaders` and specifies it
 * by an independent reference: a classification of the path into one suffix class
 * and a rule table giving each class its (Cache-Control, Content-Type) pair.
 */
module AssetPolicy {
  import opened Wrappers

  type Headers = map<string, string>

  const CacheControl: string := "Cache-Control"
  const ContentType: string := "Content-Type"

  const OneYearPublic: string := "public, max-age=31536000"
  const NoCache: string := "no-cache"
  const JavaScriptType: string := "application/javascript; charset=utf-8"
  const WasmType: string := "application/wasm"
  const HtmlType: string := "text/html; charset=utf-8"

  /**
   * JavaScript's `s.endsWith(suffix)` with no position argument: the last `|suffix|`
   * characters of `s` are those of `suffix`, position by position.
   */
  predicate EndsWith(s: string, suffix: string)
    ensures EndsWith(s, suffix) <==>
      |suffix| <= |s| && forall k :: 0 <= k < |suffix| ==> s[|s| - |suffix| + k] == suffix[k]
  {
    |suffix| <= |s| && s[|s| - |suffix|..] == suffix
  }

  /** A string that ends with `suffix` ends with the last two characters of `suffix`. */
  lemma EndsWithTail(s: string, suffix: string)
    requires 2 <= |suffix|
    ensures EndsWith(s, suffix) ==>
      s[|s| - 1] == suffix[|suffix| - 1] && s[|s| - 2] == suffix[|suffix| - 2]
  {
    if EndsWith(s, suffix) {
      assert s[|s| - |suffix|..][|suffix| - 1] == suffix[|suffix| - 1];
      assert s[|s| - |suffix|..][|suffix| - 2] == suffix[|suffix| - 2];
    }
  }

  /** No path ends with two of the four suffixes the callback tests. */
  lemma SuffixesExclusive(path: string)
    ensures EndsWith(path, ".js") ==> !EndsWith(path, ".css") && !EndsWith(path, ".html") && !EndsWith(path, ".wasm")
    ensures EndsWith(path, ".css") ==> !EndsWith(path, ".html") && !EndsWith(path, ".wasm")
    ensures EndsWith(path, ".html") ==> !EndsWith(path, ".wasm")
  {
    EndsWithTail(path, ".js");
    EndsWithTail(path, ".css");
    EndsWithTail(path, ".html");
    EndsWithTail(path, ".wasm");
  }

  /** The suffix classes the callback distinguishes. */
  datatype AssetClass = Script | Stylesheet | Markup | Wasm | Other

  /** The class of a served file; each class holds exactly the paths with its suffix. */
  function Classify(path: string): (c: AssetClass)
    ensures c == Script <==> EndsWith(path, ".js")
    ensures c == Stylesheet <==> EndsWith(path, ".css")
    ensures c == Markup <==> EndsWith(path, ".html")
    ensures c == Wasm <==> EndsWith(path, ".wasm")
    ensures c == Other <==>
      !EndsWith(path, ".js") && !EndsWith(path, ".css") && !EndsWith(path, ".html") && !EndsWith(path, ".wasm")
  {
    SuffixesExclusive(path);
    if EndsWith(path, ".js") then Script
    else if EndsWith(path, ".css") then Stylesheet
    else if EndsWith(path, ".html") then Markup
    else if EndsWith(path, ".wasm") then Wasm
    else Other
  }

  /** What the callback sets for one class: a Cache-Control value and a Content-Type value, each optional. */
  datatype Rule = Rule(cacheControl: Option<string>, contentType: Option<string>)

  /**
   * The policy table: one year public caching for scripts and stylesheets, revalidation for
   * markup, a content type for scripts, markup and WebAssembly, and nothing for other files.
   */
  function RuleFor(c: AssetClass): (r: Rule)
    ensures r.cacheControl == Some(OneYearPublic) <==> c == Script || c == Stylesheet
    ensures r.cacheControl == Some(NoCache) <==> c == Markup
    ensures r.contentType.Some? <==> c == Script || c == Markup || c == Wasm
    ensures r == Rule(None, None) <==> c == Other
  {
    match c
    case Script => Rule(Some(OneYearPublic), Some(JavaScriptType))
    case Stylesheet => Rule(Some(OneYearPublic), None)
    case Markup => Rule(Some(NoCache), Some(HtmlType))
    case Wasm => Rule(None, Some(WasmType))
    case Other => Rule(None, None)
  }

  /** The headers a rule contributes: a key for each value the rule has, and no other key. */
  function RuleHeaders(r: Rule): (h: Headers)
    ensures CacheControl in h <==> r.cacheControl.Some?
    ensures CacheControl in h ==> h[CacheControl] == r.cacheControl.value
    ensures ContentType in h <==> r.contentType.Some?
    ensures ContentType in h ==> h[ContentType] == r.contentType.value
    ensures h.Keys <= {CacheControl, ContentType}
  {
    var cc: Headers := if r.cacheControl.Some? then map[CacheControl := r.cacheControl.value] else map[];
    var ct: Headers := if r.contentType.Some? then map[ContentType := r.contentType.value] else map[];
    cc + ct
  }

  /**
   * The headers the callback sets for a path: a Cache-Control for scripts, stylesheets and
   * markup, a Content-Type for scripts, markup and WebAssembly, and nothing else.
   */
  function PolicyHeaders(path: string): (h: Headers)
    ensures h.Keys <= {CacheControl, ContentType}
    ensures CacheControl in h <==> EndsWith(path, ".js") || EndsWith(path, ".css") || EndsWith(path, ".html")
    ensures ContentType in h <==> EndsWith(path, ".js") || EndsWith(path, ".html") || EndsWith(path, ".wasm")
  {
    RuleHeaders(RuleFor(Classify(path)))
  }

  lemma ScriptHeaders(path: string)
    requires EndsWith(path, ".js")
    ensures PolicyHeaders(path) == map[CacheControl := OneYearPublic, ContentType := JavaScriptType]
  {
  }

  lemma StylesheetHeaders(path: string)
    requires EndsWith(path, ".css")
    ensures PolicyHeaders(path) == map[CacheControl := OneYearPublic]
  {
  }

  lemma MarkupHeaders(path: string)
    requires EndsWith(path, ".html")
    ensures PolicyHeaders(path) == map[CacheControl := NoCache, ContentType := HtmlType]
  {
  }

  lemma WasmHeaders(path: string)
    requires EndsWith(path, ".wasm")
    ensures PolicyHeaders(path) == map[ContentType := WasmType]
  {
  }

  lemma OtherHeaders(path: string)
    requires !EndsWith(path, ".js") && !EndsWith(path, ".css") && !EndsWith(path, ".html") && !EndsWith(path, ".wasm")
    ensures PolicyHeaders(path) == map[]
  {
  }

  /** The outgoing response of one request: only its header map matters here. */
  class Response {
    var headers: Headers

    constructor (initial: Headers)
      ensures headers == initial
    {
      headers := initial;
    }

    /** `res.setHeader(name, value)`: replaces any previous value of that header. */
    method SetHeader(name: string, value: string)
      modifies this
      ensures headers == old(headers)[name := value]
    {
      headers := headers[name := value];
    }
  }

  /**
   * The `setHeaders` callback: the two if-chains of server.js:37-50. The new header map
   * is the old one overridden by the policy's headers for this path; every other header
   * is left as it was.
   */
  method SetHeaders(res: Response, filePath: string)
    modifies res
    ensures res.headers == old(res.headers) + PolicyHeaders(filePath)
    ensures forall name :: name != CacheControl && name != ContentType ==>
      (name in res.headers <==> name in old(res.headers)) &&
      (name in res.headers ==> res.headers[name] == old(res.headers)[name])
  {
    SuffixesExclusive(filePath);
    if EndsWith(filePath, ".js") || EndsWith(filePath, ".css") {
      res.SetHeader(CacheControl, OneYearPublic);
    } else if EndsWith(filePath, ".html") {
      res.SetHeader(CacheControl, NoCache);
    }

    if EndsWith(filePath, ".js") {
      res.SetHeader(ContentType, JavaScriptType);
    } else if EndsWith(filePath, ".wasm") {
      res.SetHeader(ContentType, WasmType);
    } else if EndsWith(filePath, ".html") {
      res.SetHeader(ContentType, HtmlType);
    }

    if EndsWith(filePath, ".js") {
      ScriptHeaders(filePath);
    } else if EndsWith(filePath, ".css") {
      StylesheetHeaders(filePath);
    } else if EndsWith(filePath, ".html") {
      MarkupHeaders(filePath);
    } else if EndsWith(filePath, ".wasm") {
      WasmHeaders(filePath);
    } else {
      OtherHeaders(filePath);
    }
  }
}
