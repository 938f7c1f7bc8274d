/**
 * The decision run() makes for one connection, as a value: given the files
 * under the server root and the first line read from the client, which
 * response (if any) reaches the client. The imperative HttpServer in module
 * Server is proved to write exactly Transcript(Handle(...)).
 */
module Dispatch {
  import opened Wrappers
  import opened Strings
  import opened Tokenizer
  import opened ContentTypes
  import opened Redirects
  import opened Requests
  import opened Responses

  /** The files under the server root, by the name handed to File(ROOT, name). */
  type FileSystem = map<string, seq<byte>>

  const NotFoundPage := "404.html"

  datatype Outcome =
    | Malformed                   // fewer than two tokens: nextToken throws, nothing is written
    | Silent                      // a non-GET request for a file that is not redirected: nothing is written
    | Unanswered                  // the 404 page itself is missing: nothing is written
    | Answered(response: Response)

  /** fileNotFound: the 404 page with a fixed type, when it exists. */
  function NotFoundOutcome(root: FileSystem): (o: Outcome)
    ensures o.Answered? <==> NotFoundPage in root
    ensures o == Unanswered || (o.Answered? && o.response.status == FileNotFound && o.response.contentType == TextHtml)
  {
    if NotFoundPage in root then Answered(Response(FileNotFound, TextHtml, root[NotFoundPage]))
    else Unanswered
  }

  /** ok: only a GET reads the file and answers 200; a missing file falls back to the 404 page. */
  function ServeFile(root: FileSystem, file: string, httpMethod: string): (o: Outcome)
    ensures o == Silent <==> httpMethod != "GET"
    ensures (o.Answered? && o.response.status == Ok) <==> (httpMethod == "GET" && file in root)
    ensures o != Malformed
  {
    if httpMethod != "GET" then Silent
    else if file in root then Answered(Response(Ok, ContentType(file), root[file]))
    else NotFoundOutcome(root)
  }

  /** movedPermanently: the new page's bytes and type under a 301; a missing new page falls back to the 404 page. */
  function MovedOutcome(root: FileSystem, target: string): (o: Outcome)
    ensures o.Answered? ==> o.response.status != Ok
  {
    if target in root then Answered(Response(MovedPermanently, ContentType(target), root[target]))
    else NotFoundOutcome(root)
  }

  /** run(): parse the request line, then redirect, serve or stay silent. */
  function Handle(root: FileSystem, input: Option<string>): (o: Outcome)
    ensures o == Malformed <==> ParseRequestLine(input).None?
    ensures o == Silent ==> ParseRequestLine(input).Some? && ParseRequestLine(input).value.httpMethod != "GET"
  {
    match ParseRequestLine(input)
    case None => Malformed
    case Some(req) =>
      match RouteOf(req.path)
      case Moved(target) => MovedOutcome(root, target)
      case Serve(file) => ServeFile(root, file, req.httpMethod)
  }

  /**
   * The request names a file that run() must send and that is missing: the
   * new page of a redirect, or the file (or index.html) of a GET.
   */
  predicate NeedsMissingFile(root: FileSystem, input: Option<string>) {
    match ParseRequestLine(input)
    case None => false
    case Some(req) =>
      match RouteOf(req.path)
      case Moved(target) => target !in root
      case Serve(file) => req.httpMethod == "GET" && file !in root
  }

  /** What reaches the client for an outcome. */
  function Transcript(o: Outcome, date: string, separator: string): seq<WireItem> {
    if o.Answered? then Encode(o.response, date, separator) else []
  }

  /**
   * A line that does not parse (fewer than two tokens) is the one failure
   * that escapes run(), and the only way to get Malformed: no byte is written.
   */
  lemma MalformedSendsNothing(root: FileSystem, line: string, date: string, separator: string)
    ensures Handle(root, Some(line)) == Malformed <==> |Tokens(line)| < 2
    ensures Handle(root, Some(line)) == Malformed ==> Transcript(Handle(root, Some(line)), date, separator) == []
  {
    var o := Handle(root, Some(line));
    assert o == Malformed <==> ParseRequestLine(Some(line)).None? by {
      match ParseRequestLine(Some(line))
      case None =>
      case Some(req) =>
        match RouteOf(req.path)
        case Moved(target) => assert MovedOutcome(root, target) != Malformed;
        case Serve(file) => assert ServeFile(root, file, req.httpMethod) != Malformed;
    }
    assert RequestLine(Some(line)) == line;
  }

  /**
   * A redirected path is answered the same way whatever the method: with a
   * 301 carrying the new page's type and bytes, or with the 404 fallback when
   * the new page is missing.
   */
  lemma RedirectIgnoresMethod(root: FileSystem, a: Option<string>, b: Option<string>)
    requires ParseRequestLine(a).Some? && ParseRequestLine(b).Some?
    requires ParseRequestLine(a).value.path == ParseRequestLine(b).value.path
    requires FindMoved(MovedFiles, ParseRequestLine(a).value.path) != -1
    ensures Handle(root, a) == Handle(root, b)
    ensures var target := MovedFiles[FindMoved(MovedFiles, ParseRequestLine(a).value.path)];
      target in root ==>
        Handle(root, a) == Answered(Response(MovedPermanently, ContentType(target), root[target]))
  {
  }

  /** A redirected request whose new page exists is answered 301 with that page, typed by the new path. */
  lemma RedirectedAnswer(root: FileSystem, input: Option<string>, target: string)
    requires ParseRequestLine(input).Some? && RouteOf(ParseRequestLine(input).value.path) == Moved(target)
    requires target in root
    ensures Handle(root, input) == Answered(Response(MovedPermanently, ContentType(target), root[target]))
  {
  }

  /**
   * The 200 response is given exactly to a GET for a path that is not
   * redirected and whose file exists: the path itself, or its "index.html"
   * when it ends in "/". It carries that file's bytes, typed by its name.
   */
  lemma OkExactlyForExistingFile(root: FileSystem, input: Option<string>)
    ensures (Handle(root, input).Answered? && Handle(root, input).response.status == Ok) <==>
      (ParseRequestLine(input).Some? &&
       var req := ParseRequestLine(input).value;
       var file := if EndsWith(req.path, "/") then req.path + "index.html" else req.path;
       req.httpMethod == "GET" && NoOldPathBelow(MovedFiles, req.path, |MovedFiles|) && file in root)
    ensures ParseRequestLine(input).Some? ==>
      var req := ParseRequestLine(input).value;
      var file := if EndsWith(req.path, "/") then req.path + "index.html" else req.path;
      req.httpMethod == "GET" && NoOldPathBelow(MovedFiles, req.path, |MovedFiles|) && file in root ==>
        Handle(root, input) == Answered(Response(Ok, ContentType(file), root[file]))
  {
    if ParseRequestLine(input).Some? {
      var req := ParseRequestLine(input).value;
      FindMovedSpec(MovedFiles, req.path);
      match RouteOf(req.path)
      case Moved(target) =>
      case Serve(file) =>
        assert Handle(root, input) == ServeFile(root, file, req.httpMethod);
    }
  }

  /** A directory request that is not redirected is served from its index.html, as text/html. */
  lemma DirectoryServesIndex(root: FileSystem, input: Option<string>, path: string)
    requires ParseRequestLine(input) == Some(Request("GET", path))
    requires FindMoved(MovedFiles, path) == -1 && EndsWith(path, "/")
    requires path + "index.html" in root
    ensures Handle(root, input) == Answered(Response(Ok, TextHtml, root[path + "index.html"]))
  {
    ContentTypeOfIndex(path);
    assert RouteOf(path) == Serve(path + "index.html");
  }

  /** Any method but GET on a path that is not redirected gets nothing, even when the file is missing. */
  lemma NonGetIsSilent(root: FileSystem, input: Option<string>, date: string, separator: string)
    requires ParseRequestLine(input).Some?
    requires ParseRequestLine(input).value.httpMethod != "GET"
    requires FindMoved(MovedFiles, ParseRequestLine(input).value.path) == -1
    ensures Handle(root, input) == Silent
    ensures Transcript(Handle(root, input), date, separator) == []
  {
  }

  /**
   * A 404 is sent exactly when the 404 page exists and the file a redirect
   * or a GET needs is missing, and it carries the 404 page as text/html.
   */
  lemma NotFoundExactlyForMissingFile(root: FileSystem, input: Option<string>)
    ensures (Handle(root, input).Answered? && Handle(root, input).response.status == FileNotFound) <==>
      (NotFoundPage in root && NeedsMissingFile(root, input))
    ensures NotFoundPage in root && NeedsMissingFile(root, input) ==>
      Handle(root, input) == Answered(Response(FileNotFound, TextHtml, root[NotFoundPage]))
  {
    if ParseRequestLine(input).Some? {
      var req := ParseRequestLine(input).value;
      match RouteOf(req.path)
      case Moved(target) =>
        assert Handle(root, input) == MovedOutcome(root, target);
      case Serve(file) =>
        assert Handle(root, input) == ServeFile(root, file, req.httpMethod);
    }
  }

  /** Without a 404 page, a missing file leaves the client with no response at all. */
  lemma MissingNotFoundPage(root: FileSystem, input: Option<string>, date: string, separator: string)
    requires NotFoundPage !in root
    ensures Handle(root, input).Answered? ==> Handle(root, input).response.status != FileNotFound
    ensures Handle(root, input) == Unanswered <==> NeedsMissingFile(root, input)
  {
    if ParseRequestLine(input).Some? {
      var req := ParseRequestLine(input).value;
      match RouteOf(req.path)
      case Moved(target) =>
        assert Handle(root, input) == MovedOutcome(root, target);
      case Serve(file) =>
        assert Handle(root, input) == ServeFile(root, file, req.httpMethod);
    }
  }

  /**
   * Every response that is written is well framed for a client: the header
   * it reads is the status line and the four fields, the blank line ends it
   * right before the body, and the Content-length field declares exactly the
   * bytes that follow. This needs a date without line breaks and a line
   * separator a client recognises.
   */
  lemma AnsweredIsFramed(root: FileSystem, input: Option<string>, date: string, separator: string)
    requires Handle(root, input).Answered?
    requires IsLineSeparator(separator) && NoLineBreak(date)
    ensures var r := Handle(root, input).response;
      var w := Transcript(Handle(root, input), date, separator);
      ReadHeader(w) == Some((HeaderFields(r, date), Bytes(r.body)))
      && DeclaredLength(HeaderFields(r, date)) == Some(|r.body|)
      && MessageBody(w) == Some(r.body)
  {
    var o := Handle(root, input);
    AnsweredTypeIsKnown(root, input);
    KnownTypeNoLineBreak(o.response.contentType);
    DecodeEncode(o.response, date, separator);
    assert Transcript(o, date, separator) == Encode(o.response, date, separator);
  }

  /** Every response is typed by one of the four known content types. */
  lemma AnsweredTypeIsKnown(root: FileSystem, input: Option<string>)
    requires Handle(root, input).Answered?
    ensures Handle(root, input).response.contentType in {TextHtml, TextPng, TextJpg, TextPlain}
  {
    var req := ParseRequestLine(input).value;
    match RouteOf(req.path)
    case Moved(target) =>
      assert Handle(root, input) == MovedOutcome(root, target);
    case Serve(file) =>
      assert Handle(root, input) == ServeFile(root, file, req.httpMethod);
  }

  /** The body of every response is the content of one file under the root, returned here. */
  lemma AnsweredBodyIsAFile(root: FileSystem, input: Option<string>) returns (name: string)
    requires Handle(root, input).Answered?
    ensures name in root && root[name] == Handle(root, input).response.body
  {
    var req := ParseRequestLine(input).value;
    match RouteOf(req.path)
    case Moved(target) =>
      name := if target in root then target else NotFoundPage;
    case Serve(file) =>
      name := if file in root then file else NotFoundPage;
  }

  // The concrete exchanges of a small site.

  /**
   * "GET / HTTP/1.1" (ParseGetSlash gives the request GET "/") with a 12-byte
   * index.html: 200, text/html, Content-length 12, the file's bytes.
   */
  lemma ScenarioIndex(root: FileSystem, input: Option<string>, date: string)
    requires ParseRequestLine(input) == Some(Request("GET", "/"))
    requires "/index.html" in root && |root["/index.html"]| == 12
    ensures Handle(root, input) == Answered(Response(Ok, TextHtml, root["/index.html"]))
    ensures DeclaredLength(HeaderFields(Handle(root, input).response, date)) == Some(12)
  {
    assert FindMoved(MovedFiles, "/") == -1 && EndsWith("/", "/");
    assert "/" + "index.html" == "/index.html";
    DirectoryServesIndex(root, input, "/");
    DeclaredLengthOfHeader(Response(Ok, TextHtml, root["/index.html"]), date);
  }

  /** Both redirect targets are HTML pages, so a 301 is sent as text/html. */
  lemma NewPagesAreHtml()
    ensures ContentType("/new_page.html") == TextHtml
    ensures ContentType("/new_page2.html") == TextHtml
  {
    assert EndsWith("/new_page.html", ".html");
    assert EndsWith("/new_page2.html", ".html");
  }

  /**
   * Any request for /old_page.html, whatever its method (ParseHttp11Line
   * gives the line "<method> /old_page.html HTTP/1.1" this path): 301 with
   * the bytes of /new_page.html as text/html.
   */
  lemma ScenarioMoved(root: FileSystem, input: Option<string>, httpMethod: string)
    requires ParseRequestLine(input) == Some(Request(httpMethod, "/old_page.html"))
    requires "/new_page.html" in root
    ensures Handle(root, input) == Answered(Response(MovedPermanently, TextHtml, root["/new_page.html"]))
  {
    RouteOfOldPages();
    NewPagesAreHtml();
  }

  /**
   * "GET <path> HTTP/1.1" for a lower-case path that is not redirected, not a
   * directory and not a file: 404 with the 404 page as text/html.
   */
  lemma ScenarioMissing(root: FileSystem, path: string)
    requires IsToken(path) && ToLower(path) == path
    requires FindMoved(MovedFiles, path) == -1 && !EndsWith(path, "/")
    requires path !in root && NotFoundPage in root
    ensures Handle(root, Some("GET" + " " + path + " HTTP/1.1"))
      == Answered(Response(FileNotFound, TextHtml, root[NotFoundPage]))
  {
    assert IsToken("GET") && ToUpper("GET") == "GET";
    ParseHttp11Line("GET", path);
  }

  /**
   * No line at all: the placeholder parses as method NO, which is not GET,
   * so nothing is written; an empty line fails to parse, and nothing is
   * written either.
   */
  lemma ScenarioNoInput(root: FileSystem, date: string, separator: string)
    ensures Handle(root, None) == Silent
    ensures Handle(root, Some("")) == Malformed
    ensures Transcript(Handle(root, None), date, separator) == []
  {
    ParseNoInput();
    assert FindMoved(MovedFiles, "input") == -1;
  }
}
