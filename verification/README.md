# A verified model of HTTPServer

HTTPServer is a one-file HTTP/1.1 file server. One `HTTPServer` object
handles one accepted connection in `run()`:

- It reads the first line of the request.
- It splits that line with a `StringTokenizer`. The method is the first token
  upper-cased, and the path is the second token lower-cased.
- It checks the path against the redirect table `movedFiles`:
  - A redirected path is answered by `movedPermanently` with a 301 that carries
    the bytes of the new page.
  - Any other path gets `index.html` appended when it ends in `/`, and is then
    passed to `ok`. Only a GET is answered there, with a 200.
- When the file to send is missing, `fileNotFound` answers 404 with the page
  `404.html`.

Every response is written the same way:

- Six `println` calls on a `PrintWriter`: the status line (section 4 of
  RFC 9112), then `Server`, `Date`, `Content-type` and `Content-length`, then a
  blank line.
- A flush.
- The file's bytes, written through a `BufferedOutputStream`.
- A second flush.

The project has one module per part of the server:

- `Strings`: the `java.lang.String` operations the server uses, and the decimal
  rendering of the length.
- `Tokenizer`: `StringTokenizer` with its default delimiters.
- `ContentTypes`: `getContentType`.
- `Redirects`: `movedFiles` and `hasMoved`.
- `Requests`: parsing the request line and the routing decision.
- `Responses`: the three responses and what they put on the wire.
- `Streams`: the socket and the two writers, as classes with mutable buffers.
- `Dispatch`: the whole of `run()` as one function `Handle`.
- `Server`: the class `HttpServer`. Its methods `Ok`, `MovedPermanently`,
  `FileNotFound` and `Run` write to the socket step by step. Each is proved to
  put on the connection exactly what `Dispatch` describes.

The socket is a sequence of wire items, each a character or a byte. This keeps
the order in which the two writers reach the client visible.

Files under the server root are a map from the name given to `File(ROOT, …)` to
the file's bytes. The value `new Date()` prints and the platform line separator
are constants of each `HttpServer` object.

`Handle` has three partners:

- A client's reader for what reaches it (`ReadHeader`, `DeclaredLength` and
  `MessageBody`). It reads lines up to each line feed and drops a carriage
  return before it. It stops at the first empty line, then takes as many bytes
  as the Content-length field declares (sections 2.2 and 6.3 of RFC 9112). For
  every response written, it is proved to read back the status line and the
  four fields, a declared length equal to the body's length, and exactly the
  body, with nothing after it. This holds when the date text has no line break
  and the separator is `\n` or `\r\n`. `Date.toString` never prints a line
  break, and those are the default line separators on Unix and on Windows.
- A characterisation of `hasMoved` by the first matching old path.
- A classification of paths by extension, proved equal to the suffix tests of
  `getContentType`.

Three behaviours of the code differ from what a reader of an HTTP server might expect. The model keeps them as written:

- **A missing request line.** When `readLine` returns null, the placeholder
  "No input received" is not a parse failure. It tokenizes to method `NO` and
  path `input`. Since `NO` is not GET, nothing is written (`ScenarioNoInput`).
- **Methods other than GET.** On a path that is not redirected, `ok` prints
  nothing at all for these methods, not even headers. The connection closes with
  no response (`NonGetIsSilent`).
- **Redirects.** A redirected path is answered for every method. The 301
  carries the new page's bytes and type but no `Location` header
  (`RedirectIgnoresMethod`).

## Model

| member | source | states |
|---|---|---|
| Strings.EndsWith | HTTPServer.java:197-201 | no contract of its own (also used at line 76); `EndsWithIff` characterises it, and `ContentTypes.ContentTypeByExtension` and `Requests.ServedFileNotMoved` rest on it |
| Strings.EndsWithIff | HTTPServer.java:197-201 | endsWith holds exactly when the string is some string followed by the suffix |
| Strings.ToUpper | HTTPServer.java:69 | the method token upper-cased: same length, each letter a-z mapped to A-Z, every other character kept, and no letter a-z left |
| Strings.ToLower | HTTPServer.java:70 | the path token lower-cased: same length, each letter A-Z mapped to a-z, every other character kept, and no letter A-Z left |
| Strings.Decimal | HTTPServer.java:115 | the Content-length value is a non-empty run of digits with no leading zero |
| Strings.ParseDecimalOfDecimal | HTTPServer.java:115 | the decimal rendering of a length reads back as that same length |
| Strings.DecimalInjective | HTTPServer.java:115 | two lengths render to the same Content-length text only when they are equal |
| Tokenizer.Tokens | HTTPServer.java:68-70 | every token nextToken returns is non-empty and free of delimiters; `TokensOfJoinSep` gives the whole list for any line |
| Tokenizer.TokensOfJoinSep | HTTPServer.java:68-70 | tokens separated by non-empty runs of delimiters (space, tab, line feed, carriage return, form feed), with any run of delimiters before the first and after the last, tokenize back to exactly those tokens, in order |
| Tokenizer.TokensSkipLeading | HTTPServer.java:68 | delimiters before the first token do not change the tokens |
| ContentTypes.ContentType | HTTPServer.java:196-206 | the result is one of text/html, text/png, text/jpg or text/plain, and it is text/html exactly when the path ends in .htm or .html |
| ContentTypes.ContentTypeByExtension | HTTPServer.java:196-206 | for every path, getContentType equals the type of the text after the path's last dot (text/plain when there is no dot) |
| ContentTypes.ContentTypeOfKnownExtension | HTTPServer.java:196-206 | whatever the base name, .htm and .html select text/html, .png selects text/png and .jpg selects text/jpg |
| ContentTypes.KnownTypeNoLineBreak | HTTPServer.java:196-206 | none of the four content types holds a line break, so each fits on its header line |
| ContentTypes.ContentTypeOfIndex | HTTPServer.java:76-79 | a directory's index.html is served as text/html |
| Redirects.FindMovedFrom | HTTPServer.java:168-177 | a scan from an even index returns -1 or an odd index past the start whose preceding entry equals the path |
| Redirects.FindMoved | HTTPServer.java:168-177 | the lookup returns -1 or an odd index whose preceding old path equals the path; `FindMovedSpec` adds which index |
| Redirects.FindMovedFromSpec | HTTPServer.java:168-177 | from an even start with no earlier match, the scan returns -1 exactly when no old path equals the path, and otherwise no earlier old path does |
| Redirects.FindMovedSpec | HTTPServer.java:168-177 | hasMoved is -1 exactly when no old path (even index) equals the path; otherwise it is the odd index just after the first equal old path |
| Redirects.HasMoved | HTTPServer.java:168-177 | the loop returns the table lookup's value: -1 exactly when the path is not an old page, else the index of its new page, right after the first matching old page |
| Redirects.MovedFilesPairs | HTTPServer.java:21 | /old_page.html leads to /new_page.html, /old_page2.html to /new_page2.html, and no new page is itself moved |
| Requests.RequestLine | HTTPServer.java:64-67 | no contract of its own: the line read, or "No input received" when readLine returns null; `ParseNoInput` characterises the substitute |
| Requests.ParseRequestLine | HTTPServer.java:64-70 | the parse fails exactly when the line (or the placeholder for a missing line) has fewer than two tokens |
| Requests.ParseJoined | HTTPServer.java:68-70 | a line of two or more tokens, with any runs of delimiters before, between and after them, parses to the first token upper-cased and the second lower-cased; later tokens are ignored |
| Requests.ParseThreeTokens | HTTPServer.java:68-70 | three tokens separated by single blanks parse to the first upper-cased and the second lower-cased |
| Requests.ParseHttp11Line | HTTPServer.java:68-70 | "<method> <path> HTTP/1.1" with a lower-case path parses to the upper-cased method and that path |
| Requests.ParseGetSlash | HTTPServer.java:68-70 | "GET / HTTP/1.1" parses to method GET and path / |
| Requests.ParseFewerThanTwoTokens | HTTPServer.java:68-70 | a line of at most one token with any runs of delimiters around it (an empty line, "GET ", "\t/x") does not parse |
| Requests.ParseNoInput | HTTPServer.java:64-70 | a missing line reads as method NO and path input, not as a failure |
| Requests.RouteOf | HTTPServer.java:72-79 | no contract of its own; `RouteOfOldPages`, `RedirectTargetsAreNewPages` and `ServedFileNotMoved` characterise both branches |
| Requests.RouteOfOldPages | HTTPServer.java:72-73 | both configured old pages are routed to the redirect branch with their new pages |
| Requests.RedirectTargetsAreNewPages | HTTPServer.java:103-106 | a redirect always sends one of the two configured new pages, never a rewritten path |
| Requests.ServedFileNotMoved | HTTPServer.java:74-79 | a path sent to ok is not an old page; the file served is the path with index.html appended when the path ends in /, and the path itself otherwise |
| Responses.StatusLine | HTTPServer.java:111 | each status line (here the 301; likewise lines 133 and 154) is "HTTP/1.1", a blank, a three-digit code and a blank before the reason phrase |
| Responses.HeaderFields | HTTPServer.java:111-115 | five header lines, none of them empty, so none ends the header early |
| Responses.Encode | HTTPServer.java:110-119 | no contract of its own; `DecodeEncode` proves a client reads it back, and `EncodeEndsWithBody` that the body's bytes close it |
| Responses.EncodeEndsWithBody | HTTPServer.java:110-119 | what a response writes ends with exactly the body's bytes, and everything before them is text |
| Responses.LinesOfSix | HTTPServer.java:111-116 | six println calls put the six lines on the writer in order, each followed by the line separator |
| Responses.ReadPrintedLine | HTTPServer.java:111-116 | a line without line breaks, printed with either separator, is read back by a client as that line, and the reading stops right after it |
| Responses.ReadHeaderOfLines | HTTPServer.java:111-116 | printed lines free of line breaks, all non-empty but the last, which is empty, are read back as all the lines before the empty one, and the reading stops right after it |
| Responses.HeaderFieldsNoLineBreak | HTTPServer.java:111-115 | the status line and the four fields are non-empty and hold no line break when the date and content type hold none |
| Responses.DeclaredLengthOfHeader | HTTPServer.java:115 | the first Content-length field of a response's header reads back as the body's length |
| Responses.DecodeEncode | HTTPServer.java:110-119 | a client reading a written response finds a header of exactly the status line and the four fields, ended right before the body; the declared length is the body's length, and reading that many bytes gives exactly the body, with nothing after it |
| Streams.PrintWriter.Println | HTTPServer.java:111-116 | println appends the line and the line separator to the writer's buffer |
| Streams.PrintWriter.Flush | HTTPServer.java:117 | flush moves the buffered text to the connection, in order, and empties the buffer |
| Streams.BufferedOutputStream.Write | HTTPServer.java:118 | write(b, off, len) buffers exactly the len bytes starting at off |
| Streams.BufferedOutputStream.Flush | HTTPServer.java:119 | flush moves the buffered bytes to the connection, in order, and empties the buffer |
| Dispatch.NotFoundOutcome | HTTPServer.java:148-165 | a 404 is given exactly when 404.html exists, always as text/html; otherwise the client is left unanswered |
| Dispatch.ServeFile | HTTPServer.java:124-145 | silent exactly for a method other than GET; a 200 exactly for a GET of an existing file |
| Dispatch.Handle | HTTPServer.java:64-86 | the line fails exactly when it does not parse, and silence means a method other than GET; `OkExactlyForExistingFile`, `NotFoundExactlyForMissingFile`, `MissingNotFoundPage` and `Server.HttpServer.Run` characterise the rest |
| Dispatch.MovedOutcome | HTTPServer.java:103-122 | a redirect never answers 200 |
| Dispatch.MalformedSendsNothing | HTTPServer.java:64-70 | a line fails to be handled exactly when it has fewer than two tokens, and then nothing is written |
| Dispatch.RedirectIgnoresMethod | HTTPServer.java:72-73 | two requests for the same redirected path get the same outcome whatever their methods; when the new page exists, that outcome is a 301 with the new page's type and bytes |
| Dispatch.RedirectedAnswer | HTTPServer.java:103-122 | a redirected request whose new page exists is answered 301 with that page's bytes, typed by the new path |
| Dispatch.OkExactlyForExistingFile | HTTPServer.java:72-79 | a 200 is sent if and only if a GET names a path that is not redirected and whose file exists; the file is path + index.html when the path ends in /, else the path; the response carries that file's bytes, typed by its name |
| Dispatch.DirectoryServesIndex | HTTPServer.java:76-79 | a GET for a directory that is not redirected is answered 200 with its index.html as text/html |
| Dispatch.NonGetIsSilent | HTTPServer.java:129-142 | any method but GET on a path that is not redirected gets no response, even when the file is missing |
| Dispatch.NotFoundExactlyForMissingFile | HTTPServer.java:72-86 | a 404 is sent if and only if 404.html exists and the file a redirect or a GET needs is missing (the new page, the file, or the directory's index.html); it carries 404.html as text/html |
| Dispatch.MissingNotFoundPage | HTTPServer.java:81-86 | without 404.html no 404 is ever sent, and the client is left unanswered exactly when the file needed by a GET or a redirect is missing |
| Dispatch.AnsweredIsFramed | HTTPServer.java:110-119 | for a date without line breaks and a separator of \n or \r\n, a client reading any response written finds the status line and four fields, then a declared length equal to the body's length, then exactly the body |
| Dispatch.AnsweredTypeIsKnown | HTTPServer.java:196-206 | every response is typed by one of the four known content types |
| Dispatch.AnsweredBodyIsAFile | HTTPServer.java:103-165 | the body of every response is the content of some file under the root |
| Dispatch.ScenarioIndex | HTTPServer.java:76-79 | GET / with a 12-byte /index.html is answered 200 as text/html with those bytes, and declares length 12 |
| Dispatch.NewPagesAreHtml | HTTPServer.java:21 | both redirect targets are announced as text/html |
| Dispatch.ScenarioMoved | HTTPServer.java:103-122 | any request for /old_page.html, when /new_page.html exists, is answered 301 as text/html with the bytes of /new_page.html |
| Dispatch.ScenarioMissing | HTTPServer.java:81-86 | a GET for a missing plain file that is not redirected is answered 404 as text/html with the bytes of 404.html |
| Dispatch.ScenarioNoInput | HTTPServer.java:64-70 | a missing line gets no response, and an empty line does not parse and gets no response |
| Server.HttpServer.constructor | HTTPServer.java:26-28 | the handler is bound to its connection, its root, its date and its line separator |
| Server.HttpServer.ReadFileData | HTTPServer.java:180-193 | a file's bytes are returned exactly when it exists under the root, otherwise the read fails |
| Server.HttpServer.WriteHeaders | HTTPServer.java:111-117 | the six header lines reach the connection in order, each followed by the separator, and nothing stays buffered |
| Server.HttpServer.WriteResponse | HTTPServer.java:110-119 | the connection receives exactly the encoded response: the header text, then the body bytes |
| Server.HttpServer.MovedPermanently | HTTPServer.java:103-122 | fails (FileNotFoundException) exactly when the new page is missing and then writes nothing; otherwise writes the 301 of the redirect outcome |
| Server.HttpServer.Ok | HTTPServer.java:124-145 | fails exactly for a GET of a missing file, and then writes nothing; otherwise writes what serving the file to that method prescribes |
| Server.HttpServer.FileNotFound | HTTPServer.java:148-165 | fails exactly when 404.html is missing; the connection receives the 404 response, or nothing |
| Server.HttpServer.Run | HTTPServer.java:52-101 | after run() the connection holds exactly what was there before, followed by the transcript of the outcome Handle gives for the line read |

## Left out

- The accept loop, the threads and the port (lines 30-48): each connection is modelled as one `HttpServer` object on its own.
- Console logging (`System.out` and `System.err`) is not modelled: nothing the client receives depends on it.
- Closing the reader, writers and socket in `finally` is not modelled: it does not change what was sent.
- An `IOException` from the socket itself is not modelled: writes to the connection always succeed in the model.
- Reading the request line is a parameter of `Run`: `None` stands for a null result from `readLine`.
- The clock is a parameter: `Date: ` is followed by a string fixed per handler.
- The platform line separator is a parameter: both `\n` and `\r\n` are covered. Any separator is accepted by `Server.HttpServer.Run`. Framing is proved for these two only.
- The `PrintWriter` encodes the header text in the platform charset. The connection is modelled as carrying characters, so that encoding is abstracted away. Every header line except the date is ASCII. The usual default charsets (UTF-8, ISO-8859-1 and the Windows code pages) write one byte per ASCII character.
- Path resolution by `File(ROOT, name)` is not modelled. Files are keyed by the exact name passed in. So `/404.html` and `404.html` are different keys, even though `File(ROOT, …)` opens the same file for both.
- Directories as files are not modelled. Opening a directory named as a plain file (for example `/x` for a directory `x`) throws `FileNotFoundException` in Java. In the model, that name is simply not a key of the map, so it behaves as a missing file.
- Strings.ToUpper: follows only the ASCII letters a-z, not the locale-sensitive Unicode case mapping of `String.toUpperCase`.
- Strings.ToLower: follows only the ASCII letters A-Z, not the locale-sensitive Unicode case mapping of `String.toLowerCase`.
- Server.HttpServer.ReadFileData: does not model an `IOException` from `fileIn.read` (line 186). It is caught at line 87, or at line 84 inside `fileNotFound`, so nothing is written and no 404 is sent. In the model every file under the root reads successfully.
- Responses.DeclaredLength: matches the `Content-length: ` prefix exactly as this server prints it. A general client compares field names case-insensitively (section 5.1 of RFC 9110).
- Server.HttpServer.ReadFileData: does not model a short read by `FileInputStream.read`. The model always returns the whole file.
- Server.HttpServer.ReadFileData: does not model the `(int)` cast of `file.length()`. It keeps the low 32 bits of the length as a signed number. When that number is negative, `new byte[fileLength]` throws `NegativeArraySizeException` before any header is printed. That exception is not caught in `run()`, and nothing is written. This happens for sizes from 2^31 to 2^32 - 1, for example. When the number is non-negative but smaller than the size (sizes of 2^32 or more), that wrapped length is declared and that many bytes are sent. The model always declares and sends the true length.
- Streams.BufferedOutputStream.Write: does not model the 8192-byte buffer flushing itself when full. Only the order and content of what reaches the connection are modelled, and those are unchanged.
- Server.HttpServer.FileNotFound: has no `fileRequested` parameter, because the source uses it only for logging.
- Dispatch.MalformedSendsNothing: is stated for a line that was read. A missing line never fails to parse (`Requests.ParseNoInput`), so it is covered by `Dispatch.ScenarioNoInput`.
