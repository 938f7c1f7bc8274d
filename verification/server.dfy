/**
 * HTTPServer: one instance per accepted connection. run() reads the request
 * line, routes it, and writes at most one response through a PrintWriter
 * (headers) and a BufferedOutputStream (body), both over the connection.
 * Each method is proved to put on the connection exactly what the pure
 * description in module Dispatch says.
 */
module Server {
  import opened Wrappers
  import opened Strings
  import opened Tokenizer
  import opened ContentTypes
  import opened Redirects
  import opened Requests
  import opened Responses
  import opened Streams
  import opened Dispatch

  class HttpServer {
    /** The client connection. */
    const connect: Socket
    /** The files under ROOT. */
    const root: FileSystem
    /** What new Date() prints while this connection is handled. */
    const date: string
    /** The line separator of the platform's PrintWriter. */
    const lineSeparator: string

    constructor (connect: Socket, root: FileSystem, date: string, lineSeparator: string)
      ensures this.connect == connect && this.root == root
      ensures this.date == date && this.lineSeparator == lineSeparator
    {
      this.connect := connect;
      this.root := root;
      this.date := date;
      this.lineSeparator := lineSeparator;
    }

    /** The two writers run() opens on this connection, with nothing buffered. */
    predicate Ready(out: PrintWriter, dataOut: BufferedOutputStream)
      reads out, dataOut
    {
      out.sink == connect && dataOut.sink == connect && out.lineSeparator == lineSeparator
      && out.pending == [] && dataOut.pending == []
    }

    /** readFileData: the file's bytes, or None where opening it throws FileNotFoundException. */
    method ReadFileData(name: string) returns (fileData: Option<seq<byte>>)
      ensures fileData.Some? <==> name in root
      ensures fileData.Some? ==> fileData.value == root[name]
    {
      if name in root {
        fileData := Some(root[name]);
      } else {
        fileData := None;
      }
    }

    /** The six header lines of a response, printed and flushed to the connection. */
    method WriteHeaders(out: PrintWriter, r: Response)
      requires out.sink == connect && out.lineSeparator == lineSeparator && out.pending == []
      modifies out, connect
      ensures out.pending == []
      ensures connect.sent == old(connect.sent) + Chars(Lines(HeaderLines(r, date), lineSeparator))
    {
      var ls := HeaderLines(r, date);
      out.Println(ls[0]);
      out.Println(ls[1]);
      out.Println(ls[2]);
      out.Println(ls[3]);
      out.Println(ls[4]);
      out.Println(ls[5]);
      LinesOfSix(ls, lineSeparator);
      out.Flush();
    }

    /**
     * The emission shared by ok, movedPermanently and fileNotFound: the
     * headers, a flush, then exactly the body's bytes and a flush.
     */
    method WriteResponse(out: PrintWriter, dataOut: BufferedOutputStream, r: Response)
      requires Ready(out, dataOut)
      modifies out, dataOut, connect
      ensures Ready(out, dataOut)
      ensures connect.sent == old(connect.sent) + Encode(r, date, lineSeparator)
    {
      WriteHeaders(out, r);
      dataOut.Write(r.body, 0, |r.body|);
      assert r.body[0..|r.body|] == r.body;
      dataOut.Flush();
    }

    /** movedPermanently: 301 with the new page's type and bytes, or FileNotFoundException (true) when it is missing. */
    method MovedPermanently(out: PrintWriter, dataOut: BufferedOutputStream, fileRequested: string)
      returns (notFound: bool)
      requires Ready(out, dataOut)
      requires RouteOf(fileRequested).Moved?
      modifies out, dataOut, connect
      ensures Ready(out, dataOut)
      ensures var target := RouteOf(fileRequested).target;
        notFound == (target !in root)
        && connect.sent == old(connect.sent) + (if notFound then [] else Transcript(MovedOutcome(root, target), date, lineSeparator))
    {
      var i := HasMoved(fileRequested);
      var content := ContentType(MovedFiles[i]);
      var fileData := ReadFileData(MovedFiles[i]);
      if fileData.None? {
        return true;
      }
      WriteResponse(out, dataOut, Response(Status.MovedPermanently, content, fileData.value));
      notFound := false;
    }

    /** ok: for GET, 200 with the file's type and bytes, or FileNotFoundException (true); other methods write nothing. */
    method Ok(out: PrintWriter, dataOut: BufferedOutputStream, fileRequested: string, httpMethod: string)
      returns (notFound: bool)
      requires Ready(out, dataOut)
      modifies out, dataOut, connect
      ensures Ready(out, dataOut)
      ensures notFound == (httpMethod == "GET" && fileRequested !in root)
      ensures connect.sent == old(connect.sent)
        + (if notFound then [] else Transcript(ServeFile(root, fileRequested, httpMethod), date, lineSeparator))
    {
      var content := ContentType(fileRequested);
      notFound := false;
      if httpMethod == "GET" {
        var fileData := ReadFileData(fileRequested);
        if fileData.None? {
          return true;
        }
        WriteResponse(out, dataOut, Response(Status.Ok, content, fileData.value));
      }
    }

    /** fileNotFound: 404 with the 404 page as text/html, or FileNotFoundException (true) when that page is missing. */
    method FileNotFound(out: PrintWriter, dataOut: BufferedOutputStream) returns (notFound: bool)
      requires Ready(out, dataOut)
      modifies out, dataOut, connect
      ensures Ready(out, dataOut)
      ensures notFound == (NotFoundPage !in root)
      ensures connect.sent == old(connect.sent) + Transcript(NotFoundOutcome(root), date, lineSeparator)
    {
      var content := TextHtml;
      var fileData := ReadFileData(NotFoundPage);
      if fileData.None? {
        return true;
      }
      WriteResponse(out, dataOut, Response(Status.FileNotFound, content, fileData.value));
      notFound := false;
    }

    /**
     * run(): read the request line, parse it, route it, answer it. A line
     * with fewer than two tokens ends run() with nothing written; a missing
     * file in either branch falls back to fileNotFound.
     */
    method Run(input: Option<string>)
      modifies connect
      ensures connect.sent == old(connect.sent) + Transcript(Handle(root, input), date, lineSeparator)
    {
      var out := new PrintWriter(connect, lineSeparator);
      var dataOut := new BufferedOutputStream(connect);
      var line := if input.None? then NoInputLine else input.value;
      var parse := Tokens(line);
      if |parse| < 2 {
        return;
      }
      var httpMethod := ToUpper(parse[0]);
      var fileRequested := ToLower(parse[1]);
      assert ParseRequestLine(input) == Some(Request(httpMethod, fileRequested));

      ghost var outcome := Handle(root, input);
      ghost var sent := connect.sent;
      var moved := HasMoved(fileRequested);
      var notFound;
      if moved != -1 {
        assert outcome == MovedOutcome(root, MovedFiles[moved]);
        notFound := MovedPermanently(out, dataOut, fileRequested);
      } else {
        if EndsWith(fileRequested, "/") {
          fileRequested := fileRequested + "index.html";
        }
        assert outcome == ServeFile(root, fileRequested, httpMethod);
        notFound := Ok(out, dataOut, fileRequested, httpMethod);
      }
      assert notFound ==> outcome == NotFoundOutcome(root) && connect.sent == sent;
      assert !notFound ==> connect.sent == sent + Transcript(outcome, date, lineSeparator);
      if notFound {
        var _ := FileNotFound(out, dataOut);
      }
    }
  }
}
