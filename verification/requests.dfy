/**
 * The request line and the routing decision of run(): the first line is split
 * into tokens, the method is the first token upper-cased, the path the second
 * token lower-cased; a redirected path is answered with its new page, any
 * other path ending in "/" has "index.html" appended.
 */
module Requests {
  import opened Wrappers
  import opened Strings
  import opened Tokenizer
  import opened Redirects

  datatype Request = Request(httpMethod: string, path: string)

  /** What run() tokenizes when readLine returned null. */
  const NoInputLine := "No input received"

  function RequestLine(input: Option<string>): string {
    match input
    case None => NoInputLine
    case Some(line) => line
  }

  /**
   * The method and path read from the first line; None when the line has
   * fewer than two tokens, where the second nextToken throws.
   */
  function ParseRequestLine(input: Option<string>): (r: Option<Request>)
    ensures r.None? <==> |Tokens(RequestLine(input))| < 2
  {
    var tokens := Tokens(RequestLine(input));
    if |tokens| < 2 then None
    else
      Some(Request(ToUpper(tokens[0]), ToLower(tokens[1])))
  }

  /**
   * A line of two or more tokens, with any runs of blanks around and between
   * them, parses to the first token upper-cased and the second lower-cased;
   * the other tokens are ignored.
   */
  lemma ParseJoined(ws: seq<string>, seps: seq<string>)
    requires |ws| >= 2 && |seps| == |ws| + 1
    requires forall k :: 0 <= k < |ws| ==> IsToken(ws[k])
    requires forall k :: 0 <= k < |seps| ==> AllDelimiters(seps[k])
    requires forall k :: 0 < k < |ws| ==> seps[k] != []
    ensures ParseRequestLine(Some(JoinSep(ws, seps))) == Some(Request(ToUpper(ws[0]), ToLower(ws[1])))
  {
    TokensOfJoinSep(ws, seps);
  }

  /** A line of three tokens separated by single blanks. */
  lemma ParseThreeTokens(a: string, b: string, c: string)
    requires IsToken(a) && IsToken(b) && IsToken(c)
    ensures ParseRequestLine(Some(a + " " + b + " " + c)) == Some(Request(ToUpper(a), ToLower(b)))
  {
    var ws, seps := [a, b, c], ["", " ", " ", ""];
    assert JoinSep(ws, seps) == a + " " + b + " " + c by {
      assert ws[1..][1..][1..] == [] && seps[1..][1..][1..] == [""];
      assert JoinSep(ws[1..][1..], seps[1..][1..]) == " " + c + "";
      assert JoinSep(ws[1..], seps[1..]) == " " + b + (" " + c + "");
    }
    assert forall k :: 0 <= k < |seps| ==> AllDelimiters(seps[k]);
    ParseJoined(ws, seps);
  }

  /** The usual request line "<method> <path> HTTP/1.1", for a path already in lower case. */
  lemma ParseHttp11Line(m: string, path: string)
    requires IsToken(m) && IsToken(path) && ToLower(path) == path
    ensures ParseRequestLine(Some(m + " " + path + " HTTP/1.1")) == Some(Request(ToUpper(m), path))
  {
    var v := "HTTP/1.1";
    assert IsToken(v);
    ParseThreeTokens(m, path, v);
    assert m + " " + path + " " + v == (m + " " + path) + (" " + v);
    assert " " + v == " HTTP/1.1";
  }

  /** The request line of a browser asking for the site's root. */
  lemma ParseGetSlash()
    ensures ParseRequestLine(Some("GET / HTTP/1.1")) == Some(Request("GET", "/"))
  {
    var m, path := "GET", "/";
    assert IsToken(m) && IsToken(path) && ToLower(path) == path;
    ParseHttp11Line(m, path);
    assert m + " " + path + " HTTP/1.1" == "GET / HTTP/1.1";
    assert ToUpper(m) == "GET";
  }

  /** A line of blanks around at most one token (such as "GET " or "\t/x"): the parse fails. */
  lemma ParseFewerThanTwoTokens(ws: seq<string>, seps: seq<string>)
    requires |ws| < 2 && |seps| == |ws| + 1
    requires forall k :: 0 <= k < |ws| ==> IsToken(ws[k])
    requires forall k :: 0 <= k < |seps| ==> AllDelimiters(seps[k])
    ensures ParseRequestLine(Some(JoinSep(ws, seps))) == None
  {
    TokensOfJoinSep(ws, seps);
  }

  /** The substitute line is three tokens separated by single blanks; the first upper-cases to "NO", the second is already lower case. */
  lemma NoInputWords()
    ensures IsToken("No") && IsToken("input") && IsToken("received")
    ensures "No" + " " + "input" + " " + "received" == NoInputLine
    ensures ToUpper("No") == "NO" && ToLower("input") == "input"
  {
  }

  /** A missing line does not fail: it reads as method "NO" and path "input". */
  lemma ParseNoInput()
    ensures ParseRequestLine(None) == Some(Request("NO", "input"))
  {
    NoInputWords();
    ParseThreeTokens("No", "input", "received");
  }

  /** Where run() sends a parsed path: to the redirect branch or the ok branch. */
  datatype Route = Moved(target: string) | Serve(file: string)

  function RouteOf(path: string): Route {
    var i := FindMoved(MovedFiles, path);
    if i != -1 then Moved(MovedFiles[i])
    else if EndsWith(path, "/") then Serve(path + "index.html")
    else Serve(path)
  }

  /** The two configured old pages are redirected to their new pages. */
  lemma RouteOfOldPages()
    ensures RouteOf("/old_page.html") == Moved("/new_page.html")
    ensures RouteOf("/old_page2.html") == Moved("/new_page2.html")
  {
    MovedFilesPairs();
  }

  /** Redirects are decided on the path as received: the target of a redirect is a configured new page, never rewritten. */
  lemma RedirectTargetsAreNewPages(path: string)
    requires RouteOf(path).Moved?
    ensures RouteOf(path).target in {"/new_page.html", "/new_page2.html"}
    ensures !EndsWith(RouteOf(path).target, "index.html")
  {
    FindMovedSpec(MovedFiles, path);
  }

  /** A served file is the path with "index.html" appended when it ends in "/", the path itself otherwise, and never a moved old page. */
  lemma ServedFileNotMoved(path: string)
    requires RouteOf(path).Serve?
    ensures RouteOf(path).file == if EndsWith(path, "/") then path + "index.html" else path
    ensures NoOldPathBelow(MovedFiles, path, |MovedFiles|)
  {
    FindMovedSpec(MovedFiles, path);
  }
}
