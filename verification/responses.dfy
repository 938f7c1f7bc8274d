/**
 * The three responses the server writes (200, 301, 404) and what they put on
 * the connection: header lines through the PrintWriter, each followed by its
 * line separator, then the body bytes through the BufferedOutputStream. The
 * connection is a sequence of items, a character or a byte each, so the
 * order in which the two streams reach it stays visible.
 */
module Responses {
  import opened Wrappers
  import opened Strings

  type byte = b: int | 0 <= b < 256

  datatype WireItem = Char(c: char) | Byte(b: byte)

  function Chars(s: string): (w: seq<WireItem>)
    ensures |w| == |s| && forall i :: 0 <= i < |s| ==> w[i] == Char(s[i])
  {
    seq(|s|, i requires 0 <= i < |s| => Char(s[i]))
  }

  function Bytes(data: seq<byte>): (w: seq<WireItem>)
    ensures |w| == |data| && forall i :: 0 <= i < |data| ==> w[i] == Byte(data[i])
  {
    seq(|data|, i requires 0 <= i < |data| => Byte(data[i]))
  }

  datatype Status = Ok | MovedPermanently | FileNotFound

  /** The status line, as section 4 of RFC 9112 lays it out: version, code, reason. */
  function StatusLine(status: Status): (s: string)
    ensures |s| > 13 && s[..9] == "HTTP/1.1 " && s[12] == ' '
    ensures IsDigit(s[9]) && IsDigit(s[10]) && IsDigit(s[11])
  {
    match status
    case Ok => "HTTP/1.1 200 OK"
    case MovedPermanently => "HTTP/1.1 301 Moved Permanently"
    case FileNotFound => "HTTP/1.1 404 File Not Found"
  }

  const ServerHeader := "Server: HTTP Server from Jacob Wilkins : 1.0"
  const DatePrefix := "Date: "
  const ContentTypePrefix := "Content-type: "
  const ContentLengthPrefix := "Content-length: "

  /** The abstract response: what a status line, the headers and the body are made of. */
  datatype Response = Response(status: Status, contentType: string, body: seq<byte>)

  /** The status line and the four header fields, in the order they are printed. */
  function HeaderFields(r: Response, date: string): (fs: seq<string>)
    ensures |fs| == 5 && forall k :: 0 <= k < 5 ==> fs[k] != []
  {
    [StatusLine(r.status), ServerHeader, DatePrefix + date, ContentTypePrefix + r.contentType,
     ContentLengthPrefix + Decimal(|r.body|)]
  }

  /** The six println calls: the header fields, then the blank line that ends the header. */
  function HeaderLines(r: Response, date: string): seq<string> {
    HeaderFields(r, date) + [""]
  }

  /** Text printed by println for each line in turn. */
  function Lines(ls: seq<string>, separator: string): (s: string) {
    if ls == [] then [] else Lines(ls[..|ls| - 1], separator) + ls[|ls| - 1] + separator
  }

  /** Six lines printed one after the other. */
  lemma LinesOfSix(ls: seq<string>, separator: string)
    requires |ls| == 6
    ensures Lines(ls, separator)
      == [] + ls[0] + separator + ls[1] + separator + ls[2] + separator
         + ls[3] + separator + ls[4] + separator + ls[5] + separator
  {
    var sep := separator;
    assert ls[..1][..0] == [];
    assert Lines(ls[..1], sep) == [] + ls[0] + sep;
    assert ls[..2][..1] == ls[..1];
    assert Lines(ls[..2], sep) == Lines(ls[..1], sep) + ls[1] + sep;
    assert ls[..3][..2] == ls[..2];
    assert Lines(ls[..3], sep) == Lines(ls[..2], sep) + ls[2] + sep;
    assert ls[..4][..3] == ls[..3];
    assert Lines(ls[..4], sep) == Lines(ls[..3], sep) + ls[3] + sep;
    assert ls[..5][..4] == ls[..4];
    assert Lines(ls[..5], sep) == Lines(ls[..4], sep) + ls[4] + sep;
    assert ls[..6] == ls && ls[..6][..5] == ls[..5];
  }

  /** Everything one response puts on the connection: the header text, then exactly the body bytes. */
  function Encode(r: Response, date: string, separator: string): (w: seq<WireItem>) {
    Chars(Lines(HeaderLines(r, date), separator)) + Bytes(r.body)
  }

  /** The body's bytes close what is written, and everything before them is text. */
  lemma EncodeEndsWithBody(r: Response, date: string, separator: string)
    ensures var w := Encode(r, date, separator);
      |r.body| <= |w| && w[|w| - |r.body|..] == Bytes(r.body)
      && forall i :: 0 <= i < |w| - |r.body| ==> w[i].Char?
  {
  }

  // A client's reader for what reaches it, independent of the writer: it
  // reads lines up to each line feed, drops a carriage return before it,
  // stops at the first empty line, and then takes as many bytes as the
  // Content-length field declares (sections 2.2 and 6.3 of RFC 9112).

  /** A line separator the platform's PrintWriter may use. */
  predicate IsLineSeparator(separator: string) {
    separator == "\n" || separator == "\r\n"
  }

  /** The characters up to the first line feed, and what follows it; None when no line feed comes first. */
  function ReadLine(w: seq<WireItem>): (r: Option<(string, seq<WireItem>)>)
    ensures r.Some? ==> |r.value.1| < |w|
  {
    if w == [] || !w[0].Char? then None
    else if w[0].c == '\n' then Some(([], w[1..]))
    else
      match ReadLine(w[1..])
      case None => None
      case Some((line, rest)) => Some(([w[0].c] + line, rest))
  }

  function StripCarriageReturn(line: string): string {
    if line != [] && line[|line| - 1] == '\r' then line[..|line| - 1] else line
  }

  /** The lines before the first empty line, and what follows that empty line. */
  function ReadHeader(w: seq<WireItem>): Option<(seq<string>, seq<WireItem>)>
    decreases |w|
  {
    match ReadLine(w)
    case None => None
    case Some((raw, rest)) =>
      var line := StripCarriageReturn(raw);
      if line == [] then Some(([], rest))
      else
        match ReadHeader(rest)
        case None => None
        case Some((lines, body)) => Some(([line] + lines, body))
  }

  /** The bytes of `w`, if it holds nothing but bytes. */
  function AsBytes(w: seq<WireItem>): Option<seq<byte>> {
    if w == [] then Some([])
    else if w[0].Char? then None
    else match AsBytes(w[1..])
      case None => None
      case Some(rest) => Some([w[0].b] + rest)
  }

  predicate StartsWith(s: string, prefix: string) {
    prefix <= s
  }

  /**
   * The value of the first Content-length line, read as a decimal number.
   * This reader is fitted to this server's writer: it matches the prefix
   * exactly as printed, whereas field names are case-insensitive (section 5.1
   * of RFC 9110), so a general client would also accept "Content-Length".
   */
  function DeclaredLength(ls: seq<string>): Option<nat> {
    if ls == [] then None
    else if StartsWith(ls[0], ContentLengthPrefix) then ParseDecimal(ls[0][|ContentLengthPrefix|..])
    else DeclaredLength(ls[1..])
  }

  /** The body a client reads: exactly the declared number of bytes after the header. */
  function MessageBody(w: seq<WireItem>): Option<seq<byte>> {
    match ReadHeader(w)
    case None => None
    case Some((lines, rest)) =>
      match DeclaredLength(lines)
      case None => None
      case Some(n) => if n <= |rest| then AsBytes(rest[..n]) else None
  }

  lemma CharsAppend(a: string, b: string)
    ensures Chars(a + b) == Chars(a) + Chars(b)
  {
  }

  lemma {:induction false} ReadLineOfChars(s: string, rest: seq<WireItem>)
    requires '\n' !in s
    ensures ReadLine(Chars(s + "\n") + rest) == Some((s, rest))
  {
    var w := Chars(s + "\n") + rest;
    if s == [] {
      assert w[0] == Char('\n') && w[1..] == rest;
    } else {
      assert w[0] == Char(s[0]);
      assert w[1..] == Chars(s[1..] + "\n") + rest;
      ReadLineOfChars(s[1..], rest);
      assert [s[0]] + s[1..] == s;
    }
  }

  /** A line printed with either separator reads back as that line. */
  lemma ReadPrintedLine(line: string, separator: string, rest: seq<WireItem>)
    requires NoLineBreak(line) && IsLineSeparator(separator)
    ensures ReadLine(Chars(line + separator) + rest).Some?
    ensures var (raw, after) := ReadLine(Chars(line + separator) + rest).value;
      StripCarriageReturn(raw) == line && after == rest
  {
    var raw := if separator == "\n" then line else line + "\r";
    assert line + separator == raw + "\n";
    assert '\n' !in raw by {
      forall i | 0 <= i < |raw| ensures raw[i] != '\n' {
        if i < |line| { assert raw[i] == line[i]; }
      }
    }
    ReadLineOfChars(raw, rest);
    if separator == "\r\n" {
      assert raw[..|raw| - 1] == line;
    }
  }

  /** println on a non-empty list of lines: the first line, its separator, then the others. */
  lemma {:induction false} LinesCons(ls: seq<string>, separator: string)
    requires |ls| > 0
    ensures Lines(ls, separator) == ls[0] + separator + Lines(ls[1..], separator)
    decreases |ls|
  {
    var init := ls[..|ls| - 1];
    if |ls| == 1 {
      assert init == [] && ls[1..] == [];
    } else {
      LinesCons(init, separator);
      assert init[1..] == ls[1..][..|ls[1..]| - 1];
      assert init[0] == ls[0] && ls[1..][|ls[1..]| - 1] == ls[|ls| - 1];
    }
  }

  /**
   * Lines free of line breaks, every one non-empty but the last, which is
   * empty: the header reader gives back all but the last, and stops right
   * after the empty one.
   */
  lemma {:induction false} ReadHeaderOfLines(ls: seq<string>, separator: string, rest: seq<WireItem>)
    requires IsLineSeparator(separator) && |ls| > 0 && ls[|ls| - 1] == []
    requires forall k :: 0 <= k < |ls| ==> NoLineBreak(ls[k])
    requires forall k :: 0 <= k < |ls| - 1 ==> ls[k] != []
    ensures ReadHeader(Chars(Lines(ls, separator)) + rest) == Some((ls[..|ls| - 1], rest))
    decreases |ls|
  {
    LinesCons(ls, separator);
    var tail := Chars(Lines(ls[1..], separator)) + rest;
    CharsAppend(ls[0] + separator, Lines(ls[1..], separator));
    assert Chars(Lines(ls, separator)) + rest == Chars(ls[0] + separator) + tail;
    ReadPrintedLine(ls[0], separator, tail);
    if |ls| == 1 {
      assert Lines(ls[1..], separator) == [] && tail == rest;
    } else {
      ReadHeaderOfLines(ls[1..], separator, rest);
      assert ls[..|ls| - 1] == [ls[0]] + ls[1..][..|ls[1..]| - 1];
    }
  }

  lemma StatusLineNoLineBreak(status: Status)
    ensures NoLineBreak(StatusLine(status))
  {
    match status
    case Ok =>
    case MovedPermanently =>
    case FileNotFound =>
  }

  lemma PrefixesNoLineBreak()
    ensures NoLineBreak(ServerHeader)
    ensures NoLineBreak(DatePrefix) && NoLineBreak(ContentTypePrefix) && NoLineBreak(ContentLengthPrefix)
  {
  }

  /** The header fields hold no line break when the date and the content type hold none. */
  lemma HeaderFieldsNoLineBreak(r: Response, date: string)
    requires NoLineBreak(date) && NoLineBreak(r.contentType)
    ensures forall k :: 0 <= k < 5 ==> NoLineBreak(HeaderFields(r, date)[k]) && HeaderFields(r, date)[k] != []
  {
    StatusLineNoLineBreak(r.status);
    PrefixesNoLineBreak();
    NoLineBreakAppend(DatePrefix, date);
    NoLineBreakAppend(ContentTypePrefix, r.contentType);
    var n := Decimal(|r.body|);
    assert NoLineBreak(n) by {
      forall i | 0 <= i < |n| ensures n[i] != '\n' && n[i] != '\r' { assert IsDigit(n[i]); }
    }
    NoLineBreakAppend(ContentLengthPrefix, n);
  }

  lemma {:induction false} AsBytesOfBytes(data: seq<byte>)
    ensures AsBytes(Bytes(data)) == Some(data)
  {
    if data != [] {
      assert Bytes(data)[1..] == Bytes(data[1..]);
      AsBytesOfBytes(data[1..]);
      assert [data[0]] + data[1..] == data;
    }
  }

  /** The Content-length field is the first that starts with its name, and it reads back as the body's length. */
  lemma DeclaredLengthOfHeader(r: Response, date: string)
    ensures DeclaredLength(HeaderFields(r, date)) == Some(|r.body|)
  {
    var ls := HeaderFields(r, date);
    assert !StartsWith(ls[0], ContentLengthPrefix) by { assert ls[0][0] == 'H'; }
    assert !StartsWith(ls[1], ContentLengthPrefix) by { assert ls[1][0] == 'S'; }
    assert !StartsWith(ls[2], ContentLengthPrefix) by { assert ls[2][0] == 'D'; }
    assert !StartsWith(ls[3], ContentLengthPrefix) by { assert ls[3][8] == 't'; }
    assert ls[4][|ContentLengthPrefix|..] == Decimal(|r.body|);
    ParseDecimalOfDecimal(|r.body|);
    assert DeclaredLength(ls[4..]) == Some(|r.body|);
    assert DeclaredLength(ls[3..]) == DeclaredLength(ls[3..][1..]) && ls[3..][1..] == ls[4..];
    assert DeclaredLength(ls[2..]) == DeclaredLength(ls[2..][1..]) && ls[2..][1..] == ls[3..];
    assert DeclaredLength(ls[1..]) == DeclaredLength(ls[1..][1..]) && ls[1..][1..] == ls[2..];
  }

  /**
   * A client reading a written response: the header it reads is exactly the
   * status line and the four fields, the blank line ends it right before the
   * body, the Content-length field declares the body's length, and reading
   * that many bytes gives exactly the body, with nothing after it.
   */
  lemma DecodeEncode(r: Response, date: string, separator: string)
    requires IsLineSeparator(separator) && NoLineBreak(date) && NoLineBreak(r.contentType)
    ensures ReadHeader(Encode(r, date, separator)) == Some((HeaderFields(r, date), Bytes(r.body)))
    ensures DeclaredLength(HeaderFields(r, date)) == Some(|r.body|)
    ensures MessageBody(Encode(r, date, separator)) == Some(r.body)
  {
    var ls := HeaderLines(r, date);
    HeaderFieldsNoLineBreak(r, date);
    assert ls[5] == [] && NoLineBreak(ls[5]);
    assert forall k :: 0 <= k < 5 ==> ls[k] == HeaderFields(r, date)[k];
    ReadHeaderOfLines(ls, separator, Bytes(r.body));
    assert ls[..5] == HeaderFields(r, date);
    DeclaredLengthOfHeader(r, date);
    AsBytesOfBytes(r.body);
    assert Bytes(r.body)[..|r.body|] == Bytes(r.body);
  }
}
