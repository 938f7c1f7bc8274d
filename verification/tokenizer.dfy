/**
 * java.util.StringTokenizer with its default delimiters (space, tab, newline,
 * carriage return, form feed): a line is read as its maximal runs of
 * non-delimiter characters, in order.
 */
module Tokenizer {

  predicate IsDelimiter(c: char) {
    c == ' ' || c == '\t' || c == '\n' || c == '\r' || c == '\U{C}'
  }

  /** A token: non-empty and free of delimiters. */
  predicate IsToken(w: string) {
    |w| > 0 && forall i :: 0 <= i < |w| ==> !IsDelimiter(w[i])
  }

  /** The longest prefix of `s` that holds no delimiter. */
  function Word(s: string): (w: string)
    ensures w <= s
    ensures forall i :: 0 <= i < |w| ==> !IsDelimiter(w[i])
    ensures |w| < |s| ==> IsDelimiter(s[|w|])
  {
    if s == [] || IsDelimiter(s[0]) then [] else [s[0]] + Word(s[1..])
  }

  /** The tokens of `s`, as successive calls to nextToken return them. */
  function Tokens(s: string): (ts: seq<string>)
    ensures forall k :: 0 <= k < |ts| ==> IsToken(ts[k])
    decreases |s|
  {
    if s == [] then []
    else if IsDelimiter(s[0]) then Tokens(s[1..])
    else
      var w := Word(s);
      [w] + Tokens(s[|w|..])
  }

  /** A string made only of delimiters (possibly empty). */
  predicate AllDelimiters(d: string) {
    forall i :: 0 <= i < |d| ==> IsDelimiter(d[i])
  }

  /**
   * The words interleaved with the separators: seps[0], ws[0], seps[1], ...,
   * ws[|ws| - 1], seps[|ws|], the way a line is built from its tokens and the
   * blanks around them.
   */
  function JoinSep(ws: seq<string>, seps: seq<string>): string
    requires |seps| == |ws| + 1
    decreases |ws|
  {
    if ws == [] then seps[0] else seps[0] + ws[0] + JoinSep(ws[1..], seps[1..])
  }

  lemma {:induction false} WordOfToken(w: string, rest: string)
    requires IsToken(w)
    requires rest == [] || IsDelimiter(rest[0])
    ensures Word(w + rest) == w
    decreases |w|
  {
    if |w| > 1 {
      assert (w + rest)[1..] == w[1..] + rest;
      WordOfToken(w[1..], rest);
    } else {
      assert (w + rest)[1..] == rest;
    }
  }

  /** Delimiters before the first token are skipped. */
  lemma {:induction false} TokensSkipLeading(d: string, s: string)
    requires forall i :: 0 <= i < |d| ==> IsDelimiter(d[i])
    ensures Tokens(d + s) == Tokens(s)
  {
    if d != [] {
      assert (d + s)[0] == d[0] && (d + s)[1..] == d[1..] + s;
      TokensSkipLeading(d[1..], s);
    } else {
      assert d + s == s;
    }
  }

  /**
   * Tokenizing tokens separated by runs of delimiters (any number before the
   * first and after the last, at least one between two tokens) gives back
   * exactly those tokens, in order.
   */
  lemma {:induction false} TokensOfJoinSep(ws: seq<string>, seps: seq<string>)
    requires |seps| == |ws| + 1
    requires forall k :: 0 <= k < |ws| ==> IsToken(ws[k])
    requires forall k :: 0 <= k < |seps| ==> AllDelimiters(seps[k])
    requires forall k :: 0 < k < |ws| ==> seps[k] != []
    ensures Tokens(JoinSep(ws, seps)) == ws
    decreases |ws|
  {
    if ws == [] {
      TokensSkipLeading(seps[0], []);
      assert seps[0] + [] == seps[0];
    } else {
      var w, t := ws[0], JoinSep(ws[1..], seps[1..]);
      assert JoinSep(ws, seps) == seps[0] + (w + t);
      TokensSkipLeading(seps[0], w + t);
      assert t == [] || IsDelimiter(t[0]) by {
        if |ws| > 1 {
          assert t == seps[1] + (ws[1] + JoinSep(ws[2..], seps[2..]));
          assert seps[1] != [] && t[0] == seps[1][0];
        }
      }
      WordOfToken(w, t);
      assert (w + t)[0] == w[0] && !IsDelimiter(w[0]);
      assert (w + t)[|w|..] == t;
      TokensOfJoinSep(ws[1..], seps[1..]);
    }
  }
}
