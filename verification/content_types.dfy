/**
 * getContentType: the content type announced for a file, chosen by a
 * case-sensitive test of the path's suffix in a fixed order.
 */
module ContentTypes {
  import opened Wrappers
  import opened Strings

  const TextHtml := "text/html"
  const TextPng := "text/png"
  const TextJpg := "text/jpg"
  const TextPlain := "text/plain"

  function ContentType(path: string): (r: string)
    ensures r in {TextHtml, TextPng, TextJpg, TextPlain}
    ensures r == TextHtml <==> EndsWith(path, ".htm") || EndsWith(path, ".html")
  {
    if EndsWith(path, ".htm") || EndsWith(path, ".html") then TextHtml
    else if EndsWith(path, ".png") then TextPng
    else if EndsWith(path, ".jpg") then TextJpg
    else TextPlain
  }

  /** None of the four types holds a line break, so each fits on its header line. */
  lemma KnownTypeNoLineBreak(t: string)
    requires t in {TextHtml, TextPng, TextJpg, TextPlain}
    ensures NoLineBreak(t)
  {
  }

  /** Reference definition: the extension of a path is the text after its last dot, if it has one. */
  function Extension(path: string): (r: Option<string>)
    ensures r.Some? ==> '.' !in r.value
  {
    if path == [] then None
    else if path[|path| - 1] == '.' then Some([])
    else
      match Extension(path[..|path| - 1])
      case None => None
      case Some(e) => Some(e + [path[|path| - 1]])
  }

  /** The four outcomes, keyed by extension. */
  function TypeOfExtension(ext: Option<string>): string {
    match ext
    case Some(e) =>
      if e == "htm" || e == "html" then TextHtml
      else if e == "png" then TextPng
      else if e == "jpg" then TextJpg
      else TextPlain
    case None => TextPlain
  }

  /** A path ends with "." + e, for a dot-free e, exactly when e is its extension. */
  lemma {:induction false} EndsWithDotIff(path: string, e: string)
    requires '.' !in e
    ensures EndsWith(path, "." + e) <==> Extension(path) == Some(e)
    decreases |e|
  {
    if path != [] {
      var init, last := path[..|path| - 1], path[|path| - 1];
      if e == [] {
        if last != '.' {
          assert Extension(path) != Some([]) by {
            match Extension(init)
            case None =>
            case Some(x) => assert |x + [last]| > 0;
          }
        }
      } else {
        var e', c := e[..|e| - 1], e[|e| - 1];
        assert e == e' + [c];
        assert '.' !in e' by {
          forall i | 0 <= i < |e'| ensures e'[i] != '.' { assert e'[i] == e[i]; }
        }
        EndsWithDotIff(init, e');
        assert ("." + e')  + [c] == "." + e;
        if EndsWith(path, "." + e) {
          assert path[|path| - |"." + e|..] == path[|path| - |"." + e|..|path| - 1] + [last];
          assert init[|init| - |"." + e'|..] == path[|path| - |"." + e|..|path| - 1];
        }
      }
    }
  }

  /** A string ending with a suffix has that suffix's last character last. */
  lemma EndsWithLast(s: string, suffix: string)
    requires EndsWith(s, suffix) && |suffix| > 0
    ensures s[|s| - 1] == suffix[|suffix| - 1]
  {
    assert s[|s| - |suffix|..][|suffix| - 1] == s[|s| - 1];
  }

  lemma EndsWithAppend(base: string, suffix: string)
    ensures EndsWith(base + suffix, suffix)
  {
    assert (base + suffix)[|base|..] == suffix;
  }

  /** getContentType agrees with classification by extension, for every path. */
  lemma ContentTypeByExtension(path: string)
    ensures ContentType(path) == TypeOfExtension(Extension(path))
  {
    var ext := Extension(path);
    assert "." + "htm" == ".htm" && '.' !in "htm";
    EndsWithDotIff(path, "htm");
    assert "." + "html" == ".html" && '.' !in "html";
    EndsWithDotIff(path, "html");
    assert "." + "png" == ".png" && '.' !in "png";
    EndsWithDotIff(path, "png");
    assert "." + "jpg" == ".jpg" && '.' !in "jpg";
    EndsWithDotIff(path, "jpg");
    match ext
    case None =>
    case Some(e) =>
      if e == "htm" || e == "html" {
        assert ContentType(path) == TextHtml;
      } else if e == "png" {
        assert ContentType(path) == TextPng;
      } else if e == "jpg" {
        assert ContentType(path) == TextJpg;
      }
  }

  /** A string whose last character differs from a suffix's last character does not end with it. */
  lemma NotEndsWith(s: string, suffix: string)
    requires |s| > 0 && |suffix| > 0 && s[|s| - 1] != suffix[|suffix| - 1]
    ensures !EndsWith(s, suffix)
  {
    if EndsWith(s, suffix) {
      EndsWithLast(s, suffix);
    }
  }

  /** Whatever the base name, each known extension selects its type. */
  lemma ContentTypeOfKnownExtension(base: string)
    ensures ContentType(base + ".htm") == TextHtml
    ensures ContentType(base + ".html") == TextHtml
    ensures ContentType(base + ".png") == TextPng
    ensures ContentType(base + ".jpg") == TextJpg
  {
    EndsWithAppend(base, ".htm");
    EndsWithAppend(base, ".html");
    var png, jpg := base + ".png", base + ".jpg";
    EndsWithAppend(base, ".png");
    EndsWithAppend(base, ".jpg");
    assert png[|png| - 1] == 'g' && jpg[|jpg| - 1] == 'g';
    NotEndsWith(png, ".htm");
    NotEndsWith(png, ".html");
    NotEndsWith(jpg, ".htm");
    NotEndsWith(jpg, ".html");
    assert !EndsWith(jpg, ".png") by {
      assert jpg[|jpg| - 4..][1] == 'j';
    }
  }

  /** A directory's index page is announced as text/html. */
  lemma ContentTypeOfIndex(dir: string)
    ensures ContentType(dir + "index.html") == TextHtml
  {
    EndsWithAppend(dir + "index", ".html");
    assert (dir + "index") + ".html" == dir + "index.html";
  }
}
