/**
 * String helpers of the migration script: the title key used to match
 * podcasts (`normalize`), the last path segment of a URL and the
 * 200-character truncation of error bodies.
 */
module Text {
  import opened Wrappers

  /** The characters ECMAScript's `String.prototype.trim` removes:
      WhiteSpace (including Unicode category Zs) and LineTerminator. */
  predicate IsTrimmable(c: char) {
    c == '\t' || c == '\n' || c == '\U{000B}' || c == '\U{000C}' || c == '\r' || c == ' '
    || c == '\U{00A0}' || c == '\U{1680}' || ('\U{2000}' <= c <= '\U{200A}')
    || c == '\U{2028}' || c == '\U{2029}' || c == '\U{202F}' || c == '\U{205F}'
    || c == '\U{3000}' || c == '\U{FEFF}'
  }

  /** Drops leading trimmable characters: the result is the longest suffix
      that does not start with one. */
  function TrimStart(s: string): (r: string)
    ensures |r| <= |s| && r == s[|s| - |r|..]
    ensures forall i :: 0 <= i < |s| - |r| ==> IsTrimmable(s[i])
    ensures r == [] || !IsTrimmable(r[0])
  {
    if |s| > 0 && IsTrimmable(s[0]) then TrimStart(s[1..]) else s
  }

  /** Drops trailing trimmable characters: the result is the longest prefix
      that does not end with one. */
  function TrimEnd(s: string): (r: string)
    ensures |r| <= |s| && r == s[..|r|]
    ensures forall i :: |r| <= i < |s| ==> IsTrimmable(s[i])
    ensures r == [] || !IsTrimmable(r[|r| - 1])
  {
    if |s| > 0 && IsTrimmable(s[|s| - 1]) then TrimEnd(s[..|s| - 1]) else s
  }

  /** `String.prototype.trim`. */
  function Trim(s: string): string {
    TrimEnd(TrimStart(s))
  }

  /** `toLowerCase` on one code point, for the Latin letters a French title
      uses: ASCII, Latin-1 and Latin Extended-A (U+0130, whose lower case is
      two code points, is left as it is). */
  function LowerChar(c: char): char {
    if 'A' <= c <= 'Z' || ('\U{00C0}' <= c <= '\U{00DE}' && c != '\U{00D7}') then
      (c as int + 32) as char
    else if (('\U{0100}' <= c <= '\U{012F}') || ('\U{0132}' <= c <= '\U{0137}') || ('\U{014A}' <= c <= '\U{0177}'))
         && c as int % 2 == 0 then
      (c as int + 1) as char
    else if (('\U{0139}' <= c <= '\U{0148}') || ('\U{0179}' <= c <= '\U{017E}')) && c as int % 2 == 1 then
      (c as int + 1) as char
    else if c == '\U{0178}' then
      '\U{00FF}'
    else
      c
  }

  /** `toLowerCase`, code point by code point. */
  function Lower(s: string): (r: string)
    ensures |r| == |s|
    ensures forall i :: 0 <= i < |s| ==> r[i] == LowerChar(s[i])
  {
    seq(|s|, i requires 0 <= i < |s| => LowerChar(s[i]))
  }

  predicate MarkerFree(s: string) {
    forall i :: 0 <= i < |s| ==> s[i] != '<' && s[i] != '>'
  }

  /** `replace(/<<|>>/g, '')`: scanning left to right, every `<<` or `>>`
      found at the current position is dropped, any other character kept. */
  function StripMarkers(s: string): (r: string)
    ensures |r| <= |s|
    ensures MarkerFree(s) ==> r == s
  {
    if |s| >= 2 && ((s[0] == '<' && s[1] == '<') || (s[0] == '>' && s[1] == '>')) then
      StripMarkers(s[2..])
    else if s == [] then
      []
    else
      [s[0]] + StripMarkers(s[1..])
  }

  /** The podcast matching key: `(title || '')` with markers removed,
      trimmed, then lower-cased. A missing or empty title gives "". */
  function Normalize(title: Option<string>): string {
    var t := if title.Some? then title.value else "";
    Lower(Trim(StripMarkers(t)))
  }

  /** `url.split('/').pop()`: the longest suffix of `url` without a '/'. */
  function LastSegment(url: string): (r: string)
    ensures '/' !in r
    ensures |r| <= |url| && r == url[|url| - |r|..]
    ensures |r| < |url| ==> url[|url| - |r| - 1] == '/'
  {
    if url == [] then ""
    else if url[|url| - 1] == '/' then ""
    else LastSegment(url[..|url| - 1]) + [url[|url| - 1]]
  }

  const ErrorTextLimit := 200

  /** `text.slice(0, 200)`: the longest prefix of at most 200 characters. */
  function Truncate(text: string): (r: string)
    ensures r <= text
    ensures |r| == if |text| <= ErrorTextLimit then |text| else ErrorTextLimit
  {
    if |text| <= ErrorTextLimit then text else text[..ErrorTextLimit]
  }

  // ---- Properties of the title key ----

  /** A decoration `<<...>>` around a marker-free title disappears. */
  lemma {:induction false} StripWrapped(t: string)
    requires MarkerFree(t)
    ensures StripMarkers("<<" + t + ">>") == t
  {
    assert ("<<" + t + ">>")[2..] == t + ">>";
    StripAppendedClose(t);
  }

  lemma {:induction false} StripAppendedClose(t: string)
    requires MarkerFree(t)
    ensures StripMarkers(t + ">>") == t
  {
    if t == [] {
      assert StripMarkers(">>"[2..]) == [];
    } else {
      assert (t + ">>")[1..] == t[1..] + ">>";
      StripAppendedClose(t[1..]);
      assert !(t[0] == '<' || t[0] == '>');
    }
  }

  /** The marker scan keeps a prefix without `<` or `>` as it is. */
  lemma {:induction false} StripKeepsPrefix(a: string, b: string)
    requires MarkerFree(a)
    ensures StripMarkers(a + b) == a + StripMarkers(b)
  {
    if a == [] {
      assert a + b == b;
    } else {
      MarkerFreeTail(a);
      StripKeepsPrefix(a[1..], b);
      StripKeepsStep(a[0], a[1..], b, StripMarkers(b));
      assert [a[0]] + a[1..] == a;
    }
  }

  /** One step of StripKeepsPrefix: a kept character in front of a kept
      prefix. */
  lemma StripKeepsStep(c: char, t: string, b: string, sb: string)
    requires c != '<' && c != '>'
    requires StripMarkers(t + b) == t + sb
    ensures StripMarkers([c] + t + b) == [c] + t + sb
  {
    assert [c] + t + b == [c] + (t + b);
    StripKeepsChar(c, t + b);
  }

  /** A character other than `<` and `>` is kept by the scan. */
  lemma StripKeepsChar(c: char, s: string)
    requires c != '<' && c != '>'
    ensures StripMarkers([c] + s) == [c] + StripMarkers(s)
  {
    assert ([c] + s)[1..] == s;
  }

  lemma MarkerFreeTail(a: string)
    requires MarkerFree(a) && a != []
    ensures a[0] != '<' && a[0] != '>' && MarkerFree(a[1..])
  {
    forall i | 0 <= i < |a[1..]| ensures a[1..][i] != '<' && a[1..][i] != '>' {
      assert a[1..][i] == a[i + 1];
    }
  }

  /** Every `<<` the scan reaches is dropped, whatever follows it. */
  lemma StripOpenMarker(a: string, b: string)
    requires MarkerFree(a)
    ensures StripMarkers(a + "<<" + b) == a + StripMarkers(b)
  {
    assert a + "<<" + b == a + ("<<" + b);
    StripKeepsPrefix(a, "<<" + b);
    assert ("<<" + b)[2..] == b;
  }

  /** Every `>>` the scan reaches is dropped, whatever follows it. */
  lemma StripCloseMarker(a: string, b: string)
    requires MarkerFree(a)
    ensures StripMarkers(a + ">>" + b) == a + StripMarkers(b)
  {
    assert a + ">>" + b == a + (">>" + b);
    StripKeepsPrefix(a, ">>" + b);
    assert (">>" + b)[2..] == b;
  }

  /** Lower-casing twice is lower-casing once. */
  lemma LowerIdempotent(s: string)
    ensures Lower(Lower(s)) == Lower(s)
  {
    forall i | 0 <= i < |s| ensures LowerChar(LowerChar(s[i])) == LowerChar(s[i]) {
      LowerCharIdempotent(s[i]);
    }
  }

  lemma LowerCharIdempotent(c: char)
    ensures LowerChar(LowerChar(c)) == LowerChar(c)
  {
  }

  /** A string that neither starts nor ends with a trimmable character is
      its own trim. */
  lemma TrimUnchanged(t: string)
    requires t != [] && !IsTrimmable(t[0]) && !IsTrimmable(t[|t| - 1])
    ensures Trim(t) == t
  {
  }

  /** ... and a blank in front of it is removed. */
  lemma TrimLeadingSpace(t: string)
    requires t != [] && !IsTrimmable(t[0]) && !IsTrimmable(t[|t| - 1])
    ensures Trim(" " + t) == t
  {
    assert (" " + t)[1..] == t;
  }

  lemma LowerLesOmbres()
    ensures Lower("Les Ombres") == "les ombres" && Lower("les ombres") == "les ombres"
  {
    var t, u := "Les Ombres", "les ombres";
    forall i | 0 <= i < |t| ensures LowerChar(t[i]) == u[i] && LowerChar(u[i]) == u[i] { }
  }

  lemma MarkerFreeLesOmbres()
    ensures MarkerFree("Les Ombres") && MarkerFree(" les ombres")
  {
  }

  /** The two spellings of one title that appear on the two sides meet on a
      single key: the decorated legacy form and a blank-prefixed, lower-case
      form. */
  lemma LesOmbresMatch()
    ensures Normalize(Some("<<Les Ombres>>")) == "les ombres"
    ensures Normalize(Some(" les ombres")) == "les ombres"
  {
    LesOmbresDecorated();
    LesOmbresSpaced();
  }

  lemma LesOmbresDecorated()
    ensures Normalize(Some("<<Les Ombres>>")) == "les ombres"
  {
    var d, t := "<<Les Ombres>>", "Les Ombres";
    MarkerFreeLesOmbres();
    assert d == "<<" + t + ">>";
    StripWrapped(t);
    TrimUnchanged(t);
    LowerLesOmbres();
    calc {
      Normalize(Some(d));
      Lower(Trim(StripMarkers(d)));
      Lower(Trim(t));
      Lower(t);
    }
  }

  lemma LesOmbresSpaced()
    ensures Normalize(Some(" les ombres")) == "les ombres"
  {
    var u := "les ombres";
    MarkerFreeLesOmbres();
    assert " les ombres" == " " + u;
    TrimLeadingSpace(u);
    LowerLesOmbres();
  }

  /** A decoration `<<...>>` around a marker-free title that neither starts
      nor ends with a blank leaves only the lower-cased title as the key. */
  lemma NormalizeWrapped(t: string)
    requires MarkerFree(t) && t != [] && !IsTrimmable(t[0]) && !IsTrimmable(t[|t| - 1])
    ensures Normalize(Some("<<" + t + ">>")) == Lower(t)
  {
    StripWrapped(t);
    TrimUnchanged(t);
  }

  /** A blank in front of such a title does not change its key. */
  lemma NormalizeSpaced(t: string)
    requires MarkerFree(t) && t != [] && !IsTrimmable(t[0]) && !IsTrimmable(t[|t| - 1])
    ensures Normalize(Some(" " + t)) == Lower(t)
  {
    assert MarkerFree(" " + t) by {
      forall i | 0 <= i < |" " + t| ensures (" " + t)[i] != '<' && (" " + t)[i] != '>' {
        if i > 0 { assert (" " + t)[i] == t[i - 1]; }
      }
    }
    TrimLeadingSpace(t);
  }

}
