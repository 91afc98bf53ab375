/** The HTML body the email sender renders from a plain-text message. */
module EmailBody {
  import opened Prelude

  // ---- re.split(r"(https?://[^\s<>]+)", plain) -------------------------------

  /** What \s matches in a str pattern. */
  predicate IsSpace(c: char) {
    || '\U{0009}' <= c <= '\U{000D}' || '\U{001C}' <= c <= '\U{0020}' || c == '\U{0085}' || c == '\U{00A0}'
    || c == '\U{1680}' || '\U{2000}' <= c <= '\U{200A}' || c == '\U{2028}' || c == '\U{2029}' || c == '\U{202F}'
    || c == '\U{205F}' || c == '\U{3000}'
  }

  predicate UrlChar(c: char) {
    !IsSpace(c) && c != '<' && c != '>'
  }

  /** The length of "https://" or "http://" at position i, or zero. */
  function SchemeLength(s: string, i: nat): (n: nat)
    requires i <= |s|
    ensures n > 0 ==> i + n <= |s|
  {
    if i + 8 <= |s| && s[i..i + 8] == "https://" then 8
    else if i + 7 <= |s| && s[i..i + 7] == "http://" then 7
    else 0
  }

  /** The pattern matches at position i: a scheme and at least one more URL character. */
  predicate UrlAt(s: string, i: nat)
    requires i <= |s|
  {
    var n := SchemeLength(s, i);
    n > 0 && i + n < |s| && UrlChar(s[i + n])
  }

  /** The greedy end of a run of URL characters. */
  function RunEnd(s: string, i: nat): (e: nat)
    requires i <= |s|
    ensures i <= e <= |s|
    ensures forall k | i <= k < e :: UrlChar(s[k])
    ensures e < |s| ==> !UrlChar(s[e])
    decreases |s| - i
  {
    if i < |s| && UrlChar(s[i]) then RunEnd(s, i + 1) else i
  }

  /** The leftmost match at or after i, or |s|. */
  function FirstUrl(s: string, i: nat): (k: nat)
    requires i <= |s|
    ensures i <= k <= |s|
    ensures forall j | i <= j < k :: !UrlAt(s, j)
    ensures k < |s| ==> UrlAt(s, k)
    decreases |s| - i
  {
    if i == |s| || UrlAt(s, i) then i else FirstUrl(s, i + 1)
  }

  function Split(s: string): seq<string>
    decreases |s|
  {
    var i := FirstUrl(s, 0);
    if i == |s| then [s]
    else
      var e := RunEnd(s, i + SchemeLength(s, i));
      [s[..i], s[i..e]] + Split(s[e..])
  }

  function Join(parts: seq<string>): string {
    if parts == [] then "" else parts[0] + Join(parts[1..])
  }

  /** A link target: only URL characters, after a scheme and more. */
  predicate IsUrl(u: string) {
    (forall i | 0 <= i < |u| :: UrlChar(u[i])) && UrlAt(u, 0)
  }

  predicate HasNoUrl(t: string) {
    forall i | 0 <= i < |t| :: !UrlAt(t, i)
  }

  lemma SchemeIsUrlChars(s: string, i: nat)
    requires i <= |s| && UrlAt(s, i)
    ensures var e := RunEnd(s, i + SchemeLength(s, i));
            i + 7 < e && IsUrl(s[i..e])
  {
    hide UrlChar;
    var n := SchemeLength(s, i);
    var e := RunEnd(s, i + n);
    var u := s[i..e];
    var scheme := if n == 8 then "https://" else "http://";
    assert s[i..i + n] == scheme;
    SchemeChars(scheme);
    forall k | 0 <= k < |u| ensures UrlChar(u[k]) {
      if k < n {
        assert u[k] == s[i..i + n][k];
      }
    }
    assert |scheme| == n < |u| && u[..n] == s[i..i + n];
    SchemeAtStart(u, n, scheme);
  }

  lemma SchemeChars(scheme: string)
    requires scheme == "https://" || scheme == "http://"
    ensures forall k | 0 <= k < |scheme| :: UrlChar(scheme[k])
  {
  }

  lemma SchemeAtStart(u: string, n: nat, scheme: string)
    requires |scheme| == n < |u| && u[..n] == scheme && UrlChar(u[n])
    requires scheme == "https://" || scheme == "http://"
    ensures UrlAt(u, 0)
  {
    hide UrlChar;
    assert u[0..n] == u[..n];
    if n == 7 && 8 <= |u| {
      assert u[0..8][4] == scheme[4] == ':' && "https://"[4] == 's';
    }
  }

  /** No URL of a text is cut off before it: a match in a prefix is a match in the whole. */
  lemma PrefixUrl(s: string, n: nat, i: nat)
    requires i < n <= |s| && UrlAt(s[..n], i)
    ensures UrlAt(s, i)
  {
    var t := s[..n];
    assert i + 8 <= n ==> t[i..i + 8] == s[i..i + 8];
    assert i + 7 <= n ==> t[i..i + 7] == s[i..i + 7];
    if SchemeLength(t, i) == 7 {
      assert s[i..i + 7] == "http://";
      assert s[i + 4] == s[i..i + 7][4] == ':';
      if i + 8 <= |s| {
        assert s[i..i + 8][4] == s[i + 4] && "https://"[4] == 's';
      }
    }
  }

  /** The first two parts of a split that finds a URL. */
  lemma FirstParts(s: string)
    requires FirstUrl(s, 0) < |s|
    ensures var i := FirstUrl(s, 0);
            var e := RunEnd(s, i + SchemeLength(s, i));
            i < e <= |s| && HasNoUrl(s[..i]) && IsUrl(s[i..e])
  {
    hide FirstUrl, RunEnd, SchemeLength, UrlAt, IsUrl;
    var i := FirstUrl(s, 0);
    SchemeIsUrlChars(s, i);
    forall j | 0 <= j < i ensures !UrlAt(s[..i], j) {
      if UrlAt(s[..i], j) { PrefixUrl(s, i, j); }
    }
  }

  predicate Alternates(parts: seq<string>) {
    |parts| % 2 == 1 && forall k | 0 <= k < |parts| :: if k % 2 == 1 then IsUrl(parts[k]) else HasNoUrl(parts[k])
  }

  lemma AlternatesCons(text: string, url: string, rest: seq<string>)
    requires HasNoUrl(text) && IsUrl(url) && Alternates(rest)
    ensures Alternates([text, url] + rest)
  {
    hide IsUrl, HasNoUrl;
    var parts := [text, url] + rest;
    forall k | 0 <= k < |parts| ensures if k % 2 == 1 then IsUrl(parts[k]) else HasNoUrl(parts[k]) {
      if k >= 2 {
        assert parts[k] == rest[k - 2];
      }
    }
  }

  lemma JoinCons(text: string, url: string, rest: seq<string>)
    ensures Join([text, url] + rest) == text + (url + Join(rest))
  {
    var parts := [text, url] + rest;
    assert parts[1..] == [url] + rest;
    assert parts[1..][1..] == rest;
  }

  /**
   The split loses nothing and alternates: texts without any URL at even positions, whole URLs at odd ones.
   */
  lemma {:induction false} SplitFacts(s: string)
    ensures Join(Split(s)) == s && Alternates(Split(s))
    decreases |s|
  {
    hide *;
    var i, e := SplitCases(s);
    if i == |s| {
      JoinOne(s);
    } else {
      SplitFacts(s[e..]);
      AlternatesCons(s[..i], s[i..e], Split(s[e..]));
      JoinCons(s[..i], s[i..e], Split(s[e..]));
      assert s == s[..i] + (s[i..e] + s[e..]);
    }
  }

  lemma SplitCases(s: string) returns (i: nat, e: nat)
    ensures i <= |s|
    ensures i == |s| ==> Split(s) == [s] && Alternates([s])
    ensures i < |s| ==> i < e <= |s| && Split(s) == [s[..i], s[i..e]] + Split(s[e..])
                        && HasNoUrl(s[..i]) && IsUrl(s[i..e])
    ensures forall j | 0 <= j < i :: !UrlAt(s, j)
    ensures i < |s| ==> UrlAt(s, i) && (e < |s| ==> !UrlChar(s[e]))
  {
    hide UrlAt, IsUrl;
    i := FirstUrl(s, 0);
    e := |s|;
    if i < |s| {
      FirstParts(s);
      e := RunEnd(s, i + SchemeLength(s, i));
    }
  }

  // ---- The split is the pattern's ---------------------------------------------

  /** What a URL is, in the pattern's terms: a scheme, more, and no white space or angle bracket. */
  lemma UrlMeans(u: string)
    ensures IsUrl(u) <==>
              && (("http://" <= u && |u| > 7) || ("https://" <= u && |u| > 8))
              && forall i | 0 <= i < |u| :: !IsSpace(u[i]) && u[i] != '<' && u[i] != '>'
  {
    hide IsSpace;
    if "http://" <= u && 8 <= |u| {
      assert u[4] == "http://"[4] == ':' && "https://"[4] == 's';
      assert u[0..7] == "http://";
    }
    if "https://" <= u {
      assert u[0..8] == "https://";
    }
    assert |u| >= 7 && u[0..7] == "http://" ==> "http://" <= u;
    assert |u| >= 8 && u[0..8] == "https://" ==> "https://" <= u;
  }

  /** Among the ASCII characters white space is the blank, tab to carriage return, and the four separators. */
  lemma AsciiSpaces(c: char)
    requires c < '\U{0080}'
    ensures IsSpace(c) <==> c as int in {9, 10, 11, 12, 13, 28, 29, 30, 31, 32}
  {
  }

  /**
   re.split by its own rules: up to the first position where the pattern matches, then the longest run it
   matches there, then on behind that run.
   */
  predicate Scanned(s: string, parts: seq<string>)
    decreases |parts|
  {
    && parts != [] && parts[0] <= s && (forall j | 0 <= j < |parts[0]| :: !UrlAt(s, j))
    && var rest := s[|parts[0]|..];
       if |parts| == 1 then rest == ""
       else
         && parts[1] <= rest && IsUrl(parts[1])
         && (parts[1] < rest ==> !UrlChar(rest[|parts[1]|]))
         && Scanned(rest[|parts[1]|..], parts[2..])
  }

  /** Split does that ... */
  lemma {:induction false} SplitScans(s: string)
    ensures Scanned(s, Split(s))
    decreases |s|
  {
    hide UrlAt, IsUrl, UrlChar, Split;
    var i, e := SplitCases(s);
    if i == |s| {
      assert Scanned(s, [s]);
    } else {
      SplitScans(s[e..]);
      ScanFirst(s, i, e, Split(s[e..]));
    }
  }

  /** ... and nothing else does. */
  lemma {:induction false} ScanIsSplit(s: string, parts: seq<string>)
    requires Scanned(s, parts)
    ensures parts == Split(s)
    decreases |s|
  {
    hide UrlAt, IsUrl, UrlChar, Split;
    var i, e := SplitCases(s);
    if i == |s| {
      ScanWhole(s, parts);
    } else {
      ScanStart(s, parts, i, e);
      ScanIsSplit(s[e..], parts[2..]);
      assert parts == [parts[0], parts[1]] + parts[2..];
    }
  }

  lemma ScanWhole(s: string, parts: seq<string>)
    requires Scanned(s, parts) && forall j | 0 <= j < |s| :: !UrlAt(s, j)
    ensures parts == [s]
  {
    hide UrlAt, IsUrl, UrlChar;
    if |parts| > 1 { MatchInRest(s, parts[0], parts[1]); }
    assert s == parts[0] + s[|parts[0]|..];
    assert |parts| == 1 && parts[0] == s;
  }

  lemma ScanFirst(s: string, i: nat, e: nat, rest: seq<string>)
    requires i < e <= |s| && IsUrl(s[i..e]) && (e < |s| ==> !UrlChar(s[e])) && forall j | 0 <= j < i :: !UrlAt(s, j)
    requires Scanned(s[e..], rest)
    ensures Scanned(s, [s[..i], s[i..e]] + rest)
  {
    hide UrlAt, IsUrl, UrlChar;
    var parts := [s[..i], s[i..e]] + rest;
    assert parts[2..] == rest && s[i..][e - i..] == s[e..];
    assert s[i..e] <= s[i..];
  }

  lemma MatchInRest(s: string, text: string, url: string)
    requires text <= s && url <= s[|text|..] && IsUrl(url)
    ensures |text| < |s| && UrlAt(s, |text|)
  {
    var i, n := |text|, SchemeLength(url, 0);
    assert forall k | 0 <= k < |url| :: s[i + k] == url[k];
    assert s[i..i + n] == url[0..n];
    if n == 7 && i + 8 <= |s| {
      assert s[i..i + 8][4] == url[0..7][4] == ':' && "https://"[4] == 's';
    }
  }

  lemma ScanStart(s: string, parts: seq<string>, i: nat, e: nat)
    requires Scanned(s, parts) && i < e <= |s| && UrlAt(s, i) && IsUrl(s[i..e]) && (e < |s| ==> !UrlChar(s[e]))
    requires forall j | 0 <= j < i :: !UrlAt(s, j)
    ensures |parts| > 1 && parts[0] == s[..i] && parts[1] == s[i..e] && Scanned(s[e..], parts[2..])
  {
    hide UrlAt, UrlChar, IsUrl;
    if |parts| > 1 { MatchInRest(s, parts[0], parts[1]); }
    assert |parts| > 1 && |parts[0]| == i;
    var rest := s[i..];
    assert rest[..e - i] == s[i..e] && rest[e - i..] == s[e..];
    LongestRun(rest, parts[1], s[i..e]);
  }

  /** Two runs of URL characters that both end where no such character follows are one. */
  lemma LongestRun(s: string, a: string, b: string)
    requires a <= s && b <= s && IsUrl(a) && IsUrl(b)
    requires (a < s ==> !UrlChar(s[|a|])) && (b < s ==> !UrlChar(s[|b|]))
    ensures a == b
  {
    hide UrlAt, UrlChar;
    assert forall k | 0 <= k < |a| :: a[k] == s[k] && UrlChar(s[k]);
    assert forall k | 0 <= k < |b| :: b[k] == s[k] && UrlChar(s[k]);
    assert |a| == |b|;
  }

  lemma JoinOne(s: string)
    ensures Join([s]) == s
  {
    assert Join([s]) == s + Join([s][1..]);
  }

  // ---- html.escape ------------------------------------------------------------

  /** str.replace of one character. */
  function Replace(s: string, c: char, with: string): string {
    if s == "" then "" else (if s[0] == c then with else [s[0]]) + Replace(s[1..], c, with)
  }

  /** html.escape with quote=True: five replacements, the ampersand first. */
  function Escape(s: string): string {
    Replace(Replace(Replace(Replace(Replace(s, '&', "&amp;"), '<', "&lt;"), '>', "&gt;"), '"', "&quot;"),
            '\'', "&#x27;")
  }

  function EscapeChar(c: char): string {
    match c
    case '&' => "&amp;"
    case '<' => "&lt;"
    case '>' => "&gt;"
    case '"' => "&quot;"
    case '\'' => "&#x27;"
    case _ => [c]
  }

  lemma {:induction false} ReplaceConcat(a: string, b: string, c: char, with: string)
    ensures Replace(a + b, c, with) == Replace(a, c, with) + Replace(b, c, with)
  {
    if a == "" {
      assert a + b == b;
    } else {
      assert (a + b)[1..] == a[1..] + b;
      ReplaceConcat(a[1..], b, c, with);
    }
  }

  lemma {:induction false} ReplaceAbsent(s: string, c: char, with: string)
    requires c !in s
    ensures Replace(s, c, with) == s
  {
    if s != "" {
      assert s == [s[0]] + s[1..];
      ReplaceAbsent(s[1..], c, with);
    }
  }

  lemma EscapeConcat(a: string, b: string)
    ensures Escape(a + b) == Escape(a) + Escape(b)
  {
    ReplaceConcat(a, b, '&', "&amp;");
    var a1, b1 := Replace(a, '&', "&amp;"), Replace(b, '&', "&amp;");
    ReplaceConcat(a1, b1, '<', "&lt;");
    var a2, b2 := Replace(a1, '<', "&lt;"), Replace(b1, '<', "&lt;");
    ReplaceConcat(a2, b2, '>', "&gt;");
    var a3, b3 := Replace(a2, '>', "&gt;"), Replace(b2, '>', "&gt;");
    ReplaceConcat(a3, b3, '"', "&quot;");
    ReplaceConcat(Replace(a3, '"', "&quot;"), Replace(b3, '"', "&quot;"), '\'', "&#x27;");
  }

  lemma ReplaceOne(c: char, d: char, with: string)
    ensures Replace([c], d, with) == if c == d then with else [c]
  {
    assert Replace([c][1..], d, with) == "";
  }

  /** A string that holds none of the four later characters passes the later passes unchanged. */
  lemma LaterPasses(s: string)
    requires '<' !in s && '>' !in s && '"' !in s && '\'' !in s
    ensures Replace(Replace(Replace(Replace(s, '<', "&lt;"), '>', "&gt;"), '"', "&quot;"), '\'', "&#x27;") == s
  {
    hide Replace;
    ReplaceAbsent(s, '<', "&lt;");
    ReplaceAbsent(s, '>', "&gt;");
    ReplaceAbsent(s, '"', "&quot;");
    ReplaceAbsent(s, '\'', "&#x27;");
  }

  /** The five passes do not disturb one another: each character becomes its own entity. */
  lemma EscapeOne(c: char)
    ensures Escape([c]) == EscapeChar(c)
  {
    hide Replace;
    ReplaceOne(c, '&', "&amp;");
    if c == '&' {
      LaterPasses("&amp;");
    } else {
      ReplaceOne(c, '<', "&lt;");
      if c == '<' {
        ReplaceAbsent("&lt;", '>', "&gt;");
        ReplaceAbsent("&lt;", '"', "&quot;");
        ReplaceAbsent("&lt;", '\'', "&#x27;");
      } else {
        ReplaceOne(c, '>', "&gt;");
        if c == '>' {
          ReplaceAbsent("&gt;", '"', "&quot;");
          ReplaceAbsent("&gt;", '\'', "&#x27;");
        } else {
          ReplaceOne(c, '"', "&quot;");
          if c == '"' {
            ReplaceAbsent("&quot;", '\'', "&#x27;");
          } else {
            ReplaceOne(c, '\'', "&#x27;");
          }
        }
      }
    }
  }

  lemma EscapeStep(s: string)
    requires s != ""
    ensures Escape(s) == EscapeChar(s[0]) + Escape(s[1..])
  {
    assert s == [s[0]] + s[1..];
    EscapeConcat([s[0]], s[1..]);
    EscapeOne(s[0]);
  }

  predicate Safe(c: char) {
    c != '<' && c != '>' && c != '"' && c != '\''
  }

  lemma EscapeCharIsSafe(c: char)
    ensures forall d | d in EscapeChar(c) :: Safe(d)
    ensures '\n' in EscapeChar(c) ==> c == '\n'
  {
  }

  /** Escaped text holds no markup character, and newlines only where the text had them. */
  lemma {:induction false} EscapeIsSafe(s: string)
    ensures forall c | c in Escape(s) :: Safe(c)
    ensures '\n' in Escape(s) ==> '\n' in s
    ensures TagFree(Escape(s))
  {
    hide Escape, EscapeChar, Replace;
    if s == "" {
      EscapeNothing();
    } else {
      EscapeStep(s);
      EscapeCharIsSafe(s[0]);
      EscapeIsSafe(s[1..]);
    }
    forall i | 0 <= i < |Escape(s)| ensures Safe(Escape(s)[i]) {
      assert Escape(s)[i] in Escape(s);
    }
  }

  lemma EscapeNothing()
    ensures Escape("") == ""
  {
  }

  /** The reader's side: the five entities, decoded left to right. */
  function Unescape(s: string): string {
    if s == "" then ""
    else if "&amp;" <= s then "&" + Unescape(s[5..])
    else if "&lt;" <= s then "<" + Unescape(s[4..])
    else if "&gt;" <= s then ">" + Unescape(s[4..])
    else if "&quot;" <= s then "\"" + Unescape(s[6..])
    else if "&#x27;" <= s then "'" + Unescape(s[6..])
    else [s[0]] + Unescape(s[1..])
  }

  lemma UnescapeStep(c: char, rest: string)
    ensures Unescape(EscapeChar(c) + rest) == [c] + Unescape(rest)
  {
    var s := EscapeChar(c) + rest;
    assert s[|EscapeChar(c)|..] == rest;
    match c
    case '&' => assert s[..5] == "&amp;";
    case '<' => assert s[..4] == "&lt;" && s[1] == 'l';
    case '>' => assert s[..4] == "&gt;" && s[1] == 'g';
    case '"' => assert s[..6] == "&quot;" && s[1] == 'q';
    case '\'' => assert s[..6] == "&#x27;" && s[1] == '#';
    case _ => assert s[0] == c;
  }

  lemma {:induction false} UnescapeEscape(s: string)
    ensures Unescape(Escape(s)) == s
  {
    if s != "" {
      EscapeStep(s);
      UnescapeStep(s[0], Escape(s[1..]));
      UnescapeEscape(s[1..]);
      assert s == [s[0]] + s[1..];
    }
  }

  // ---- The rendered body ------------------------------------------------------

  function Link(u: string): string {
    "<a href=\"" + Escape(u) + "\">" + Escape(u) + "</a>"
  }

  /** The parts from position `index` on, rendered: odd positions become links. */
  function Rendered(parts: seq<string>, index: nat): string
    decreases |parts|
  {
    if parts == [] then ""
    else (if index % 2 == 1 then Link(parts[0]) else Escape(parts[0])) + Rendered(parts[1..], index + 1)
  }

  const OPENING := "<html>" + "<body>" + "<p>"
  const CLOSING := "</p>" + "</body>" + "</html>"

  /** The HTML alternative of the mail; a missing message is an empty one. */
  function HtmlBody(message: Option<string>): string {
    var plain := match message case Some(m) => m case None => "";
    OPENING + Replace(Rendered(Split(plain), 0), '\n', "<br>\n") + CLOSING
  }

  /** The text a reader sees: everything outside < ... >. */
  function StripTags(s: string, inTag: bool): string {
    if s == "" then ""
    else if inTag then StripTags(s[1..], s[0] != '>')
    else if s[0] == '<' then StripTags(s[1..], true)
    else [s[0]] + StripTags(s[1..], false)
  }

  predicate TagFree(t: string) {
    forall i | 0 <= i < |t| :: t[i] != '<' && t[i] != '>'
  }

  lemma {:induction false} InsideTag(inner: string, rest: string)
    requires '>' !in inner
    ensures StripTags(inner + ">" + rest, true) == StripTags(rest, false)
  {
    var s := inner + ">" + rest;
    if inner == "" {
      assert s[1..] == rest;
    } else {
      assert s[1..] == inner[1..] + ">" + rest;
      InsideTag(inner[1..], rest);
    }
  }

  lemma StripTag(inner: string, rest: string)
    requires '>' !in inner
    ensures StripTags("<" + inner + ">" + rest, false) == StripTags(rest, false)
  {
    var s := "<" + inner + ">" + rest;
    assert s[1..] == inner + ">" + rest;
    InsideTag(inner, rest);
  }

  lemma {:induction false} StripText(t: string, rest: string)
    requires TagFree(t)
    ensures StripTags(t + rest, false) == t + StripTags(rest, false)
  {
    if t == "" {
      assert t + rest == rest;
    } else {
      assert (t + rest)[1..] == t[1..] + rest;
      StripText(t[1..], rest);
      assert t == [t[0]] + t[1..];
    }
  }

  /** Line breaks turned into <br> tags leave the text as it was. */
  lemma {:induction false} StripBrokenText(t: string, rest: string)
    requires TagFree(t)
    ensures StripTags(Replace(t, '\n', "<br>\n") + rest, false) == t + StripTags(rest, false)
  {
    hide StripTags;
    if t == "" {
      assert Replace(t, '\n', "<br>\n") + rest == rest;
    } else {
      var tail := Replace(t[1..], '\n', "<br>\n") + rest;
      StripBrokenText(t[1..], rest);
      if t[0] == '\n' {
        assert Replace(t, '\n', "<br>\n") + rest == "<" + "br" + ">" + ("\n" + tail);
        StripTag("br", "\n" + tail);
        StripText("\n", tail);
      } else {
        assert Replace(t, '\n', "<br>\n") + rest == [t[0]] + tail;
        StripText([t[0]], tail);
      }
      assert t == [t[0]] + t[1..];
    }
  }

  lemma StripLink(u: string, rest: string)
    ensures StripTags(Link(u) + rest, false) == Escape(u) + StripTags(rest, false)
  {
    EscapeIsSafe(u);
    var inner := "a href=\"" + Escape(u) + "\"";
    var after := Escape(u) + ("<" + "/a" + ">" + rest);
    assert Link(u) + rest == "<" + inner + ">" + after;
    StripTag(inner, after);
    StripText(Escape(u), "<" + "/a" + ">" + rest);
    StripTag("/a", rest);
  }

  /** A URL has no newline, so the line-break pass leaves every link, href included, exactly as it was. */
  lemma LinkUnbroken(u: string)
    requires IsUrl(u)
    ensures Replace(Link(u), '\n', "<br>\n") == Link(u)
  {
    EscapeIsSafe(u);
    assert '\n' !in u;
    ReplaceAbsent(Link(u), '\n', "<br>\n");
  }

  predicate OddAreUrls(parts: seq<string>, index: nat) {
    forall k | 0 <= k < |parts| && (index + k) % 2 == 1 :: IsUrl(parts[k])
  }

  lemma OddTail(parts: seq<string>, index: nat)
    requires OddAreUrls(parts, index) && parts != []
    ensures OddAreUrls(parts[1..], index + 1) && (index % 2 == 1 ==> IsUrl(parts[0]))
  {
    hide IsUrl;
    forall k | 0 <= k < |parts[1..]| && (index + 1 + k) % 2 == 1 ensures IsUrl(parts[1..][k]) {
      assert (index + (k + 1)) % 2 == 1;
      assert parts[1..][k] == parts[k + 1];
    }
    assert index % 2 == 1 ==> (index + 0) % 2 == 1;
  }

  lemma {:induction false} StripRendered(parts: seq<string>, index: nat, rest: string)
    requires OddAreUrls(parts, index)
    ensures StripTags(Replace(Rendered(parts, index), '\n', "<br>\n") + rest, false)
            == Escape(Join(parts)) + StripTags(rest, false)
    decreases |parts|
  {
    hide Replace, StripTags, Escape, IsUrl, Link;
    if parts == [] {
      assert Replace("", '\n', "<br>\n") + rest == rest by { EmptyReplace(); }
      EscapeNothing();
    } else {
      var head := if index % 2 == 1 then Link(parts[0]) else Escape(parts[0]);
      var tail := Rendered(parts[1..], index + 1);
      var more := Replace(tail, '\n', "<br>\n") + rest;
      ReplaceConcat(head, tail, '\n', "<br>\n");
      assert Replace(head + tail, '\n', "<br>\n") + rest == Replace(head, '\n', "<br>\n") + more;
      OddTail(parts, index);
      StripRendered(parts[1..], index + 1, rest);
      if index % 2 == 1 {
        assert IsUrl(parts[0]);
        LinkUnbroken(parts[0]);
        StripLink(parts[0], more);
      } else {
        EscapeIsSafe(parts[0]);
        StripBrokenText(Escape(parts[0]), more);
      }
      EscapeConcat(parts[0], Join(parts[1..]));
    }
  }

  lemma EmptyReplace()
    ensures Replace("", '\n', "<br>\n") == ""
  {
  }

  /** Main result: without its tags the body is the escaped message, and unescaped it is the message. */
  lemma {:induction false} EmailRoundTrip(message: string)
    ensures StripTags(HtmlBody(Some(message)), false) == Escape(message)
    ensures Unescape(StripTags(HtmlBody(Some(message)), false)) == message
    ensures Unescape(StripTags(HtmlBody(None), false)) == ""
    decreases |message|
  {
    hide *;
    var parts := Split(message);
    SplitFacts(message);
    AlternatingUrls(parts);
    StripRendered(parts, 0, CLOSING);
    StripClosing();
    StripOpening(Replace(Rendered(parts, 0), '\n', "<br>\n") + CLOSING);
    BodyShape(message);
    UnescapeEscape(message);
    if message != "" {
      EmailRoundTrip("");
    }
  }

  lemma AlternatingUrls(parts: seq<string>)
    requires Alternates(parts)
    ensures OddAreUrls(parts, 0)
  {
  }

  lemma BodyShape(message: string)
    ensures HtmlBody(Some(message)) == OPENING + (Replace(Rendered(Split(message), 0), '\n', "<br>\n") + CLOSING)
    ensures HtmlBody(None) == HtmlBody(Some(""))
  {
    hide Replace, Rendered, Split, OPENING, CLOSING;
  }

  lemma StripOpening(rest: string)
    ensures StripTags(OPENING + rest, false) == StripTags(rest, false)
  {
    assert "<html>" == "<" + "html" + ">" && "<body>" == "<" + "body" + ">" && "<p>" == "<" + "p" + ">";
    assert OPENING + rest == "<" + "html" + ">" + ("<" + "body" + ">" + ("<" + "p" + ">" + rest));
    hide StripTags;
    StripTag("html", "<" + "body" + ">" + ("<" + "p" + ">" + rest));
    StripTag("body", "<" + "p" + ">" + rest);
    StripTag("p", rest);
  }

  lemma StripClosing()
    ensures StripTags(CLOSING, false) == ""
  {
    assert "</p>" == "<" + "/p" + ">" && "</body>" == "<" + "/body" + ">" && "</html>" == "<" + "/html" + ">";
    assert CLOSING == "<" + "/p" + ">" + ("<" + "/body" + ">" + ("<" + "/html" + ">" + ""));
    assert StripTags("", false) == "";
    hide StripTags;
    StripTag("/p", "<" + "/body" + ">" + ("<" + "/html" + ">" + ""));
    StripTag("/body", "<" + "/html" + ">" + "");
    StripTag("/html", "");
  }

  /** The body is made of exactly these pieces, in order. */
  function Pieces(parts: seq<string>, index: nat): seq<string>
    decreases |parts|
  {
    if parts == [] then []
    else [if index % 2 == 1 then Link(parts[0]) else Replace(Escape(parts[0]), '\n', "<br>\n")]
         + Pieces(parts[1..], index + 1)
  }

  lemma {:induction false} RenderedPieces(parts: seq<string>, index: nat)
    requires OddAreUrls(parts, index)
    ensures Replace(Rendered(parts, index), '\n', "<br>\n") == Join(Pieces(parts, index))
    decreases |parts|
  {
    if parts == [] {
    } else {
      var head := if index % 2 == 1 then Link(parts[0]) else Escape(parts[0]);
      ReplaceConcat(head, Rendered(parts[1..], index + 1), '\n', "<br>\n");
      OddTail(parts, index);
      RenderedPieces(parts[1..], index + 1);
      if index % 2 == 1 {
        assert IsUrl(parts[0]);
        LinkUnbroken(parts[0]);
      }
      assert Pieces(parts, index)[1..] == Pieces(parts[1..], index + 1);
    }
  }

  // ---- What a mail reader follows -----------------------------------------------

  const ANCHOR := "<a href=\""

  /** The text up to the first quote. */
  function ToQuote(s: string): (t: string)
    ensures t <= s && '"' !in t && (|t| < |s| ==> s[|t|] == '"')
  {
    if s == "" || s[0] == '"' then "" else [s[0]] + ToQuote(s[1..])
  }

  /** The link targets of a document, read from its text: between each opening <a href=" and the next quote. */
  function Hrefs(s: string): seq<string> {
    if s == "" then []
    else if ANCHOR <= s then [ToQuote(s[9..])] + Hrefs(s[9..])
    else Hrefs(s[1..])
  }

  function UnescapeAll(hrefs: seq<string>): seq<string> {
    if hrefs == [] then [] else [Unescape(hrefs[0])] + UnescapeAll(hrefs[1..])
  }

  /** The URLs of a message: the parts at odd positions. */
  function OddParts(parts: seq<string>, index: nat): seq<string>
    decreases |parts|
  {
    if parts == [] then []
    else if index % 2 == 1 then [parts[0]] + OddParts(parts[1..], index + 1)
    else OddParts(parts[1..], index + 1)
  }

  lemma {:induction false} HrefsOfText(t: string, rest: string)
    requires '<' !in t
    ensures Hrefs(t + rest) == Hrefs(rest)
  {
    if t == "" {
      assert t + rest == rest;
    } else {
      assert (t + rest)[1..] == t[1..] + rest;
      assert (t + rest)[0] == t[0] != '<' == ANCHOR[0];
      HrefsOfText(t[1..], rest);
    }
  }

  /** Any other tag holds no link. */
  lemma HrefsOfTag(tag: string, rest: string)
    requires |tag| >= 2 && tag[0] == '<' && tag[1] != 'a' && '<' !in tag[1..]
    ensures Hrefs(tag + rest) == Hrefs(rest)
  {
    assert (tag + rest)[1..] == tag[1..] + rest;
    assert (tag + rest)[1] == tag[1] != 'a' == ANCHOR[1];
    HrefsOfText(tag[1..], rest);
  }

  /** Text with its line breaks turned into tags holds none either. */
  lemma {:induction false} HrefsOfBrokenText(t: string, rest: string)
    requires TagFree(t)
    ensures Hrefs(Replace(t, '\n', "<br>\n") + rest) == Hrefs(rest)
  {
    hide Hrefs;
    if t == "" {
      assert Replace(t, '\n', "<br>\n") + rest == rest;
    } else {
      var tail := Replace(t[1..], '\n', "<br>\n") + rest;
      HrefsOfBrokenText(t[1..], rest);
      if t[0] == '\n' {
        assert Replace(t, '\n', "<br>\n") + rest == "<br>\n" + tail;
        HrefsOfTag("<br>\n", tail);
      } else {
        assert Replace(t, '\n', "<br>\n") + rest == [t[0]] + tail;
        HrefsOfText([t[0]], tail);
      }
    }
  }

  lemma {:induction false} ToQuoteStops(t: string, rest: string)
    requires '"' !in t
    ensures ToQuote(t + ("\"" + rest)) == t
  {
    if t == "" {
      assert t + ("\"" + rest) == "\"" + rest;
    } else {
      assert (t + ("\"" + rest))[1..] == t[1..] + ("\"" + rest);
      ToQuoteStops(t[1..], rest);
      assert t == [t[0]] + t[1..];
    }
  }

  /** A rendered link holds exactly one, the escaped URL. */
  lemma HrefsOfLink(u: string, rest: string)
    ensures Hrefs(Link(u) + rest) == [Escape(u)] + Hrefs(rest)
  {
    EscapeIsSafe(u);
    hide Escape, ToQuote;
    var text := "\">" + Escape(u);
    var after := text + ("</a>" + rest);
    var s := Link(u) + rest;
    assert s == ANCHOR + (Escape(u) + ("\"" + (">" + Escape(u) + ("</a>" + rest))));
    assert s[9..] == Escape(u) + ("\"" + (">" + Escape(u) + ("</a>" + rest)));
    ToQuoteStops(Escape(u), ">" + Escape(u) + ("</a>" + rest));
    assert s[9..] == (Escape(u) + text) + ("</a>" + rest);
    HrefsOfText(Escape(u) + text, "</a>" + rest);
    HrefsOfTag("</a>", rest);
  }

  function EscapeAll(urls: seq<string>): seq<string> {
    if urls == [] then [] else [Escape(urls[0])] + EscapeAll(urls[1..])
  }

  lemma {:induction false} HrefsOfRendered(parts: seq<string>, index: nat, rest: string)
    requires OddAreUrls(parts, index)
    ensures Hrefs(Replace(Rendered(parts, index), '\n', "<br>\n") + rest)
            == EscapeAll(OddParts(parts, index)) + Hrefs(rest)
    decreases |parts|
  {
    hide Replace, Hrefs, Escape, IsUrl, Link, OddAreUrls;
    if parts == [] {
      assert Replace("", '\n', "<br>\n") + rest == rest by { EmptyReplace(); }
    } else {
      var head := if index % 2 == 1 then Link(parts[0]) else Escape(parts[0]);
      var tail := Rendered(parts[1..], index + 1);
      var more := Replace(tail, '\n', "<br>\n") + rest;
      ReplaceConcat(head, tail, '\n', "<br>\n");
      assert Replace(head + tail, '\n', "<br>\n") + rest == Replace(head, '\n', "<br>\n") + more;
      OddTail(parts, index);
      HrefsOfRendered(parts[1..], index + 1, rest);
      HrefsOfPart(parts[0], index % 2 == 1, more);
      EscapeAllCons(parts[0], OddParts(parts[1..], index + 1));
    }
  }

  lemma EscapeAllCons(url: string, urls: seq<string>)
    ensures EscapeAll([url] + urls) == [Escape(url)] + EscapeAll(urls)
  {
    assert ([url] + urls)[1..] == urls;
  }

  lemma HrefsOfPart(part: string, isUrl: bool, more: string)
    requires isUrl ==> IsUrl(part)
    ensures Hrefs(Replace(if isUrl then Link(part) else Escape(part), '\n', "<br>\n") + more)
            == if isUrl then [Escape(part)] + Hrefs(more) else Hrefs(more)
  {
    hide *;
    if isUrl {
      LinkUnbroken(part);
      HrefsOfLink(part, more);
    } else {
      EscapeIsSafe(part);
      HrefsOfBrokenText(Escape(part), more);
    }
  }

  lemma {:induction false} UnescapeAllEscapeAll(urls: seq<string>)
    ensures UnescapeAll(EscapeAll(urls)) == urls
  {
    if urls == [] {
    } else {
      UnescapeEscape(urls[0]);
      UnescapeAllEscapeAll(urls[1..]);
      assert EscapeAll(urls)[1..] == EscapeAll(urls[1..]);
    }
  }

  lemma {:induction false} OddPartsAreSafe(parts: seq<string>, index: nat)
    requires OddAreUrls(parts, index)
    ensures forall h | h in EscapeAll(OddParts(parts, index)) :: SafeHref(h)
    decreases |parts|
  {
    hide Escape, IsUrl, OddAreUrls, SafeHref;
    if parts == [] {
    } else {
      OddTail(parts, index);
      OddPartsAreSafe(parts[1..], index + 1);
      if index % 2 == 1 {
        UrlIsSafe(parts[0]);
        EscapeAllCons(parts[0], OddParts(parts[1..], index + 1));
      }
    }
  }

  /** No quote, bracket or newline. */
  predicate SafeHref(h: string) {
    '\n' !in h && forall c | c in h :: Safe(c)
  }

  lemma UrlIsSafe(u: string)
    requires IsUrl(u)
    ensures SafeHref(Escape(u))
  {
    EscapeIsSafe(u);
    assert '\n' !in u;
  }

  lemma HrefsOfOpening(rest: string)
    ensures Hrefs(OPENING + rest) == Hrefs(rest)
  {
    assert OPENING + rest == "<html>" + ("<body>" + ("<p>" + rest));
    hide Hrefs;
    HrefsOfTag("<html>", "<body>" + ("<p>" + rest));
    HrefsOfTag("<body>", "<p>" + rest);
    HrefsOfTag("<p>", rest);
  }

  lemma HrefsOfClosing()
    ensures Hrefs(CLOSING) == []
  {
    assert CLOSING == "</p>" + ("</body>" + ("</html>" + ""));
    assert Hrefs("") == [];
    hide Hrefs;
    HrefsOfTag("</p>", "</body>" + ("</html>" + ""));
    HrefsOfTag("</body>", "</html>" + "");
    HrefsOfTag("</html>", "");
  }

  /**
   Main result: the link targets read from the HTML body, decoded, are exactly the URLs of the message, in order;
   none holds a quote, a bracket or a newline; and beside the links the body holds text and line breaks only.
   */
  lemma LinksAreIntact(message: string)
    ensures UnescapeAll(Hrefs(HtmlBody(Some(message)))) == OddParts(Split(message), 0)
    ensures forall h | h in Hrefs(HtmlBody(Some(message))) :: SafeHref(h)
    ensures HtmlBody(Some(message)) == OPENING + (Join(Pieces(Split(message), 0)) + CLOSING)
  {
    hide *;
    SplitFacts(message);
    AlternatingUrls(Split(message));
    BodyShape(message);
    HrefsOfOpening(Replace(Rendered(Split(message), 0), '\n', "<br>\n") + CLOSING);
    HrefsOfRendered(Split(message), 0, CLOSING);
    HrefsOfClosing();
    assert EscapeAll(OddParts(Split(message), 0)) + [] == EscapeAll(OddParts(Split(message), 0));
    UnescapeAllEscapeAll(OddParts(Split(message), 0));
    OddPartsAreSafe(Split(message), 0);
    RenderedPieces(Split(message), 0);
  }
}
