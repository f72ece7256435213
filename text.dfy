/** Label text (`_text_svg`, `_escape_xml`): HTML tags are stripped, entities
    unescaped, the result trimmed and split into lines, and each line escaped
    for XML and placed on its own baseline. */
module Markup {
  import opened Wrappers
  import opened Strings
  import opened Diagram

  // ---- tag stripping: re.sub(r"<[^>]+>", "", text) ----

  /** `s` starts with a match of `<[^>]+>`: a `<`, one or more characters
      other than `>`, then `>` (the first `>` after the `<`). */
  predicate TagAt(s: string) {
    |s| > 0 && s[0] == '<' && '>' in s[1..] && IndexOf(s[1..], '>') > 0
  }

  /** The length of the tag at the start of `s`. */
  function TagLength(s: string): (n: nat)
    requires TagAt(s)
    ensures 3 <= n <= |s| && s[n - 1] == '>'
  {
    IndexOf(s[1..], '>') + 2
  }

  /** No position of `s` starts a tag. */
  predicate TagFree(s: string) {
    forall i :: 0 <= i < |s| ==> !TagAt(s[i..])
  }

  /** `a` is `b` with some characters deleted. */
  predicate IsSubseq(a: string, b: string)
    decreases |b|
  {
    a == [] || (b != [] && ((a[0] == b[0] && IsSubseq(a[1..], b[1..])) || IsSubseq(a, b[1..])))
  }

  lemma {:induction false} SubseqDrop(a: string, b: string, k: nat)
    requires k <= |b| && IsSubseq(a, b[k..])
    ensures IsSubseq(a, b)
    decreases k
  {
    if k > 0 {
      assert b[1..][k - 1..] == b[k..];
      SubseqDrop(a, b[1..], k - 1);
    }
  }

  lemma {:induction false} SubseqIn(a: string, b: string, c: char)
    requires IsSubseq(a, b) && c in a
    ensures c in b
    decreases |b|
  {
    if a[0] == b[0] && IsSubseq(a[1..], b[1..]) {
      if c != a[0] {
        assert c in a[1..];
        SubseqIn(a[1..], b[1..], c);
      }
    } else {
      SubseqIn(a, b[1..], c);
    }
  }

  lemma TagFreeCons(c: char, t: string)
    requires !TagAt([c] + t) && TagFree(t)
    ensures TagFree([c] + t)
  {
    var s := [c] + t;
    forall i | 0 < i < |s|
      ensures !TagAt(s[i..])
    {
      assert s[i..] == t[i - 1..];
    }
  }

  lemma TagFreeTail(s: string)
    requires s != []
    ensures TagFree(s) ==> TagFree(s[1..])
  {
    if TagFree(s) {
      forall i | 0 <= i < |s| - 1
      ensures !TagAt(s[1..][i..])
    {
        assert s[1..][i..] == s[i + 1..];
      }
    }
  }

  /** `re.sub(r"<[^>]+>", "", s)`: scanning left to right, every tag is
      removed and every other character kept, so the result is a
      subsequence of `s`. */
  function StripTags(s: string): (r: string)
    ensures IsSubseq(r, s)
    decreases |s|
  {
    if s == [] then []
    else if TagAt(s) then
      var r := StripTags(s[TagLength(s)..]);
      SubseqDrop(r, s, TagLength(s));
      r
    else
      var t := StripTags(s[1..]);
      assert ([s[0]] + t)[1..] == t;
      [s[0]] + t
  }

  /** No tag is left: a `<` the scan kept is either followed directly by `>`
      or has no `>` after it, and the same still holds in the output. */
  lemma {:induction false} StripTagsTagFree(s: string)
    ensures TagFree(StripTags(s))
    decreases |s|
  {
    if s != [] {
      if TagAt(s) {
        StripTagsTagFree(s[TagLength(s)..]);
      } else {
        var t := StripTags(s[1..]);
        StripTagsTagFree(s[1..]);
        assert !TagAt([s[0]] + t) by {
          if s[0] == '<' {
            if '>' in s[1..] {
              assert s[1] == '>';
              assert s[1..][0] == '>' && !TagAt(s[1..]);
              assert t[0] == '>';
              assert ([s[0]] + t)[1..][0] == '>';
            } else {
              if '>' in t {
                SubseqIn(t, s[1..], '>');
              }
              assert ([s[0]] + t)[1..] == t;
            }
          }
        }
        TagFreeCons(s[0], t);
      }
    }
  }

  /** A string with no tag in it is left unchanged. */
  lemma {:induction false} StripTagsOfTagFree(s: string)
    requires TagFree(s)
    ensures StripTags(s) == s
    decreases |s|
  {
    if s != [] {
      assert s[0..] == s;
      TagFreeTail(s);
      StripTagsOfTagFree(s[1..]);
    }
  }

  /** Stripping tags twice is stripping them once. */
  lemma StripTagsIdempotent(s: string)
    ensures StripTags(StripTags(s)) == StripTags(s)
  {
    StripTagsTagFree(s);
    StripTagsOfTagFree(StripTags(s));
  }

  /** Text with no `<` has no tags to strip. */
  lemma StripTagsNoAngle(s: string)
    requires '<' !in s
    ensures StripTags(s) == s
  {
    forall i | 0 <= i < |s|
      ensures !TagAt(s[i..])
    {
      assert s[i..][0] == s[i];
    }
    StripTagsOfTagFree(s);
  }

  // ---- XML escaping ----

  /** `s.replace(c, with)` for a one-character pattern `c`. */
  function ReplaceChar(s: string, c: char, with: string): string
  {
    if s == [] then []
    else (if s[0] == c then with else [s[0]]) + ReplaceChar(s[1..], c, with)
  }

  lemma {:induction false} ReplaceConcat(a: string, b: string, c: char, with: string)
    ensures ReplaceChar(a + b, c, with) == ReplaceChar(a, c, with) + ReplaceChar(b, c, with)
    decreases |a|
  {
    if a == [] {
      assert a + b == b;
    } else {
      assert (a + b)[0] == a[0] && (a + b)[1..] == a[1..] + b;
      ReplaceConcat(a[1..], b, c, with);
    }
  }

  /** `_escape_xml`: four replacements in turn, `&` first. */
  function EscapeXml(s: string): string
  {
    ReplaceChar(ReplaceChar(ReplaceChar(ReplaceChar(s, '&', "&amp;"), '<', "&lt;"), '>', "&gt;"), '"', "&quot;")
  }

  /** The entity each special character becomes. */
  function EscapeChar(c: char): string
  {
    match c
    case '&' => "&amp;"
    case '<' => "&lt;"
    case '>' => "&gt;"
    case '"' => "&quot;"
    case _ => [c]
  }

  /** Escaping in one pass, character by character. */
  function EscapeEach(s: string): string
  {
    if s == [] then [] else EscapeChar(s[0]) + EscapeEach(s[1..])
  }

  lemma {:induction false} ReplaceAbsent(s: string, c: char, with: string)
    requires c !in s
    ensures ReplaceChar(s, c, with) == s
    decreases |s|
  {
    if s != [] {
      assert s[0] in s;
      ReplaceAbsent(s[1..], c, with);
    }
  }

  lemma ReplaceOne(x: char, c: char, with: string)
    ensures ReplaceChar([x], c, with) == if x == c then with else [x]
  {
    assert [x][1..] == [];
  }

  lemma EscapeXmlChar(c: char)
    ensures EscapeXml([c]) == EscapeChar(c)
  {
    ReplaceOne(c, '&', "&amp;");
    var s1 := ReplaceChar([c], '&', "&amp;");
    if c == '&' {
      ReplaceAbsentAll(s1, '<', "&lt;", '>', "&gt;", '"', "&quot;");
    } else {
      ReplaceOne(c, '<', "&lt;");
      var s2 := ReplaceChar(s1, '<', "&lt;");
      if c == '<' {
        ReplaceAbsent(s2, '>', "&gt;");
        ReplaceAbsent(s2, '"', "&quot;");
      } else {
        EscapeXmlCharRest(c, s2);
      }
    }
  }

  lemma EscapeXmlCharRest(c: char, s2: string)
    requires c != '&' && c != '<' && s2 == [c]
    ensures ReplaceChar(ReplaceChar(s2, '>', "&gt;"), '"', "&quot;") == EscapeChar(c)
  {
    ReplaceOne(c, '>', "&gt;");
    var s3 := ReplaceChar(s2, '>', "&gt;");
    if c == '>' {
      ReplaceAbsent(s3, '"', "&quot;");
    } else {
      ReplaceOne(c, '"', "&quot;");
    }
  }

  /** Replacing characters that do not occur changes nothing. */
  lemma ReplaceAbsentAll(s: string, a: char, wa: string, b: char, wb: string, c: char, wc: string)
    requires a !in s && b !in s && c !in s
    ensures ReplaceChar(ReplaceChar(ReplaceChar(s, a, wa), b, wb), c, wc) == s
  {
    ReplaceAbsent(s, a, wa);
    ReplaceAbsent(s, b, wb);
    ReplaceAbsent(s, c, wc);
  }

  lemma EscapeXmlConcat(a: string, b: string)
    ensures EscapeXml(a + b) == EscapeXml(a) + EscapeXml(b)
  {
    ReplaceConcat(a, b, '&', "&amp;");
    var a1, b1 := ReplaceChar(a, '&', "&amp;"), ReplaceChar(b, '&', "&amp;");
    ReplaceConcat(a1, b1, '<', "&lt;");
    var a2, b2 := ReplaceChar(a1, '<', "&lt;"), ReplaceChar(b1, '<', "&lt;");
    ReplaceConcat(a2, b2, '>', "&gt;");
    var a3, b3 := ReplaceChar(a2, '>', "&gt;"), ReplaceChar(b2, '>', "&gt;");
    ReplaceConcat(a3, b3, '"', "&quot;");
  }

  /** Because `&` is replaced first, the chain of replacements escapes every
      character exactly once: no entity it writes is escaped again. */
  lemma {:induction false} EscapeXmlIsSinglePass(s: string)
    ensures EscapeXml(s) == EscapeEach(s)
    decreases |s|
  {
    if s != [] {
      assert s == [s[0]] + s[1..];
      EscapeXmlConcat([s[0]], s[1..]);
      EscapeXmlChar(s[0]);
      EscapeXmlIsSinglePass(s[1..]);
    }
  }

  /** The escaped text holds no raw `<`, `>` or `"`, so it is safe inside an
      element or a quoted attribute. */
  lemma EscapeXmlSafe(s: string)
    ensures '<' !in EscapeXml(s) && '>' !in EscapeXml(s) && '"' !in EscapeXml(s)
  {
    EscapeXmlIsSinglePass(s);
    EscapeEachSafe(s);
  }

  lemma {:induction false} EscapeEachSafe(s: string)
    ensures '<' !in EscapeEach(s) && '>' !in EscapeEach(s) && '"' !in EscapeEach(s)
    decreases |s|
  {
    if s != [] {
      EscapeEachSafe(s[1..]);
      EscapeCharSafe(s[0]);
    }
  }

  lemma EscapeCharSafe(c: char)
    ensures '<' !in EscapeChar(c) && '>' !in EscapeChar(c) && '"' !in EscapeChar(c)
  {
  }

  /** A string with none of `& < > "` is returned unchanged. */
  lemma {:induction false} EscapeXmlPlain(s: string)
    requires '&' !in s && '<' !in s && '>' !in s && '"' !in s
    ensures EscapeXml(s) == s
    decreases |s|
  {
    EscapeXmlIsSinglePass(s);
    EscapeEachPlain(s);
  }

  lemma {:induction false} EscapeEachPlain(s: string)
    requires '&' !in s && '<' !in s && '>' !in s && '"' !in s
    ensures EscapeEach(s) == s
    decreases |s|
  {
    if s != [] {
      assert s[0] in s;
      EscapeEachPlain(s[1..]);
    }
  }

  /** Reading the four entities back, left to right. */
  function UnescapeXml(s: string): string
    decreases |s|
  {
    if s == [] then []
    else if |s| >= 5 && s[..5] == "&amp;" then "&" + UnescapeXml(s[5..])
    else if |s| >= 4 && s[..4] == "&lt;" then "<" + UnescapeXml(s[4..])
    else if |s| >= 4 && s[..4] == "&gt;" then ">" + UnescapeXml(s[4..])
    else if |s| >= 6 && s[..6] == "&quot;" then "\"" + UnescapeXml(s[6..])
    else [s[0]] + UnescapeXml(s[1..])
  }

  lemma UnescapeAmp(rest: string)
    ensures UnescapeXml("&amp;" + rest) == "&" + UnescapeXml(rest)
  {
    var s := "&amp;" + rest;
    assert s[..5] == "&amp;" && s[5..] == rest;
  }

  lemma UnescapeLt(rest: string)
    ensures UnescapeXml("&lt;" + rest) == "<" + UnescapeXml(rest)
  {
    var s := "&lt;" + rest;
    assert s[1] == 'l' && s[..4] == "&lt;" && s[4..] == rest;
  }

  lemma UnescapeGt(rest: string)
    ensures UnescapeXml("&gt;" + rest) == ">" + UnescapeXml(rest)
  {
    var s := "&gt;" + rest;
    assert s[1] == 'g' && s[..4] == "&gt;" && s[4..] == rest;
  }

  lemma UnescapeQuot(rest: string)
    ensures UnescapeXml("&quot;" + rest) == "\"" + UnescapeXml(rest)
  {
    var s := "&quot;" + rest;
    assert s[1] == 'q' && s[..6] == "&quot;" && s[6..] == rest;
  }

  lemma UnescapePlain(c: char, rest: string)
    requires c != '&'
    ensures UnescapeXml([c] + rest) == [c] + UnescapeXml(rest)
  {
    var s := [c] + rest;
    assert s[0] == c && s[1..] == rest;
  }

  lemma UnescapeChar(c: char, rest: string)
    ensures UnescapeXml(EscapeChar(c) + rest) == [c] + UnescapeXml(rest)
  {
    match c
    case '&' => UnescapeAmp(rest);
    case '<' => UnescapeLt(rest);
    case '>' => UnescapeGt(rest);
    case '"' => UnescapeQuot(rest);
    case _ => UnescapePlain(c, rest);
  }

  /** Escaping loses nothing: unescaping gives the text back. */
  lemma {:induction false} UnescapeEscape(s: string)
    ensures UnescapeXml(EscapeXml(s)) == s
    decreases |s|
  {
    EscapeXmlIsSinglePass(s);
    if s != [] {
      UnescapeChar(s[0], EscapeEach(s[1..]));
      UnescapeEscape(s[1..]);
      EscapeXmlIsSinglePass(s[1..]);
    }
  }

  // ---- label layout ----

  /** The label as drawn: tags stripped, entities unescaped (by the host's
      `html.unescape`), surrounding whitespace trimmed. */
  function CleanLabel(text: string, host: Host): string
  {
    Strip(host.unescape(StripTags(text)))
  }

  /** The baseline of line `i` of `n`: the block is centred on `y`, one line
      every 1.2 font sizes. */
  function LineY(y: real, fs: real, n: nat, i: nat): real
  {
    y - (n - 1) as real * fs * 0.6 + i as real * fs * 1.2
  }

  /** One `tspan` per line, each escaped and on its own baseline. */
  function LineSpans(lines: seq<string>, y: real, fs: real): (spans: seq<Span>)
    ensures |spans| == |lines|
    ensures forall i :: 0 <= i < |lines| ==> spans[i].content == EscapeXml(lines[i])
  {
    seq(|lines|, i requires 0 <= i < |lines| => Span(LineY(y, fs, |lines|, i), EscapeXml(lines[i])))
  }

  /** What `_text_svg` draws for `text` centred at (x, y): nothing when the
      cleaned label is empty, one text element for a single line, and a block
      of lines otherwise. */
  function TextElements(x: real, y: real, text: string, fs: real, bold: bool, host: Host): seq<Element>
  {
    LabelElements(x, y, CleanLabel(text, host), fs, bold)
  }

  /** The elements drawn for an already cleaned label. */
  function LabelElements(x: real, y: real, clean: string, fs: real, bold: bool): seq<Element>
  {
    if clean == [] then []
    else
      var lines := Split(clean, '\n');
      if |lines| == 1 then [SvgText(x, y, EscapeXml(lines[0]), fs, bold)]
      else [SvgTextBlock(x, LineSpans(lines, y, fs), fs, bold)]
  }

  /** The loop of `_text_svg` that lays out a block of lines below the
      computed start baseline. */
  method LayoutLines(lines: seq<string>, y: real, fs: real) returns (spans: seq<Span>)
    ensures spans == LineSpans(lines, y, fs)
  {
    var startY := y - (|lines| - 1) as real * fs * 0.6;
    spans := [];
    ghost var all := LineSpans(lines, y, fs);
    for i := 0 to |lines|
      invariant spans == all[..i]
    {
      var ly := startY + i as real * fs * 1.2;
      assert all[i] == Span(ly, EscapeXml(lines[i]));
      assert all[..i + 1] == all[..i] + [all[i]];
      spans := spans + [Span(ly, EscapeXml(lines[i]))];
    }
    assert all[..|lines|] == all;
  }

  /** `_text_svg`: builds the line block one `tspan` at a time. */
  method TextSvg(x: real, y: real, text: string, fs: real, bold: bool, host: Host) returns (els: seq<Element>)
    ensures els == TextElements(x, y, text, fs, bold, host)
  {
    var clean := StripTags(text);
    clean := Strip(host.unescape(clean));
    assert clean == CleanLabel(text, host);
    if clean == [] {
      return [];
    }
    var lines := Split(clean, '\n');
    if |lines| == 1 {
      return [SvgText(x, y, EscapeXml(lines[0]), fs, bold)];
    }
    var spans := LayoutLines(lines, y, fs);
    return [SvgTextBlock(x, spans, fs, bold)];
  }

  /** The escaped text each element carries, one entry per line. */
  function Contents(e: Element): seq<string>
  {
    match e
    case SvgText(_, _, content, _, _) => [content]
    case SvgTextBlock(_, spans, _, _) => seq(|spans|, i requires 0 <= i < |spans| => spans[i].content)
    case _ => []
  }

  function UnescapeAll(contents: seq<string>): (r: seq<string>)
    ensures |r| == |contents|
    ensures forall i :: 0 <= i < |r| ==> r[i] == UnescapeXml(contents[i])
  {
    seq(|contents|, i requires 0 <= i < |contents| => UnescapeXml(contents[i]))
  }

  lemma UnescapeLines(lines: seq<string>)
    ensures UnescapeAll(seq(|lines|, i requires 0 <= i < |lines| => EscapeXml(lines[i]))) == lines
  {
    forall i | 0 <= i < |lines|
      ensures UnescapeXml(EscapeXml(lines[i])) == lines[i]
    {
      UnescapeEscape(lines[i]);
    }
  }

  /** Nothing is drawn exactly when the cleaned label is empty; otherwise one
      element is drawn, a plain text exactly when the label has one line, and
      its lines, unescaped and joined with newlines, are the cleaned label. */
  lemma LabelKept(x: real, y: real, clean: string, fs: real, bold: bool)
    ensures var els := LabelElements(x, y, clean, fs, bold);
            && (els == [] <==> clean == [])
            && (els != [] ==>
                  && |els| == 1
                  && (els[0].SvgText? <==> '\n' !in clean)
                  && Join(UnescapeAll(Contents(els[0])), '\n') == clean)
  {
    if clean != [] {
      var lines := Split(clean, '\n');
      var els := LabelElements(x, y, clean, fs, bold);
      SplitSingle(clean, '\n');
      if |lines| == 1 {
        UnescapeEscape(lines[0]);
        assert UnescapeAll(Contents(els[0])) == lines;
      } else {
        assert Contents(els[0]) == seq(|lines|, i requires 0 <= i < |lines| => EscapeXml(lines[i]));
        UnescapeLines(lines);
      }
    }
  }

  /** The same, for the label text as written in the diagram. */
  lemma TextKeepsLabel(x: real, y: real, text: string, fs: real, bold: bool, host: Host)
    ensures var els := TextElements(x, y, text, fs, bold, host);
            var clean := CleanLabel(text, host);
            && (els == [] <==> clean == [])
            && (els != [] ==> Join(UnescapeAll(Contents(els[0])), '\n') == clean)
  {
    LabelKept(x, y, CleanLabel(text, host), fs, bold);
  }

  /** A block of lines is centred on `y`: the first and last baselines lie
      symmetrically about it, and consecutive baselines are 1.2 font sizes
      apart. */
  lemma LinesCentred(lines: seq<string>, y: real, fs: real)
    requires |lines| >= 2
    ensures var spans := LineSpans(lines, y, fs);
            && spans[0].y + spans[|spans| - 1].y == 2.0 * y
            && forall i :: 0 <= i < |spans| - 1 ==> spans[i + 1].y - spans[i].y == fs * 1.2
  {
    var n := |lines|;
    var spans := LineSpans(lines, y, fs);
    assert spans[0].y == y - (n - 1) as real * fs * 0.6;
    assert spans[n - 1].y == y - (n - 1) as real * fs * 0.6 + (n - 1) as real * fs * 1.2;
  }

  /** A drawn label sits at (x, y) in the requested font: one line at the
      point itself, several centred on it. */
  lemma LabelPlacement(x: real, y: real, clean: string, fs: real, bold: bool)
    requires LabelElements(x, y, clean, fs, bold) != []
    ensures var e := LabelElements(x, y, clean, fs, bold)[0];
            && (e.SvgText? || e.SvgTextBlock?)
            && e.fontSize == fs && e.bold == bold
            && (e.SvgText? ==> e.x == x && e.y == y)
            && (e.SvgTextBlock? ==> e.x == x && |e.spans| >= 2 && e.spans[0].y + e.spans[|e.spans| - 1].y == 2.0 * y)
  {
    var lines := Split(clean, '\n');
    if |lines| > 1 {
      LinesCentred(lines, y, fs);
    }
  }

  /** The one element drawn after a first part for a label. */
  lemma LabelFirst(parts: seq<Element>, x: real, y: real, clean: string, fs: real, bold: bool)
    requires |parts| > 1 && parts[1..] == LabelElements(x, y, clean, fs, bold)
    ensures |parts| == 2
    ensures parts[1].fontSize == fs && parts[1].bold == bold
    ensures parts[1].SvgText? ==> parts[1].x == x && parts[1].y == y
    ensures parts[1].SvgTextBlock? ==>
              parts[1].x == x && parts[1].spans[0].y + parts[1].spans[|parts[1].spans| - 1].y == 2.0 * y
  {
    LabelPlacement(x, y, clean, fs, bold);
    assert parts[1] == parts[1..][0];
  }
}
