/** The mxGraph style-string parser (`_parse_style`): a `;`-separated list of
    `key=value` segments and bare flags becomes a map from key to value. */
module Style {
  import opened Wrappers
  import opened Strings
  import opened Diagram

  /** What one `;`-separated segment contributes: after stripping, a segment
      holding `=` gives its stripped text before the first `=` and after it; any
      other non-empty segment is a bare flag worth "1"; a blank one gives nothing. */
  function Entry(segment: string): Option<(string, string)>
  {
    var part := Strip(segment);
    if '=' in part then
      var i := IndexOf(part, '=');
      Some((Strip(part[..i]), Strip(part[i + 1..])))
    else if part != [] then
      Some((part, "1"))
    else
      None
  }

  /** Entry `e` writes key `k`. */
  predicate Writes(e: Option<(string, string)>, k: string) {
    e.Some? && e.value.0 == k
  }

  /** Segment `segment` writes key `k`. */
  predicate SetsKey(segment: string, k: string) {
    Writes(Entry(segment), k)
  }

  /** The map after taking in one more entry. */
  function Put(style: StyleMap, e: Option<(string, string)>): StyleMap
  {
    match e
    case None => style
    case Some(kv) => style[kv.0 := kv.1]
  }

  /** The map after taking in one more segment. */
  function Add(style: StyleMap, segment: string): StyleMap
  {
    Put(style, Entry(segment))
  }

  /** The entry of each segment. */
  function Entries(segments: seq<string>): (es: seq<Option<(string, string)>>)
    ensures |es| == |segments|
  {
    seq(|segments|, i requires 0 <= i < |segments| => Entry(segments[i]))
  }

  /** The map after taking in `es`, in order. */
  function FoldEntries(es: seq<Option<(string, string)>>): StyleMap
    decreases |es|
  {
    if es == [] then map[]
    else Put(FoldEntries(es[..|es| - 1]), es[|es| - 1])
  }

  /** The map after the loop has taken in `segments`, in order. */
  function FoldSegments(segments: seq<string>): StyleMap
  {
    FoldEntries(Entries(segments))
  }

  lemma FoldSegmentsSnoc(segments: seq<string>, i: nat)
    requires i < |segments|
    ensures FoldSegments(segments[..i + 1]) == Add(FoldSegments(segments[..i]), segments[i])
  {
    var es := Entries(segments[..i + 1]);
    assert es[..i] == Entries(segments[..i]);
    assert es[i] == Entry(segments[i]);
  }

  /** The map `_parse_style` returns for `text`. */
  function StyleOf(text: string): StyleMap
  {
    if text == [] then map[] else FoldSegments(Split(text, ';'))
  }

  /** `_parse_style`: fills the map segment by segment. */
  method ParseStyle(text: string) returns (style: StyleMap)
    ensures style == StyleOf(text)
  {
    style := map[];
    if text == [] {
      return;
    }
    var parts := Split(text, ';');
    for i := 0 to |parts|
      invariant style == FoldSegments(parts[..i])
    {
      FoldSegmentsSnoc(parts, i);
      var part := Strip(parts[i]);
      if '=' in part {
        var j := IndexOf(part, '=');
        assert Entry(parts[i]) == Some((Strip(part[..j]), Strip(part[j + 1..])));
        style := style[Strip(part[..j]) := Strip(part[j + 1..])];
      } else if part != [] {
        assert Entry(parts[i]) == Some((part, "1"));
        style := style[part := "1"];
      } else {
        assert Entry(parts[i]) == None;
      }
    }
    assert parts[..|parts|] == parts;
  }

  /** `style.get(key, default)`. */
  function Get(style: StyleMap, key: string, default: string): string
  {
    if key in style then style[key] else default
  }

  /** `float(style.get(key, default))`: a missing key gives the default the
      source spells as a literal; a present one goes through the host's
      `float()`, and text it rejects is an error. */
  function GetReal(style: StyleMap, key: string, default: real, host: Host): Result<real, Error>
  {
    if key !in style then Ok(default)
    else match host.toFloat(style[key])
      case None => Err(BadFloat(style[key]))
      case Some(v) => Ok(v)
  }

  /** A blank (whitespace-only) segment adds nothing, and every other segment adds an entry. */
  lemma EntryBlank(segment: string)
    ensures Entry(segment).None? <==> AllSpace(segment)
  {
  }

  /** Stripping `k=v` only trims the outer end of `k` and of `v`. */
  lemma StripAroundEquals(k: string, v: string) returns (lo: nat, m: nat)
    ensures lo <= |k| && m <= |v|
    ensures Strip(k + "=" + v) == k[lo..] + "=" + v[..m]
    ensures AllSpace(k[..lo]) && AllSpace(v[m..])
  {
    var s := k + "=" + v;
    assert s[|k|] == '=';
    assert !IsSpace('=');
    var hi;
    lo, hi := StripStart(s), StripEnd(s);
    assert lo <= |k| < hi;
    m := hi - |k| - 1;
    assert s[lo..hi] == k[lo..] + "=" + v[..m];
    assert AllSpace(k[..lo]) by {
      forall i | 0 <= i < lo ensures IsSpace(k[..lo][i]) {
        assert k[..lo][i] == s[i];
      }
    }
    assert AllSpace(v[m..]) by {
      forall i | 0 <= i < |v| - m ensures IsSpace(v[m..][i]) {
        assert v[m..][i] == s[hi + i];
      }
    }
  }

  /** A segment whose stripped text is `a=b`, with no `=` in `a`, writes the
      stripped `a` with the stripped `b`. */
  lemma EntryOfStripped(segment: string, a: string, b: string)
    requires '=' !in a && Strip(segment) == a + "=" + b
    ensures Entry(segment) == Some((Strip(a), Strip(b)))
  {
    var part := a + "=" + b;
    IndexOfAfter(a, '=', b);
    assert part[..|a|] == a;
    assert part[|a| + 1..] == b;
  }

  lemma StripDropSpaces(k: string, lo: nat, v: string, m: nat)
    requires lo <= |k| && m <= |v|
    requires AllSpace(k[..lo]) && AllSpace(v[m..])
    ensures Strip(k[lo..]) == Strip(k) && Strip(v[..m]) == Strip(v)
  {
    assert k == k[..lo] + k[lo..];
    StripPadLeft(k[..lo], k[lo..]);
    assert v == v[..m] + v[m..];
    StripPadRight(v[..m], v[m..]);
  }

  lemma NotInSuffix(k: string, lo: nat, c: char)
    requires lo <= |k| && c !in k
    ensures c !in k[lo..]
  {
    forall j | 0 <= j < |k| - lo
      ensures k[lo..][j] != c
    {
      assert k[lo..][j] == k[lo + j];
    }
  }

  /** A segment `k=v` whose key part has no `=` maps the stripped key to the
      stripped rest, which may itself hold `=`. */
  lemma EntryKeyValue(k: string, v: string)
    requires '=' !in k
    ensures Entry(k + "=" + v) == Some((Strip(k), Strip(v)))
  {
    var lo, m := StripAroundEquals(k, v);
    NotInSuffix(k, lo, '=');
    EntryOfStripped(k + "=" + v, k[lo..], v[..m]);
    StripDropSpaces(k, lo, v, m);
  }

  /** One step of the fold: `e` adds or overwrites the key it writes. */
  lemma PutKeys(style: StyleMap, e: Option<(string, string)>, k: string)
    ensures k in Put(style, e) <==> k in style || Writes(e, k)
    ensures Writes(e, k) ==> Put(style, e)[k] == e.value.1
    ensures !Writes(e, k) && k in style ==> Put(style, e)[k] == style[k]
  {
  }

  /** A key of the map was written by some entry. */
  lemma {:induction false} KeyWritten(es: seq<Option<(string, string)>>, k: string) returns (i: nat)
    requires k in FoldEntries(es)
    ensures i < |es| && Writes(es[i], k)
    decreases |es|
  {
    var n := |es| - 1;
    var init := es[..n];
    PutKeys(FoldEntries(init), es[n], k);
    if Writes(es[n], k) {
      i := n;
    } else {
      i := KeyWritten(init, k);
      assert es[i] == init[i];
    }
  }

  /** A key some entry writes stays in the map. */
  lemma {:induction false} KeyKept(es: seq<Option<(string, string)>>, k: string, i: nat)
    requires i < |es| && Writes(es[i], k)
    ensures k in FoldEntries(es)
    decreases |es|
  {
    var n := |es| - 1;
    var init := es[..n];
    PutKeys(FoldEntries(init), es[n], k);
    if i < n {
      assert es[i] == init[i];
      KeyKept(init, k, i);
    }
  }

  /** The keys of the map are exactly the keys the segments write. */
  lemma FoldSegmentsKeys(segments: seq<string>, k: string)
    ensures k in FoldSegments(segments) <==> exists i :: 0 <= i < |segments| && SetsKey(segments[i], k)
  {
    var es := Entries(segments);
    if k in FoldSegments(segments) {
      var i := KeyWritten(es, k);
      assert SetsKey(segments[i], k);
    }
    if exists i :: 0 <= i < |segments| && SetsKey(segments[i], k) {
      var i :| 0 <= i < |segments| && SetsKey(segments[i], k);
      assert Writes(es[i], k);
      KeyKept(es, k, i);
    }
  }

  /** Each key holds the value of the last entry that writes it. */
  lemma {:induction false} LastWins(es: seq<Option<(string, string)>>, k: string, i: nat)
    requires i < |es| && Writes(es[i], k)
    requires forall j :: i < j < |es| ==> !Writes(es[j], k)
    ensures k in FoldEntries(es) && FoldEntries(es)[k] == es[i].value.1
    decreases |es|
  {
    var n := |es| - 1;
    var init := es[..n];
    PutKeys(FoldEntries(init), es[n], k);
    if i < n {
      assert Writes(init[i], k);
      LastWins(init, k, i);
    }
  }

  /** Each key holds the value written by the last segment that writes it. */
  lemma FoldSegmentsLastWins(segments: seq<string>, k: string, i: nat)
    requires i < |segments| && SetsKey(segments[i], k)
    requires forall j :: i < j < |segments| ==> !SetsKey(segments[j], k)
    ensures k in FoldSegments(segments) && FoldSegments(segments)[k] == Entry(segments[i]).value.1
  {
    var es := Entries(segments);
    assert es[i] == Entry(segments[i]);
    forall j | i < j < |es| ensures !Writes(es[j], k) {
      assert es[j] == Entry(segments[j]);
    }
    LastWins(es, k, i);
  }

  /** The style string a map of stripped keys and values is written as:
      `k1=v1;k2=v2;...`. */
  function Format(entries: seq<(string, string)>): string
  {
    Join(Pieces(entries), ';')
  }

  function Pieces(entries: seq<(string, string)>): (ps: seq<string>)
    ensures |ps| == |entries|
    ensures forall i :: 0 <= i < |ps| ==> ps[i] == entries[i].0 + "=" + entries[i].1
  {
    if entries == [] then []
    else Pieces(entries[..|entries| - 1]) + [entries[|entries| - 1].0 + "=" + entries[|entries| - 1].1]
  }

  /** The map holding the entries, later ones overwriting earlier ones. */
  function MapOf(entries: seq<(string, string)>): StyleMap
    decreases |entries|
  {
    if entries == [] then map[]
    else MapOf(entries[..|entries| - 1])[entries[|entries| - 1].0 := entries[|entries| - 1].1]
  }

  /** An entry the style syntax can carry: no `;` anywhere, no `=` in the key,
      and neither key nor value starting or ending with whitespace. */
  predicate Writable(e: (string, string)) {
    ';' !in e.0 && ';' !in e.1 && '=' !in e.0 && Strip(e.0) == e.0 && Strip(e.1) == e.1
  }

  /** Entries that are all present fold to the map holding them. */
  lemma {:induction false} FoldAllPresent(es: seq<Option<(string, string)>>, entries: seq<(string, string)>)
    requires |es| == |entries|
    requires forall i :: 0 <= i < |es| ==> es[i] == Some(entries[i])
    ensures FoldEntries(es) == MapOf(entries)
    decreases |es|
  {
    if es != [] {
      var n := |es| - 1;
      FoldAllPresent(es[..n], entries[..n]);
    }
  }

  lemma FoldPieces(entries: seq<(string, string)>)
    requires forall i :: 0 <= i < |entries| ==> Writable(entries[i])
    ensures FoldSegments(Pieces(entries)) == MapOf(entries)
  {
    var es := Entries(Pieces(entries));
    forall i | 0 <= i < |es| ensures es[i] == Some(entries[i]) {
      EntryKeyValue(entries[i].0, entries[i].1);
    }
    FoldAllPresent(es, entries);
  }

  /** Parsing a formatted style gives back its entries (round trip). */
  lemma ParseFormat(entries: seq<(string, string)>)
    requires forall i :: 0 <= i < |entries| ==> Writable(entries[i])
    ensures StyleOf(Format(entries)) == MapOf(entries)
  {
    var ps := Pieces(entries);
    if entries != [] {
      forall i | 0 <= i < |ps| ensures ';' !in ps[i] {
        PieceWithoutSeparator(entries[i]);
      }
      SplitJoin(ps, ';');
      JoinNonEmpty(ps, ';');
      FoldPieces(entries);
    }
  }

  lemma PieceWithoutSeparator(e: (string, string))
    requires ';' !in e.0 && ';' !in e.1
    ensures ';' !in e.0 + "=" + e.1
  {
    var p := e.0 + "=" + e.1;
    forall i | 0 <= i < |p| ensures p[i] != ';' {
      if i < |e.0| {
        assert p[i] == e.0[i];
      } else if i > |e.0| {
        assert p[i] == e.1[i - |e.0| - 1];
      }
    }
  }

  /** Joining pieces whose first one is non-empty gives a non-empty text. */
  lemma JoinNonEmpty(ps: seq<string>, sep: char)
    requires ps != [] && ps[0] != []
    ensures Join(ps, sep) != []
  {
    if |ps| > 1 {
      assert Join(ps, sep) == ps[0] + [sep] + Join(ps[1..], sep);
    }
  }

  /** A bare flag reads as "1". */
  lemma FlagExample()
    ensures StyleOf("rhombus") == map["rhombus" := "1"]
  {
    var t := "rhombus";
    assert !IsSpace(t[0]) && !IsSpace(t[|t| - 1]);
    StripOfTrimmed(t);
    assert ';' !in t && '=' !in t;
    assert Entry(t) == Some((t, "1"));
    assert Split(t, ';') == [t];
    assert Entries([t]) == [Entry(t)];
    assert FoldEntries([Entry(t)]) == Put(map[], Entry(t));
  }

  lemma OneCharWritable(k: char, v: char)
    requires !IsSpace(k) && !IsSpace(v) && k !in ";=" && v != ';'
    ensures Writable(([k], [v]))
  {
    StripOfTrimmed([k]);
    StripOfTrimmed([v]);
  }

  lemma PiecesOfPair()
    ensures Pieces([("a", "1"), ("b", "2")]) == ["a=1", "b=2"]
  {
    var es := [("a", "1"), ("b", "2")];
    assert es[..1] == [("a", "1")] && es[..1][..0] == [];
    assert "a" + "=" + "1" == "a=1";
    assert "b" + "=" + "2" == "b=2";
    assert Pieces(es[..1]) == ["a=1"];
  }

  lemma FormatOfPair()
    ensures Format([("a", "1"), ("b", "2")]) == "a=1;b=2"
  {
    PiecesOfPair();
    var ps := ["a=1", "b=2"];
    assert ps[1..] == ["b=2"];
  }

  lemma MapOfPair()
    ensures MapOf([("a", "1"), ("b", "2")]) == map["a" := "1", "b" := "2"]
  {
    var es := [("a", "1"), ("b", "2")];
    assert es[..1] == [("a", "1")] && es[..1][..0] == [];
  }

  /** Two entries read back as a two-key map. */
  lemma PairExample()
    ensures StyleOf("a=1;b=2") == map["a" := "1", "b" := "2"]
  {
    var es := [("a", "1"), ("b", "2")];
    OneCharWritable('a', '1');
    OneCharWritable('b', '2');
    ParseFormat(es);
    FormatOfPair();
    MapOfPair();
  }
}
