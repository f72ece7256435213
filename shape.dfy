/** The shape classifier (`_classify_shape`): the first of six rules that
    matches a vertex's style decides how it is drawn. */
module Shape {
  import opened Wrappers
  import opened Strings
  import opened Diagram
  import opened Style

  const ParallelogramPerimeter: string := "parallelogramPerimeter"

  predicate IsParallelogram(st: StyleMap) {
    Get(st, "shape", "") == "parallelogram" || Contains(Get(st, "perimeter", ""), ParallelogramPerimeter)
  }

  /** A bare `rhombus` flag, or `shape=rhombus`. */
  predicate IsDiamond(st: StyleMap) {
    "rhombus" in st || Get(st, "shape", "") == "rhombus"
  }

  predicate IsEllipse(st: StyleMap) {
    "ellipse" in st || Get(st, "shape", "") == "ellipse"
  }

  predicate IsRounded(st: StyleMap) {
    Get(st, "rounded", "0") == "1"
  }

  /** The arc size read when `arcSize` is missing or empty. */
  const DefaultArc: string := "0"

  /** The text handed to `int()`: `arcSize`, with a missing or empty value read as "0". */
  function ArcText(st: StyleMap): string {
    var a := Get(st, "arcSize", DefaultArc);
    if a == [] then DefaultArc else a
  }

  /** What `int()` makes of the arc size; None where it raises. */
  function ArcValue(st: StyleMap): Option<int> {
    ParseInt(ArcText(st))
  }

  /** The rules in the order they are tried. */
  const Precedence: seq<ShapeKind> := [Parallelogram, Diamond, Ellipse, Terminal, RoundedRect, Rectangle]

  /** The position of a kind's rule in `Precedence`. */
  function Rank(k: ShapeKind): (i: nat)
    ensures i < |Precedence| && Precedence[i] == k
  {
    match k
    case Parallelogram => 0
    case Diamond => 1
    case Ellipse => 2
    case Terminal => 3
    case RoundedRect => 4
    case Rectangle => 5
  }

  /** The rule for kind `k`, read on its own. */
  predicate Matches(st: StyleMap, k: ShapeKind) {
    match k
    case Parallelogram => IsParallelogram(st)
    case Diamond => IsDiamond(st)
    case Ellipse => IsEllipse(st)
    case Terminal => IsRounded(st) && ArcValue(st).Some? && ArcValue(st).value >= 40
    case RoundedRect => IsRounded(st)
    case Rectangle => true
  }

  /** `k`'s rule matches and no earlier rule does. */
  predicate FirstMatch(st: StyleMap, k: ShapeKind) {
    Matches(st, k) && forall j :: 0 <= j < Rank(k) ==> !Matches(st, Precedence[j])
  }

  /** `_classify_shape`. The arc size is read only once the first three rules
      have failed, and an arc size `int()` rejects is an error. */
  function Classify(st: StyleMap): (r: Result<ShapeKind, Error>)
    ensures r.Ok? ==> FirstMatch(st, r.value)
    ensures r.Err? ==> !IsParallelogram(st) && !IsDiamond(st) && !IsEllipse(st) && ArcValue(st).None?
    ensures !IsParallelogram(st) && !IsDiamond(st) && !IsEllipse(st) && ArcValue(st).None? ==> r.Err?
    ensures r.Err? ==> r.error == BadInt(ArcText(st))
  {
    if IsParallelogram(st) then Ok(Parallelogram)
    else if IsDiamond(st) then Ok(Diamond)
    else if IsEllipse(st) then Ok(Ellipse)
    else
      match ArcValue(st)
      case None => Err(BadInt(ArcText(st)))
      case Some(arc) =>
        if IsRounded(st) && arc >= 40 then Ok(Terminal)
        else if IsRounded(st) then Ok(RoundedRect)
        else Ok(Rectangle)
  }

  /** Exactly one kind is the first match: the classification is a function
      of the style. */
  lemma FirstMatchUnique(st: StyleMap, k1: ShapeKind, k2: ShapeKind)
    requires FirstMatch(st, k1) && FirstMatch(st, k2)
    ensures k1 == k2
  {
    assert Precedence[Rank(k1)] == k1 && Precedence[Rank(k2)] == k2;
  }

  /** Whenever `int()` accepts the arc size, some rule matches, and the
      classifier returns the first one. */
  lemma ClassifyTotal(st: StyleMap, k: ShapeKind)
    requires ArcValue(st).Some? && FirstMatch(st, k)
    ensures Classify(st) == Ok(k)
  {
    FirstMatchUnique(st, Classify(st).value, k);
  }

  /** `st1` and `st2` agree on `key`: both lack it or both map it to the same text. */
  predicate Agree(st1: StyleMap, st2: StyleMap, key: string) {
    (key in st1 <==> key in st2) && (key in st1 ==> st1[key] == st2[key])
  }

  /** Only six keys are read: styles that agree on them classify alike. */
  lemma ClassifyReadsSixKeys(st1: StyleMap, st2: StyleMap)
    requires Agree(st1, st2, "shape") && Agree(st1, st2, "perimeter")
    requires Agree(st1, st2, "rhombus") && Agree(st1, st2, "ellipse")
    requires Agree(st1, st2, "rounded") && Agree(st1, st2, "arcSize")
    ensures Classify(st1) == Classify(st2)
  {
    assert IsParallelogram(st1) == IsParallelogram(st2);
    assert IsDiamond(st1) == IsDiamond(st2);
    assert IsEllipse(st1) == IsEllipse(st2);
    assert IsRounded(st1) == IsRounded(st2);
    assert ArcText(st1) == ArcText(st2);
  }

  /** Past the first three rules, a rounded style is a terminal or a rounded
      rectangle by its arc size alone. */
  lemma ClassifyRounded(st: StyleMap, n: int)
    requires !IsParallelogram(st) && !IsDiamond(st) && !IsEllipse(st)
    requires IsRounded(st) && ArcValue(st) == Some(n)
    ensures Classify(st) == Ok(if n >= 40 then Terminal else RoundedRect)
  {
  }

  /** The style `rounded=1;arcSize=a` meets none of the first three rules. */
  lemma RoundedStyle(a: string)
    requires a != []
    ensures var st := map["rounded" := "1", "arcSize" := a];
      !IsParallelogram(st) && !IsDiamond(st) && !IsEllipse(st) && IsRounded(st) && ArcText(st) == a
  {
  }

  /** A rounded box with a decimal arc size is a terminal from 40 upwards and a
      rounded rectangle below. */
  lemma RoundedByArc(n: nat)
    ensures Classify(map["rounded" := "1", "arcSize" := NatToString(n)]) ==
            Ok(if n >= 40 then Terminal else RoundedRect)
  {
    var a := NatToString(n);
    RoundedStyle(a);
    ParseIntOfNatToString(n);
    ClassifyRounded(map["rounded" := "1", "arcSize" := a], n);
  }

  /** A missing or empty arc size reads as 0, so `rounded=1` alone gives a
      rounded rectangle. */
  lemma RoundedWithoutArc()
    ensures Classify(map["rounded" := "1"]) == Ok(RoundedRect)
    ensures Classify(map["rounded" := "1", "arcSize" := ""]) == Ok(RoundedRect)
  {
    ParseIntOfNatToString(0);
    assert NatToString(0) == "0";
    var st1 := map["rounded" := "1"];
    var st2 := map["rounded" := "1", "arcSize" := ""];
    assert ArcText(st1) == "0" && ArcText(st2) == "0";
    ClassifyRounded(st1, 0);
    ClassifyRounded(st2, 0);
  }

  /** An arc size `int()` rejects is an error, but only when it is read. */
  lemma BadArcSize()
    ensures Classify(map["rounded" := "1", "arcSize" := "x"]) == Err(BadInt("x"))
    ensures Classify(map["rhombus" := "1", "arcSize" := "x"]) == Ok(Diamond)
  {
    StripOfTrimmed("x");
  }
}
