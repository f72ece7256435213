/** `_repair_minimal`: the best-effort repair that turns a loosely shaped
    notebook payload (decoded JSON) into one with the top-level keys and the
    per-cell fields that a notebook reader expects. */
module Notebook {
  import opened Wrappers

  /** A decoded JSON value. An object keeps its fields in insertion order, as
      a Python dict does. */
  datatype Json =
    | JNull
    | JBool(b: bool)
    | JNum(n: real)
    | JStr(s: string)
    | JList(items: seq<Json>)
    | JObj(fields: seq<Field>)

  datatype Field = Field(key: string, value: Json)

  /** What Python raises on the way: iterating `cells` when it is None, a
      boolean or a number (`TypeError`), and `"".join` over a `source` list
      holding something other than a string (`TypeError`). */
  datatype RepairError = NotIterable | JoinTypeError

  // ---- a Python dict as an ordered list of fields ----

  function Keys(fields: seq<Field>): (ks: seq<string>)
    ensures |ks| == |fields|
    ensures forall i :: 0 <= i < |fields| ==> ks[i] == fields[i].key
  {
    if fields == [] then [] else [fields[0].key] + Keys(fields[1..])
  }

  /** Every key occurs once, as in any Python dict. */
  predicate UniqueKeys(fields: seq<Field>) {
    Distinct(Keys(fields))
  }

  predicate Distinct(ks: seq<string>) {
    forall i, j :: 0 <= i < j < |ks| ==> ks[i] != ks[j]
  }

  lemma DistinctSnoc(ks: seq<string>, k: string)
    requires Distinct(ks) && k !in ks
    ensures Distinct(ks + [k])
  {
    var t := ks + [k];
    forall i, j | 0 <= i < j < |t| ensures t[i] != t[j] {
      assert t[i] == ks[i];
      if j == |ks| {
        assert t[j] == k;
      } else {
        assert t[j] == ks[j];
      }
    }
  }

  /** `d[key]` when `key` is present. */
  function Lookup(fields: seq<Field>, key: string): (r: Option<Json>)
    ensures r.None? <==> key !in Keys(fields)
  {
    if fields == [] then None
    else if fields[0].key == key then Some(fields[0].value)
    else Lookup(fields[1..], key)
  }

  /** `d.get(key, default)`. */
  function Get(fields: seq<Field>, key: string, default: Json): Json
  {
    match Lookup(fields, key)
    case Some(v) => v
    case None => default
  }

  /** `d[key] = value`: an existing key keeps its place, a new one goes last. */
  function Set(fields: seq<Field>, key: string, value: Json): seq<Field>
  {
    if fields == [] then [Field(key, value)]
    else if fields[0].key == key then [Field(key, value)] + fields[1..]
    else [fields[0]] + Set(fields[1..], key, value)
  }

  /** `d.setdefault(key, value)`: only an absent key is added. */
  function SetDefault(fields: seq<Field>, key: string, value: Json): seq<Field>
  {
    if key in Keys(fields) then fields else fields + [Field(key, value)]
  }

  lemma LookupSet(fields: seq<Field>, key: string, value: Json, other: string)
    ensures Lookup(Set(fields, key, value), key) == Some(value)
    ensures other != key ==> Lookup(Set(fields, key, value), other) == Lookup(fields, other)
    ensures Keys(Set(fields, key, value)) == if key in Keys(fields) then Keys(fields) else Keys(fields) + [key]
  {
    LookupSetSame(fields, key, value);
    if other != key {
      LookupSetOther(fields, key, value, other);
    }
    KeysSet(fields, key, value);
  }

  lemma {:induction false} LookupSetSame(fields: seq<Field>, key: string, value: Json)
    ensures Lookup(Set(fields, key, value), key) == Some(value)
    decreases |fields|
  {
    if fields != [] && fields[0].key != key {
      LookupSetSame(fields[1..], key, value);
      assert Set(fields, key, value)[1..] == Set(fields[1..], key, value);
    }
  }

  lemma {:induction false} LookupSetOther(fields: seq<Field>, key: string, value: Json, other: string)
    requires other != key
    ensures Lookup(Set(fields, key, value), other) == Lookup(fields, other)
    decreases |fields|
  {
    if fields != [] && fields[0].key != key {
      LookupSetOther(fields[1..], key, value, other);
      assert Set(fields, key, value)[1..] == Set(fields[1..], key, value);
    }
  }

  lemma {:induction false} KeysSet(fields: seq<Field>, key: string, value: Json)
    ensures Keys(Set(fields, key, value)) == if key in Keys(fields) then Keys(fields) else Keys(fields) + [key]
    decreases |fields|
  {
    if fields != [] {
      assert Keys(fields) == [fields[0].key] + Keys(fields[1..]);
      if fields[0].key != key {
        KeysSet(fields[1..], key, value);
        assert Set(fields, key, value)[1..] == Set(fields[1..], key, value);
      }
    }
  }

  /** Writing back the value a key already has changes nothing. */
  lemma {:induction false} SetSame(fields: seq<Field>, key: string)
    requires Lookup(fields, key).Some?
    ensures Set(fields, key, Lookup(fields, key).value) == fields
    decreases |fields|
  {
    if fields[0].key != key {
      SetSame(fields[1..], key);
    }
  }

  lemma LookupSetDefault(fields: seq<Field>, key: string, value: Json, other: string)
    ensures Lookup(SetDefault(fields, key, value), key) ==
              if key in Keys(fields) then Lookup(fields, key) else Some(value)
    ensures other != key ==> Lookup(SetDefault(fields, key, value), other) == Lookup(fields, other)
  {
    if key !in Keys(fields) {
      LookupAppend(fields, Field(key, value), key);
      LookupAppend(fields, Field(key, value), other);
    }
  }

  lemma {:induction false} LookupAppend(fields: seq<Field>, f: Field, key: string)
    ensures Lookup(fields + [f], key) ==
              if key in Keys(fields) then Lookup(fields, key) else if f.key == key then Some(f.value) else None
    decreases |fields|
  {
    if fields != [] {
      assert (fields + [f])[1..] == fields[1..] + [f];
      assert Keys(fields) == [fields[0].key] + Keys(fields[1..]);
      LookupAppend(fields[1..], f, key);
    }
  }

  lemma {:induction false} KeysAppend(fields: seq<Field>, f: Field)
    ensures Keys(fields + [f]) == Keys(fields) + [f.key]
  {
  }

  /** Both writes keep the keys of a dict unique. */
  lemma UniqueAfterWrites(fields: seq<Field>, key: string, value: Json)
    requires UniqueKeys(fields)
    ensures UniqueKeys(Set(fields, key, value)) && UniqueKeys(SetDefault(fields, key, value))
  {
    KeysSet(fields, key, value);
    KeysAppend(fields, Field(key, value));
    if key !in Keys(fields) {
      DistinctSnoc(Keys(fields), key);
    }
  }

  // ---- the repair, as functions of the payload ----

  /** The payload as a dict after lines 118-125: a non-dict is wrapped as
      the `cells` of a new dict (a list as it is, anything else as `[]`), and
      the four top-level keys are added where absent. */
  function TopLevel(payload: Json): seq<Field>
  {
    SetDefault(SetDefault(SetDefault(SetDefault(Wrapped(payload),
      "cells", JList([])), "metadata", JObj([])), "nbformat", JNum(4.0)), "nbformat_minor", JNum(5.0))
  }

  /** Lines 118-119: a dict payload as it is; a list as the `cells` of a new
      dict; anything else as a dict with no cell. */
  function Wrapped(payload: Json): seq<Field>
  {
    if payload.JObj? then payload.fields
    else [Field("cells", if payload.JList? then payload else JList([]))]
  }

  /** What `for cell in value` visits: the items of a list, the one-character
      strings of a string, the keys of a dict; anything else is not iterable. */
  function Iterate(value: Json): Result<seq<Json>, RepairError>
  {
    match value
    case JList(items) => Ok(items)
    case JStr(text) => Ok(seq(|text|, i requires 0 <= i < |text| => JStr([text[i]])))
    case JObj(fields) => Ok(seq(|fields|, i requires 0 <= i < |fields| => JStr(fields[i].key)))
    case _ => Err(NotIterable)
  }

  /** `next((c for c in items if isinstance(c, dict)), None)`. */
  function FirstDict(items: seq<Json>): (r: Option<seq<Field>>)
    ensures r.None? <==> forall i :: 0 <= i < |items| ==> !items[i].JObj?
    ensures r.Some? ==> exists i :: 0 <= i < |items| && items[i] == JObj(r.value) &&
                                    forall j :: 0 <= j < i ==> !items[j].JObj?
  {
    if items == [] then None
    else if items[0].JObj? then Some(items[0].fields)
    else
      var r := FirstDict(items[1..]);
      assert forall i :: 1 <= i < |items| ==> items[i] == items[1..][i - 1];
      if r.Some? then
        var i :| 0 <= i < |items[1..]| && items[1..][i] == JObj(r.value) &&
                 forall j :: 0 <= j < i ==> !items[1..][j].JObj?;
        assert items[i + 1] == JObj(r.value);
        r
      else r
  }

  /** The dict a cell becomes before it is normalised (lines 130-136), or None
      when it is dropped. */
  function Unwrap(cell: Json): Option<seq<Field>>
  {
    match cell
    case JList(items) => FirstDict(items)
    case JStr(text) =>
      Some([Field("cell_type", JStr("markdown")), Field("metadata", JObj([])), Field("source", JStr(text))])
    case JObj(fields) => Some(fields)
    case _ => None
  }

  /** `"".join(items)`. */
  function JoinStrings(items: seq<Json>): Result<string, RepairError>
  {
    if items == [] then Ok("")
    else if !items[0].JStr? then Err(JoinTypeError)
    else
      match JoinStrings(items[1..])
      case Err(e) => Err(e)
      case Ok(rest) => Ok(items[0].s + rest)
  }

  /** The normalised `source`: a list joined, None replaced by "", anything
      else kept. */
  function NormalSource(source: Json): Result<Json, RepairError>
  {
    match source
    case JList(items) =>
      (match JoinStrings(items)
       case Err(e) => Err(e)
       case Ok(text) => Ok(JStr(text)))
    case JNull => Ok(JStr(""))
    case _ => Ok(source)
  }

  /** The metadata a cell keeps: its own when that is a dict, else `{}`. */
  function NormalMetadata(metadata: Json): Json
  {
    if metadata.JObj? then metadata else JObj([])
  }

  /** Lines 139-152 on one cell dict. */
  function RepairCell(fields: seq<Field>): Result<seq<Field>, RepairError>
  {
    var withMetadata := Set(fields, "metadata", NormalMetadata(Get(fields, "metadata", JNull)));
    match NormalSource(Get(withMetadata, "source", JStr("")))
    case Err(e) => Err(e)
    case Ok(source) =>
      Ok(CellDefaults(Set(withMetadata, "source", source)))
  }

  /** Lines 150-152: the fields a notebook reader needs, where absent. */
  function CellDefaults(fields: seq<Field>): seq<Field>
  {
    SetDefault(SetDefault(SetDefault(fields,
      "cell_type", JStr("markdown")), "outputs", JList([])), "execution_count", JNull)
  }

  /** `repaired_cells` after the loop has visited `cells`. */
  function RepairCells(cells: seq<Json>): Result<seq<Json>, RepairError>
    decreases |cells|
  {
    if cells == [] then Ok([])
    else
      match RepairCells(cells[..|cells| - 1])
      case Err(e) => Err(e)
      case Ok(done) =>
        match Unwrap(cells[|cells| - 1])
        case None => Ok(done)
        case Some(fields) =>
          match RepairCell(fields)
          case Err(e) => Err(e)
          case Ok(cell) => Ok(done + [JObj(cell)])
  }

  /** The repaired payload. */
  function Repaired(payload: Json): Result<Json, RepairError>
  {
    var top := TopLevel(payload);
    match Iterate(Get(top, "cells", JList([])))
    case Err(e) => Err(e)
    case Ok(cells) =>
      match RepairCells(cells)
      case Err(e) => Err(e)
      case Ok(repaired) => Ok(JObj(Set(top, "cells", JList(repaired))))
  }

  // ---- the repair as written: in-place updates and a loop ----

  lemma {:induction false} RepairCellsErrorSticks(cells: seq<Json>, i: nat)
    requires i <= |cells| && RepairCells(cells[..i]).Err?
    ensures RepairCells(cells) == RepairCells(cells[..i])
    decreases |cells| - i
  {
    if i < |cells| {
      assert cells[..i + 1][..i] == cells[..i];
      RepairCellsErrorSticks(cells, i + 1);
    } else {
      assert cells[..i] == cells;
    }
  }

  /** Lines 130-136: flattens a list-wrapped cell and promotes a string. */
  method UnwrapCell(cell: Json) returns (d: Option<seq<Field>>)
    ensures d == Unwrap(cell)
  {
    var c := cell;
    if c.JList? {
      var first := FirstDict(c.items);
      c := if first.Some? then JObj(first.value) else JNull;
    }
    if c.JStr? {
      c := JObj([Field("cell_type", JStr("markdown")), Field("metadata", JObj([])), Field("source", c)]);
    }
    if !c.JObj? {
      return None;
    }
    return Some(c.fields);
  }

  /** Lines 139-152: normalises one cell dict field by field. */
  method NormaliseCell(cell: seq<Field>) returns (r: Result<seq<Field>, RepairError>)
    ensures r == RepairCell(cell)
  {
    var fields := cell;
    var metadata := Get(fields, "metadata", JNull);
    fields := Set(fields, "metadata", if metadata.JObj? then metadata else JObj([]));
    var source := Get(fields, "source", JStr(""));
    if source.JList? {
      var joined := JoinStrings(source.items);
      if joined.Err? {
        return Err(joined.error);
      }
      source := JStr(joined.value);
    } else if source.JNull? {
      source := JStr("");
    }
    fields := Set(fields, "source", source);
    fields := SetDefault(fields, "cell_type", JStr("markdown"));
    fields := SetDefault(fields, "outputs", JList([]));
    fields := SetDefault(fields, "execution_count", JNull);
    return Ok(fields);
  }

  /** `_repair_minimal`: fills in the payload's top-level keys, rewrites each
      usable cell dict and collects the repaired cells in order. */
  method RepairMinimal(payload: Json) returns (r: Result<Json, RepairError>)
    ensures r == Repaired(payload)
  {
    var top: seq<Field>;
    if !payload.JObj? {
      top := [Field("cells", if payload.JList? then payload else JList([]))];
    } else {
      top := payload.fields;
    }
    top := SetDefault(top, "cells", JList([]));
    top := SetDefault(top, "metadata", JObj([]));
    top := SetDefault(top, "nbformat", JNum(4.0));
    top := SetDefault(top, "nbformat_minor", JNum(5.0));
    var cells := Iterate(Get(top, "cells", JList([])));
    if cells.Err? {
      return Err(cells.error);
    }
    var repaired := RepairLoop(cells.value);
    if repaired.Err? {
      return Err(repaired.error);
    }
    top := Set(top, "cells", JList(repaired.value));
    return Ok(JObj(top));
  }

  /** Lines 128-154: the loop over the cells, collecting the repaired ones. */
  method RepairLoop(cells: seq<Json>) returns (r: Result<seq<Json>, RepairError>)
    ensures r == RepairCells(cells)
  {
    var repaired: seq<Json> := [];
    for i := 0 to |cells|
      invariant RepairCells(cells[..i]) == Ok(repaired)
    {
      RepairCellsPrefix(cells, i, repaired);
      var fields := UnwrapCell(cells[i]);
      if fields.None? {
        continue;
      }
      var cell := NormaliseCell(fields.value);
      if cell.Err? {
        RepairCellsErrorSticks(cells, i + 1);
        return Err(cell.error);
      }
      repaired := repaired + [JObj(cell.value)];
    }
    assert cells[..|cells|] == cells;
    return Ok(repaired);
  }

  /** One more cell visited by the loop. */
  lemma RepairCellsPrefix(cells: seq<Json>, i: nat, done: seq<Json>)
    requires i < |cells| && RepairCells(cells[..i]) == Ok(done)
    ensures Unwrap(cells[i]).None? ==> RepairCells(cells[..i + 1]) == Ok(done)
    ensures Unwrap(cells[i]).Some? ==>
              RepairCells(cells[..i + 1]) ==
                match RepairCell(Unwrap(cells[i]).value)
                case Err(e) => Err(e)
                case Ok(cell) => Ok(done + [JObj(cell)])
  {
    var p := cells[..i + 1];
    assert p[..|p| - 1] == cells[..i];
    assert p[|p| - 1] == cells[i];
  }

  // ---- what the repair promises ----

  predicate TopKey(key: string) {
    key == "cells" || key == "metadata" || key == "nbformat" || key == "nbformat_minor"
  }

  /** The value lines 122-125 give a top-level key that is absent. */
  function TopDefault(key: string): Json
  {
    if key == "cells" then JList([])
    else if key == "metadata" then JObj([])
    else if key == "nbformat" then JNum(4.0)
    else JNum(5.0)
  }

  lemma SetDefaultKeys(fields: seq<Field>, key: string, value: Json, other: string)
    ensures other in Keys(SetDefault(fields, key, value)) <==> other in Keys(fields) || other == key
  {
    KeysAppend(fields, Field(key, value));
  }

  /** Each of the four top-level keys holds its old value when present and
      its default when absent; every other key holds what it held. */
  lemma TopLevelLookup(payload: Json, key: string)
    ensures Lookup(TopLevel(payload), key) ==
              if TopKey(key) && key !in Keys(Wrapped(payload)) then Some(TopDefault(key))
              else Lookup(Wrapped(payload), key)
  {
    var f0 := Wrapped(payload);
    var f1 := SetDefault(f0, "cells", JList([]));
    var f2 := SetDefault(f1, "metadata", JObj([]));
    var f3 := SetDefault(f2, "nbformat", JNum(4.0));
    LookupSetDefault(f0, "cells", JList([]), key);
    LookupSetDefault(f1, "metadata", JObj([]), key);
    LookupSetDefault(f2, "nbformat", JNum(4.0), key);
    LookupSetDefault(f3, "nbformat_minor", JNum(5.0), key);
    SetDefaultKeys(f0, "cells", JList([]), key);
    SetDefaultKeys(f1, "metadata", JObj([]), key);
    SetDefaultKeys(f2, "nbformat", JNum(4.0), key);
  }

  /** The top level after lines 118-125: a list payload becomes the cells, any
      other non-dict payload leaves no cell; `metadata`, `nbformat` (4) and
      `nbformat_minor` (5) are filled in only where absent, and every other key
      of a dict payload is kept as it was. */
  lemma TopLevelKeys(payload: Json)
    ensures Get(TopLevel(payload), "cells", JList([])) ==
              if payload.JObj? then Get(payload.fields, "cells", JList([]))
              else if payload.JList? then payload else JList([])
    ensures payload.JObj? && "metadata" in Keys(payload.fields) ==>
              Lookup(TopLevel(payload), "metadata") == Lookup(payload.fields, "metadata")
    ensures payload.JObj? && "nbformat" in Keys(payload.fields) ==>
              Lookup(TopLevel(payload), "nbformat") == Lookup(payload.fields, "nbformat")
    ensures payload.JObj? && "nbformat_minor" in Keys(payload.fields) ==>
              Lookup(TopLevel(payload), "nbformat_minor") == Lookup(payload.fields, "nbformat_minor")
    ensures !(payload.JObj? && "metadata" in Keys(payload.fields)) ==>
              Lookup(TopLevel(payload), "metadata") == Some(JObj([]))
    ensures !(payload.JObj? && "nbformat" in Keys(payload.fields)) ==>
              Lookup(TopLevel(payload), "nbformat") == Some(JNum(4.0))
    ensures !(payload.JObj? && "nbformat_minor" in Keys(payload.fields)) ==>
              Lookup(TopLevel(payload), "nbformat_minor") == Some(JNum(5.0))
    ensures payload.JObj? ==>
              forall key :: !TopKey(key) ==> Lookup(TopLevel(payload), key) == Lookup(payload.fields, key)
    ensures !payload.JObj? ==> Keys(TopLevel(payload)) == ["cells", "metadata", "nbformat", "nbformat_minor"]
  {
    TopLevelLookup(payload, "cells");
    TopLevelFilled(payload, "metadata");
    TopLevelFilled(payload, "nbformat");
    TopLevelFilled(payload, "nbformat_minor");
    forall key | !TopKey(key) {
      TopLevelLookup(payload, key);
    }
    if !payload.JObj? {
      TopLevelOfNonDict(payload);
    }
  }

  /** A top-level key other than `cells` keeps a dict payload's value, and
      gets its default otherwise. */
  lemma TopLevelFilled(payload: Json, key: string)
    requires TopKey(key) && key != "cells"
    ensures payload.JObj? && key in Keys(payload.fields) ==>
              Lookup(TopLevel(payload), key) == Lookup(payload.fields, key)
    ensures !(payload.JObj? && key in Keys(payload.fields)) ==>
              Lookup(TopLevel(payload), key) == Some(TopDefault(key))
  {
    TopLevelLookup(payload, key);
    if !payload.JObj? {
      assert Keys(Wrapped(payload)) == ["cells"];
    }
  }

  /** A payload that is not a dict gets exactly the four top-level keys. */
  lemma TopLevelOfNonDict(payload: Json)
    requires !payload.JObj?
    ensures Keys(TopLevel(payload)) == ["cells", "metadata", "nbformat", "nbformat_minor"]
  {
    var f0 := Wrapped(payload);
    var f1 := SetDefault(f0, "cells", JList([]));
    var f2 := SetDefault(f1, "metadata", JObj([]));
    var f3 := SetDefault(f2, "nbformat", JNum(4.0));
    assert Keys(f0) == ["cells"];
    assert f1 == f0;
    KeysAppend(f1, Field("metadata", JObj([])));
    KeysAppend(f2, Field("nbformat", JNum(4.0)));
    KeysAppend(f3, Field("nbformat_minor", JNum(5.0)));
  }

  /** `"".join` succeeds exactly on a list of strings, and joining two lists
      one after the other is joining their concatenation. */
  lemma {:induction false} JoinConcat(a: seq<Json>, b: seq<Json>)
    ensures JoinStrings(a).Ok? <==> forall i :: 0 <= i < |a| ==> a[i].JStr?
    ensures JoinStrings(a).Ok? && JoinStrings(b).Ok? ==>
              JoinStrings(a + b) == Ok(JoinStrings(a).value + JoinStrings(b).value)
    ensures JoinStrings(a + b).Ok? ==> JoinStrings(a).Ok? && JoinStrings(b).Ok?
    decreases |a|
  {
    if a != [] {
      assert (a + b)[1..] == a[1..] + b;
      assert forall i :: 1 <= i < |a| ==> a[i] == a[1..][i - 1];
      assert (a + b)[0] == a[0];
      JoinConcat(a[1..], b);
      if JoinStrings(a).Ok? && JoinStrings(b).Ok? {
        var x, y, z := a[0].s, JoinStrings(a[1..]).value, JoinStrings(b).value;
        assert x + (y + z) == (x + y) + z;
      }
    } else {
      assert a + b == b;
      assert JoinStrings(b).Ok? ==> "" + JoinStrings(b).value == JoinStrings(b).value;
    }
  }

  /** Normalising a cell fails exactly when its source is a list holding
      something other than a string. */
  lemma RepairCellFails(fields: seq<Field>)
    ensures RepairCell(fields).Err? <==>
              Get(fields, "source", JStr("")).JList? &&
              exists i :: 0 <= i < |Get(fields, "source", JStr("")).items| &&
                          !Get(fields, "source", JStr("")).items[i].JStr?
  {
    var source := Get(fields, "source", JStr(""));
    var withMetadata := Set(fields, "metadata", NormalMetadata(Get(fields, "metadata", JNull)));
    LookupSet(fields, "metadata", NormalMetadata(Get(fields, "metadata", JNull)), "source");
    assert Get(withMetadata, "source", JStr("")) == source;
    if source.JList? {
      JoinConcat(source.items, []);
    }
  }

  lemma CellDefaultsLookup(fields: seq<Field>, key: string)
    ensures Lookup(CellDefaults(fields), key) ==
              if key == "cell_type" && key !in Keys(fields) then Some(JStr("markdown"))
              else if key == "outputs" && key !in Keys(fields) then Some(JList([]))
              else if key == "execution_count" && key !in Keys(fields) then Some(JNull)
              else Lookup(fields, key)
  {
    var c1 := SetDefault(fields, "cell_type", JStr("markdown"));
    var c2 := SetDefault(c1, "outputs", JList([]));
    LookupSetDefault(fields, "cell_type", JStr("markdown"), key);
    LookupSetDefault(c1, "outputs", JList([]), key);
    LookupSetDefault(c2, "execution_count", JNull, key);
    SetDefaultKeys(fields, "cell_type", JStr("markdown"), key);
    SetDefaultKeys(c1, "outputs", JList([]), key);
  }

  /** What each field of a normalised cell holds: `metadata` and `source`
      their normal forms, `cell_type`, `outputs` and `execution_count` their
      old value or default, any other key its old value. */
  lemma RepairCellLookup(fields: seq<Field>, key: string)
    requires RepairCell(fields).Ok?
    ensures NormalSource(Get(fields, "source", JStr(""))).Ok?
    ensures Lookup(RepairCell(fields).value, key) ==
              if key == "metadata" then Some(NormalMetadata(Get(fields, "metadata", JNull)))
              else if key == "source" then Some(NormalSource(Get(fields, "source", JStr(""))).value)
              else if key == "cell_type" && key !in Keys(fields) then Some(JStr("markdown"))
              else if key == "outputs" && key !in Keys(fields) then Some(JList([]))
              else if key == "execution_count" && key !in Keys(fields) then Some(JNull)
              else Lookup(fields, key)
  {
    var source := Get(fields, "source", JStr(""));
    var metadata := NormalMetadata(Get(fields, "metadata", JNull));
    var withMetadata := Set(fields, "metadata", metadata);
    LookupSet(fields, "metadata", metadata, "source");
    assert Get(withMetadata, "source", JStr("")) == source;
    var withSource := Set(withMetadata, "source", NormalSource(source).value);
    assert RepairCell(fields).value == CellDefaults(withSource);
    LookupSet(fields, "metadata", metadata, key);
    LookupSet(withMetadata, "source", NormalSource(source).value, key);
    KeysOfSet(fields, "metadata", metadata, key);
    KeysOfSet(withMetadata, "source", NormalSource(source).value, key);
    CellDefaultsLookup(withSource, key);
  }

  lemma KeysOfSet(fields: seq<Field>, key: string, value: Json, other: string)
    ensures other in Keys(Set(fields, key, value)) <==> other in Keys(fields) || other == key
  {
    LookupSet(fields, key, value, other);
  }

  /** A cell in the shape the repair leaves it in: dict metadata, a source
      that is neither a list nor null, and the three fields a notebook reader
      needs. */
  predicate WellFormedCell(cell: seq<Field>) {
    && Lookup(cell, "metadata").Some? && Lookup(cell, "metadata").value.JObj?
    && Lookup(cell, "source").Some?
    && !Lookup(cell, "source").value.JList? && !Lookup(cell, "source").value.JNull?
    && "cell_type" in Keys(cell) && "outputs" in Keys(cell) && "execution_count" in Keys(cell)
  }

  /** Every normalised cell is well formed. */
  lemma RepairCellWellFormed(fields: seq<Field>)
    requires RepairCell(fields).Ok?
    ensures WellFormedCell(RepairCell(fields).value)
  {
    var cell := RepairCell(fields).value;
    RepairCellMetadata(fields, cell);
    RepairCellSource(fields, cell);
    RepairCellDefault(fields, cell, "cell_type");
    RepairCellDefault(fields, cell, "outputs");
    RepairCellDefault(fields, cell, "execution_count");
  }

  lemma RepairCellMetadata(fields: seq<Field>, cell: seq<Field>)
    requires RepairCell(fields) == Ok(cell)
    ensures Lookup(cell, "metadata").Some? && Lookup(cell, "metadata").value.JObj?
  {
    RepairCellLookup(fields, "metadata");
  }

  lemma RepairCellSource(fields: seq<Field>, cell: seq<Field>)
    requires RepairCell(fields) == Ok(cell)
    ensures Lookup(cell, "source").Some?
    ensures !Lookup(cell, "source").value.JList? && !Lookup(cell, "source").value.JNull?
  {
    RepairCellLookup(fields, "source");
    NormalSourceShape(Get(fields, "source", JStr("")));
  }

  /** A normalised source is neither a list nor null. */
  lemma NormalSourceShape(source: Json)
    requires NormalSource(source).Ok?
    ensures !NormalSource(source).value.JList? && !NormalSource(source).value.JNull?
  {
  }

  lemma RepairCellDefault(fields: seq<Field>, cell: seq<Field>, key: string)
    requires RepairCell(fields) == Ok(cell)
    requires key == "cell_type" || key == "outputs" || key == "execution_count"
    ensures key in Keys(cell)
  {
    RepairCellLookup(fields, key);
  }

  /** A well-formed cell comes out of the normalisation unchanged. */
  lemma RepairCellFixed(cell: seq<Field>)
    requires WellFormedCell(cell)
    ensures RepairCell(cell) == Ok(cell)
  {
    var metadata := Lookup(cell, "metadata").value;
    SetSame(cell, "metadata");
    assert Set(cell, "metadata", NormalMetadata(Get(cell, "metadata", JNull))) == cell;
    SetSame(cell, "source");
    assert NormalSource(Get(cell, "source", JStr(""))) == Ok(Lookup(cell, "source").value);
    assert CellDefaults(cell) == cell;
  }

  /** The dicts of the cells that survive lines 130-136, in order. */
  function Survivors(cells: seq<Json>): seq<seq<Field>>
    decreases |cells|
  {
    if cells == [] then []
    else
      var last := Unwrap(cells[|cells| - 1]);
      Survivors(cells[..|cells| - 1]) + (if last.Some? then [last.value] else [])
  }

  lemma {:induction false} RepairCellsLength(cells: seq<Json>)
    ensures RepairCells(cells).Ok? ==> |RepairCells(cells).value| == |Survivors(cells)|
    decreases |cells|
  {
    if cells != [] {
      RepairCellsLength(cells[..|cells| - 1]);
    }
  }

  lemma {:induction false} RepairCellsAt(cells: seq<Json>, k: nat)
    requires k < |Survivors(cells)|
    ensures RepairCells(cells).Ok? ==>
              |RepairCells(cells).value| == |Survivors(cells)| && RepairCell(Survivors(cells)[k]).Ok? &&
              RepairCells(cells).value[k] == JObj(RepairCell(Survivors(cells)[k]).value)
    ensures RepairCell(Survivors(cells)[k]).Err? ==> RepairCells(cells).Err?
    decreases |cells|
  {
    var init := cells[..|cells| - 1];
    RepairCellsLength(cells);
    RepairCellsLength(init);
    if k < |Survivors(init)| {
      assert Survivors(cells)[k] == Survivors(init)[k];
      RepairCellsAt(init, k);
    }
  }

  /** A failed loop has a surviving cell that cannot be normalised. */
  lemma {:induction false} FailingSurvivor(cells: seq<Json>) returns (k: nat)
    requires RepairCells(cells).Err?
    ensures k < |Survivors(cells)| && RepairCell(Survivors(cells)[k]).Err?
    decreases |cells|
  {
    var n := |cells| - 1;
    var init := cells[..n];
    var last := Unwrap(cells[n]);
    assert Survivors(cells) == Survivors(init) + (if last.Some? then [last.value] else []);
    if RepairCells(init).Err? {
      k := FailingSurvivor(init);
      assert Survivors(cells)[k] == Survivors(init)[k];
    } else {
      k := |Survivors(init)|;
      assert Survivors(cells)[k] == last.value;
    }
  }

  /** The repaired cells are exactly the surviving cells, each normalised, in
      their original order; the loop fails exactly when one of them cannot
      be normalised. */
  lemma RepairCellsInOrder(cells: seq<Json>)
    ensures RepairCells(cells).Ok? <==>
              forall k :: 0 <= k < |Survivors(cells)| ==> RepairCell(Survivors(cells)[k]).Ok?
    ensures RepairCells(cells).Ok? ==>
              |RepairCells(cells).value| == |Survivors(cells)| &&
              forall k :: 0 <= k < |Survivors(cells)| ==>
                RepairCells(cells).value[k] == JObj(RepairCell(Survivors(cells)[k]).value)
  {
    var survivors := Survivors(cells);
    if RepairCells(cells).Ok? {
      RepairCellsLength(cells);
      forall k | 0 <= k < |survivors|
        ensures RepairCell(survivors[k]).Ok? && RepairCells(cells).value[k] == JObj(RepairCell(survivors[k]).value)
      {
        RepairCellsAt(cells, k);
      }
    } else {
      var k := FailingSurvivor(cells);
    }
  }

  /** A list of well-formed cell dicts goes through the loop unchanged. */
  lemma {:induction false} RepairCellsFixed(cells: seq<Json>)
    requires forall k :: 0 <= k < |cells| ==> cells[k].JObj? && WellFormedCell(cells[k].fields)
    ensures RepairCells(cells) == Ok(cells)
    decreases |cells|
  {
    if cells != [] {
      var init := cells[..|cells| - 1];
      var last := cells[|cells| - 1];
      assert forall k :: 0 <= k < |init| ==> init[k] == cells[k];
      RepairCellsFixed(init);
      RepairCellFixed(last.fields);
      RepairCellsStep(cells, init, last.fields, last.fields);
      assert JObj(last.fields) == last;
      InitLast(cells);
    }
  }

  lemma InitLast(cells: seq<Json>)
    requires cells != []
    ensures cells[..|cells| - 1] + [cells[|cells| - 1]] == cells
  {
  }

  /** One more surviving cell that normalises appends its normal form. */
  lemma RepairCellsStep(cells: seq<Json>, done: seq<Json>, fields: seq<Field>, cell: seq<Field>)
    requires cells != [] && RepairCells(cells[..|cells| - 1]) == Ok(done)
    requires Unwrap(cells[|cells| - 1]) == Some(fields) && RepairCell(fields) == Ok(cell)
    ensures RepairCells(cells) == Ok(done + [JObj(cell)])
  {
  }

  /** A repaired payload is a dict whose `cells` is a list of well-formed cell
      dicts, and whose other keys hold what the top level held after lines
      118-125. */
  lemma RepairedShape(payload: Json)
    requires Repaired(payload).Ok?
    ensures Repaired(payload).value.JObj?
    ensures var out := Repaired(payload).value.fields;
            Lookup(out, "cells").Some? && Lookup(out, "cells").value.JList? &&
            forall k :: 0 <= k < |Lookup(out, "cells").value.items| ==>
              Lookup(out, "cells").value.items[k].JObj? &&
              WellFormedCell(Lookup(out, "cells").value.items[k].fields)
    ensures forall key :: key != "cells" ==>
              Lookup(Repaired(payload).value.fields, key) == Lookup(TopLevel(payload), key)
  {
    var top := TopLevel(payload);
    var cells := Iterate(Get(top, "cells", JList([]))).value;
    var repaired := RepairCells(cells).value;
    var out := Set(top, "cells", JList(repaired));
    RepairedIs(payload, top, cells, repaired);
    LookupSetSame(top, "cells", JList(repaired));
    CellsWellFormed(cells, repaired);
    forall key | key != "cells" ensures Lookup(out, key) == Lookup(top, key) {
      LookupSetOther(top, "cells", JList(repaired), key);
    }
  }

  lemma RepairedIs(payload: Json, top: seq<Field>, cells: seq<Json>, repaired: seq<Json>)
    requires top == TopLevel(payload) && Iterate(Get(top, "cells", JList([]))) == Ok(cells)
    requires RepairCells(cells) == Ok(repaired)
    ensures Repaired(payload) == Ok(JObj(Set(top, "cells", JList(repaired))))
  {
  }

  /** Every cell the loop produces is a well-formed cell dict. */
  lemma CellsWellFormed(cells: seq<Json>, repaired: seq<Json>)
    requires RepairCells(cells) == Ok(repaired)
    ensures forall k :: 0 <= k < |repaired| ==> repaired[k].JObj? && WellFormedCell(repaired[k].fields)
  {
    RepairCellsLength(cells);
    forall k | 0 <= k < |repaired|
      ensures repaired[k].JObj? && WellFormedCell(repaired[k].fields)
    {
      RepairCellsAt(cells, k);
      RepairCellWellFormed(Survivors(cells)[k]);
    }
  }

  /** The top level of a repaired payload needs no filling in. */
  lemma TopLevelOfRepaired(payload: Json)
    requires Repaired(payload).Ok?
    ensures Repaired(payload).value.JObj?
    ensures TopLevel(Repaired(payload).value) == Repaired(payload).value.fields
  {
    var top := TopLevel(payload);
    var cells := Iterate(Get(top, "cells", JList([]))).value;
    var repaired := RepairCells(cells).value;
    var out := Set(top, "cells", JList(repaired));
    RepairedIs(payload, top, cells, repaired);
    KeysSet(top, "cells", JList(repaired));
    TopLevelHasKeys(payload);
    TopLevelOfFilled(out);
  }

  /** The filled-in top level has all four top-level keys. */
  lemma TopLevelHasKeys(payload: Json)
    ensures var ks := Keys(TopLevel(payload));
            "cells" in ks && "metadata" in ks && "nbformat" in ks && "nbformat_minor" in ks
  {
    TopLevelLookup(payload, "cells");
    TopLevelLookup(payload, "metadata");
    TopLevelLookup(payload, "nbformat");
    TopLevelLookup(payload, "nbformat_minor");
  }

  /** A dict that has all four top-level keys is left as it is. */
  lemma TopLevelOfFilled(fields: seq<Field>)
    requires "cells" in Keys(fields) && "metadata" in Keys(fields)
    requires "nbformat" in Keys(fields) && "nbformat_minor" in Keys(fields)
    ensures TopLevel(JObj(fields)) == fields
  {
  }

  /** Repairing a repaired payload changes nothing. */
  lemma RepairIdempotent(payload: Json)
    requires Repaired(payload).Ok?
    ensures Repaired(Repaired(payload).value) == Repaired(payload)
  {
    var out := Repaired(payload).value;
    RepairedShape(payload);
    TopLevelOfRepaired(payload);
    var fields := out.fields;
    var repaired := Lookup(fields, "cells").value;
    assert Iterate(Get(TopLevel(out), "cells", JList([]))) == Ok(repaired.items);
    RepairCellsFixed(repaired.items);
    SetSame(fields, "cells");
  }
}
