/**
 `to_json`, the hand-written pretty-printer of `src/utils.py`. A dict opens
 a block whose entries are indented three spaces per level; a list whose
 first element is a list is laid out the same way, any other list and every
 tuple inline. Strings are quoted without escaping, `True` prints as `true`,
 ints in decimal, `None` as `null`. An empty list raises `StopIteration`
 (the first element is taken before the layout is chosen) and an object of
 any other type raises `TypeError`; the first failure in printing order is
 the one raised.
 */
module ToJson {
  import opened Python

  const Indent: nat := 3

  /** `SPACE * n`. */
  function Spaces(n: nat): (r: string)
    ensures |r| == n
    ensures forall k :: 0 <= k < n ==> r[k] == ' '
  {
    seq(n, k => ' ')
  }

  /** The indentation of a line at nesting `level`. */
  function Pad(level: nat): string {
    Spaces(Indent * level)
  }

  /** `to_json(o, level)`. */
  function Render(v: Value, level: nat): (r: Result<string, Exc>)
    ensures r.Failure? ==> r.error == TypeError || r.error == StopIteration
    ensures r.Success? ==> |r.value| > 0 && r.value[0] != '\n'
    decreases v
  {
    match v
    case VDict(fields) =>
      var entries :- RenderFields(fields, level + 1);
      Success("{\n" + Join(",\n", entries) + "\n" + Pad(level) + "}")
    case VStr(s) =>
      Success("\"" + s + "\"")
    case VList(items) =>
      if |items| == 0 then Failure(StopIteration)
      else if items[0].VList? then
        var lines :- RenderItems(items, level + 1, true);
        Success("[\n" + Join(",\n", lines) + "\n" + Pad(level) + "]")
      else
        var vals :- RenderItems(items, level + 1, false);
        Success("[" + Join(",", vals) + "]")
    case VBool(b) =>
      Success(if b then "true" else "false")
    case VInt(i) =>
      Success(IntToString(i))
    case VNone =>
      Success("null")
    case VTuple(elems) =>
      var vals :- RenderItems(elems, level + 1, false);
      Success("[" + Join(",", vals) + "]")
    case VOther(_) =>
      Failure(TypeError)
  }

  /** The items of a list or tuple printed at `level`, each on its own
      indented line when `padded`; the first failure stops the printing. */
  function RenderItems(vs: seq<Value>, level: nat, padded: bool): (r: Result<seq<string>, Exc>)
    ensures r.Failure? ==> r.error == TypeError || r.error == StopIteration
    ensures r.Success? ==> |r.value| == |vs|
    decreases vs
  {
    if |vs| == 0 then Success([])
    else
      var first :- Render(vs[0], level);
      var rest :- RenderItems(vs[1..], level, padded);
      Success([if padded then Pad(level) + first else first] + rest)
  }

  /** The items of a dict printed as `"key": value` lines at `level`. */
  function RenderFields(fields: seq<Field>, level: nat): (r: Result<seq<string>, Exc>)
    ensures r.Failure? ==> r.error == TypeError || r.error == StopIteration
    ensures r.Success? ==> |r.value| == |fields|
    decreases fields
  {
    if |fields| == 0 then Success([])
    else
      var first :- Render(fields[0].val, level);
      var rest :- RenderFields(fields[1..], level);
      Success([Pad(level) + "\"" + fields[0].key + "\": " + first] + rest)
  }

  /** The objects `to_json` can print: no object of an unsupported type and
      no empty list anywhere inside. */
  predicate Printable(v: Value)
    decreases v
  {
    match v
    case VDict(fields) => forall k :: 0 <= k < |fields| ==> Printable(fields[k].val)
    case VList(items) => |items| > 0 && forall k :: 0 <= k < |items| ==> Printable(items[k])
    case VTuple(elems) => forall k :: 0 <= k < |elems| ==> Printable(elems[k])
    case VOther(_) => false
    case _ => true
  }

  /** `to_json` raises exactly for the objects that are not printable, at
      every level. */
  lemma {:induction false} RenderSucceedsIffPrintable(v: Value, level: nat)
    ensures Render(v, level).Success? <==> Printable(v)
    decreases v
  {
    match v
    case VDict(fields) =>
      FieldsSucceedIffPrintable(fields, level + 1);
    case VList(items) =>
      if |items| > 0 {
        ItemsSucceedIffPrintable(items, level + 1, items[0].VList?);
      }
    case VTuple(elems) =>
      ItemsSucceedIffPrintable(elems, level + 1, false);
    case _ =>
  }

  lemma {:induction false} ItemsSucceedIffPrintable(vs: seq<Value>, level: nat, padded: bool)
    ensures RenderItems(vs, level, padded).Success? <==> forall k :: 0 <= k < |vs| ==> Printable(vs[k])
    decreases vs
  {
    if |vs| > 0 {
      RenderSucceedsIffPrintable(vs[0], level);
      ItemsSucceedIffPrintable(vs[1..], level, padded);
      assert forall k :: 1 <= k < |vs| ==> vs[k] == vs[1..][k - 1];
    }
  }

  lemma {:induction false} FieldsSucceedIffPrintable(fields: seq<Field>, level: nat)
    ensures RenderFields(fields, level).Success? <==> forall k :: 0 <= k < |fields| ==> Printable(fields[k].val)
    decreases fields
  {
    if |fields| > 0 {
      RenderSucceedsIffPrintable(fields[0].val, level);
      FieldsSucceedIffPrintable(fields[1..], level);
      assert forall k :: 1 <= k < |fields| ==> fields[k] == fields[1..][k - 1];
    }
  }

  /** Element `k` of a printed list or tuple is the printed element `k`. */
  lemma {:induction false} RenderItemsElementwise(vs: seq<Value>, level: nat, padded: bool)
    requires RenderItems(vs, level, padded).Success?
    ensures forall k :: 0 <= k < |vs| ==>
      && Render(vs[k], level).Success?
      && RenderItems(vs, level, padded).value[k]
         == (if padded then Pad(level) else "") + Render(vs[k], level).value
    decreases vs
  {
    if |vs| > 0 {
      RenderItemsElementwise(vs[1..], level, padded);
      assert forall k :: 1 <= k < |vs| ==> vs[k] == vs[1..][k - 1];
    }
  }

  /** Entry `k` of a printed dict is `"key": value` for item `k`. */
  lemma {:induction false} RenderFieldsElementwise(fields: seq<Field>, level: nat)
    requires RenderFields(fields, level).Success?
    ensures forall k :: 0 <= k < |fields| ==>
      && Render(fields[k].val, level).Success?
      && RenderFields(fields, level).value[k]
         == Pad(level) + "\"" + fields[k].key + "\": " + Render(fields[k].val, level).value
    decreases fields
  {
    if |fields| > 0 {
      RenderFieldsElementwise(fields[1..], level);
      assert forall k :: 1 <= k < |fields| ==> fields[k] == fields[1..][k - 1];
    }
  }

  /** Scalars: a string is quoted as it is, with no escaping; a bool prints
      as `true`/`false`, never as the int it also is in Python; `None` prints
      as `null`; an object of an unsupported type raises `TypeError`. */
  lemma RenderScalars(s: string, name: string, level: nat)
    ensures Render(VStr(s), level) == Success("\"" + s + "\"")
    ensures Render(VBool(true), level) == Success("true")
    ensures Render(VBool(false), level) == Success("false")
    ensures Render(VNone, level) == Success("null")
    ensures Render(VOther(name), level) == Failure(TypeError)
  {
  }

  /** An int prints as the decimal text that reads back as that int. */
  lemma RenderIntReadsBack(i: int, level: nat)
    ensures Render(VInt(i), level).Success?
    ensures ParseInt(Render(VInt(i), level).value) == Some(i)
  {
    IntToStringRoundTrip(i);
  }

  /** The first character of a join is the first character of its first part. */
  lemma JoinStartsWithFirst(sep: string, parts: seq<string>)
    requires |parts| > 0 && |parts[0]| > 0
    ensures |Join(sep, parts)| > 0 && Join(sep, parts)[0] == parts[0][0]
  {
  }

  /** A list's layout is decided by its first element alone: the output opens
      with `[` and a newline exactly when that element is itself a list. */
  lemma ListLayoutFollowsFirstItem(items: seq<Value>, level: nat)
    requires Render(VList(items), level).Success?
    ensures |items| > 0
    ensures var out := Render(VList(items), level).value;
      |out| >= 2 && out[0] == '[' && (out[1] == '\n' <==> items[0].VList?)
  {
    if !items[0].VList? {
      var vals := RenderItems(items, level + 1, false).value;
      RenderItemsElementwise(items, level + 1, false);
      JoinStartsWithFirst(",", vals);
      assert Render(VList(items), level).value == "[" + Join(",", vals) + "]";
    }
  }

  /** Tuples are always inline; the empty one prints as `[]`, whereas the
      empty list raises `StopIteration`. */
  lemma EmptySequences(level: nat)
    ensures Render(VTuple([]), level) == Success("[]")
    ensures Render(VList([]), level) == Failure(StopIteration)
  {
    assert RenderItems([], level + 1, false) == Success([]);
    assert Join(",", []) == "";
    assert "[" + "" + "]" == "[]";
  }

  /** A dict is a block: `{` and a newline, then one `"key": value` entry per
      item, indented three spaces per level below the dict and separated by
      `,` and a newline, then a newline and `}` indented for the dict's own
      level. With no items, `{`, an empty line and `}` remain. */
  lemma DictLayout(fields: seq<Field>, level: nat)
    requires Render(VDict(fields), level).Success?
    ensures exists entries: seq<string> ::
      && |entries| == |fields|
      && (forall k :: 0 <= k < |fields| ==>
            Render(fields[k].val, level + 1).Success? &&
            entries[k] == Spaces(3 * (level + 1)) + "\"" + fields[k].key + "\": " + Render(fields[k].val, level + 1).value)
      && Render(VDict(fields), level).value == "{\n" + Join(",\n", entries) + "\n" + Spaces(3 * level) + "}"
    ensures fields == [] ==> Render(VDict(fields), level) == Success("{\n\n" + Spaces(3 * level) + "}")
  {
    var entries := RenderFields(fields, level + 1).value;
    RenderFieldsElementwise(fields, level + 1);
    assert Render(VDict(fields), level).value == "{\n" + Join(",\n", entries) + "\n" + Pad(level) + "}";
    if fields == [] {
      assert RenderFields(fields, level + 1) == Success([]);
      assert Join(",\n", entries) == "";
      assert "{\n" + "" + "\n" + Pad(level) + "}" == "{\n\n" + Pad(level) + "}";
    }
  }
}
