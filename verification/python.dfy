/**
 The slice of Python the three dataset-build scripts rely on, as pure values:
 - Option/Result, the failure-compatible wrappers every other module uses;
 - the exception classes the scripts raise or catch, with their subclass
   relation, and the dispatch of an exception to the first matching `except`
   clause of a `try` statement;
 - `Value`, the Python objects that flow through the pipeline (JSON payloads,
   records, arguments of `to_json`), with `dict` subscripting, item
   assignment and truthiness;
 - `str.join`, `str.split` with an explicit separator and `str(int)`.
 */
module Python {

  datatype Option<+T> = None | Some(value: T)

  datatype Result<+T, +E> = Success(value: T) | Failure(error: E) {
    predicate IsFailure() {
      Failure?
    }

    function PropagateFailure<U>(): Result<U, E>
      requires Failure?
    {
      Failure(error)
    }

    function Extract(): T
      requires Success?
    {
      value
    }
  }

  /* ---------------------------------------------------------------------- */
  /* Exceptions                                                              */
  /* ---------------------------------------------------------------------- */

  /** The exception classes that occur in the scripts. `OtherException` stands
      for any class the scripts neither raise nor catch by name (it is an
      instance of no class but itself). */
  datatype Exc =
    | RequestException      // requests.RequestException: transport faults, timeouts
    | ValueError
    | PremiumSiteError      // declared in the parser as a subclass of ValueError
    | JSONDecodeError       // json.JSONDecodeError, a subclass of ValueError
    | IndexError
    | KeyError
    | AttributeError
    | TypeError
    | StopIteration
    | Pycld2Error           // pycld2.error, a direct subclass of Exception
    | OtherException(name: string)

  /** `isinstance(e, cls)` over the classes above. */
  predicate IsInstance(e: Exc, cls: Exc) {
    e == cls || (cls == ValueError && (e == PremiumSiteError || e == JSONDecodeError))
  }

  /** The `except` clause of a `try` statement that handles `e`: Python tries
      the clauses top to bottom and takes the first whose class `e` is an
      instance of; `None` means the exception escapes the statement. */
  function HandlingClause(clauses: seq<Exc>, e: Exc): (k: Option<nat>)
    ensures k.Some? ==> k.value < |clauses| && IsInstance(e, clauses[k.value])
  {
    if |clauses| == 0 then None
    else if IsInstance(e, clauses[0]) then Some(0)
    else match HandlingClause(clauses[1..], e)
      case None => None
      case Some(k) => Some(k + 1)
  }

  /** No earlier clause handles `e`, and `e` escapes exactly when no clause
      handles it. */
  lemma {:induction false} HandlingClauseSpec(clauses: seq<Exc>, e: Exc)
    ensures var k := HandlingClause(clauses, e);
      && (k.Some? ==> forall j :: 0 <= j < k.value ==> !IsInstance(e, clauses[j]))
      && (k.None? <==> forall j :: 0 <= j < |clauses| ==> !IsInstance(e, clauses[j]))
  {
    if |clauses| > 0 && !IsInstance(e, clauses[0]) {
      HandlingClauseSpec(clauses[1..], e);
      forall j | 1 <= j < |clauses|
        ensures clauses[j] == clauses[1..][j - 1]
      {
      }
    }
  }

  /** The clause that handles `e` is the first one it is an instance of:
      the result `HandlingClause` promises is the only one that fits. */
  lemma FirstHandlingClause(clauses: seq<Exc>, e: Exc, k: nat)
    requires k < |clauses| && IsInstance(e, clauses[k])
    requires forall j :: 0 <= j < k ==> !IsInstance(e, clauses[j])
    ensures HandlingClause(clauses, e) == Some(k)
  {
    HandlingClauseSpec(clauses, e);
  }

  /* ---------------------------------------------------------------------- */
  /* Values                                                                  */
  /* ---------------------------------------------------------------------- */

  /** Python objects. A `dict` is its sequence of items in insertion order;
      `VOther` is an object of any other type (a set, a custom class). Floats
      and numpy arrays are not part of this model. */
  datatype Value =
    | VNone
    | VBool(b: bool)
    | VInt(i: int)
    | VStr(s: string)
    | VList(items: seq<Value>)
    | VTuple(elems: seq<Value>)
    | VDict(fields: seq<Field>)
    | VOther(typeName: string)

  datatype Field = Field(key: string, val: Value)

  function Keys(fields: seq<Field>): (ks: seq<string>)
    ensures |ks| == |fields|
    ensures forall i :: 0 <= i < |fields| ==> ks[i] == fields[i].key
  {
    seq(|fields|, i requires 0 <= i < |fields| => fields[i].key)
  }

  /** Position of the item with key `k` (Python dicts hold each key once). */
  function FindKey(fields: seq<Field>, k: string): (i: Option<nat>)
    ensures i.Some? ==> i.value < |fields| && fields[i.value].key == k
  {
    if |fields| == 0 then None
    else if fields[0].key == k then Some(0)
    else match FindKey(fields[1..], k)
      case None => None
      case Some(j) => Some(j + 1)
  }

  /** `v[k]` for a string key: a dict yields the item or raises `KeyError`;
      subscripting any other object with a string raises `TypeError`. */
  function Subscript(v: Value, k: string): (r: Result<Value, Exc>)
    ensures r.Success? <==> v.VDict? && k in Keys(v.fields)
    ensures r.Success? ==> Field(k, r.value) in v.fields
    ensures r.Failure? ==> r.error == (if v.VDict? then KeyError else TypeError)
  {
    match v
    case VDict(fields) =>
      FindKeyMissing(fields, k);
      (match FindKey(fields, k)
       case Some(i) => Success(fields[i].val)
       case None => Failure(KeyError))
    case _ => Failure(TypeError)
  }

  /** `d[k] = x` on a dict: an existing key keeps its position and gets the
      new value, a new key is appended. */
  function SetItem(fields: seq<Field>, k: string, x: Value): (r: seq<Field>)
    ensures k in Keys(fields) ==> Keys(r) == Keys(fields)
    ensures k !in Keys(fields) ==> Keys(r) == Keys(fields) + [k]
    ensures Field(k, x) in r
    ensures forall i :: 0 <= i < |fields| && fields[i].key != k ==> r[i] == fields[i]
  {
    FindKeyMissing(fields, k);
    match FindKey(fields, k)
    case Some(i) => fields[i := Field(k, x)]
    case None => fields + [Field(k, x)]
  }

  /** The search finds nothing exactly when the key is absent. */
  lemma {:induction false} FindKeyMissing(fields: seq<Field>, k: string)
    ensures FindKey(fields, k).None? <==> k !in Keys(fields)
  {
    if |fields| > 0 && fields[0].key != k {
      FindKeyMissing(fields[1..], k);
      assert Keys(fields) == [fields[0].key] + Keys(fields[1..]);
    }
  }

  /** The position `FindKey` gives is the first one holding the key. */
  lemma {:induction false} FindKeyIsFirst(fields: seq<Field>, k: string, i: nat)
    ensures FindKey(fields, k) == Some(i) <==>
      i < |fields| && fields[i].key == k && forall j :: 0 <= j < i ==> fields[j].key != k
  {
    if |fields| > 0 && fields[0].key != k && i > 0 {
      var tail := fields[1..];
      FindKeyIsFirst(tail, k, i - 1);
      if i < |fields| && fields[i].key == k && forall j :: 0 <= j < i ==> fields[j].key != k {
        assert tail[i - 1] == fields[i];
        forall j | 0 <= j < i - 1
          ensures tail[j].key != k
        {
          assert tail[j] == fields[j + 1];
        }
      }
      if FindKey(fields, k) == Some(i) {
        forall j | 0 <= j < i
          ensures fields[j].key != k
        {
          if j > 0 {
            assert tail[j - 1] == fields[j];
          }
        }
      }
    }
  }

  /** Reading a dict after `d[k] = x`: the key assigned gives `x`, every
      other key gives what it gave before (its value, or `KeyError`). */
  lemma SubscriptSetItem(fields: seq<Field>, k: string, x: Value, k': string)
    ensures Subscript(VDict(SetItem(fields, k, x)), k')
         == if k' == k then Success(x) else Subscript(VDict(fields), k')
  {
    var r := SetItem(fields, k, x);
    match FindKey(fields, k)
    case Some(i) =>
      FindKeyIsFirst(fields, k, i);
      if k' == k {
        FindKeyIsFirst(r, k, i);
      } else if FindKey(fields, k').Some? {
        var i' := FindKey(fields, k').value;
        FindKeyIsFirst(fields, k', i');
        FindKeyIsFirst(r, k', i');
      }
    case None =>
      if k' == k {
        FindKeyIsFirst(r, k, |fields|);
      } else if FindKey(fields, k').Some? {
        var i' := FindKey(fields, k').value;
        FindKeyIsFirst(fields, k', i');
        FindKeyIsFirst(r, k', i');
      }
  }

  /** Python truthiness of the objects above. */
  predicate Truthy(v: Value) {
    match v
    case VNone => false
    case VBool(b) => b
    case VInt(i) => i != 0
    case VStr(s) => s != ""
    case VList(items) => items != []
    case VTuple(elems) => elems != []
    case VDict(fields) => fields != []
    case VOther(_) => true
  }

  /* ---------------------------------------------------------------------- */
  /* str.join and str.split                                                  */
  /* ---------------------------------------------------------------------- */

  /** `sep.join(parts)`. */
  function Join(sep: string, parts: seq<string>): (r: string)
    ensures |parts| == 0 ==> r == ""
    ensures |parts| > 0 ==> |r| == Sum(parts) + (|parts| - 1) * |sep|
  {
    if |parts| == 0 then ""
    else if |parts| == 1 then parts[0]
    else parts[0] + sep + Join(sep, parts[1..])
  }

  /** Total length of the parts. */
  function Sum(parts: seq<string>): nat {
    if |parts| == 0 then 0 else |parts[0]| + Sum(parts[1..])
  }

  /** Index of the first occurrence of `c`. */
  function IndexOf(s: string, c: char): (i: nat)
    requires c in s
    ensures i < |s| && s[i] == c
    ensures forall j :: 0 <= j < i ==> s[j] != c
  {
    if s[0] == c then 0 else 1 + IndexOf(s[1..], c)
  }

  /** `s.split(sep)` with an explicit one-character separator: every
      occurrence separates two pieces, empty pieces are kept, so the result
      is never empty (`"".split(" ") == [""]`). */
  function Split(s: string, sep: char): (pieces: seq<string>)
    ensures |pieces| >= 1
    ensures forall i :: 0 <= i < |pieces| ==> sep !in pieces[i]
    decreases |s|
  {
    if sep in s then
      var i := IndexOf(s, sep);
      [s[..i]] + Split(s[i + 1..], sep)
    else
      [s]
  }

  /** Joining the pieces with the separator gives back the string. */
  lemma {:induction false} JoinSplit(s: string, sep: char)
    ensures Join([sep], Split(s, sep)) == s
    decreases |s|
  {
    if sep in s {
      var i := IndexOf(s, sep);
      var a, b := s[..i], s[i + 1..];
      assert s == a + [sep] + b;
      JoinSplit(b, sep);
      var rest := Split(b, sep);
      assert Join([sep], [a] + rest) == a + [sep] + Join([sep], rest) by {
        assert ([a] + rest)[1..] == rest;
      }
    }
  }

  /** Splitting a join of separator-free pieces gives back the pieces; there
      must be at least one piece, since `Join` of none is `""`, which splits
      into one empty piece. */
  lemma {:induction false} SplitJoin(parts: seq<string>, sep: char)
    requires |parts| >= 1
    requires forall i :: 0 <= i < |parts| ==> sep !in parts[i]
    ensures Split(Join([sep], parts), sep) == parts
  {
    if |parts| == 1 {
      assert Join([sep], parts) == parts[0];
    } else {
      assert Join([sep], parts) == parts[0] + [sep] + Join([sep], parts[1..]);
      SplitAtFirst(parts[0], sep, Join([sep], parts[1..]));
      SplitJoin(parts[1..], sep);
      assert parts == [parts[0]] + parts[1..];
    }
  }

  /** The first separator ends the first piece. */
  lemma SplitAtFirst(a: string, sep: char, b: string)
    requires sep !in a
    ensures Split(a + [sep] + b, sep) == [a] + Split(b, sep)
  {
    var s := a + [sep] + b;
    assert s[|a|] == sep;
    var i := IndexOf(s, sep);
    assert i == |a| by {
      assert forall k :: 0 <= k < |a| ==> s[k] == a[k];
    }
    assert s[..i] == a;
    assert s[i + 1..] == b;
  }

  /* ---------------------------------------------------------------------- */
  /* str(int)                                                                */
  /* ---------------------------------------------------------------------- */

  const Digits := "0123456789"

  predicate IsDecimalDigit(c: char) {
    '0' <= c <= '9'
  }

  function NatToString(n: nat): (s: string)
    ensures |s| >= 1
    ensures forall i :: 0 <= i < |s| ==> IsDecimalDigit(s[i])
    decreases n
  {
    if n < 10 then [Digits[n]] else NatToString(n / 10) + [Digits[n % 10]]
  }

  /** `str(i)`: decimal digits, with a leading `-` for negative numbers. */
  function IntToString(i: int): (s: string)
    ensures |s| >= 1
    ensures s[0] == '-' <==> i < 0
  {
    if i < 0 then "-" + NatToString(-i) else NatToString(i)
  }

  /** Reads back a string of decimal digits, most significant first. */
  function DigitsValue(s: string): nat
    requires forall i :: 0 <= i < |s| ==> IsDecimalDigit(s[i])
  {
    if |s| == 0 then 0
    else
      var last := s[|s| - 1];
      assert IsDecimalDigit(last);
      DigitsValue(s[..|s| - 1]) * 10 + (last as int - '0' as int)
  }

  /** `int(s)` for the strings `str` produces. */
  function ParseInt(s: string): Option<int> {
    if |s| >= 2 && s[0] == '-' && forall i :: 1 <= i < |s| ==> IsDecimalDigit(s[i]) then
      var magnitude: int := DigitsValue(s[1..]);
      Some(-magnitude)
    else if |s| >= 1 && forall i :: 0 <= i < |s| ==> IsDecimalDigit(s[i]) then
      Some(DigitsValue(s))
    else
      None
  }

  lemma {:induction false} DigitsValueNatToString(n: nat)
    ensures DigitsValue(NatToString(n)) == n
    decreases n
  {
    var s := NatToString(n);
    if n >= 10 {
      DigitsValueNatToString(n / 10);
      assert s[..|s| - 1] == NatToString(n / 10);
    }
  }

  /** `int(str(i)) == i`. */
  lemma IntToStringRoundTrip(i: int)
    ensures ParseInt(IntToString(i)) == Some(i)
  {
    if i < 0 {
      var n: nat := -i;
      NegativeReadsBack(n);
      assert IntToString(i) == "-" + NatToString(n);
    } else {
      NatReadsBack(i);
      assert IntToString(i) == NatToString(i);
    }
  }

  lemma NatReadsBack(n: nat)
    ensures ParseInt(NatToString(n)) == Some(n)
  {
    var s := NatToString(n);
    DigitsValueNatToString(n);
    assert IsDecimalDigit(s[0]);
  }

  lemma NegativeReadsBack(n: nat)
    requires n > 0
    ensures ParseInt("-" + NatToString(n)) == Some(-(n as int))
  {
    var digits := NatToString(n);
    var s := "-" + digits;
    DigitsValueNatToString(n);
    assert s[1..] == digits;
    forall k | 1 <= k < |s|
      ensures IsDecimalDigit(s[k])
    {
      assert s[k] == digits[k - 1];
    }
  }
}
