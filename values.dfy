/** Python's dynamic values as they flow through the pipeline: JSON
    responses, chunk metadata dicts, CSV cells.  A dict is an ordered list
    of (key, value) pairs, because Python dicts keep insertion order. */
module Values {
  import opened Common
  import opened Strs

  type Fields = seq<(string, Value)>

  datatype Value =
    | Null
    | Bool(b: bool)
    | Int(i: int)
    | Num(r: real)
    | NaN
    | Str(s: string)
    | List(items: seq<Value>)
    | Obj(fields: Fields)

  /** The keys of a dict, in insertion order. */
  function Keys(f: Fields): (r: seq<string>)
    ensures |r| == |f|
    ensures forall i :: 0 <= i < |f| ==> r[i] == f[i].0
  {
    if f == [] then [] else [f[0].0] + Keys(f[1..])
  }

  /** A dict never holds a key twice. */
  predicate UniqueKeys(f: Fields) {
    forall i, j :: 0 <= i < j < |f| ==> f[i].0 != f[j].0
  }

  predicate HasKey(f: Fields, k: string) { exists i :: 0 <= i < |f| && f[i].0 == k }

  /** `d.get(k)`: the value stored under `k`, if any. */
  function Get(f: Fields, k: string): (r: Option<Value>)
    ensures r.Some? <==> HasKey(f, k)
    ensures r.Some? ==> exists i :: 0 <= i < |f| && f[i] == (k, r.value)
  {
    if f == [] then None
    else if f[0].0 == k then Some(f[0].1)
    else
      var r := Get(f[1..], k);
      assert forall i :: 1 <= i < |f| ==> f[i] == f[1..][i - 1];
      assert HasKey(f[1..], k) ==> HasKey(f, k);
      r
  }

  /** `d.get(k, default)`. */
  function GetOr(f: Fields, k: string, default: Value): Value {
    match Get(f, k)
    case Some(v) => v
    case None => default
  }

  /** `d.get(k, "").strip()`; a non-string value has no `strip` and
      raises `AttributeError`. */
  function GetText(f: Fields, k: string): (r: Result<string>)
    ensures !HasKey(f, k) ==> r == Ok("")
    ensures r.Ok? ==> NoOuterSpace(r.value)
  {
    match GetOr(f, k, Str(""))
    case Str(s) => Ok(Strip(s))
    case _ => Err(AttributeError)
  }

  /** Python's `for x in v`: a list's items, a string's characters, a
      dict's keys; any other value is not iterable and raises
      `TypeError`. */
  function Iterate(v: Value): (r: Result<seq<Value>>)
    ensures r.Err? <==> !(v.List? || v.Str? || v.Obj?)
    ensures r.Err? ==> r.error == TypeError
    ensures v.List? ==> r == Ok(v.items)
    ensures v.Str? ==> (r.Ok? && |r.value| == |v.s|
                        && forall j :: 0 <= j < |v.s| ==> r.value[j] == Str([v.s[j]]))
    ensures v.Obj? ==> (r.Ok? && |r.value| == |v.fields|
                        && forall j :: 0 <= j < |v.fields| ==> r.value[j] == Str(v.fields[j].0))
  {
    match v
    case List(items) => Ok(items)
    case Str(s) => Ok(seq(|s|, j requires 0 <= j < |s| => Str([s[j]])))
    case Obj(f) => Ok(seq(|f|, j requires 0 <= j < |f| => Str(f[j].0)))
    case _ => Err(TypeError)
  }

  /** `for x in d.get(k, [])`: what the loop walks over. */
  function GetIter(f: Fields, k: string): (r: Result<seq<Value>>)
    ensures !HasKey(f, k) ==> r == Ok([])
    ensures Get(f, k).Some? ==> r == Iterate(Get(f, k).value)
  {
    Iterate(GetOr(f, k, List([])))
  }

  /** `d[k] = v`: an existing key keeps its position, a new key goes last. */
  function Put(f: Fields, k: string, v: Value): (r: Fields)
    ensures HasKey(f, k) ==> |r| == |f|
    ensures !HasKey(f, k) ==> r == f + [(k, v)]
    ensures forall i :: 0 <= i < |f| ==> r[i].0 == f[i].0
  {
    if f == [] then [(k, v)]
    else if f[0].0 == k then [(k, v)] + f[1..]
    else
      assert HasKey(f[1..], k) ==> HasKey(f, k);
      assert !HasKey(f, k) ==> !HasKey(f[1..], k);
      [f[0]] + Put(f[1..], k, v)
  }

  /** After `d[k] = v` the key reads back as `v` and every other key is
      untouched. */
  lemma {:induction false} PutGet(f: Fields, k: string, v: Value, k2: string)
    ensures Get(Put(f, k, v), k) == Some(v)
    ensures k2 != k ==> Get(Put(f, k, v), k2) == Get(f, k2)
  {
    if f != [] {
      GetCons(f[0], f[1..], k2);
      assert [f[0]] + f[1..] == f;
      if f[0].0 != k {
        PutGet(f[1..], k, v, k2);
        GetCons(f[0], Put(f[1..], k, v), k);
        GetCons(f[0], Put(f[1..], k, v), k2);
      } else {
        GetCons((k, v), f[1..], k2);
      }
    }
  }

  /** Looking a key up in a list with one more entry in front. */
  lemma GetCons(x: (string, Value), t: Fields, k: string)
    ensures Get([x] + t, k) == if x.0 == k then Some(x.1) else Get(t, k)
  {
    assert ([x] + t)[1..] == t;
  }

  /** `d[k] = v` as seen through `get`. */
  function SetField(f: Fields, k: string, v: Value): (r: Fields)
    ensures Get(r, k) == Some(v)
    ensures forall k2 :: k2 != k ==> Get(r, k2) == Get(f, k2)
    ensures HasKey(f, k) ==> |r| == |f|
    ensures !HasKey(f, k) ==> r == f + [(k, v)]
    ensures forall i :: 0 <= i < |f| ==> r[i].0 == f[i].0
  {
    PutGet(f, k, v, k);
    forall k2 | k2 != k ensures Get(Put(f, k, v), k2) == Get(f, k2) {
      PutGet(f, k, v, k2);
    }
    Put(f, k, v)
  }

  /** `d[k] = v` keeps keys unique. */
  lemma {:induction false} PutUnique(f: Fields, k: string, v: Value)
    requires UniqueKeys(f)
    ensures UniqueKeys(Put(f, k, v))
  {
    if f != [] && f[0].0 != k {
      PutUnique(f[1..], k, v);
      var r := Put(f, k, v);
      var t := Put(f[1..], k, v);
      assert r == [f[0]] + t;
      forall j | 0 < j < |r| ensures r[0].0 != r[j].0 {
        if j - 1 < |f[1..]| {
          assert t[j - 1].0 == f[j].0;
        } else {
          assert !HasKey(f[1..], k);
          assert t == f[1..] + [(k, v)];
          assert t[j - 1] == (k, v);
        }
      }
    }
  }

  /** `v[k]` with a string key: a dict lookup that raises `KeyError`;
      any other value raises `TypeError`. */
  function Member(v: Value, k: string): (r: Result<Value>)
    ensures r.Ok? <==> v.Obj? && HasKey(v.fields, k)
    ensures r.Ok? ==> Get(v.fields, k) == Some(r.value)
  {
    match v
    case Obj(f) => (match Get(f, k) case Some(x) => Ok(x) case None => Err(KeyError(k)))
    case _ => Err(TypeError)
  }

  /** `v[i]` with an integer index: lists and strings are indexed (negative
      indexes count from the end), a dict looks the integer up as a key and
      anything else raises `TypeError`. */
  function Element(v: Value, i: int): (r: Result<Value>)
    ensures v.List? && 0 <= i < |v.items| ==> r == Ok(v.items[i])
  {
    match v
    case List(items) =>
      (match PyIndex(i, |items|) case Some(j) => Ok(items[j]) case None => Err(IndexError))
    case Str(s) =>
      (match PyIndex(i, |s|) case Some(j) => Ok(Str([s[j]])) case None => Err(IndexError))
    case Obj(_) => Err(KeyError(IntToStr(i)))
    case _ => Err(TypeError)
  }

  /** Python truthiness (`bool(v)`). */
  predicate Truthy(v: Value) {
    match v
    case Null => false
    case Bool(b) => b
    case Int(i) => i != 0
    case Num(r) => r != 0.0
    case NaN => true
    case Str(s) => s != []
    case List(items) => items != []
    case Obj(fields) => fields != []
  }

  /** `str(v)` (an f-string interpolation) for the scalar values that occur
      in CSV cells and keys. */
  function PyStr(v: Value): string {
    match v
    case Null => "None"
    case Bool(b) => if b then "True" else "False"
    case Int(i) => IntToStr(i)
    case Num(r) => FloatStr(r)
    case NaN => "nan"
    case Str(s) => s
    case List(_) => "[...]"
    case Obj(_) => "{...}"
  }

  /** `str(x)` for a float: integral values print with a trailing `.0`;
      other values print their integral part followed by `.~`, since the
      shortest round-tripping decimal digits of a binary float are not
      modelled. */
  function FloatStr(r: real): (s: string)
    ensures r == r.Floor as real ==> s == IntToStr(r.Floor) + ".0"
  {
    if r == r.Floor as real then IntToStr(r.Floor) + ".0"
    else IntToStr(r.Floor) + ".~"
  }

  // ------------------------------------------------------------------
  // pandas tables
  // ------------------------------------------------------------------

  /** One CSV row: column name to cell. */
  type Row = map<string, Value>

  /** A DataFrame read from a CSV file: its column list and its rows. */
  datatype Table = Table(columns: seq<string>, rows: seq<Row>)

  /** `row[col]`, which raises `KeyError` for an absent column. */
  function Cell(row: Row, col: string): (r: Result<Value>)
    ensures r.Ok? <==> col in row
    ensures r.Ok? ==> r.value == row[col]
    ensures r.Err? ==> r.error == KeyError(col)
  {
    if col in row then Ok(row[col]) else Err(KeyError(col))
  }

  /** `int(x)` as `Series.astype(int)` applies it to one cell. */
  function AsInt(v: Value): (r: Result<int>)
    ensures v.Int? ==> r == Ok(v.i)
    ensures v.NaN? || v.Null? || v.List? || v.Obj? ==> r.Err?
  {
    match v
    case Int(i) => Ok(i)
    case Bool(b) => Ok(if b then 1 else 0)
    case Num(x) => Ok(if x >= 0.0 then x.Floor else -((-x).Floor))
    case Str(s) => ParseInt(Strip(s))
    case _ => Err(ValueError("cannot convert to int"))
  }

  /** `int(s)` on an already stripped decimal literal. */
  function ParseInt(s: string): (r: Result<int>)
    ensures r.Ok? ==> s != []
  {
    if s != [] && (s[0] == '-' || s[0] == '+') then
      match ParseNat(s[1..])
      case Some(n) => Ok(if s[0] == '-' then -(n as int) else n)
      case None => Err(ValueError("invalid literal for int()"))
    else
      match ParseNat(s)
      case Some(n) => Ok(n)
      case None => Err(ValueError("invalid literal for int()"))
  }

  function ParseNat(s: string): (r: Option<nat>)
    ensures r.Some? ==> s != [] && forall i :: 0 <= i < |s| ==> IsDigit(s[i])
  {
    if s == [] then None
    else if !IsDigit(s[|s| - 1]) then None
    else
      var d: nat := (s[|s| - 1] as int) - ('0' as int);
      if |s| == 1 then Some(d)
      else
        match ParseNat(s[..|s| - 1])
        case Some(n) => Some(10 * n + d)
        case None => None
  }

  /** Different numbers print differently. */
  lemma NatToStrInjective(m: nat, n: nat)
    ensures NatToStr(m) == NatToStr(n) ==> m == n
  {
    ParseNatToStr(m);
    ParseNatToStr(n);
  }

  /** Reading back a printed natural number gives the number. */
  lemma {:induction false} ParseNatToStr(n: nat)
    ensures ParseNat(NatToStr(n)) == Some(n)
  {
    if n >= 10 {
      ParseNatToStr(n / 10);
      var s := NatToStr(n);
      assert s[..|s| - 1] == NatToStr(n / 10);
    }
  }
}
