/** Failure-compatible wrappers and the Python exception kinds that the
    modelled code raises or catches. */
module Common {

  datatype Option<+T> = None | Some(value: T) {
    predicate IsFailure() { None? }
    function PropagateFailure<U>(): Option<U> requires None? { None }
    function Extract(): T requires Some? { value }
    function GetOr(default: T): T {
      match this
      case Some(v) => v
      case None => default
    }
  }

  /** The exception classes the Python code raises (or lets propagate). */
  datatype Error =
    | ValueError(msg: string)
    | KeyError(key: string)
    | IndexError
    | TypeError
    | AttributeError
    | AssertionError
    | SyntaxError(msg: string)
    | FileNotFoundError(path: string)
    | HttpError(status: int)
    | ServiceError(msg: string)
    | RuntimeError(msg: string)
    | Exit(code: int)

  datatype Result<+T> = Ok(value: T) | Err(error: Error) {
    predicate IsFailure() { Err? }
    function PropagateFailure<U>(): Result<U> requires Err? { Err(error) }
    function Extract(): T requires Ok? { value }
  }

  /** Python's `s[:m]` for a possibly negative bound `m`. */
  function PyTake<T>(s: seq<T>, m: int): (r: seq<T>)
    ensures |r| == if m >= 0 then (if m < |s| then m else |s|)
                   else (if |s| + m > 0 then |s| + m else 0)
    ensures r == s[..|r|]
  {
    if m >= 0 then (if m < |s| then s[..m] else s)
    else if |s| + m > 0 then s[..|s| + m] else []
  }

  /** Python's list index `s[i]` resolved to a position, or None for IndexError. */
  function PyIndex(i: int, n: nat): (r: Option<nat>)
    ensures r.Some? <==> -(n as int) <= i < n
    ensures r.Some? ==> r.value < n && (i >= 0 ==> r.value == i) && (i < 0 ==> r.value == n + i)
  {
    if 0 <= i < n then Some(i) else if -(n as int) <= i < 0 then Some(n + i) else None
  }

  /** `min` on naturals, used in length contracts. */
  function Min(a: int, b: int): int { if a <= b then a else b }

  /** `x or default` for an optional string: `None` and `""` are falsy. */
  function OrDefault(x: Option<string>, default: string): (r: string)
    ensures x.Some? && x.value != [] ==> r == x.value
    ensures x.None? || x.value == [] ==> r == default
  {
    if x.Some? && x.value != [] then x.value else default
  }

  /** `x or y` for optional strings. */
  function OrElse(x: Option<string>, y: Option<string>): (r: Option<string>)
    ensures x.Some? && x.value != [] ==> r == x
    ensures x.None? || x.value == [] ==> r == y
  {
    if x.Some? && x.value != [] then x else y
  }

  /** The part of a list built so far in front of what the rest of the
      loop yields: the invariant of the loops that follow a recursive
      specification, and of those that can stop with an exception. */
  function Then<T>(done: seq<T>, r: Result<seq<T>>): Result<seq<T>> {
    if r.Ok? then Ok(done + r.value) else r
  }

  lemma ThenNil<T>(r: Result<seq<T>>)
    ensures Then([], r) == r
  {
    if r.Ok? {
      assert [] + r.value == r.value;
    }
  }

  lemma ThenThen<T>(a: seq<T>, b: seq<T>, r: Result<seq<T>>)
    ensures Then(a, Then(b, r)) == Then(a + b, r)
  {
    if r.Ok? {
      assert a + (b + r.value) == (a + b) + r.value;
    }
  }

  /** Concatenation regrouped, proved once away from any heavy context. */
  lemma ConcatAssoc<T>(a: seq<T>, b: seq<T>, c: seq<T>)
    ensures a + (b + c) == (a + b) + c
  {
  }

  lemma ConcatNil<T>(a: seq<T>)
    ensures a + [] == a && [] + a == a
  {
  }

  /** A property of every element survives putting one more in front. */
  lemma AllCons<T>(h: T, rest: seq<T>, p: T -> bool)
    requires p(h) && forall i :: 0 <= i < |rest| ==> p(rest[i])
    ensures forall i :: 0 <= i < |[h] + rest| ==> p(([h] + rest)[i])
  {
    var r := [h] + rest;
    assert forall i :: 1 <= i < |r| ==> r[i] == rest[i - 1];
  }

  /** `[f(x) for x in xs]`. */
  function Map<T, U>(xs: seq<T>, f: T -> U): (r: seq<U>)
    ensures |r| == |xs| && forall i :: 0 <= i < |xs| ==> r[i] == f(xs[i])
  {
    seq(|xs|, i requires 0 <= i < |xs| => f(xs[i]))
  }

  /** Mapping one element more appends its image. */
  lemma MapSnoc<T, U>(xs: seq<T>, i: nat, f: T -> U)
    requires i < |xs|
    ensures Map(xs[..i + 1], f) == Map(xs[..i], f) + [f(xs[i])]
  {
  }

  /** A prefix one longer, cut back, is the shorter prefix. */
  lemma TakeTake<T>(s: seq<T>, i: nat)
    requires i < |s|
    ensures s[..i + 1][..i] == s[..i] && s[..i + 1] == s[..i] + [s[i]]
  {
  }

  /** Slices of a suffix are slices of the whole. */
  lemma SliceSlice<T>(s: seq<T>, a: nat, b: nat)
    requires a + b <= |s|
    ensures s[a..][b..] == s[a + b..] && s[a..][..b] == s[a..a + b]
  {
  }

  /** Dropping the first element of `s` shifts its slices by one. */
  lemma DropFirst<T>(s: seq<T>, a: nat)
    requires 0 < a <= |s|
    ensures s[..a][0] == s[0] && s[1..][..a - 1] == s[..a][1..] && s[1..][a - 1..] == s[a..]
  {
  }

  lemma TakeAll<T>(s: seq<T>)
    ensures s[..|s|] == s
  {
  }

  /** A suffix taken at `i` is element `i` followed by the suffix at `i + 1`. */
  lemma SuffixCons<T>(xs: seq<T>, i: nat)
    requires i < |xs|
    ensures xs[i..] != [] && xs[i..][0] == xs[i] && xs[i..][1..] == xs[i + 1..]
  {
  }

  /** A loop that applies a step which can raise to each element in turn:
      the first exception ends it, otherwise it yields one result per
      element, in order. */
  function Each<T, U>(xs: seq<T>, f: T -> Result<U>): (r: Result<seq<U>>)
    ensures r.Ok? <==> forall i :: 0 <= i < |xs| ==> f(xs[i]).Ok?
    ensures r.Ok? ==> |r.value| == |xs| && forall i :: 0 <= i < |xs| ==> f(xs[i]) == Ok(r.value[i])
    decreases |xs|
  {
    if xs == [] then Ok([])
    else
      match f(xs[0])
      case Err(e) => Err(e)
      case Ok(y) =>
        var rest := Each(xs[1..], f);
        assert forall i :: 1 <= i < |xs| ==> xs[i] == xs[1..][i - 1];
        if rest.Err? then Err(rest.error) else Ok([y] + rest.value)
  }

  /** Unfolding `Each` at the first element. */
  lemma EachCons<T, U>(xs: seq<T>, i: nat, f: T -> Result<U>)
    requires i < |xs| && f(xs[i]).Ok?
    ensures Each(xs[i..], f) == Then([f(xs[i]).value], Each(xs[i + 1..], f))
  {
    assert xs[i..][0] == xs[i] && xs[i..][1..] == xs[i + 1..];
  }
}
