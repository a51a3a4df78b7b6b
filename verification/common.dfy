/** Shared vocabulary: Java's nullable references, the exceptions the services
    throw, and the few java.lang.String operations the core relies on. */
module Common {

  /** A Java reference that may be null. */
  datatype Option<+T> = None | Some(value: T) {
    function GetOr(default: T): T {
      match this
      case Some(v) => v
      case None => default
    }
  }

  /** The exceptions the modelled code raises, by meaning rather than by class. */
  datatype Error =
    | NotFound(what: string)        // IllegalArgumentException / EntityNotFoundException "... not found"
    | NotAuthor                     // IllegalArgumentException "only the author may ..."
    | AlreadyDeleted                // DuplicateResourceException / IllegalArgumentException / IllegalStateException
    | InvalidArgument(what: string) // IllegalArgumentException from a guard or Enum.valueOf
    | NullReference(what: string)   // NullPointerException
    | ClassCast(what: string)       // ClassCastException on an untyped JSON value
    | IndexOutOfBounds              // ArrayIndexOutOfBoundsException
    | NonUniqueResult               // more than one row for a single-result query
    | Unparseable(what: string)     // DateTimeParseException
    | IoFailure(what: string)       // IOException rethrown as RuntimeException
    | InvalidQuery(what: string)    // the persistence provider refuses to build a query
    | ConstraintViolation(what: string) // the database refuses a row, e.g. NULL in a NOT NULL column

  datatype Result<+T> = Ok(value: T) | Err(error: Error)

  /** Java `String.trim()` strips every code point up to U+0020. */
  predicate IsTrimmed(c: char) { c <= ' ' }

  /** `s.trim().isEmpty()`; also the test behind bean validation's @NotBlank. */
  predicate IsBlank(s: string) {
    forall i :: 0 <= i < |s| ==> IsTrimmed(s[i])
  }

  /** @NotBlank on a nullable String. */
  predicate NotBlank(s: Option<string>) {
    s.Some? && !IsBlank(s.value)
  }

  function TrimStart(s: string): (k: nat)
    ensures k <= |s|
    ensures forall i :: 0 <= i < k ==> IsTrimmed(s[i])
    ensures k < |s| ==> !IsTrimmed(s[k])
  {
    if |s| == 0 || !IsTrimmed(s[0]) then 0 else 1 + TrimStart(s[1..])
  }

  function TrimEnd(s: string): (k: nat)
    ensures k <= |s|
    ensures forall i :: k <= i < |s| ==> IsTrimmed(s[i])
    ensures 0 < k ==> !IsTrimmed(s[k - 1])
  {
    if |s| == 0 || !IsTrimmed(s[|s| - 1]) then |s| else TrimEnd(s[..|s| - 1])
  }

  /** Java `String.trim()`. */
  function Trim(s: string): (t: string)
    ensures t == "" <==> IsBlank(s)
    ensures t != "" ==> !IsTrimmed(t[0]) && !IsTrimmed(t[|t| - 1])
    ensures IsInfix(t, s)
  {
    var b := TrimStart(s);
    if b == |s| then
      assert InfixAt("", s, 0);
      ""
    else
      var e := TrimEnd(s);
      assert b < e;
      assert InfixAt(s[b..e], s, b);
      s[b..e]
  }

  /** `k` occurs in `s` as a contiguous block. */
  predicate IsInfix(k: string, s: string) {
    exists i | 0 <= i <= |s| - |k| :: InfixAt(k, s, i)
  }

  predicate InfixAt(k: string, s: string, i: int) {
    0 <= i <= |s| - |k| && s[i..i + |k|] == k
  }

  /** The lower-case mapping the database applies in `lower(..) like ..`;
      only ASCII letters are folded in this model. */
  function LowerChar(c: char): char {
    if 'A' <= c <= 'Z' then (c as int + 32) as char else c
  }

  function Lower(s: string): (t: string)
    ensures |t| == |s|
    ensures forall i :: 0 <= i < |s| ==> t[i] == LowerChar(s[i])
  {
    seq(|s|, i requires 0 <= i < |s| => LowerChar(s[i]))
  }

  /** QueryDSL `containsIgnoreCase`: a NULL column never matches. */
  predicate ContainsIgnoreCase(column: Option<string>, k: string) {
    column.Some? && IsInfix(Lower(k), Lower(column.value))
  }

  lemma EmptyIsInfix(s: string)
    ensures IsInfix("", s)
  {
    assert InfixAt("", s, 0);
  }

  /** The elements of `xs` satisfying `p`, in their original order. */
  function Filter<T>(xs: seq<T>, p: T -> bool): (r: seq<T>)
    ensures |r| <= |xs|
    ensures forall i :: 0 <= i < |r| ==> p(r[i]) && r[i] in xs
    ensures forall i :: 0 <= i < |xs| && p(xs[i]) ==> xs[i] in r
    ensures multiset(r) <= multiset(xs)
  {
    if xs == [] then []
    else
      assert xs == [xs[0]] + xs[1..];
      if p(xs[0]) then [xs[0]] + Filter(xs[1..], p)
      else Filter(xs[1..], p)
  }

  /** How many elements of `xs` satisfy `p` (what a SQL `count(*)` reports). */
  function Count<T>(xs: seq<T>, p: T -> bool): nat {
    if xs == [] then 0 else (if p(xs[0]) then 1 else 0) + Count(xs[1..], p)
  }

  lemma {:induction false} FilterCount<T>(xs: seq<T>, p: T -> bool)
    ensures |Filter(xs, p)| == Count(xs, p)
  {
    if xs != [] {
      FilterCount(xs[1..], p);
    }
  }

  /** No element satisfies `p`, so none is counted. */
  lemma {:induction false} CountNone<T>(xs: seq<T>, p: T -> bool)
    requires forall i :: 0 <= i < |xs| ==> !p(xs[i])
    ensures Count(xs, p) == 0
  {
    if xs != [] {
      CountNone(xs[1..], p);
    }
  }

  /** Counting distributes over concatenation. */
  lemma {:induction false} CountAppend<T>(xs: seq<T>, ys: seq<T>, p: T -> bool)
    ensures Count(xs + ys, p) == Count(xs, p) + Count(ys, p)
  {
    if xs != [] {
      assert (xs + ys)[1..] == xs[1..] + ys;
      CountAppend(xs[1..], ys, p);
    } else {
      assert xs + ys == ys;
    }
  }

  /** How many of `xs` satisfy `p` or `q`, for disjoint `p` and `q`. */
  lemma {:induction false} DisjointCount<T>(xs: seq<T>, p: T -> bool, q: T -> bool, either: T -> bool)
    requires forall x :: !(p(x) && q(x))
    requires forall x :: either(x) == (p(x) || q(x))
    ensures Count(xs, p) + Count(xs, q) == Count(xs, either)
  {
    if xs != [] {
      DisjointCount(xs[1..], p, q, either);
    }
  }

  /** Decimal rendering, as Java's `"" + long` produces it. */
  function NatToString(n: nat): (s: string)
    ensures |s| >= 1
    ensures forall i :: 0 <= i < |s| ==> '0' <= s[i] <= '9'
  {
    var d := ['0' + (n % 10) as char];
    if n < 10 then d else NatToString(n / 10) + d
  }

  function IntToString(n: int): (s: string)
    ensures |s| >= 1
    ensures (s[0] == '-') <==> n < 0
  {
    if n < 0 then "-" + NatToString(-n) else NatToString(n)
  }
}
