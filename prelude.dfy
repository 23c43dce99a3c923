/** Values shared by both builders: optional values, results, the scalar JSON values
    the builders read, the errors a pass can die with, and small helpers on strings and
    sequences. */
module Prelude {

  datatype Option<+T> = None | Some(value: T)

  datatype Result<+T, +E> = Success(value: T) | Failure(error: E)

  /** A scalar JSON value: `null`, a string or an integer. */
  datatype Value = Null | Str(s: string) | Int(n: int)

  /** A decoded JSON object with scalar members. A missing key and a `null` member differ. */
  type Object = map<string, Value>

  /** `u.get(f, None) is not None` in the source. */
  predicate HasNonNull(u: Object, f: string) {
    f in u && u[f] != Null
  }

  /** The exception a builder pass raises; the source then returns no graph at all. */
  datatype Error =
    | UnboundLocal(name: string)                    // UnboundLocalError on a local never assigned
    | MissingEdge(source: string, target: string)   // KeyError from `net.edges[source, target]`
    | MissingKey(key: string)                       // KeyError from a JSON member lookup
    | EmptyCounts                                   // IndexError from `values[-1]` on an empty list

  /** Python's `sys.maxsize` on a 64-bit build: the initial `tstamp_min` of a new node. */
  const MaxSize: int := 0x7FFF_FFFF_FFFF_FFFF

  function Min(a: int, b: int): int { if a <= b then a else b }

  function Max(a: int, b: int): int { if a >= b then a else b }

  predicate IsUpper(c: char) { 'A' <= c <= 'Z' }

  function LowerChar(c: char): (r: char)
    ensures !IsUpper(r)
    ensures IsUpper(c) ==> r as int == c as int + 32
    ensures !IsUpper(c) ==> r == c
  {
    if IsUpper(c) then (c as int + 32) as char else c
  }

  /** `str.lower()`, restricted to ASCII letters. */
  function Lower(s: string): (r: string)
    ensures |r| == |s|
    ensures forall i :: 0 <= i < |s| ==> r[i] == LowerChar(s[i])
    ensures forall i :: 0 <= i < |r| ==> !IsUpper(r[i])
    ensures (forall i :: 0 <= i < |s| ==> !IsUpper(s[i])) ==> r == s
  {
    seq(|s|, i requires 0 <= i < |s| => LowerChar(s[i]))
  }

  /** Number of positions of s holding x. */
  function Occ<T(==)>(s: seq<T>, x: T): nat
    decreases |s|
  {
    if s == [] then 0 else Occ(s[..|s| - 1], x) + (if s[|s| - 1] == x then 1 else 0)
  }

  lemma {:induction false} OccAppend<T>(s: seq<T>, t: seq<T>, x: T)
    ensures Occ(s + t, x) == Occ(s, x) + Occ(t, x)
    decreases |t|
  {
    if t == [] {
      assert s + t == s;
    } else {
      var n := |t| - 1;
      assert (s + t)[..|s + t| - 1] == s + t[..n];
      OccAppend(s, t[..n], x);
    }
  }

  lemma {:induction false} OccPositive<T>(s: seq<T>, x: T)
    ensures Occ(s, x) > 0 <==> x in s
    decreases |s|
  {
    if s != [] {
      var n := |s| - 1;
      OccPositive(s[..n], x);
      assert s == s[..n] + [s[n]];
    }
  }
}
