/** The parts of Go's `strings` package the translation relies on: `Index`,
    `Split`, `Join`, and the prefix and suffix helpers. `Split` finds separators
    left to right exactly as Go's `genSplit` does, so its round trips with
    `Join` hold only under the side conditions stated here. */
module Strings {

  /** `sep` occurs in `s` starting at position `i`. */
  predicate OccursAt(s: string, sep: string, i: int) {
    0 <= i && i + |sep| <= |s| && s[i..i + |sep|] == sep
  }

  /** Go's `strings.Contains(s, sep)`. */
  predicate Contains(s: string, sep: string) {
    exists i | 0 <= i <= |s| - |sep| :: OccursAt(s, sep, i)
  }

  /** No proper suffix of `sep` is also a prefix of it, so two occurrences of
      `sep` can never overlap and none can straddle a joined boundary. */
  predicate BorderFree(sep: string) {
    forall m | 0 < m < |sep| :: sep[m..] != sep[..|sep| - m]
  }

  predicate HasPrefix(s: string, p: string) {
    |p| <= |s| && s[..|p|] == p
  }

  predicate HasSuffix(s: string, p: string) {
    |p| <= |s| && s[|s| - |p|..] == p
  }

  /** Go's `strings.TrimPrefix`. */
  function TrimPrefix(s: string, p: string): (r: string)
    ensures HasPrefix(s, p) ==> p + r == s
    ensures !HasPrefix(s, p) ==> r == s
  {
    if HasPrefix(s, p) then s[|p|..] else s
  }

  /** Go's `strings.TrimSuffix`. */
  function TrimSuffix(s: string, p: string): (r: string)
    ensures HasSuffix(s, p) ==> r + p == s
    ensures !HasSuffix(s, p) ==> r == s
  {
    if HasSuffix(s, p) then s[..|s| - |p|] else s
  }

  /** The leftmost occurrence of `sep` in `s` at or after `k`, or -1 (Go's `strings.Index` for `k == 0`). */
  function FindFrom(s: string, sep: string, k: nat): (r: int)
    requires |sep| > 0 && k <= |s|
    ensures r == -1 || (k <= r && OccursAt(s, sep, r))
    ensures r == -1 ==> forall i :: k <= i ==> !OccursAt(s, sep, i)
    ensures r != -1 ==> forall i :: k <= i < r ==> !OccursAt(s, sep, i)
    decreases |s| - k
  {
    if k + |sep| > |s| then -1
    else if s[k..k + |sep|] == sep then k
    else FindFrom(s, sep, k + 1)
  }

  /** Go's `strings.Split(s, sep)` for a non-empty separator. */
  function Split(s: string, sep: string): (r: seq<string>)
    requires |sep| > 0
    ensures |r| >= 1
    ensures |r| == 1 <==> !Contains(s, sep)
    ensures |r| == 1 ==> r[0] == s
    decreases |s|
  {
    var i := FindFrom(s, sep, 0);
    if i < 0 then [s]
    else
      assert OccursAt(s, sep, i);
      [s[..i]] + Split(s[i + |sep|..], sep)
  }

  /** Go's `strings.Join(parts, sep)`. */
  function Join(parts: seq<string>, sep: string): string {
    if |parts| == 0 then ""
    else if |parts| == 1 then parts[0]
    else parts[0] + sep + Join(parts[1..], sep)
  }

  /** Joining a part in front of a non-empty list puts one separator between them. */
  lemma JoinCons(a: string, t: seq<string>, sep: string)
    requires |t| >= 1
    ensures Join([a] + t, sep) == a + sep + Join(t, sep)
  {
    assert ([a] + t)[1..] == t;
  }

  /** A string is its text before an occurrence, the separator, and its text after. */
  lemma SliceAround(s: string, sep: string, i: int)
    requires OccursAt(s, sep, i)
    ensures s == s[..i] + sep + s[i + |sep|..]
  {
    assert s[i..] == s[i..i + |sep|] + s[i + |sep|..];
    assert s == s[..i] + s[i..];
  }

  /** Joining the pieces of a split restores the original string. */
  lemma {:induction false} JoinSplit(s: string, sep: string)
    requires |sep| > 0
    ensures Join(Split(s, sep), sep) == s
    decreases |s|
  {
    var i := FindFrom(s, sep, 0);
    if i < 0 {
      assert Split(s, sep) == [s];
    } else {
      var head, rest := s[..i], s[i + |sep|..];
      var tail := Split(rest, sep);
      assert Split(s, sep) == [head] + tail;
      JoinSplit(rest, sep);
      JoinCons(head, tail, sep);
      SliceAround(s, sep, i);
      assert Join([head] + tail, sep) == head + sep + rest == s;
    }
  }

  /** The leftmost search from `k` lands on `j` when `j` is the first occurrence at or after `k`. */
  lemma {:induction false} FindFromIs(s: string, sep: string, k: nat, j: nat)
    requires |sep| > 0 && k <= j <= |s|
    requires OccursAt(s, sep, j)
    requires forall i :: k <= i < j ==> !OccursAt(s, sep, i)
    ensures FindFrom(s, sep, k) == j
    decreases j - k
  {
    if k < j {
      assert !OccursAt(s, sep, k);
      FindFromIs(s, sep, k + 1, j);
    }
  }

  /** No occurrence of `sep` in `a + sep + b` starts inside `a`: one lying
      wholly in `a` is excluded by `a` itself, one straddling into the
      separator would give `sep` a border. */
  lemma NoEarlierOccurrence(a: string, b: string, sep: string, i: nat)
    requires |sep| > 0 && BorderFree(sep)
    requires !Contains(a, sep)
    requires i < |a|
    ensures !OccursAt(a + sep + b, sep, i)
  {
    var s := a + sep + b;
    if i + |sep| <= |a| {
      assert s[i..i + |sep|] == a[i..i + |sep|];
      assert !OccursAt(a, sep, i);
    } else {
      var m := |a| - i;
      var w := s[i..i + |sep|];
      assert w[m..] == sep[..|sep| - m];
      assert sep[m..] != sep[..|sep| - m];
      assert w != sep;
    }
  }

  /** With a border-free separator, the first separator of `a + sep + b` is the
      one right after `a` whenever `a` holds none of its own. */
  lemma SplitAfterFirst(a: string, b: string, sep: string)
    requires |sep| > 0 && BorderFree(sep)
    requires !Contains(a, sep)
    ensures Split(a + sep + b, sep) == [a] + Split(b, sep)
  {
    var s := a + sep + b;
    assert s[|a|..|a| + |sep|] == sep;
    forall i | 0 <= i < |a|
      ensures !OccursAt(s, sep, i)
    {
      NoEarlierOccurrence(a, b, sep, i);
    }
    FindFromIs(s, sep, 0, |a|);
    assert s[..|a|] == a;
    assert s[|a| + |sep|..] == b;
  }

  /** Splitting a join gives back the parts, when no part holds the separator. */
  lemma {:induction false} SplitJoin(parts: seq<string>, sep: string)
    requires |sep| > 0 && BorderFree(sep)
    requires |parts| > 0
    requires forall k | 0 <= k < |parts| :: !Contains(parts[k], sep)
    ensures Split(Join(parts, sep), sep) == parts
    decreases |parts|
  {
    if |parts| > 1 {
      SplitJoin(parts[1..], sep);
      SplitAfterFirst(parts[0], Join(parts[1..], sep), sep);
      assert parts == [parts[0]] + parts[1..];
    }
  }

  /** A string that lacks the separator's first character does not contain it. */
  lemma AbsentFirstChar(s: string, sep: string)
    requires |sep| > 0 && sep[0] !in s
    ensures !Contains(s, sep)
  {
    forall i | 0 <= i <= |s| - |sep|
      ensures !OccursAt(s, sep, i)
    {
      assert s[i..i + |sep|][0] == s[i] != sep[0];
    }
  }

  /** For a one-character separator, containment is plain membership. */
  lemma ContainsChar(s: string, c: char)
    ensures Contains(s, [c]) <==> c in s
  {
    if c in s {
      var i :| 0 <= i < |s| && s[i] == c;
      assert OccursAt(s, [c], i);
    }
    if Contains(s, [c]) {
      var i :| 0 <= i <= |s| - 1 && OccursAt(s, [c], i);
      assert s[i] == s[i..i + 1][0];
    }
  }
}
