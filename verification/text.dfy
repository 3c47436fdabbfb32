/** The handful of Python `str` operations the upload script relies on,
    restricted to the one-character separators it actually uses. */
module Text {

  /** `s.startswith(prefix)` */
  predicate StartsWith(s: string, prefix: string) {
    |prefix| <= |s| && s[..|prefix|] == prefix
  }

  /** `s.endswith(suffix)` */
  predicate EndsWith(s: string, suffix: string) {
    |suffix| <= |s| && s[|s| - |suffix|..] == suffix
  }

  /** `s.count(c)` */
  function Count(s: string, c: char): nat {
    if s == [] then 0 else (if s[0] == c then 1 else 0) + Count(s[1..], c)
  }

  lemma {:induction false} CountAppend(a: string, b: string, c: char)
    ensures Count(a + b, c) == Count(a, c) + Count(b, c)
  {
    if a == [] {
      assert a + b == b;
    } else {
      assert (a + b)[1..] == a[1..] + b;
      CountAppend(a[1..], b, c);
    }
  }

  lemma {:induction false} CountZero(s: string, c: char)
    ensures Count(s, c) == 0 <==> c !in s
  {
    if s != [] {
      assert s == [s[0]] + s[1..];
      CountZero(s[1..], c);
    }
  }

  /** Count of `c` in `a + [c] + b`. */
  lemma CountAround(a: string, b: string, c: char)
    ensures Count(a + [c] + b, c) == Count(a, c) + 1 + Count(b, c)
  {
    CountAppend(a + [c], b, c);
    CountAppend(a, [c], c);
    assert [c][1..] == [];
  }

  /** `s.rfind(c)`: the index of the last `c` in `s`, or -1 when there is none. */
  function RFind(s: string, c: char): (i: int)
    ensures -1 <= i < |s|
    ensures i == -1 <==> c !in s
    ensures 0 <= i ==> s[i] == c && c !in s[i + 1..]
  {
    if s == [] then -1
    else if s[|s| - 1] == c then |s| - 1
    else
      var j := RFind(s[..|s| - 1], c);
      assert s == s[..|s| - 1] + [s[|s| - 1]];
      assert 0 <= j ==> s[j + 1..] == s[..|s| - 1][j + 1..] + [s[|s| - 1]];
      j
  }

  /** The last separator of `a + [c] + b` is the one between `a` and `b`
      whenever `b` holds no separator. */
  lemma RFindAround(a: string, b: string, c: char)
    requires c !in b
    ensures RFind(a + [c] + b, c) == |a|
  {
    var s := a + [c] + b;
    var i := RFind(s, c);
    assert s[|a|] == c;
    if i < |a| {
      assert false;
    } else if i > |a| {
      assert false;
    }
  }

  /** `c.join(parts)` for a one-character separator. */
  function JoinWith(parts: seq<string>, c: char): string {
    if parts == [] then []
    else if |parts| == 1 then parts[0]
    else JoinWith(parts[..|parts| - 1], c) + [c] + parts[|parts| - 1]
  }

  /** `s.split(c)` for a one-character separator: the maximal separator-free
      pieces of `s`, which joined back with `c` give `s` again. */
  function Split(s: string, c: char): (parts: seq<string>)
    ensures |parts| == Count(s, c) + 1
    ensures forall k :: 0 <= k < |parts| ==> c !in parts[k]
    ensures JoinWith(parts, c) == s
    decreases |s|
  {
    var i := RFind(s, c);
    if i < 0 then
      CountZero(s, c);
      [s]
    else
      assert s == s[..i] + [c] + s[i + 1..];
      CountAround(s[..i], s[i + 1..], c);
      CountZero(s[i + 1..], c);
      Split(s[..i], c) + [s[i + 1..]]
  }

  /** Splitting `a + [c] + b` splits off `b` as the last piece when `b` has no `c`. */
  lemma SplitAround(a: string, b: string, c: char)
    requires c !in b
    ensures Split(a + [c] + b, c) == Split(a, c) + [b]
  {
    var s := a + [c] + b;
    RFindAround(a, b, c);
    assert s[..|a|] == a;
    assert s[|a| + 1..] == b;
  }

  /** A string without the separator is its own only piece. */
  lemma SplitNone(s: string, c: char)
    requires c !in s
    ensures Split(s, c) == [s]
  {
    assert RFind(s, c) == -1;
  }

  /** Splitting undoes joining when no piece holds the separator. */
  lemma {:induction false} SplitJoin(parts: seq<string>, c: char)
    requires |parts| >= 1
    requires forall k :: 0 <= k < |parts| ==> c !in parts[k]
    ensures Split(JoinWith(parts, c), c) == parts
    decreases |parts|
  {
    if |parts| == 1 {
      SplitNone(parts[0], c);
    } else {
      SplitJoin(parts[..|parts| - 1], c);
      SplitJoinStep(parts, c);
    }
  }

  /** The inductive step: if splitting undoes joining all pieces but the
      last, it undoes joining them all. */
  lemma SplitJoinStep(parts: seq<string>, c: char)
    requires |parts| >= 2 && c !in parts[|parts| - 1]
    requires Split(JoinWith(parts[..|parts| - 1], c), c) == parts[..|parts| - 1]
    ensures Split(JoinWith(parts, c), c) == parts
  {
    var front := parts[..|parts| - 1];
    var last := parts[|parts| - 1];
    SplitAround(JoinWith(front, c), last, c);
    assert parts == front + [last];
  }

  /** A string that splits into exactly two pieces is those pieces around
      its only separator. */
  lemma SplitTwo(s: string, c: char, a: string, b: string)
    requires Split(s, c) == [a, b]
    ensures s == a + [c] + b && c !in a && c !in b
  {
    var parts := Split(s, c);
    assert parts[0] == a && parts[1] == b;
    assert JoinWith(parts, c) == JoinWith(parts[..1], c) + [c] + b;
    assert parts[..1] == [a];
  }

  /** Two pieces join around one separator. */
  lemma JoinTwo(a: string, b: string, c: char)
    ensures JoinWith([a, b], c) == a + [c] + b
  {
    assert [a, b][..1] == [a];
  }

  /** Two separator-free pieces joined around one separator split back into them. */
  lemma SplitJoinTwo(a: string, b: string, c: char)
    requires c !in a && c !in b
    ensures Split(a + [c] + b, c) == [a, b]
  {
    JoinTwo(a, b, c);
    SplitJoin([a, b], c);
  }

  /** `s.rsplit(c, 1)`: one piece when `s` has no `c`, otherwise the text
      before and after its last `c`. */
  function RSplitOnce(s: string, c: char): (parts: seq<string>)
    ensures c !in s ==> parts == [s]
    ensures c in s ==> |parts| == 2 && parts[0] + [c] + parts[1] == s && c !in parts[1]
  {
    var i := RFind(s, c);
    if i < 0 then [s]
    else
      assert s == s[..i] + [c] + s[i + 1..];
      [s[..i], s[i + 1..]]
  }

  /** The right split of `a + [c] + b` is exactly `[a, b]` when `b` has no `c`. */
  lemma RSplitOnceAround(a: string, b: string, c: char)
    requires c !in b
    ensures RSplitOnce(a + [c] + b, c) == [a, b]
  {
    var s := a + [c] + b;
    RFindAround(a, b, c);
    assert s[..|a|] == a;
    assert s[|a| + 1..] == b;
  }
}
