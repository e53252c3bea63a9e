/** Searching and splitting sequences the way Python's `str.find`,
    `str.split(sep)`, `str.partition(sep)` and `sep.join(parts)` do, for a
    non-empty separator. */
module Text {
  import opened Wrappers

  /** `t` occurs in `s` starting at position `i`. */
  predicate OccursAt<T(==)>(s: seq<T>, t: seq<T>, i: int) {
    0 <= i && i + |t| <= |s| && s[i..i + |t|] == t
  }

  /** The first position at or after `from` where `t` occurs in `s`. */
  function IndexOfFrom<T(==)>(s: seq<T>, t: seq<T>, from: nat): (r: Option<nat>)
    requires from <= |s|
    ensures r.Some? ==> from <= r.value && OccursAt(s, t, r.value)
    ensures r.Some? ==> forall j :: from <= j < r.value ==> !OccursAt(s, t, j)
    ensures r.None? ==> forall j :: from <= j ==> !OccursAt(s, t, j)
    decreases |s| - from
  {
    if OccursAt(s, t, from) then Some(from)
    else if from == |s| then None
    else IndexOfFrom(s, t, from + 1)
  }

  /** Python's `s.find(t)`, with `None` for -1. */
  function IndexOf<T(==)>(s: seq<T>, t: seq<T>): Option<nat> {
    IndexOfFrom(s, t, 0)
  }

  /** Python's `t in s`. */
  predicate Contains<T(==)>(s: seq<T>, t: seq<T>) {
    IndexOf(s, t).Some?
  }

  lemma OccursContains<T>(s: seq<T>, t: seq<T>, i: int)
    requires OccursAt(s, t, i)
    ensures Contains(s, t)
  {
  }

  /** An occurrence inside a slice is an occurrence in the whole sequence. */
  lemma OccursInSlice<T>(s: seq<T>, t: seq<T>, lo: nat, hi: nat, j: int)
    requires lo <= hi <= |s| && OccursAt(s[lo..hi], t, j)
    ensures OccursAt(s, t, lo + j)
  {
    var inner, outer := s[lo..hi][j..j + |t|], s[lo + j..lo + j + |t|];
    forall m | 0 <= m < |t| ensures inner[m] == outer[m] {
    }
    assert inner == outer;
  }

  /** The text before the first occurrence of `t` does not contain `t`. */
  lemma BeforeFirst<T>(s: seq<T>, t: seq<T>, i: nat)
    requires |t| > 0 && IndexOf(s, t) == Some(i)
    ensures s == s[..i] + t + s[i + |t|..]
    ensures !Contains(s[..i], t)
  {
    assert s == s[..i] + s[i..i + |t|] + s[i + |t|..];
    if Contains(s[..i], t) {
      var j := IndexOf(s[..i], t).value;
      OccursInSlice(s, t, 0, i, j);
    }
  }

  /** A one-element separator occurs exactly where that element does. */
  lemma ContainsSingle<T>(s: seq<T>, x: T)
    ensures Contains(s, [x]) <==> x in s
  {
    if x in s {
      var i :| 0 <= i < |s| && s[i] == x;
      assert OccursAt(s, [x], i);
    }
    if Contains(s, [x]) {
      var i := IndexOf(s, [x]).value;
      assert s[i..i + 1][0] == s[i];
    }
  }

  /** `sep.join(pieces)`. */
  function Join<T>(pieces: seq<seq<T>>, sep: seq<T>): seq<T> {
    if |pieces| == 0 then []
    else if |pieces| == 1 then pieces[0]
    else pieces[0] + sep + Join(pieces[1..], sep)
  }

  /** `s.split(sep)`: the pieces between successive leftmost, non-overlapping
      occurrences of `sep`. */
  function Split<T(==)>(s: seq<T>, sep: seq<T>): (r: seq<seq<T>>)
    requires |sep| > 0
    ensures |r| >= 1
    ensures Join(r, sep) == s
    ensures forall k :: 0 <= k < |r| ==> !Contains(r[k], sep)
    ensures |r| == 1 <==> !Contains(s, sep)
    ensures |r| > 1 ==> IndexOf(s, sep) == Some(|r[0]|)
    decreases |s|
  {
    match IndexOf(s, sep)
    case None => [s]
    case Some(i) =>
      var rest := Split(s[i + |sep|..], sep);
      BeforeFirst(s, sep, i);
      [s[..i]] + rest
  }

  /** `s.partition(sep)` when `sep` is present: the text before and after
      its first occurrence. */
  function Partition<T(==)>(s: seq<T>, sep: seq<T>): (r: Option<(seq<T>, seq<T>)>)
    requires |sep| > 0
    ensures r.None? <==> !Contains(s, sep)
    ensures r.Some? ==> s == r.value.0 + sep + r.value.1 && !Contains(r.value.0, sep)
  {
    match IndexOf(s, sep)
    case None => None
    case Some(i) =>
      BeforeFirst(s, sep, i);
      Some((s[..i], s[i + |sep|..]))
  }

  /** No proper suffix of `sep` is also a prefix of it, so two occurrences
      of `sep` can never overlap. */
  predicate BorderFree<T(==)>(sep: seq<T>) {
    forall k :: 0 < k < |sep| ==> sep[k..] != sep[..|sep| - k]
  }

  /** If `a` does not contain a border-free `sep`, the first occurrence of
      `sep` in `a + sep + b` is the one written after `a`. */
  lemma FirstOccurrence<T>(a: seq<T>, sep: seq<T>, b: seq<T>)
    requires BorderFree(sep) && !Contains(a, sep)
    ensures IndexOf(a + sep + b, sep) == Some(|a|)
  {
    var s := a + sep + b;
    var n := |sep|;
    assert s[|a|..|a| + n] == sep;
    forall j | 0 <= j < |a| ensures !OccursAt(s, sep, j) {
      if j + n <= |a| {
        assert s[j..j + n] == a[j..j + n];
        assert !OccursAt(a, sep, j);
      } else {
        var k := |a| - j;
        assert s[|a|..j + n] == sep[..n - k];
        assert s[j..j + n][k..] == s[|a|..j + n];
        assert sep[k..] != sep[..n - k];
      }
    }
    assert OccursAt(s, sep, |a|);
    var r := IndexOf(s, sep);
    assert r.Some? && r.value == |a|;
  }

  /** Splitting undoes joining when no piece contains a border-free
      separator. */
  lemma {:induction false} SplitJoin<T>(pieces: seq<seq<T>>, sep: seq<T>)
    requires |sep| > 0 && BorderFree(sep) && |pieces| >= 1
    requires forall k :: 0 <= k < |pieces| ==> !Contains(pieces[k], sep)
    ensures Split(Join(pieces, sep), sep) == pieces
  {
    if |pieces| > 1 {
      var rest := Join(pieces[1..], sep);
      FirstOccurrence(pieces[0], sep, rest);
      var s := pieces[0] + sep + rest;
      assert s[|pieces[0]| + |sep|..] == rest;
      assert s[..|pieces[0]|] == pieces[0];
      SplitJoin(pieces[1..], sep);
      assert pieces == [pieces[0]] + pieces[1..];
    }
  }

  /** Partitioning at the first occurrence recovers the two parts around it. */
  lemma PartitionJoin<T>(a: seq<T>, sep: seq<T>, b: seq<T>)
    requires |sep| > 0 && BorderFree(sep) && !Contains(a, sep)
    ensures Partition(a + sep + b, sep) == Some((a, b))
  {
    FirstOccurrence(a, sep, b);
    var s := a + sep + b;
    assert s[..|a|] == a && s[|a| + |sep|..] == b;
  }

  /** A one-element separator has no border. */
  lemma SingleBorderFree<T>(x: T)
    ensures BorderFree([x])
  {
  }

  /** `sep.join([a, b, c])` written out. */
  lemma JoinThree<T>(a: seq<T>, b: seq<T>, c: seq<T>, sep: seq<T>)
    ensures Join([a, b, c], sep) == a + sep + b + sep + c
  {
    var pieces := [a, b, c];
    assert pieces[1..] == [b, c] && [b, c][1..] == [c];
    assert Join([b, c], sep) == b + sep + c;
    assert a + sep + (b + sep + c) == a + sep + b + sep + c;
  }
}
