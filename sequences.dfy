/**
  * Facts about sequences that the ledger proofs use, proved once for any
  * element type so that each proof about records only has to cite them.
  */
module Sequences {

  /** A nonempty sequence is its front followed by its last element. */
  lemma SplitLast<T>(s: seq<T>)
    requires s != []
    ensures s == s[..|s| - 1] + [s[|s| - 1]]
  {
  }

  /** Dropping the last element of a concatenation drops it from the second part. */
  lemma DropLastOfAppend<T>(a: seq<T>, b: seq<T>)
    requires b != []
    ensures (a + b)[..|a + b| - 1] == a + b[..|b| - 1]
    ensures (a + b)[|a + b| - 1] == b[|b| - 1]
  {
  }

  /** Splitting a concatenation after its first element. */
  lemma FirstOfAppend<T>(s: seq<T>, t: seq<T>)
    requires s != []
    ensures s + t == [s[0]] + (s[1..] + t)
    ensures (s + t)[0] == s[0] && (s + t)[1..] == s[1..] + t
  {
  }

  lemma ConsTail<T>(x: T, s: seq<T>)
    ensures ([x] + s)[0] == x && ([x] + s)[1..] == s
  {
  }

  lemma Regroup<T>(a: seq<T>, b: seq<T>, c: seq<T>, d: seq<T>)
    ensures a + (b + c + d) == a + b + c + d
  {
  }

  lemma AppendEmpty<T>(s: seq<T>)
    ensures s + [] == s
  {
  }

  /** `s` with the elements at `e` and `l` replaced by the pieces `x` and `y`. */
  function Spliced<T>(s: seq<T>, e: nat, l: nat, x: seq<T>, y: seq<T>): (r: seq<T>)
    requires e < l < |s|
    ensures |r| == |s| - 2 + |x| + |y|
  {
    s[..e] + x + s[e + 1..l] + y + s[l + 1..]
  }

  /** An element of a splice comes from the sequence or from one of the two pieces. */
  lemma SplicedMembers<T>(s: seq<T>, e: nat, l: nat, x: seq<T>, y: seq<T>)
    requires e < l < |s|
    ensures forall z | z in Spliced(s, e, l, x, y) :: z in s || z in x || z in y
  {
    forall z | z in Spliced(s, e, l, x, y) ensures z in s || z in x || z in y {
      if z in s[..e] {
        var k :| 0 <= k < e && s[..e][k] == z;
        assert s[k] == z;
      } else if z in s[e + 1..l] {
        var k :| 0 <= k < l - e - 1 && s[e + 1..l][k] == z;
        assert s[e + 1 + k] == z;
      } else if z in s[l + 1..] {
        var k :| 0 <= k < |s| - l - 1 && s[l + 1..][k] == z;
        assert s[l + 1 + k] == z;
      }
    }
  }

  /** Putting the two elements themselves back gives the sequence. */
  lemma Around<T>(s: seq<T>, e: nat, l: nat)
    requires e < l < |s|
    ensures s == Spliced(s, e, l, [s[e]], [s[l]])
  {
    assert s[e..] == [s[e]] + s[e + 1..];
    assert s[e + 1..] == s[e + 1..l] + [s[l]] + s[l + 1..];
  }

  /** Replacing element `i`, as slices. */
  lemma UpdateSlices<T>(s: seq<T>, i: nat, v: T)
    requires i < |s|
    ensures s[i := v] == s[..i] + [v] + s[i + 1..]
  {
  }

  /** Removing or replacing an element before an appended tail leaves the tail alone. */
  lemma RemoveAppend<T>(s: seq<T>, tail: seq<T>, i: nat)
    requires i < |s|
    ensures (s + tail)[..i] + (s + tail)[i + 1..] == s[..i] + s[i + 1..] + tail
  {
    assert (s + tail)[..i] == s[..i];
    assert (s + tail)[i + 1..] == s[i + 1..] + tail;
  }

  lemma UpdateAppend<T>(s: seq<T>, tail: seq<T>, i: nat, v: T)
    requires i < |s|
    ensures (s + tail)[i := v] == s[i := v] + tail
  {
  }

  /** Replacing element `l` by `y` and then element `e < l` by `x`. */
  lemma ReplaceTwice<T>(s: seq<T>, e: nat, l: nat, x: seq<T>, y: seq<T>)
    requires e < l < |s|
    ensures var once := s[..l] + y + s[l + 1..];
      e < |once| && once[e] == s[e] &&
      once[..e] + x + once[e + 1..] == Spliced(s, e, l, x, y)
  {
    var once := s[..l] + y + s[l + 1..];
    assert once[..e] == s[..e];
    assert once[e + 1..] == s[e + 1..l] + y + s[l + 1..];
  }
}
