/**
  * String helpers for the line-oriented formats of the ledger: JavaScript's
  * `String.prototype.split` with a one-character separator, and the text
  * obtained by writing every part followed by a separator (the way the
  * snapshot and the reports are built up, one line at a time).
  */
module Text {
  import opened Sequences

  /** Position of the first occurrence of `ch` in `s`. */
  function IndexOf(s: string, ch: char): (i: nat)
    requires ch in s
    ensures i < |s| && s[i] == ch && ch !in s[..i]
  {
    if s[0] == ch then 0
    else
      var k := IndexOf(s[1..], ch);
      assert s[..k + 1] == [s[0]] + s[1..][..k];
      k + 1
  }

  /**
    * `s.split(sep)`: the pieces between occurrences of `sep`, so that an
    * empty string gives one empty piece and a trailing separator gives a
    * trailing empty piece.
    */
  function Split(s: string, sep: char): (parts: seq<string>)
    ensures |parts| >= 1
    ensures forall k :: 0 <= k < |parts| ==> sep !in parts[k]
    decreases |s|
  {
    if sep !in s then [s]
    else
      var i := IndexOf(s, sep);
      [s[..i]] + Split(s[i + 1..], sep)
  }

  /** Splitting at the first separator peels off the piece before it. */
  lemma SplitCons(x: string, sep: char, y: string)
    requires sep !in x
    ensures Split(x + [sep] + y, sep) == [x] + Split(y, sep)
  {
    var s := x + [sep] + y;
    assert s[|x|] == sep;
    var i := IndexOf(s, sep);
    assert s[..i] == x;
    assert s[i + 1..] == y;
  }

  /** The concatenation of every part, each followed by `sep`. */
  function Terminated(parts: seq<string>, sep: char): (s: string)
    ensures parts != [] ==> |s| > 0 && s[|s| - 1] == sep
  {
    if parts == [] then "" else parts[0] + [sep] + Terminated(parts[1..], sep)
  }

  /** Writing one more part appends it and its separator. */
  lemma {:induction false} TerminatedAppend(parts: seq<string>, p: string, sep: char)
    ensures Terminated(parts + [p], sep) == Terminated(parts, sep) + p + [sep]
  {
    if parts == [] {
      assert [p][1..] == [];
      AppendEmpty(p + [sep]);
    } else {
      FirstOfAppend(parts, [p]);
      TerminatedAppend(parts[1..], p, sep);
      Regroup(parts[0] + [sep], Terminated(parts[1..], sep), p, [sep]);
    }
  }

  lemma SeparatorFreeSnoc(parts: seq<string>, p: string, sep: char)
    requires forall k :: 0 <= k < |parts| ==> sep !in parts[k]
    requires sep !in p
    ensures forall k :: 0 <= k < |parts + [p]| ==> sep !in (parts + [p])[k]
  {
    forall k | 0 <= k < |parts + [p]| ensures sep !in (parts + [p])[k] {
      if k < |parts| {
        assert (parts + [p])[k] == parts[k];
      }
    }
  }

  /** Terminating two lists of parts one after the other terminates their concatenation. */
  lemma {:induction false} TerminatedConcat(a: seq<string>, b: seq<string>, sep: char)
    ensures Terminated(a + b, sep) == Terminated(a, sep) + Terminated(b, sep)
  {
    if a == [] {
      assert a + b == b;
    } else {
      FirstOfAppend(a, b);
      TerminatedConcat(a[1..], b, sep);
      Regroup(a[0] + [sep], Terminated(a[1..], sep), Terminated(b, sep), "");
    }
  }

  lemma SeparatorFreeConcat(a: seq<string>, b: seq<string>, sep: char)
    requires forall k :: 0 <= k < |a| ==> sep !in a[k]
    requires forall k :: 0 <= k < |b| ==> sep !in b[k]
    ensures forall k :: 0 <= k < |a + b| ==> sep !in (a + b)[k]
  {
    forall k | 0 <= k < |a + b| ensures sep !in (a + b)[k] {
      if k < |a| {
        assert (a + b)[k] == a[k];
      } else {
        assert (a + b)[k] == b[k - |a|];
      }
    }
  }

  /**
    * Splitting a terminated text gives the parts back, followed by the empty
    * piece after the last separator.
    */
  lemma {:induction false} SplitTerminated(parts: seq<string>, sep: char)
    requires forall k :: 0 <= k < |parts| ==> sep !in parts[k]
    ensures Split(Terminated(parts, sep), sep) == parts + [""]
  {
    if parts == [] {
      assert Split("", sep) == [""];
    } else {
      SplitCons(parts[0], sep, Terminated(parts[1..], sep));
      SplitTerminated(parts[1..], sep);
      FirstOfAppend(parts, [""]);
    }
  }
}
