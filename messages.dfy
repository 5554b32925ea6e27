/**
 * The message shown when the upload lacks required columns: a fixed
 * sentence, the missing names joined with ", ", and a closing full stop.
 */
module Messages {

  const FailurePrefix: string := "The uploaded file does not contain the required columns: "
  const NameSeparator: string := ", "

  /** `sep.join(xs)`: the strings of `xs` with `sep` between neighbours. */
  function Join(xs: seq<string>, sep: string): string
  {
    if |xs| == 0 then ""
    else if |xs| == 1 then xs[0]
    else xs[0] + sep + Join(xs[1..], sep)
  }

  /** Where `xs[k]` starts inside `Join(xs, sep)`. */
  function JoinOffset(xs: seq<string>, sep: string, k: nat): nat
    requires k < |xs|
  {
    if k == 0 then 0 else |xs[0]| + |sep| + JoinOffset(xs[1..], sep, k - 1)
  }

  /** Slicing past a prefix `a` of a concatenation slices the rest. */
  lemma SliceAfter(a: string, b: string, i: nat, j: nat)
    requires i <= j <= |b|
    ensures (a + b)[|a| + i..|a| + j] == b[i..j]
  {
  }

  /** Every element has room at its offset, and the last one ends the joined string. */
  lemma {:induction false} JoinOffsetBound(xs: seq<string>, sep: string, k: nat)
    requires k < |xs|
    ensures JoinOffset(xs, sep, k) + |xs[k]| <= |Join(xs, sep)|
    ensures k + 1 < |xs| ==> JoinOffset(xs, sep, k) + |xs[k]| + |sep| <= |Join(xs, sep)|
    ensures k + 1 == |xs| ==> JoinOffset(xs, sep, k) + |xs[k]| == |Join(xs, sep)|
  {
    if |xs| > 1 && k > 0 {
      JoinOffsetBound(xs[1..], sep, k - 1);
    }
  }

  /** A join of two or more: the first element, the separator, then the join of the rest. */
  lemma JoinHead(xs: seq<string>, sep: string)
    requires |xs| > 1
    ensures Join(xs, sep) == xs[0] + sep + Join(xs[1..], sep)
    ensures Join(xs, sep)[..|xs[0]|] == xs[0]
    ensures Join(xs, sep)[|xs[0]|..|xs[0]| + |sep|] == sep
  {
    var tail := Join(xs[1..], sep);
    assert Join(xs, sep) == xs[0] + (sep + tail);
    SliceAfter(xs[0], sep + tail, 0, |sep|);
  }

  /** Element `k` sits in the joined string at its offset. */
  lemma {:induction false} JoinElementAt(xs: seq<string>, sep: string, k: nat)
    requires k < |xs|
    ensures JoinOffset(xs, sep, k) + |xs[k]| <= |Join(xs, sep)|
    ensures Join(xs, sep)[JoinOffset(xs, sep, k)..JoinOffset(xs, sep, k) + |xs[k]|] == xs[k]
  {
    JoinOffsetBound(xs, sep, k);
    if |xs| > 1 {
      JoinHead(xs, sep);
      if k > 0 {
        JoinElementAt(xs[1..], sep, k - 1);
        var o := JoinOffset(xs[1..], sep, k - 1);
        SliceAfter(xs[0] + sep, Join(xs[1..], sep), o, o + |xs[k]|);
      }
    }
  }

  /** Between element `k` and element `k + 1` stands exactly the separator. */
  lemma {:induction false} JoinSeparatorAt(xs: seq<string>, sep: string, k: nat)
    requires k + 1 < |xs|
    ensures JoinOffset(xs, sep, k + 1) == JoinOffset(xs, sep, k) + |xs[k]| + |sep| <= |Join(xs, sep)|
    ensures Join(xs, sep)[JoinOffset(xs, sep, k) + |xs[k]|..JoinOffset(xs, sep, k + 1)] == sep
  {
    JoinOffsetBound(xs, sep, k);
    JoinHead(xs, sep);
    if k > 0 {
      JoinSeparatorAt(xs[1..], sep, k - 1);
      var o := JoinOffset(xs[1..], sep, k - 1);
      SliceAfter(xs[0] + sep, Join(xs[1..], sep), o + |xs[k]|, o + |xs[k]| + |sep|);
    }
  }

  /**
   * The joined string holds every element at its offset, in order, with
   * exactly `sep` between neighbours, the first at the start and the last at
   * the end: together these pin the joined string down completely.
   */
  lemma JoinPlacesEach(xs: seq<string>, sep: string, k: nat)
    requires k < |xs|
    ensures JoinOffset(xs, sep, k) + |xs[k]| <= |Join(xs, sep)|
    ensures Join(xs, sep)[JoinOffset(xs, sep, k)..JoinOffset(xs, sep, k) + |xs[k]|] == xs[k]
    ensures k + 1 < |xs| ==>
              JoinOffset(xs, sep, k + 1) == JoinOffset(xs, sep, k) + |xs[k]| + |sep| <= |Join(xs, sep)| &&
              Join(xs, sep)[JoinOffset(xs, sep, k) + |xs[k]|..JoinOffset(xs, sep, k + 1)] == sep
    ensures k + 1 == |xs| ==> JoinOffset(xs, sep, k) + |xs[k]| == |Join(xs, sep)|
  {
    JoinOffsetBound(xs, sep, k);
    JoinElementAt(xs, sep, k);
    if k + 1 < |xs| {
      JoinSeparatorAt(xs, sep, k);
    }
  }

  /** The message naming the missing columns. */
  function FailureMessage(missing: seq<string>): string
  {
    FailurePrefix + Join(missing, NameSeparator) + "."
  }

  /**
   * The message opens with the fixed sentence, closes with a full stop, and
   * names every missing column in list order, each at its offset in the
   * joined list after the fixed sentence.
   */
  lemma FailureMessageNamesEach(missing: seq<string>, k: nat)
    requires k < |missing|
    ensures FailureMessage(missing)[..|FailurePrefix|] == FailurePrefix
    ensures FailureMessage(missing)[|FailureMessage(missing)| - 1] == '.'
    ensures var at := |FailurePrefix| + JoinOffset(missing, NameSeparator, k);
            at + |missing[k]| < |FailureMessage(missing)| &&
            FailureMessage(missing)[at..at + |missing[k]|] == missing[k]
  {
    var joined := Join(missing, NameSeparator);
    JoinPlacesEach(missing, NameSeparator, k);
    var o := JoinOffset(missing, NameSeparator, k);
    var r := FailureMessage(missing);
    assert r == FailurePrefix + (joined + ".");
    assert r[|FailurePrefix| + o..|FailurePrefix| + o + |missing[k]|] == (joined + ".")[o..o + |missing[k]|];
  }
}
