/** The part of Go's `strings` package that the CORS options use: `Join`. */
module Strings {

  /** Sum of the lengths of the elements of `xs`. */
  function TotalLength(xs: seq<string>): nat {
    if xs == [] then 0 else |xs[0]| + TotalLength(xs[1..])
  }

  /** `strings.Join`: the elements of `xs` in order, with `sep` between each two neighbours. */
  function Join(xs: seq<string>, sep: string): (r: string)
    ensures |xs| > 0 ==> |r| == TotalLength(xs) + (|xs| - 1) * |sep|
  {
    if |xs| == 0 then ""
    else if |xs| == 1 then xs[0]
    else xs[0] + sep + Join(xs[1..], sep)
  }

  /** Where element `i` of `xs` starts in `Join(xs, sep)`. */
  function Offset(xs: seq<string>, sep: string, i: nat): nat
    requires i <= |xs|
  {
    if i == 0 then 0 else |xs[0]| + |sep| + Offset(xs[1..], sep, i - 1)
  }

  /** Element `i` starts after the elements before it and one separator per element
      before it. */
  lemma {:induction false} OffsetClosedForm(xs: seq<string>, sep: string, i: nat)
    requires i <= |xs|
    ensures Offset(xs, sep, i) == TotalLength(xs[..i]) + i * |sep|
  {
    if i == 0 {
      assert xs[..0] == [];
    } else {
      OffsetClosedForm(xs[1..], sep, i - 1);
      assert xs[..i][1..] == xs[1..][..i - 1];
      assert i * |sep| == |sep| + (i - 1) * |sep|;
    }
  }

  /** An empty list joins to "", a one-element list to that element. */
  lemma JoinShortLists(sep: string, x: string)
    ensures Join([], sep) == ""
    ensures Join([x], sep) == x
  {
  }

  /** With a non-empty separator, the joined string is empty exactly when there is no
      element, or a single empty one. */
  lemma JoinIsEmpty(xs: seq<string>, sep: string)
    requires sep != ""
    ensures Join(xs, sep) == "" <==> |xs| == 0 || (|xs| == 1 && xs[0] == "")
  {
  }

  /** Appending an element to a non-empty list appends the separator and the element:
      the left-to-right way `strings.Join` builds its result. */
  lemma {:induction false} JoinSnoc(xs: seq<string>, x: string, sep: string)
    requires |xs| > 0
    ensures Join(xs + [x], sep) == Join(xs, sep) + sep + x
  {
    if |xs| == 1 {
      assert xs + [x] == [xs[0], x];
      assert [xs[0], x][1..] == [x];
    } else {
      assert (xs + [x])[1..] == xs[1..] + [x];
      JoinSnoc(xs[1..], x, sep);
    }
  }

  /** A slice taken after a prefix of length `d` is a slice of what follows the prefix. */
  lemma SliceAfter(a: string, b: string, lo: nat, hi: nat)
    requires lo <= hi <= |b|
    ensures (a + b)[|a| + lo..|a| + hi] == b[lo..hi]
  {
  }

  /** A list of two or more elements joins to its head, a separator, and the joined tail. */
  lemma JoinCons(xs: seq<string>, sep: string)
    requires |xs| >= 2
    ensures Join(xs, sep) == (xs[0] + sep) + Join(xs[1..], sep)
  {
  }

  /** Every element appears verbatim at its offset in the joined string. */
  lemma {:induction false} JoinElement(xs: seq<string>, sep: string, i: nat)
    requires i < |xs|
    ensures Offset(xs, sep, i) + |xs[i]| <= |Join(xs, sep)|
    ensures Join(xs, sep)[Offset(xs, sep, i)..Offset(xs, sep, i) + |xs[i]|] == xs[i]
  {
    if |xs| == 1 {
    } else if i == 0 {
      JoinCons(xs, sep);
    } else {
      JoinCons(xs, sep);
      var tail := xs[1..];
      JoinElement(tail, sep, i - 1);
      var o := Offset(tail, sep, i - 1);
      assert tail[i - 1] == xs[i];
      SliceAfter(xs[0] + sep, Join(tail, sep), o, o + |xs[i]|);
    }
  }

  /** A separator follows every element but the last in the joined string. */
  lemma {:induction false} JoinSeparator(xs: seq<string>, sep: string, i: nat)
    requires i + 1 < |xs|
    ensures Offset(xs, sep, i) + |xs[i]| + |sep| <= |Join(xs, sep)|
    ensures Join(xs, sep)[Offset(xs, sep, i) + |xs[i]|..Offset(xs, sep, i) + |xs[i]| + |sep|] == sep
  {
    JoinCons(xs, sep);
    if i > 0 {
      var tail := xs[1..];
      JoinSeparator(tail, sep, i - 1);
      var o := Offset(tail, sep, i - 1) + |xs[i]|;
      assert tail[i - 1] == xs[i];
      SliceAfter(xs[0] + sep, Join(tail, sep), o, o + |sep|);
    }
  }
}
