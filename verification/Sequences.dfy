/** Sequences: parts laid one after the other, slices, and how often an element occurs. */
module Sequences {

  /** The parts, one after the other. */
  function Concat<A>(parts: seq<seq<A>>): seq<A> {
    if parts == [] then [] else Concat(parts[..|parts| - 1]) + parts[|parts| - 1]
  }

  lemma ConcatAppend<A>(parts: seq<seq<A>>, part: seq<A>)
    ensures Concat(parts + [part]) == Concat(parts) + part
  {
    assert (parts + [part])[..|parts|] == parts;
  }

  lemma ConcatNext<A>(parts: seq<seq<A>>, i: nat)
    requires i < |parts|
    ensures Concat(parts[..i + 1]) == Concat(parts[..i]) + parts[i]
  {
    assert parts[..i + 1] == parts[..i] + [parts[i]];
    ConcatAppend(parts[..i], parts[i]);
  }

  lemma {:induction false} ConcatOfEmpty<A>(parts: seq<seq<A>>)
    requires forall i :: 0 <= i < |parts| ==> parts[i] == []
    ensures Concat(parts) == []
  {
    if parts != [] {
      ConcatOfEmpty(parts[..|parts| - 1]);
    }
  }

  lemma {:induction false} ConcatPrefix<A>(parts: seq<seq<A>>, i: nat)
    requires i <= |parts|
    ensures Concat(parts[..i]) <= Concat(parts)
    decreases |parts|
  {
    if i == |parts| {
      assert parts[..i] == parts;
    } else {
      var front := parts[..|parts| - 1];
      ConcatPrefix(front, i);
      assert front[..i] == parts[..i];
    }
  }

  /** Part i lies between the end of the parts before it and its own end. */
  lemma PartInConcat<A>(parts: seq<seq<A>>, i: nat)
    requires i < |parts|
    ensures |Concat(parts[..i + 1])| == |Concat(parts[..i])| + |parts[i]| <= |Concat(parts)|
    ensures Concat(parts)[|Concat(parts[..i])|..|Concat(parts[..i + 1])|] == parts[i]
  {
    ConcatNext(parts, i);
    ConcatPrefix(parts, i + 1);
  }

  lemma SliceOfSlice<A>(all: seq<A>, start: nat, end: nat, from: nat, to: nat)
    requires start <= from <= to <= end <= |all|
    ensures all[start..end][from - start..to - start] == all[from..to]
  {
    var inner := all[start..end][from - start..to - start];
    assert |inner| == |all[from..to]| && forall k :: 0 <= k < to - from ==> inner[k] == all[from..to][k];
  }

  /** How often x occurs. */
  ghost function Count<A>(items: seq<A>, x: A): nat {
    if items == [] then 0 else Count(items[..|items| - 1], x) + if items[|items| - 1] == x then 1 else 0
  }

  lemma {:induction false} CountConcat<A>(a: seq<A>, b: seq<A>, x: A)
    ensures Count(a + b, x) == Count(a, x) + Count(b, x)
  {
    if b == [] {
      assert a + b == a;
    } else {
      CountConcat(a, b[..|b| - 1], x);
      assert (a + b)[..|a + b| - 1] == a + b[..|b| - 1];
    }
  }
}
