/**
 * The array operations the board is written with -- `filter`, `find`,
 * `findIndex` and a one-element `splice` -- as functions on sequences,
 * together with the facts about them that the board's proofs rely on.
 */
module Seqs {
  import opened Wrappers

  /** `Array.prototype.filter`: the elements of `s` that `keep` accepts, in their original order. */
  function Filter<T(!new)>(s: seq<T>, keep: T -> bool): (r: seq<T>)
    ensures |r| <= |s|
    ensures forall x {:trigger x in r} :: x in r <==> x in s && keep(x)
  {
    if s == [] then []
    else if keep(s[0]) then [s[0]] + Filter(s[1..], keep)
    else Filter(s[1..], keep)
  }

  /** `Array.prototype.findIndex`: the position of the first element `p` accepts, or -1. */
  function FindIndex<T(!new)>(s: seq<T>, p: T -> bool): (i: int)
    ensures -1 <= i < |s|
    ensures i == -1 <==> forall j :: 0 <= j < |s| ==> !p(s[j])
    ensures 0 <= i ==> p(s[i]) && forall j :: 0 <= j < i ==> !p(s[j])
  {
    if s == [] then -1
    else if p(s[0]) then 0
    else
      var i := FindIndex(s[1..], p);
      if i < 0 then -1 else i + 1
  }

  /** `Array.prototype.find`: the first element `p` accepts, if there is one. */
  function Find<T(!new)>(s: seq<T>, p: T -> bool): (r: Option<T>)
    ensures r.None? <==> forall x :: x in s ==> !p(x)
    ensures r.Some? ==> r.value in s && p(r.value)
    ensures r.Some? ==> exists i :: 0 <= i < |s| && s[i] == r.value && forall j :: 0 <= j < i ==> !p(s[j])
  {
    var i := FindIndex(s, p);
    if i < 0 then None else Some(s[i])
  }

  /**
   * The position at which `splice(start, 0, x)` inserts into an array of
   * length `len`: a negative start counts back from the end and stops at 0,
   * a start past the end appends.
   */
  function SpliceIndex(len: nat, start: int): (k: nat)
    ensures k <= len
    ensures 0 <= start ==> k == if start <= len then start else len
  {
    if start < 0 then (if len + start < 0 then 0 else len + start)
    else if start > len then len
    else start
  }

  /** `s` with `x` placed at position `k`, everything from `k` on shifted one place right. */
  function Insert<T(!new)>(s: seq<T>, k: nat, x: T): (r: seq<T>)
    requires k <= |s|
    ensures |r| == |s| + 1 && r[k] == x
    ensures r[..k] == s[..k] && r[k + 1..] == s[k..]
    ensures forall y :: y in r <==> y in s || y == x
  {
    assert s == s[..k] + s[k..];
    s[..k] + [x] + s[k..]
  }

  /** `splice(start, 0, x)` on an array holding `s`, as a new sequence. */
  function Splice<T(!new)>(s: seq<T>, start: int, x: T): (r: seq<T>)
    ensures var k := SpliceIndex(|s|, start);
            && |r| == |s| + 1 && r[k] == x
            && r[..k] == s[..k] && r[k + 1..] == s[k..]
  {
    Insert(s, SpliceIndex(|s|, start), x)
  }

  lemma {:induction false} FilterConcat<T(!new)>(a: seq<T>, b: seq<T>, keep: T -> bool)
    ensures Filter(a + b, keep) == Filter(a, keep) + Filter(b, keep)
  {
    if a == [] {
      assert a + b == b;
    } else {
      var rest := a[1..] + b;
      assert (a + b)[0] == a[0] && (a + b)[1..] == rest;
      FilterConcat(a[1..], b, keep);
      if keep(a[0]) {
        calc {
          Filter(a + b, keep);
          [a[0]] + Filter(rest, keep);
          [a[0]] + (Filter(a[1..], keep) + Filter(b, keep));
          ([a[0]] + Filter(a[1..], keep)) + Filter(b, keep);
          Filter(a, keep) + Filter(b, keep);
        }
      } else {
        calc {
          Filter(a + b, keep);
          Filter(rest, keep);
          Filter(a, keep) + Filter(b, keep);
        }
      }
    }
  }

  /** Two filters can be applied in either order. */
  lemma {:induction false} FilterCommute<T(!new)>(s: seq<T>, f: T -> bool, g: T -> bool)
    ensures Filter(Filter(s, f), g) == Filter(Filter(s, g), f)
  {
    if s != [] {
      var head, tail := [s[0]], s[1..];
      assert s == head + tail;
      FilterConcat(head, tail, f);
      FilterConcat(head, tail, g);
      FilterConcat(Filter(head, f), Filter(tail, f), g);
      FilterConcat(Filter(head, g), Filter(tail, g), f);
      FilterCommute(tail, f, g);
    }
  }

  lemma {:induction false} FilterAllKept<T(!new)>(s: seq<T>, keep: T -> bool)
    requires forall j :: 0 <= j < |s| ==> keep(s[j])
    ensures Filter(s, keep) == s
  {
    if s != [] {
      FilterAllKept(s[1..], keep);
    }
  }

  lemma FilterAllMembersKept<T(!new)>(s: seq<T>, keep: T -> bool)
    requires forall x :: x in s ==> keep(x)
    ensures Filter(s, keep) == s
  {
    assert forall j :: 0 <= j < |s| ==> s[j] in s;
    FilterAllKept(s, keep);
  }

  lemma FilterNoneKept<T(!new)>(s: seq<T>, keep: T -> bool)
    requires forall x :: x in s ==> !keep(x)
    ensures Filter(s, keep) == []
  {
  }

  /** A filter and its complement split a sequence's length between them. */
  lemma {:induction false} FilterComplementLength<T(!new)>(s: seq<T>, f: T -> bool, g: T -> bool)
    requires forall x :: x in s ==> g(x) == !f(x)
    ensures |Filter(s, f)| + |Filter(s, g)| == |s|
  {
    if s != [] {
      assert forall x :: x in s[1..] ==> x in s;
      FilterComplementLength(s[1..], f, g);
    }
  }

  /** Filtering first never adds occurrences of anything. */
  lemma FilterCountMonotone<T(!new)>(s: seq<T>, f: T -> bool, g: T -> bool)
    ensures |Filter(Filter(s, f), g)| <= |Filter(s, g)|
  {
    FilterCommute(s, f, g);
  }

  /** Sequences of equal length whose elements meet two predicates position by position pass equally many. */
  lemma {:induction false} FilterPointwise<T(!new), U(!new)>(a: seq<T>, b: seq<U>, f: T -> bool, g: U -> bool)
    requires |a| == |b|
    requires forall i :: 0 <= i < |a| ==> f(a[i]) == g(b[i])
    ensures |Filter(a, f)| == |Filter(b, g)|
  {
    if a != [] {
      assert forall i :: 0 <= i < |a[1..]| ==> a[1..][i] == a[i + 1] && b[1..][i] == b[i + 1];
      FilterPointwise(a[1..], b[1..], f, g);
    }
  }

  lemma FilterInsert<T(!new)>(s: seq<T>, k: nat, x: T, keep: T -> bool)
    requires k <= |s|
    ensures Filter(Insert(s, k, x), keep)
         == Filter(s[..k], keep) + (if keep(x) then [x] else []) + Filter(s[k..], keep)
  {
    FilterConcat(s[..k] + [x], s[k..], keep);
    FilterConcat(s[..k], [x], keep);
  }

  /** A prefix whose positions all pass the filter comes through it unchanged. */
  lemma FilterKeepsPrefix<T(!new)>(s: seq<T>, keep: T -> bool, k: nat)
    requires k <= |s|
    requires forall j :: 0 <= j < k ==> keep(s[j])
    ensures Filter(s[..k], keep) == s[..k]
  {
    var front := s[..k];
    forall j | 0 <= j < |front| ensures keep(front[j]) { assert front[j] == s[j]; }
    FilterAllKept(front, keep);
  }

  /** A suffix whose positions all pass the filter comes through it unchanged. */
  lemma FilterKeepsSuffix<T(!new)>(s: seq<T>, keep: T -> bool, k: nat)
    requires k <= |s|
    requires forall j :: k <= j < |s| ==> keep(s[j])
    ensures Filter(s[k..], keep) == s[k..]
  {
    var back := s[k..];
    forall j | 0 <= j < |back| ensures keep(back[j]) { assert back[j] == s[k + j]; }
    FilterAllKept(back, keep);
  }

  /** Filtering out an inserted element that alone fails the filter gives back the original. */
  lemma FilterDropsInserted<T(!new)>(s: seq<T>, k: nat, x: T, keep: T -> bool)
    requires k <= |s| && !keep(x)
    requires forall y :: y in s ==> keep(y)
    ensures Filter(Insert(s, k, x), keep) == s
  {
    forall j | 0 <= j < |s| ensures keep(s[j]) { assert s[j] in s; }
    FilterKeepsPrefix(s, keep, k);
    FilterKeepsSuffix(s, keep, k);
    FilterInsert(s, k, x, keep);
    Rejoin(s, k);
  }

  /** Inserting an element the filter accepts into a sequence it keeps whole keeps the result whole. */
  lemma FilterKeepsInserted<T(!new)>(s: seq<T>, k: nat, x: T, keep: T -> bool)
    requires k <= |s| && keep(x)
    requires forall y :: y in s ==> keep(y)
    ensures Filter(Insert(s, k, x), keep) == Insert(s, k, x)
  {
    forall j | 0 <= j < |s| ensures keep(s[j]) { assert s[j] in s; }
    FilterKeepsPrefix(s, keep, k);
    FilterKeepsSuffix(s, keep, k);
    FilterInsert(s, k, x, keep);
  }

  /** When at most one element passes `p` and `s[i]` does, no other position does. */
  lemma OnlyKeptAt<T(!new)>(s: seq<T>, p: T -> bool, i: nat)
    requires i < |s| && p(s[i])
    requires |Filter(s, p)| <= 1
    ensures forall j :: 0 <= j < |s| && j != i ==> !p(s[j])
  {
    assert s == s[..i] + [s[i]] + s[i + 1..];
    FilterConcat(s[..i] + [s[i]], s[i + 1..], p);
    FilterConcat(s[..i], [s[i]], p);
    assert Filter(s[..i], p) == [] && Filter(s[i + 1..], p) == [];
    forall j | 0 <= j < |s| && j != i
      ensures !p(s[j])
    {
      if j < i {
        assert s[j] in s[..i] && s[j] !in Filter(s[..i], p);
      } else {
        assert s[j] in s[i + 1..] && s[j] !in Filter(s[i + 1..], p);
      }
    }
  }

  /** A filter that drops exactly position `i` leaves everything else in place. */
  lemma DropOnlyAt<T(!new)>(s: seq<T>, keep: T -> bool, i: nat)
    requires i < |s|
    requires forall j :: 0 <= j < |s| ==> (keep(s[j]) <==> j != i)
    ensures Filter(s, keep) == s[..i] + s[i + 1..]
  {
    FilterKeepsPrefix(s, keep, i);
    FilterKeepsSuffix(s, keep, i + 1);
    FilterSkipsAt(s, keep, i);
  }

  /** An element the filter rejects splits the result into what comes before it and what comes after. */
  lemma FilterSkipsAt<T(!new)>(s: seq<T>, keep: T -> bool, i: nat)
    requires i < |s| && !keep(s[i])
    ensures Filter(s, keep) == Filter(s[..i], keep) + Filter(s[i + 1..], keep)
  {
    Rejoin(s, i);
    FilterSkipsOne(s[..i], s[i], s[i + 1..], keep);
  }

  lemma FilterSkipsOne<T(!new)>(a: seq<T>, x: T, b: seq<T>, keep: T -> bool)
    requires !keep(x)
    ensures Filter(a + [x] + b, keep) == Filter(a, keep) + Filter(b, keep)
  {
    assert Filter([x], keep) == [] by {
      assert [x][1..] == [];
    }
    FilterConcat(a + [x], b, keep);
    FilterConcat(a, [x], keep);
    assert Filter(a, keep) + [] == Filter(a, keep);
  }

  /** Cutting a sequence at `k` and putting the pieces back together gives it back. */
  lemma Rejoin<T>(s: seq<T>, k: nat)
    requires k <= |s|
    ensures s[..k] + [] + s[k..] == s
    ensures k < |s| ==> s[..k] + [s[k]] + s[k + 1..] == s
  {
  }
}
