/**
 * Sequence operations with the meaning the site gives them: Python's `zip`,
 * SQL's `WHERE` filter, `fetchone` (the first matching row), and the list of
 * positions a row-selection rule keeps.
 */
module Seqs {

  datatype Option<+T> = None | Some(value: T)

  function Min(a: nat, b: nat): nat
  {
    if a <= b then a else b
  }

  /** Python's `zip` of two lists: the i-th elements paired, stopping at the shorter list. */
  function Zip<A, B>(xs: seq<A>, ys: seq<B>): (r: seq<(A, B)>)
    ensures |r| == Min(|xs|, |ys|)
    ensures forall i :: 0 <= i < |r| ==> r[i] == (xs[i], ys[i])
  {
    if xs == [] || ys == [] then []
    else [(xs[0], ys[0])] + Zip(xs[1..], ys[1..])
  }

  /** Python's `zip` of four lists, stopping at the shortest. */
  function Zip4<A, B, C, D>(ws: seq<A>, xs: seq<B>, ys: seq<C>, zs: seq<D>): (r: seq<(A, B, C, D)>)
    ensures |r| == Min(Min(|ws|, |xs|), Min(|ys|, |zs|))
    ensures forall i :: 0 <= i < |r| ==> r[i] == (ws[i], xs[i], ys[i], zs[i])
  {
    if ws == [] || xs == [] || ys == [] || zs == [] then []
    else [(ws[0], xs[0], ys[0], zs[0])] + Zip4(ws[1..], xs[1..], ys[1..], zs[1..])
  }

  /** SQL's `WHERE`: the rows that satisfy `keep`, in table order. */
  function Where<T(!new)>(s: seq<T>, keep: T -> bool): (r: seq<T>)
    ensures |r| <= |s|
    ensures forall x :: x in r <==> x in s && keep(x)
    ensures forall x {:trigger multiset(r)[x]} :: multiset(r)[x] == if keep(x) then multiset(s)[x] else 0
  {
    if s == [] then []
    else
      assert s == [s[0]] + s[1..];
      (if keep(s[0]) then [s[0]] else []) + Where(s[1..], keep)
  }

  /** Filtering a concatenation filters each part. */
  lemma {:induction false} WhereAppend<T(!new)>(a: seq<T>, b: seq<T>, keep: T -> bool)
    ensures Where(a + b, keep) == Where(a, keep) + Where(b, keep)
  {
    if a == [] {
      assert a + b == b;
    } else {
      assert (a + b)[1..] == a[1..] + b;
      WhereAppend(a[1..], b, keep);
    }
  }

  /** A filter every row passes returns the table unchanged. */
  lemma {:induction false} WhereAll<T(!new)>(s: seq<T>, keep: T -> bool)
    requires forall x :: x in s ==> keep(x)
    ensures Where(s, keep) == s
  {
    if s != [] {
      WhereAll(s[1..], keep);
      assert s == [s[0]] + s[1..];
    }
  }

  /** A filter no row passes returns nothing. */
  lemma {:induction false} WhereNone<T(!new)>(s: seq<T>, keep: T -> bool)
    requires forall x :: x in s ==> !keep(x)
    ensures Where(s, keep) == []
  {
    if s != [] {
      WhereNone(s[1..], keep);
    }
  }

  /** Appending rows that all pass a filter no old row passes: the filter returns exactly the new rows. */
  lemma WhereAppendFresh<T(!new)>(a: seq<T>, rows: seq<T>, keep: T -> bool)
    requires forall x :: x in a ==> !keep(x)
    requires forall x :: x in rows ==> keep(x)
    ensures Where(a + rows, keep) == rows
  {
    WhereAppend(a, rows, keep);
    WhereAll(rows, keep);
    WhereNone(a, keep);
  }

  /** Appending rows that all fail a filter does not change what the filter returns. */
  lemma WhereAppendMiss<T(!new)>(a: seq<T>, rows: seq<T>, keep: T -> bool)
    requires forall x :: x in rows ==> !keep(x)
    ensures Where(a + rows, keep) == Where(a, keep)
  {
    WhereAppend(a, rows, keep);
    WhereNone(rows, keep);
  }

  /** `fetchone` after a `WHERE`: the first row of `s` that satisfies `p`. */
  function First<T(!new)>(s: seq<T>, p: T -> bool): (r: Option<T>)
    ensures r.Some? ==> r.value in s && p(r.value)
    ensures r.None? <==> forall x :: x in s ==> !p(x)
  {
    if s == [] then None
    else if p(s[0]) then Some(s[0])
    else First(s[1..], p)
  }

  /** The first match in a concatenation is the first match of the front part, if any. */
  lemma {:induction false} FirstAppend<T(!new)>(a: seq<T>, b: seq<T>, p: T -> bool)
    ensures First(a + b, p) == if First(a, p).Some? then First(a, p) else First(b, p)
  {
    if a == [] {
      assert a + b == b;
    } else {
      assert (a + b)[1..] == a[1..] + b;
      FirstAppend(a[1..], b, p);
    }
  }

  /** Removing only rows that `p` rejects does not change the first row `p` accepts. */
  lemma {:induction false} FirstWhere<T(!new)>(s: seq<T>, keep: T -> bool, p: T -> bool)
    requires forall x :: p(x) ==> keep(x)
    ensures First(Where(s, keep), p) == First(s, p)
  {
    if s != [] {
      FirstWhere(s[1..], keep, p);
      if keep(s[0]) {
        assert Where(s, keep) == [s[0]] + Where(s[1..], keep);
        assert Where(s, keep)[0] == s[0];
        assert Where(s, keep)[1..] == Where(s[1..], keep);
      } else {
        assert Where(s, keep) == Where(s[1..], keep);
      }
    }
  }

  /**
   * The positions of `s` whose element `keep` accepts, in increasing order:
   * exactly the iterations of a `for` loop over `s` whose `if` is taken.
   */
  function KeptIndices<T>(s: seq<T>, keep: T -> bool): (idx: seq<nat>)
    ensures forall k :: 0 <= k < |idx| ==> idx[k] < |s| && keep(s[idx[k]])
    ensures forall k, l :: 0 <= k < l < |idx| ==> idx[k] < idx[l]
    ensures forall i :: 0 <= i < |s| && keep(s[i]) ==> i in idx
  {
    if s == [] then []
    else
      var n := |s| - 1;
      KeptIndices(s[..n], keep) + (if keep(s[n]) then [n] else [])
  }

  /**
   * `WHERE` keeps row order: the k-th row it returns is the row at the k-th
   * position the condition accepts.
   */
  lemma {:induction false} WhereFollowsKept<T(!new)>(s: seq<T>, keep: T -> bool)
    ensures |Where(s, keep)| == |KeptIndices(s, keep)|
    ensures forall k :: 0 <= k < |Where(s, keep)| ==>
      Where(s, keep)[k] == s[KeptIndices(s, keep)[k]]
  {
    if s != [] {
      var n := |s| - 1;
      var front := s[..n];
      WhereFollowsKept(front, keep);
      assert s == front + [s[n]];
      WhereAppend(front, [s[n]], keep);
      var last := if keep(s[n]) then [s[n]] else [];
      assert Where([s[n]], keep) == last by {
        assert [s[n]][1..] == [];
      }
      var w, idx := Where(front, keep), KeptIndices(front, keep);
      assert Where(s, keep) == w + last;
      assert KeptIndices(s, keep) == idx + (if keep(s[n]) then [n] else []);
      forall k | 0 <= k < |w| ensures w[k] == s[idx[k]] {
        assert front[idx[k]] == s[idx[k]];
      }
    }
  }
}
