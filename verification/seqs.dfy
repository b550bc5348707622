/**
 * Sequence helpers shared by the list editors and filters of the application:
 * `Array.prototype.filter`, `splice(i, 1)`, index assignment in a copied array,
 * swapping two entries, and the subsequence relation that describes a filter.
 */
module Seqs {

  /** `a` is obtained from `b` by deleting entries (order kept). */
  predicate IsSubsequence<T(==)>(a: seq<T>, b: seq<T>)
    decreases |b|
  {
    a == [] ||
    (b != [] && ((a[0] == b[0] && IsSubsequence(a[1..], b[1..])) || IsSubsequence(a, b[1..])))
  }

  /** The head and the tail of a concatenation whose first part is not empty. */
  lemma ConsAppend<T>(a: seq<T>, b: seq<T>)
    requires a != []
    ensures (a + b)[0] == a[0] && (a + b)[1..] == a[1..] + b
  {
  }

  /** Moving the head of a non-empty sequence onto the end of a prefix. */
  lemma ShiftHead<T>(a: seq<T>, s: seq<T>)
    requires s != []
    ensures a + [s[0]] + s[1..] == a + s
  {
    assert s == [s[0]] + s[1..];
  }

  /** Regrouping a concatenation of four parts. */
  lemma RegroupAppend<T>(a: seq<T>, b: seq<T>, c: seq<T>, d: seq<T>)
    ensures (a + b) + c + d == a + (b + c + d)
  {
  }

  /** Every entry of a slice is an entry of the whole. */
  lemma SliceMembers<T>(s: seq<T>, i: nat, j: nat)
    requires i <= j <= |s|
    ensures forall x :: x in s[i..j] ==> x in s
  {
    forall x | x in s[i..j] ensures x in s {
      var k :| 0 <= k < j - i && s[i..j][k] == x;
      assert s[i + k] == x;
    }
  }

  /** The two halves of a concatenation. */
  lemma AppendHalves<T>(a: seq<T>, b: seq<T>)
    ensures (a + b)[..|a|] == a && (a + b)[|a|..] == b
  {
  }

  lemma {:induction false} SubsequenceRefl<T>(a: seq<T>)
    ensures IsSubsequence(a, a)
  {
    if a != [] { SubsequenceRefl(a[1..]); }
  }

  /** Extending both sides with the same entry keeps the relation. */
  lemma {:induction false} SubsequenceAppend<T>(a: seq<T>, b: seq<T>, x: T)
    requires IsSubsequence(a, b)
    ensures IsSubsequence(a + [x], b + [x])
    decreases |b|
  {
    if a == [] {
      SubsequenceOfSingleton(b, x);
      assert a + [x] == [x];
    } else {
      assert (a + [x])[1..] == a[1..] + [x];
      assert (b + [x])[1..] == b[1..] + [x];
      if a[0] == b[0] && IsSubsequence(a[1..], b[1..]) {
        SubsequenceAppend(a[1..], b[1..], x);
      } else {
        SubsequenceAppend(a, b[1..], x);
      }
    }
  }

  lemma {:induction false} SubsequenceOfSingleton<T>(b: seq<T>, x: T)
    ensures IsSubsequence([x], b + [x])
    decreases |b|
  {
    if b != [] {
      SubsequenceOfSingleton(b[1..], x);
      assert (b + [x])[1..] == b[1..] + [x];
    }
  }

  /** Extending only the larger side keeps the relation. */
  lemma {:induction false} SubsequenceExtend<T>(a: seq<T>, b: seq<T>, x: T)
    requires IsSubsequence(a, b)
    ensures IsSubsequence(a, b + [x])
    decreases |b|
  {
    if a != [] {
      assert (b + [x])[1..] == b[1..] + [x];
      if a[0] == b[0] && IsSubsequence(a[1..], b[1..]) {
        SubsequenceExtend(a[1..], b[1..], x);
      } else {
        SubsequenceExtend(a, b[1..], x);
      }
    }
  }

  /** Every entry of a subsequence is an entry of the larger sequence. */
  lemma {:induction false} SubsequenceMembers<T>(a: seq<T>, b: seq<T>)
    requires IsSubsequence(a, b)
    ensures forall k :: 0 <= k < |a| ==> a[k] in b
    decreases |b|
  {
    if a != [] {
      if a[0] == b[0] && IsSubsequence(a[1..], b[1..]) {
        SubsequenceMembers(a[1..], b[1..]);
        assert forall k :: 1 <= k < |a| ==> a[k] == a[1..][k - 1];
      } else {
        SubsequenceMembers(a, b[1..]);
      }
    }
  }

  /** Deleting entries in two rounds is deleting entries. */
  lemma {:induction false} SubsequenceTrans<T>(a: seq<T>, b: seq<T>, c: seq<T>)
    requires IsSubsequence(a, b) && IsSubsequence(b, c)
    ensures IsSubsequence(a, c)
    decreases |c|
  {
    if a != [] {
      if IsSubsequence(b, c[1..]) {
        SubsequenceTrans(a, b, c[1..]);
      } else if a[0] == b[0] && IsSubsequence(a[1..], b[1..]) {
        SubsequenceTrans(a[1..], b[1..], c[1..]);
      } else {
        SubsequenceTrans(a, b[1..], c[1..]);
      }
    }
  }

  /** `s.filter(p)` */
  function Filter<T(==)>(s: seq<T>, p: T -> bool): (r: seq<T>)
    ensures |r| <= |s|
    ensures forall k :: 0 <= k < |r| ==> p(r[k])
    ensures forall k :: 0 <= k < |r| ==> r[k] in s
    ensures forall k :: 0 <= k < |s| && p(s[k]) ==> s[k] in r
  {
    if s == [] then []
    else if p(s[0]) then [s[0]] + Filter(s[1..], p)
    else Filter(s[1..], p)
  }

  /** A filter that no entry passes keeps nothing. */
  lemma {:induction false} FilterNone<T>(s: seq<T>, p: T -> bool)
    requires forall k :: 0 <= k < |s| ==> !p(s[k])
    ensures Filter(s, p) == []
  {
    if s != [] {
      FilterNone(s[1..], p);
    }
  }

  /** A filter keeps the kept entries in their original order. */
  lemma {:induction false} FilterIsSubsequence<T>(s: seq<T>, p: T -> bool)
    ensures IsSubsequence(Filter(s, p), s)
  {
    if s != [] {
      FilterIsSubsequence(s[1..], p);
      if p(s[0]) {
        assert Filter(s, p)[1..] == Filter(s[1..], p);
      }
    }
  }

  /** Filtering one entry keeps it exactly when it passes. */
  lemma FilterSingle<T>(v: T, p: T -> bool)
    ensures Filter([v], p) == if p(v) then [v] else []
  {
    assert [v][1..] == [];
  }

  /** A filter distributes over concatenation. */
  lemma {:induction false} FilterAppend<T>(a: seq<T>, b: seq<T>, p: T -> bool)
    ensures Filter(a + b, p) == Filter(a, p) + Filter(b, p)
  {
    if a != [] {
      FilterAppend(a[1..], b, p);
      ConsAppend(a, b);
      var rest := Filter(a[1..] + b, p);
      assert Filter(a + b, p) == (if p(a[0]) then [a[0]] + rest else rest);
    } else {
      assert a + b == b;
    }
  }

  /** The positions of the entries that pass a test. */
  function Positions<T>(s: seq<T>, p: T -> bool): set<nat>
  {
    set k: nat | k < |s| && p(s[k])
  }

  /** A filter keeps one entry for each position whose entry passes: entries are counted, not merged. */
  lemma {:induction false} FilterCountsPositions<T>(s: seq<T>, p: T -> bool)
    ensures |Filter(s, p)| == |Positions(s, p)|
    decreases |s|
  {
    if s != [] {
      var init, last := s[..|s| - 1], s[|s| - 1];
      FilterCountsPositions(init, p);
      assert s == init + [last];
      FilterAppend(init, [last], p);
      FilterSingle(last, p);
      assert forall k :: 0 <= k < |init| ==> s[k] == init[k];
      if p(last) {
        assert Positions(s, p) == Positions(init, p) + {|s| - 1};
      } else {
        assert Positions(s, p) == Positions(init, p);
      }
    }
  }

  /** Filtering twice with the same test filters once. */
  lemma {:induction false} FilterIdempotent<T>(s: seq<T>, p: T -> bool)
    ensures Filter(Filter(s, p), p) == Filter(s, p)
  {
    if s != [] {
      FilterIdempotent(s[1..], p);
      if p(s[0]) {
        assert Filter(s, p)[1..] == Filter(s[1..], p);
      }
    }
  }

  /** `s.filter((_, k) => k !== i)`: the entry at `i` is removed; an index outside the list removes nothing. */
  function RemoveAt<T>(s: seq<T>, i: int): (r: seq<T>)
    ensures 0 <= i < |s| ==> |r| == |s| - 1
    ensures 0 <= i < |s| ==> forall k :: 0 <= k < i ==> r[k] == s[k]
    ensures 0 <= i < |s| ==> forall k :: i <= k < |r| ==> r[k] == s[k + 1]
    ensures 0 <= i < |s| ==> r[..i] + [s[i]] + r[i..] == s
    ensures !(0 <= i < |s|) ==> r == s
  {
    if 0 <= i < |s| then
      var r := s[..i] + s[i + 1..];
      assert r[..i] == s[..i] && r[i..] == s[i + 1..];
      assert s[..i] + [s[i]] + s[i + 1..] == s;
      r
    else s
  }

  /** `s.splice(i, 1)`: a negative index counts from the end; an index past the end removes nothing. */
  function SpliceOne<T>(s: seq<T>, i: int): (r: seq<T>)
    ensures 0 <= i < |s| ==> r == RemoveAt(s, i)
    ensures -|s| <= i < 0 ==> r == RemoveAt(s, |s| + i)
    ensures i >= |s| ==> r == s
  {
    var start := if i < 0 then (if |s| + i < 0 then 0 else |s| + i) else i;
    RemoveAt(s, start)
  }

  /** A `slice` bound: a negative value counts from the end; the result is clamped to `0..|s|`. */
  function SliceIndex(len: nat, i: int): (k: nat)
    ensures k <= len
  {
    if i < 0 then (if len + i < 0 then 0 else len + i) else (if i > len then len else i)
  }

  /** `s.slice(start, end)` */
  function Slice<T>(s: seq<T>, start: int, end: int): (r: seq<T>)
    ensures |r| <= |s|
    ensures start <= end ==> |r| <= end - start
    ensures 0 <= start <= end <= |s| ==> r == s[start..end]
    ensures forall k :: 0 <= k < |r| ==> SliceIndex(|s|, start) + k < |s| && r[k] == s[SliceIndex(|s|, start) + k]
  {
    var b := SliceIndex(|s|, start);
    var e := SliceIndex(|s|, end);
    if b < e then s[b..e] else []
  }

  /** `[s[i], s[j]] = [s[j], s[i]]` */
  function Swap<T>(s: seq<T>, i: int, j: int): (r: seq<T>)
    requires 0 <= i < |s| && 0 <= j < |s|
    ensures |r| == |s| && r[i] == s[j] && r[j] == s[i]
    ensures forall k :: 0 <= k < |s| && k != i && k != j ==> r[k] == s[k]
    ensures multiset(r) == multiset(s)
  {
    s[i := s[j]][j := s[i]]
  }

  /** Swapping the same two entries again restores the list. */
  lemma SwapInvolution<T>(s: seq<T>, i: int, j: int)
    requires 0 <= i < |s| && 0 <= j < |s|
    ensures Swap(Swap(s, i, j), i, j) == s
  {
  }

  /** No entry occurs twice. */
  predicate NoDuplicates<T(==)>(s: seq<T>)
  {
    forall i, j :: 0 <= i < j < |s| ==> s[i] != s[j]
  }

  /** `set.add(x)` on an insertion-ordered set (a JavaScript `Set` or object keys). */
  function Insert<T(==)>(s: seq<T>, x: T): (r: seq<T>)
  {
    if x in s then s else s + [x]
  }

  /** Adding the entries of `more` one after the other; the old entries keep their places. */
  function InsertAll<T(==)>(s: seq<T>, more: seq<T>): (r: seq<T>)
    ensures |s| <= |r| && r[..|s|] == s
  {
    if more == [] then s
    else Insert(InsertAll(s, more[..|more| - 1]), more[|more| - 1])
  }

  /** Inserting keeps the set free of repeats and holds exactly the old and the new entries. */
  lemma {:induction false} InsertAllMembers<T>(s: seq<T>, more: seq<T>)
    requires NoDuplicates(s)
    ensures NoDuplicates(InsertAll(s, more))
    ensures forall x :: x in InsertAll(s, more) <==> x in s || x in more
  {
    if more != [] {
      var init := more[..|more| - 1];
      InsertAllMembers(s, init);
      assert more == init + [more[|more| - 1]];
    }
  }

  /** `[...new Set(xs)]` is as long as `xs` exactly when `xs` has no repeats. */
  lemma {:induction false} InsertAllLength<T>(s: seq<T>, more: seq<T>)
    requires NoDuplicates(s)
    ensures |InsertAll(s, more)| <= |s| + |more|
    ensures |InsertAll(s, more)| == |s| + |more| <==> NoDuplicates(s + more)
  {
    if more != [] {
      var init := more[..|more| - 1];
      var last := more[|more| - 1];
      InsertAllLength(s, init);
      InsertAllMembers(s, init);
      var before := s + init;
      assert s + more == before + [last];
      if last in InsertAll(s, init) {
        assert last in s || last in init;
        assert last in before;
        var a :| 0 <= a < |before| && before[a] == last;
        assert (s + more)[a] == last && (s + more)[|before|] == last;
      } else {
        assert last !in before;
        var after := before + [last];
        assert forall i :: 0 <= i < |before| ==> after[i] == before[i];
        assert NoDuplicates(before) ==> NoDuplicates(after);
      }
    }
  }
}
