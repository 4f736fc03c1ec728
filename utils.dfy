/** `find_sub_sequences` (astexplorer/utils.py): a greedy matcher that
    finds runs of pairwise "equal" items of two lists, scanning the first
    list left to right. It stands apart from the comparer. */
module Utils {
  /** `Sequence(a, b)`: a run of `count` pairs starting at `startA` in the
      first list and `startB` in the second. */
  datatype Sequence = Sequence(startA: nat, startB: nat, count: nat)

  /** The run lies within both lists and all its pairs compare equal. */
  predicate Matching<T>(a: seq<T>, b: seq<T>, cmp: (T, T) -> bool, s: Sequence)
  {
    s.startA + s.count <= |a| && s.startB + s.count <= |b| &&
    forall x | s.startA <= x < s.startA + s.count :: cmp(a[x], b[s.startB + (x - s.startA)])
  }

  /** The run cannot grow: it ends at the end of a list or just before a
      pair that compares unequal. */
  predicate RightMaximal<T>(a: seq<T>, b: seq<T>, cmp: (T, T) -> bool, s: Sequence)
    requires Matching(a, b, cmp, s)
  {
    s.startA + s.count == |a| || s.startB + s.count == |b| ||
    !cmp(a[s.startA + s.count], b[s.startB + s.count])
  }

  /** A run as `find_sub_sequences` reports it. */
  predicate Maximal<T>(a: seq<T>, b: seq<T>, cmp: (T, T) -> bool, s: Sequence)
  {
    s.count >= 1 && Matching(a, b, cmp, s) && RightMaximal(a, b, cmp, s)
  }

  /** Every run is a maximal one, and their first positions in `a` never
      decrease. */
  predicate Found<T>(a: seq<T>, b: seq<T>, cmp: (T, T) -> bool, seqs: seq<Sequence>)
  {
    (forall r | 0 <= r < |seqs| :: Maximal(a, b, cmp, seqs[r])) &&
    (forall r | 0 < r < |seqs| :: seqs[r - 1].startA <= seqs[r].startA)
  }

  /** No pair from (x0, y0) up to but excluding (x1, y1), in the order rows
      of `a` by columns of `b`, compares equal. */
  predicate NoMatchBetween<T>(a: seq<T>, b: seq<T>, cmp: (T, T) -> bool, x0: int, y0: int, x1: int, y1: int)
  {
    forall x, y | 0 <= x < |a| && 0 <= y < |b| && (x0 < x || (x == x0 && y0 <= y)) && (x < x1 || (x == x1 && y < y1)) ::
      !cmp(a[x], b[y])
  }

  /** The pair (x, y) comes at or after (x0, y0) in the scan order, rows of
      `a` by columns of `b`. */
  predicate NotBefore(x0: int, y0: int, x: int, y: int)
  {
    x0 < x || (x0 == x && y0 <= y)
  }

  /** Where the scan resumes after the runs `seqs`: at the start, or on the
      row of the last run's last pair, two columns after that pair (the
      column just after the run is skipped). */
  function ResumeA(seqs: seq<Sequence>): int
  {
    if seqs == [] then 0 else seqs[|seqs| - 1].startA + seqs[|seqs| - 1].count - 1
  }

  function ResumeB(seqs: seq<Sequence>): int
  {
    if seqs == [] then 0 else seqs[|seqs| - 1].startB + seqs[|seqs| - 1].count + 1
  }

  /** Each run starts at the first pair that compares equal from where the
      scan resumed after the runs before it: the start for the first run,
      else the resume point of the run before, at or after which it lies. */
  predicate Greedy<T>(a: seq<T>, b: seq<T>, cmp: (T, T) -> bool, seqs: seq<Sequence>)
  {
    (seqs != [] ==> NoMatchBetween(a, b, cmp, 0, 0, seqs[0].startA, seqs[0].startB)) &&
    forall r | 0 < r < |seqs| ::
      NotBefore(seqs[r - 1].startA + seqs[r - 1].count - 1, seqs[r - 1].startB + seqs[r - 1].count + 1,
                seqs[r].startA, seqs[r].startB) &&
      NoMatchBetween(a, b, cmp, seqs[r - 1].startA + seqs[r - 1].count - 1, seqs[r - 1].startB + seqs[r - 1].count + 1,
                     seqs[r].startA, seqs[r].startB)
  }

  /** `find_sub_sequences(list_a, list_b, compare_f)`: for each position i
      of `a`, scans `b`; at a pair that compares equal it opens a run and
      extends it while the next pairs compare equal, then resumes the scan
      of `b` after the run with i at the run's last position in `a`. */
  method FindSubSequences<T>(a: seq<T>, b: seq<T>, cmp: (T, T) -> bool) returns (seqs: seq<Sequence>)
    ensures Complete(a, b, cmp, seqs)
    ensures (|a| == 0 || |b| == 0) ==> seqs == []
  {
    seqs := [];
    var i := -1;
    while i < |a| - 1
      invariant i == -1 || 0 <= i < |a|
      invariant Found(a, b, cmp, seqs) && (seqs != [] ==> seqs[|seqs| - 1].startA <= ResumeA(seqs) <= i)
      invariant Greedy(a, b, cmp, seqs) && NoMatchBetween(a, b, cmp, ResumeA(seqs), ResumeB(seqs), i + 1, 0)
      invariant |b| == 0 ==> seqs == []
      decreases |a| - i
    {
      i := i + 1;
      seqs, i := Pass(a, b, cmp, seqs, i);
    }
  }

  /** One pass of the outer loop: scans `b` against position `i` of `a`,
      which moves to the last position of each run found. */
  method Pass<T>(a: seq<T>, b: seq<T>, cmp: (T, T) -> bool, seqs: seq<Sequence>, i: nat)
    returns (seqs': seq<Sequence>, i': nat)
    requires i < |a| && Found(a, b, cmp, seqs) && (seqs != [] ==> seqs[|seqs| - 1].startA <= ResumeA(seqs) < i)
    requires Greedy(a, b, cmp, seqs) && NoMatchBetween(a, b, cmp, ResumeA(seqs), ResumeB(seqs), i, 0)
    ensures i <= i' < |a| && seqs <= seqs' && (seqs' == seqs ==> i' == i)
    ensures Found(a, b, cmp, seqs') && (seqs' != [] ==> seqs'[|seqs'| - 1].startA <= ResumeA(seqs') <= i')
    ensures Greedy(a, b, cmp, seqs') && NoMatchBetween(a, b, cmp, ResumeA(seqs'), ResumeB(seqs'), i' + 1, 0)
    ensures |b| == 0 ==> seqs' == seqs
  {
    seqs', i' := seqs, i;
    var j := -1;
    while j < |b| - 1
      invariant i <= i' < |a| && -1 <= j <= |b| && seqs <= seqs' && (seqs' == seqs ==> i' == i)
      invariant Found(a, b, cmp, seqs') && (seqs' != [] ==> seqs'[|seqs'| - 1].startA <= i')
      invariant seqs' != [] ==> NotBefore(ResumeA(seqs'), ResumeB(seqs'), i', j + 1)
      invariant Greedy(a, b, cmp, seqs') && NoMatchBetween(a, b, cmp, ResumeA(seqs'), ResumeB(seqs'), i', j + 1)
      decreases |b| - j
    {
      seqs', i', j := Probe(a, b, cmp, seqs', i', j + 1);
    }
    NoMatchNextRow(a, b, cmp, ResumeA(seqs'), ResumeB(seqs'), i', j + 1);
  }

  /** One pass of the middle loop: the pair (i, j); when it compares equal,
      the run from it is appended, and the scan moves to the run's last
      pair. */
  method Probe<T>(a: seq<T>, b: seq<T>, cmp: (T, T) -> bool, seqs: seq<Sequence>, i: nat, j: nat)
    returns (seqs': seq<Sequence>, i': nat, j': nat)
    requires i < |a| && j < |b| && Found(a, b, cmp, seqs) && (seqs != [] ==> seqs[|seqs| - 1].startA <= i)
    requires seqs != [] ==> NotBefore(ResumeA(seqs), ResumeB(seqs), i, j)
    requires Greedy(a, b, cmp, seqs) && NoMatchBetween(a, b, cmp, ResumeA(seqs), ResumeB(seqs), i, j)
    ensures i <= i' < |a| && j <= j' <= |b| && seqs <= seqs' && (seqs' == seqs ==> i' == i && j' == j)
    ensures Found(a, b, cmp, seqs') && (seqs' != [] ==> seqs'[|seqs'| - 1].startA <= i')
    ensures seqs' != [] ==> NotBefore(ResumeA(seqs'), ResumeB(seqs'), i', j' + 1)
    ensures Greedy(a, b, cmp, seqs') && NoMatchBetween(a, b, cmp, ResumeA(seqs'), ResumeB(seqs'), i', j' + 1)
  {
    seqs', i', j' := seqs, i, j;
    if cmp(a[i], b[j]) {
      var k: nat;
      seqs', k, j' := Run(a, b, cmp, seqs, i, j);
      GreedyAppend(a, b, cmp, seqs, seqs'[|seqs'| - 1]);
      i' := k - 1;
    } else {
      NoMatchExtend(a, b, cmp, ResumeA(seqs), ResumeB(seqs), i, j);
    }
  }

  /** The innermost loop: opens the run at (i, j) and extends it while the
      next pairs compare equal. `k` and `j'` are the positions just after
      the run. */
  method Run<T>(a: seq<T>, b: seq<T>, cmp: (T, T) -> bool, seqs: seq<Sequence>, i: nat, j: nat)
    returns (seqs': seq<Sequence>, k: nat, j': nat)
    requires i < |a| && j < |b| && cmp(a[i], b[j])
    requires Found(a, b, cmp, seqs) && (seqs != [] ==> seqs[|seqs| - 1].startA <= i)
    ensures i < k <= |a| && j' == j + (k - i) <= |b|
    ensures seqs' == seqs + [Sequence(i, j, k - i)]
    ensures Found(a, b, cmp, seqs')
  {
    seqs' := seqs + [Sequence(i, j, 1)];
    k, j' := i + 1, j + 1;
    while k < |a| && j' < |b|
      invariant i < k <= |a| && j' == j + (k - i) <= |b|
      invariant seqs' == seqs + [Sequence(i, j, k - i)]
      invariant forall x | i <= x < k :: cmp(a[x], b[j + (x - i)])
      decreases |a| - k
    {
      if !cmp(a[k], b[j']) {
        break;
      }
      seqs' := seqs'[|seqs'| - 1 := seqs'[|seqs'| - 1].(count := seqs'[|seqs'| - 1].count + 1)];
      k, j' := k + 1, j' + 1;
    }
    assert Matching(a, b, cmp, Sequence(i, j, k - i));
    FoundAppend(a, b, cmp, seqs, Sequence(i, j, k - i));
  }

  /** A pair that compares unequal extends the range with no match by one. */
  lemma {:induction false} NoMatchExtend<T>(a: seq<T>, b: seq<T>, cmp: (T, T) -> bool, x0: int, y0: int, x: nat, y: nat)
    requires NoMatchBetween(a, b, cmp, x0, y0, x, y) && x < |a| && y < |b| && !cmp(a[x], b[y])
    ensures NoMatchBetween(a, b, cmp, x0, y0, x, y + 1)
  {
  }

  /** A range with no match that reaches the end of a row reaches the start
      of the next one. */
  lemma {:induction false} NoMatchNextRow<T>(a: seq<T>, b: seq<T>, cmp: (T, T) -> bool, x0: int, y0: int, x: int, y: int)
    requires NoMatchBetween(a, b, cmp, x0, y0, x, y) && y >= |b|
    ensures NoMatchBetween(a, b, cmp, x0, y0, x + 1, 0)
  {
  }

  lemma {:induction false} GreedyAppend<T>(a: seq<T>, b: seq<T>, cmp: (T, T) -> bool, seqs: seq<Sequence>, s: Sequence)
    requires Greedy(a, b, cmp, seqs) && NoMatchBetween(a, b, cmp, ResumeA(seqs), ResumeB(seqs), s.startA, s.startB)
    requires seqs != [] ==> NotBefore(ResumeA(seqs), ResumeB(seqs), s.startA, s.startB)
    ensures Greedy(a, b, cmp, seqs + [s])
  {
    var seqs' := seqs + [s];
    forall r | 0 < r < |seqs'|
      ensures NotBefore(seqs'[r - 1].startA + seqs'[r - 1].count - 1, seqs'[r - 1].startB + seqs'[r - 1].count + 1,
                        seqs'[r].startA, seqs'[r].startB)
      ensures NoMatchBetween(a, b, cmp, seqs'[r - 1].startA + seqs'[r - 1].count - 1, seqs'[r - 1].startB + seqs'[r - 1].count + 1,
                             seqs'[r].startA, seqs'[r].startB)
    {
      if r < |seqs| {
        assert seqs'[r - 1] == seqs[r - 1] && seqs'[r] == seqs[r];
      }
    }
  }

  lemma FoundAppend<T>(a: seq<T>, b: seq<T>, cmp: (T, T) -> bool, seqs: seq<Sequence>, s: Sequence)
    requires Found(a, b, cmp, seqs) && Maximal(a, b, cmp, s)
    requires seqs != [] ==> seqs[|seqs| - 1].startA <= s.startA
    ensures Found(a, b, cmp, seqs + [s])
  {
    var seqs' := seqs + [s];
    forall r | 0 <= r < |seqs'| ensures Maximal(a, b, cmp, seqs'[r]) {
      if r < |seqs| {
        assert seqs'[r] == seqs[r];
      }
    }
  }

  /** What `FindSubSequences` ensures of its result. */
  predicate Complete<T>(a: seq<T>, b: seq<T>, cmp: (T, T) -> bool, seqs: seq<Sequence>)
  {
    Found(a, b, cmp, seqs) && Greedy(a, b, cmp, seqs) &&
    NoMatchBetween(a, b, cmp, ResumeA(seqs), ResumeB(seqs), |a|, 0)
  }

  /** The contract of `FindSubSequences` fixes its result: two lists of runs
      that both meet it are the same list. */
  lemma {:induction false} CompleteUnique<T>(a: seq<T>, b: seq<T>, cmp: (T, T) -> bool, s1: seq<Sequence>, s2: seq<Sequence>)
    requires Complete(a, b, cmp, s1) && Complete(a, b, cmp, s2)
    ensures s1 == s2
  {
    var n := if |s1| <= |s2| then |s1| else |s2|;
    CompleteAgree(a, b, cmp, s1, s2, n);
    if |s1| < |s2| {
      NextRun(a, b, cmp, s1, s2);
      NoRunAfter(a, b, cmp, ResumeA(s1), ResumeB(s1), s2[|s1|]);
      assert false;
    } else if |s2| < |s1| {
      NextRun(a, b, cmp, s2, s1);
      NoRunAfter(a, b, cmp, ResumeA(s2), ResumeB(s2), s1[|s2|]);
      assert false;
    } else {
      assert s1 == s1[..n] == s2[..n] == s2;
    }
  }

  /** The first `n` runs of two complete lists agree. */
  lemma {:induction false} CompleteAgree<T>(a: seq<T>, b: seq<T>, cmp: (T, T) -> bool, s1: seq<Sequence>, s2: seq<Sequence>, n: nat)
    requires Complete(a, b, cmp, s1) && Complete(a, b, cmp, s2) && n <= |s1| && n <= |s2|
    ensures s1[..n] == s2[..n]
  {
    if n > 0 {
      CompleteAgree(a, b, cmp, s1, s2, n - 1);
      var r := n - 1;
      var p, q := s1[r], s2[r];
      if r == 0 {
        SameStart(a, b, cmp, 0, 0, p, q);
      } else {
        assert s1[r - 1] == s1[..n - 1][r - 1] == s2[..n - 1][r - 1] == s2[r - 1];
        var t := s1[r - 1];
        SameStart(a, b, cmp, t.startA + t.count - 1, t.startB + t.count + 1, p, q);
      }
      SameCount(a, b, cmp, p, q);
      assert s1[..n] == s1[..n - 1] + [p] && s2[..n] == s2[..n - 1] + [q];
    }
  }

  /** The run of a complete list that follows a prefix of it starts at or
      after the prefix's resume point. */
  lemma {:induction false} NextRun<T>(a: seq<T>, b: seq<T>, cmp: (T, T) -> bool, s1: seq<Sequence>, s2: seq<Sequence>)
    requires Complete(a, b, cmp, s2) && |s1| < |s2| && s1 == s2[..|s1|]
    ensures Maximal(a, b, cmp, s2[|s1|])
    ensures NotBefore(ResumeA(s1), ResumeB(s1), s2[|s1|].startA, s2[|s1|].startB)
  {
    var n := |s1|;
    if n > 0 {
      assert s1[n - 1] == s2[n - 1];
    }
  }

  /** No run starts at or after a point from which nothing compares equal. */
  lemma {:induction false} NoRunAfter<T>(a: seq<T>, b: seq<T>, cmp: (T, T) -> bool, x0: int, y0: int, q: Sequence)
    requires NoMatchBetween(a, b, cmp, x0, y0, |a|, 0) && Maximal(a, b, cmp, q)
    ensures !NotBefore(x0, y0, q.startA, q.startB)
  {
    assert cmp(a[q.startA], b[q.startB + (q.startA - q.startA)]);
  }

  /** Two runs that both start at the first pair that compares equal from
      (x0, y0) on start at the same pair. */
  lemma {:induction false} SameStart<T>(a: seq<T>, b: seq<T>, cmp: (T, T) -> bool, x0: int, y0: int, p: Sequence, q: Sequence)
    requires Maximal(a, b, cmp, p) && Maximal(a, b, cmp, q)
    requires NotBefore(x0, y0, p.startA, p.startB) && NotBefore(x0, y0, q.startA, q.startB)
    requires NoMatchBetween(a, b, cmp, x0, y0, p.startA, p.startB)
    requires NoMatchBetween(a, b, cmp, x0, y0, q.startA, q.startB)
    ensures p.startA == q.startA && p.startB == q.startB
  {
    assert cmp(a[p.startA], b[p.startB + (p.startA - p.startA)]);
    assert cmp(a[q.startA], b[q.startB + (q.startA - q.startA)]);
  }

  /** Two maximal runs from the same pair have the same length. */
  lemma {:induction false} SameCount<T>(a: seq<T>, b: seq<T>, cmp: (T, T) -> bool, p: Sequence, q: Sequence)
    requires Maximal(a, b, cmp, p) && Maximal(a, b, cmp, q)
    requires p.startA == q.startA && p.startB == q.startB
    ensures p == q
  {
    if p.count < q.count {
      assert false;
    } else if q.count < p.count {
      assert false;
    }
  }
}
