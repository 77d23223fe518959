/** Sequence combinators used by several scanners: keep the elements a
    predicate accepts, or keep the values a partial function yields, in
    order. Both are defined element by element from the end, the way a loop
    that appends builds them. */
module Seqs {
  import opened Wrappers

  /** The index of the first element that fails `p`, or `|xs|` when every
      element passes. */
  function FirstFailing<T>(xs: seq<T>, p: T -> bool): (k: nat)
    ensures k <= |xs|
    ensures k < |xs| ==> !p(xs[k])
  {
    if xs == [] || !p(xs[0]) then 0 else FirstFailing(xs[1..], p) + 1
  }

  /** Every element before the first failing one passes. */
  lemma {:induction false} BeforeFirstFailing<T>(xs: seq<T>, p: T -> bool, j: nat)
    requires j < FirstFailing(xs, p)
    ensures p(xs[j])
  {
    if j > 0 {
      BeforeFirstFailing(xs[1..], p, j - 1);
    }
  }

  /** An index preceded only by passing elements, that fails itself or is the
      end, is the first failing index. */
  lemma {:induction false} FirstFailingIs<T>(xs: seq<T>, p: T -> bool, k: nat)
    requires k <= |xs|
    requires forall j :: 0 <= j < k ==> p(xs[j])
    requires k < |xs| ==> !p(xs[k])
    ensures FirstFailing(xs, p) == k
  {
    if k > 0 {
      assert p(xs[0]);
      forall j | 0 <= j < k - 1
        ensures p(xs[1..][j])
      {
        assert xs[1..][j] == xs[j + 1];
      }
      FirstFailingIs(xs[1..], p, k - 1);
    }
  }

  /** Python `[x for x in xs if keep(x)]`. */
  function Filter<T>(xs: seq<T>, keep: T -> bool): (r: seq<T>)
    ensures |r| <= |xs|
  {
    if xs == [] then []
    else Filter(xs[..|xs| - 1], keep) + if keep(xs[|xs| - 1]) then [xs[|xs| - 1]] else []
  }

  lemma {:induction false} FilterAppend<T>(a: seq<T>, b: seq<T>, keep: T -> bool)
    ensures Filter(a + b, keep) == Filter(a, keep) + Filter(b, keep)
    decreases |b|
  {
    if b == [] {
      assert a + b == a;
    } else {
      assert (a + b)[..|a + b| - 1] == a + b[..|b| - 1];
      FilterAppend(a, b[..|b| - 1], keep);
    }
  }

  /** One more element of a prefix: it is kept exactly when `keep` accepts it. */
  lemma FilterPrefixStep<T>(xs: seq<T>, i: nat, keep: T -> bool)
    requires i < |xs|
    ensures Filter(xs[..i + 1], keep) == Filter(xs[..i], keep) + if keep(xs[i]) then [xs[i]] else []
  {
    assert xs[..i + 1][..i] == xs[..i];
  }

  /** A filter that accepts every element keeps them all. */
  lemma {:induction false} FilterAll<T>(xs: seq<T>, keep: T -> bool)
    requires forall i :: 0 <= i < |xs| ==> keep(xs[i])
    ensures Filter(xs, keep) == xs
  {
    if xs != [] {
      var init := xs[..|xs| - 1];
      assert forall i :: 0 <= i < |init| ==> init[i] == xs[i];
      FilterAll(init, keep);
      assert xs == init + [xs[|xs| - 1]];
    }
  }

  /** Exactly the accepted elements survive. */
  lemma {:induction false} FilterMembers<T>(xs: seq<T>, keep: T -> bool, x: T)
    ensures x in Filter(xs, keep) <==> x in xs && keep(x)
  {
    if xs != [] {
      FilterMembers(xs[..|xs| - 1], keep, x);
      assert xs == xs[..|xs| - 1] + [xs[|xs| - 1]];
    }
  }

  /** `xs` with the values `f` yields, in order, the elements it rejects left out. */
  function FilterMap<T, U>(xs: seq<T>, f: T -> Option<U>): (r: seq<U>)
    ensures |r| <= |xs|
  {
    if xs == [] then []
    else FilterMap(xs[..|xs| - 1], f) + match f(xs[|xs| - 1]) case Some(v) => [v] case None => []
  }

  lemma {:induction false} FilterMapAppend<T, U>(a: seq<T>, b: seq<T>, f: T -> Option<U>)
    ensures FilterMap(a + b, f) == FilterMap(a, f) + FilterMap(b, f)
    decreases |b|
  {
    if b == [] {
      assert a + b == a;
    } else {
      assert (a + b)[..|a + b| - 1] == a + b[..|b| - 1];
      FilterMapAppend(a, b[..|b| - 1], f);
    }
  }

  /** One more element of a prefix: its value, if any, comes last. */
  lemma FilterMapPrefixStep<T, U>(xs: seq<T>, i: nat, f: T -> Option<U>)
    requires i < |xs|
    ensures FilterMap(xs[..i + 1], f) == FilterMap(xs[..i], f) + match f(xs[i]) case Some(v) => [v] case None => []
  {
    assert xs[..i + 1][..i] == xs[..i];
  }

  /** A value is produced exactly when some element yields it. */
  lemma FilterMapMembers<T, U>(xs: seq<T>, f: T -> Option<U>, v: U)
    ensures v in FilterMap(xs, f) <==> exists i :: 0 <= i < |xs| && f(xs[i]) == Some(v)
  {
    if v in FilterMap(xs, f) {
      var i := FilterMapSource(xs, f, v);
    }
    if exists i :: 0 <= i < |xs| && f(xs[i]) == Some(v) {
      var i :| 0 <= i < |xs| && f(xs[i]) == Some(v);
      FilterMapProduces(xs, f, i);
    }
  }

  /** Every value produced comes from some element. */
  lemma {:induction false} FilterMapSource<T, U>(xs: seq<T>, f: T -> Option<U>, v: U) returns (i: nat)
    requires v in FilterMap(xs, f)
    ensures i < |xs| && f(xs[i]) == Some(v)
  {
    var init, last := xs[..|xs| - 1], xs[|xs| - 1];
    if f(last) == Some(v) {
      i := |xs| - 1;
    } else {
      assert v in FilterMap(init, f);
      i := FilterMapSource(init, f, v);
      assert xs[i] == init[i];
    }
  }

  /** Every element that yields a value has it produced. */
  lemma {:induction false} FilterMapProduces<T, U>(xs: seq<T>, f: T -> Option<U>, i: nat)
    requires i < |xs| && f(xs[i]).Some?
    ensures f(xs[i]).value in FilterMap(xs, f)
  {
    var init, last := xs[..|xs| - 1], xs[|xs| - 1];
    if i < |init| {
      assert xs[i] == init[i];
      FilterMapProduces(init, f, i);
    }
  }

  /** The value at `x` of the output and all values before it come from a
      prefix of `xs` that ends with the element yielding it. */
  lemma {:induction false} FilterMapPrefixOf<T, U>(xs: seq<T>, f: T -> Option<U>, x: nat) returns (a: nat)
    requires x < |FilterMap(xs, f)|
    ensures a < |xs| && f(xs[a]) == Some(FilterMap(xs, f)[x])
    ensures FilterMap(xs[..a + 1], f) == FilterMap(xs, f)[..x + 1]
  {
    var init, last := xs[..|xs| - 1], xs[|xs| - 1];
    var r, p := FilterMap(xs, f), FilterMap(init, f);
    if x < |p| {
      assert r[..x + 1] == p[..x + 1];
      a := FilterMapPrefixOf(init, f, x);
      assert xs[..a + 1] == init[..a + 1];
    } else {
      a := |xs| - 1;
      assert xs[..a + 1] == xs;
      assert r[..x + 1] == r;
    }
  }

  /** `xs` with `f` applied to every element (JavaScript `map`). */
  function Map<T, U>(xs: seq<T>, f: T -> U): (r: seq<U>)
    ensures |r| == |xs| && forall i :: 0 <= i < |xs| ==> r[i] == f(xs[i])
  {
    seq(|xs|, i requires 0 <= i < |xs| => f(xs[i]))
  }

  lemma MapSnoc<T, U>(xs: seq<T>, x: T, f: T -> U)
    ensures Map(xs + [x], f) == Map(xs, f) + [f(x)]
  {
  }

  /** One more element of a prefix gains its image at the end. */
  lemma MapPrefixStep<T, U>(xs: seq<T>, i: nat, f: T -> U)
    requires i < |xs|
    ensures Map(xs[..i + 1], f) == Map(xs[..i], f) + [f(xs[i])]
  {
    assert xs[..i + 1] == xs[..i] + [xs[i]];
    MapSnoc(xs[..i], xs[i], f);
  }

  /** `sub` is `xs` with some elements left out, the rest in their order. */
  predicate IsSubsequence<T(==)>(sub: seq<T>, xs: seq<T>) {
    sub == [] || (xs != [] && (if sub[0] == xs[0] then IsSubsequence(sub[1..], xs[1..]) else IsSubsequence(sub, xs[1..])))
  }

  lemma {:induction false} SubsequenceSnoc<T>(sub: seq<T>, xs: seq<T>, t: T)
    requires IsSubsequence(sub, xs)
    ensures IsSubsequence(sub, xs + [t])
    ensures IsSubsequence(sub + [t], xs + [t])
    decreases |xs|
  {
    if xs == [] {
      assert sub == [];
      assert [t][1..] == [];
    } else if sub == [] {
      SubsequenceSnoc(sub, xs[1..], t);
      assert (xs + [t])[1..] == xs[1..] + [t];
      assert [t] == sub + [t];
    } else {
      assert (xs + [t])[1..] == xs[1..] + [t];
      assert (sub + [t])[0] == sub[0];
      if sub[0] == xs[0] {
        SubsequenceSnoc(sub[1..], xs[1..], t);
        assert (sub + [t])[1..] == sub[1..] + [t];
      } else {
        SubsequenceSnoc(sub, xs[1..], t);
      }
    }
  }

  /** What a filter keeps is a subsequence of its input. */
  lemma {:induction false} FilterSubsequence<T>(xs: seq<T>, keep: T -> bool)
    ensures IsSubsequence(Filter(xs, keep), xs)
  {
    if xs != [] {
      var init, last := xs[..|xs| - 1], xs[|xs| - 1];
      FilterSubsequence(init, keep);
      assert xs == init + [last];
      SubsequenceSnoc(Filter(init, keep), init, last);
      if keep(last) {
        assert Filter(xs, keep) == Filter(init, keep) + [last];
      } else {
        assert Filter(xs, keep) == Filter(init, keep);
      }
    }
  }
  /** Filtering a sequence that starts with `x`. */
  lemma FilterCons<T>(x: T, xs: seq<T>, keep: T -> bool)
    ensures Filter([x] + xs, keep) == (if keep(x) then [x] else []) + Filter(xs, keep)
  {
    var one := [x];
    assert one[..|one| - 1] == [] && one[|one| - 1] == x;
    assert Filter(one, keep) == (if keep(x) then [x] else []);
    FilterAppend(one, xs, keep);
  }

  predicate NoDuplicates<T(==)>(s: seq<T>) {
    forall i, j :: 0 <= i < j < |s| ==> s[i] != s[j]
  }

  /** An element of a sequence without repetitions occurs at most once. */
  lemma {:induction false} NoDuplicatesCount<T>(s: seq<T>, x: T)
    requires NoDuplicates(s)
    ensures multiset(s)[x] <= 1
  {
    if s != [] {
      var init := s[..|s| - 1];
      assert s == init + [s[|s| - 1]];
      NoDuplicatesCount(init, x);
      if x == s[|s| - 1] {
        assert x !in init;
      }
    }
  }

  /** Two equal elements at different places are two occurrences. */
  lemma TwoCopies<T>(s: seq<T>, i: nat, j: nat)
    requires i < j < |s| && s[i] == s[j]
    ensures multiset(s)[s[i]] >= 2
  {
    assert s == s[..j] + [s[j]] + s[j + 1..];
    assert s[..j][i] == s[i];
  }

  /** A rearrangement of a sequence without repetitions has none. */
  lemma NoDuplicatesPermutation<T>(a: seq<T>, b: seq<T>)
    requires NoDuplicates(a) && multiset(a) == multiset(b)
    ensures NoDuplicates(b)
  {
    forall i, j | 0 <= i < j < |b| ensures b[i] != b[j] {
      if b[i] == b[j] {
        TwoCopies(b, i, j);
      }
      NoDuplicatesCount(a, b[i]);
    }
  }

  /** Python's `unique` loop: the elements of `xs` without repetitions, each
      kept where it first occurs. */
  function Dedup<T(==,!new)>(xs: seq<T>): (r: seq<T>)
    ensures NoDuplicates(r)
    ensures forall x :: x in r <==> x in xs
  {
    if xs == [] then []
    else
      var init, last := xs[..|xs| - 1], xs[|xs| - 1];
      assert xs == init + [last];
      var d := Dedup(init);
      if last in d then d else d + [last]
  }

  /** De-duplication keeps the order of first appearance: of two kept
      elements, the earlier one occurs in `xs` before the later one first
      does. */
  lemma {:induction false} DedupFirstSeen<T(!new)>(xs: seq<T>, i: nat, j: nat)
    requires i < j < |Dedup(xs)|
    ensures exists a :: 0 <= a < |xs| && xs[a] == Dedup(xs)[i] && Dedup(xs)[j] !in xs[..a + 1]
  {
    var init, last := xs[..|xs| - 1], xs[|xs| - 1];
    var d := Dedup(init);
    if j < |d| {
      DedupFirstSeen(init, i, j);
      var a :| 0 <= a < |init| && init[a] == d[i] && d[j] !in init[..a + 1];
      assert xs[..a + 1] == init[..a + 1];
      assert xs[a] == init[a];
    } else {
      assert Dedup(xs) == d + [last] && Dedup(xs)[j] == last && last !in init;
      assert d[i] in init;
      var a :| 0 <= a < |init| && init[a] == d[i];
      assert xs[..a + 1] == init[..a + 1];
      assert xs[a] == init[a];
    }
  }

  /** What de-duplication keeps is a subsequence of its input. */
  lemma {:induction false} DedupSubsequence<T(!new)>(xs: seq<T>)
    ensures IsSubsequence(Dedup(xs), xs)
  {
    if xs != [] {
      var init, last := xs[..|xs| - 1], xs[|xs| - 1];
      assert xs == init + [last];
      DedupSubsequence(init);
      SubsequenceSnoc(Dedup(init), init, last);
    }
  }

  /** The sequences of `xss` one after the other. */
  function Flatten<T>(xss: seq<seq<T>>): seq<T> {
    if xss == [] then [] else Flatten(xss[..|xss| - 1]) + xss[|xss| - 1]
  }

  /** Blocks of `n` elements each flatten to `n` elements per block. */
  lemma {:induction false} FlattenUniformLength<T>(xss: seq<seq<T>>, n: nat)
    requires forall i :: 0 <= i < |xss| ==> |xss[i]| == n
    ensures |Flatten(xss)| == n * |xss|
  {
    if xss != [] {
      var init := xss[..|xss| - 1];
      assert forall i :: 0 <= i < |init| ==> init[i] == xss[i];
      FlattenUniformLength(init, n);
      assert n * |xss| == n * |init| + n;
    }
  }

  /** In blocks of `n` elements each, element `k` of block `i` lands at
      position `n * i + k` of the flattened sequence. */
  lemma {:induction false} FlattenUniformAt<T>(xss: seq<seq<T>>, n: nat, i: nat, k: nat)
    requires forall j :: 0 <= j < |xss| ==> |xss[j]| == n
    requires i < |xss| && k < n
    ensures n * i + k < |Flatten(xss)| && Flatten(xss)[n * i + k] == xss[i][k]
  {
    var init, last := xss[..|xss| - 1], xss[|xss| - 1];
    var m := |init|;
    assert forall j :: 0 <= j < m ==> init[j] == xss[j];
    FlattenUniformLength(init, n);
    assert Flatten(xss) == Flatten(init) + last;
    if i < m {
      FlattenUniformAt(init, n, i, k);
    } else {
      assert n * i + k == |Flatten(init)| + k;
    }
  }

  lemma {:induction false} FlattenAppend<T>(a: seq<seq<T>>, b: seq<seq<T>>)
    ensures Flatten(a + b) == Flatten(a) + Flatten(b)
    decreases |b|
  {
    if b == [] {
      assert a + b == a;
    } else {
      var init, last := b[..|b| - 1], b[|b| - 1];
      assert (a + b)[..|a + b| - 1] == a + init && (a + b)[|a + b| - 1] == last;
      FlattenAppend(a, init);
      Associative(Flatten(a), Flatten(init), last);
    }
  }

  /** Regrouping an append; named so that a proof can ask for it. */
  lemma Associative<T>(a: seq<T>, b: seq<T>, c: seq<T>)
    ensures a + (b + c) == (a + b) + c
  {
  }

  /** Two elements appended one at a time extend the second part. */
  lemma SnocTwice<T>(a: seq<T>, b: seq<T>, x: T, y: T)
    ensures a + b + [x] + [y] == a + (b + [x, y])
  {
  }

  /** Mapping one more element adds its image at the end of the flattening. */
  lemma FlattenMapPrefixStep<T, U>(xs: seq<T>, i: nat, f: T -> seq<U>)
    requires i < |xs|
    ensures Flatten(Map(xs[..i + 1], f)) == Flatten(Map(xs[..i], f)) + f(xs[i])
  {
    MapPrefixStep(xs, i, f);
    var m := Map(xs[..i + 1], f);
    assert m[..|m| - 1] == Map(xs[..i], f);
  }

  /** `p` holds of every element together with its 1-based position. */
  predicate AllNumbered<T>(xs: seq<T>, p: (T, int) -> bool) {
    forall i :: 0 <= i < |xs| ==> p(xs[i], i + 1)
  }

  lemma AllNumberedSnoc<T>(xs: seq<T>, p: (T, int) -> bool)
    requires xs != []
    ensures AllNumbered(xs, p) <==> AllNumbered(xs[..|xs| - 1], p) && p(xs[|xs| - 1], |xs|)
  {
    var init := xs[..|xs| - 1];
    assert forall i :: 0 <= i < |init| ==> init[i] == xs[i];
  }

  /** `xs` cut into runs, each run ending at the first element `ends`
      accepts; the last run may be left open. */
  function Chunks<T>(xs: seq<T>, ends: T -> bool): seq<seq<T>> {
    if xs == [] then []
    else
      var g, x := Chunks(xs[..|xs| - 1], ends), xs[|xs| - 1];
      if g != [] && !ends(g[|g| - 1][|g[|g| - 1]| - 1]) then g[..|g| - 1] + [g[|g| - 1] + [x]]
      else g + [[x]]
  }

  /** Every run is non-empty; a run ends at its first accepted element, and
      only the last run may lack one. */
  predicate ChunkShaped<T>(r: seq<seq<T>>, ends: T -> bool) {
    (forall i :: 0 <= i < |r| ==> r[i] != [])
    && (forall i, j :: 0 <= i < |r| && 0 <= j < |r[i]| - 1 ==> !ends(r[i][j]))
    && (forall i :: 0 <= i < |r| - 1 ==> r[i] != [] && ends(r[i][|r[i]| - 1]))
  }

  /** Adding an element to an open last run keeps the shape. */
  lemma ShapedExtend<T>(g: seq<seq<T>>, x: T, ends: T -> bool)
    requires ChunkShaped(g, ends) && g != [] && !ends(g[|g| - 1][|g[|g| - 1]| - 1])
    ensures ChunkShaped(g[..|g| - 1] + [g[|g| - 1] + [x]], ends)
  {
    var last := g[|g| - 1];
    var r := g[..|g| - 1] + [last + [x]];
    forall i, j | 0 <= i < |r| && 0 <= j < |r[i]| - 1 ensures !ends(r[i][j]) {
      if i < |g| - 1 {
        assert r[i] == g[i];
      } else {
        assert r[i][j] == last[j];
      }
    }
    forall i | 0 <= i < |r| - 1 ensures r[i] != [] && ends(r[i][|r[i]| - 1]) {
      assert r[i] == g[i];
    }
  }

  /** Starting a new run after a closed one keeps the shape. */
  lemma ShapedStart<T>(g: seq<seq<T>>, x: T, ends: T -> bool)
    requires ChunkShaped(g, ends) && (g == [] || ends(g[|g| - 1][|g[|g| - 1]| - 1]))
    ensures ChunkShaped(g + [[x]], ends)
  {
    var r := g + [[x]];
    forall i, j | 0 <= i < |r| && 0 <= j < |r[i]| - 1 ensures !ends(r[i][j]) {
      assert i < |g| && r[i] == g[i];
    }
    forall i | 0 <= i < |r| - 1 ensures r[i] != [] && ends(r[i][|r[i]| - 1]) {
      assert r[i] == g[i];
    }
  }

  lemma {:induction false} ChunksShape<T>(xs: seq<T>, ends: T -> bool)
    ensures ChunkShaped(Chunks(xs, ends), ends)
  {
    if xs != [] {
      var g, x := Chunks(xs[..|xs| - 1], ends), xs[|xs| - 1];
      ChunksShape(xs[..|xs| - 1], ends);
      if g != [] && !ends(g[|g| - 1][|g[|g| - 1]| - 1]) {
        ShapedExtend(g, x, ends);
      } else {
        ShapedStart(g, x, ends);
      }
    }
  }

  /** The last of the runs `done`, if any, is closed by an accepted element. */
  predicate LastClosed<T>(done: seq<seq<T>>, ends: T -> bool) {
    done == [] || (done[|done| - 1] != [] && ends(done[|done| - 1][|done[|done| - 1]| - 1]))
  }

  /** The run `open` is empty or still open. */
  predicate StillOpen<T>(open: seq<T>, ends: T -> bool) {
    open == [] || !ends(open[|open| - 1])
  }

  /** One more element: it joins the open run, or starts a run of its own
      after a closed one. */
  lemma ChunksStep<T>(xs: seq<T>, x: T, ends: T -> bool, done: seq<seq<T>>, open: seq<T>)
    requires Chunks(xs, ends) == done + (if open == [] then [] else [open])
    requires LastClosed(done, ends) && StillOpen(open, ends)
    ensures Chunks(xs + [x], ends) == done + [open + [x]]
  {
    var ys := xs + [x];
    assert ys[..|ys| - 1] == xs && ys[|ys| - 1] == x;
    var g := Chunks(xs, ends);
    assert Chunks(ys, ends) == if g != [] && !ends(g[|g| - 1][|g[|g| - 1]| - 1]) then g[..|g| - 1] + [g[|g| - 1] + [x]] else g + [[x]];
    if open != [] {
      assert g == done + [open];
      assert g[|g| - 1] == open;
      assert g[..|g| - 1] == done;
    } else {
      assert g == done;
      assert open + [x] == [x];
    }
  }

  /** `ChunksStep` for a loop over the prefixes of `xs`. */
  lemma ChunksPrefixStep<T>(xs: seq<T>, i: nat, ends: T -> bool, done: seq<seq<T>>, open: seq<T>)
    requires i < |xs|
    requires Chunks(xs[..i], ends) == done + (if open == [] then [] else [open])
    requires LastClosed(done, ends) && StillOpen(open, ends)
    ensures Chunks(xs[..i + 1], ends) == done + [open + [xs[i]]]
  {
    assert xs[..i + 1] == xs[..i] + [xs[i]];
    ChunksStep(xs[..i], xs[i], ends, done, open);
  }

  /** Appending to the last sequence appends to the flattening. */
  lemma FlattenExtendLast<T>(init: seq<seq<T>>, last: seq<T>, x: T)
    ensures Flatten(init + [last + [x]]) == Flatten(init + [last]) + [x]
  {
    assert (init + [last + [x]])[..|init|] == init;
    assert (init + [last])[..|init|] == init;
    Associative(Flatten(init), last, [x]);
  }

  /** A new one-element sequence at the end is one more element. */
  lemma FlattenSnocOne<T>(g: seq<seq<T>>, x: T)
    ensures Flatten(g + [[x]]) == Flatten(g) + [x]
  {
    assert (g + [[x]])[..|g|] == g;
  }

  /** Cutting into runs keeps every element, in order. */
  lemma {:induction false} ChunksFlatten<T>(xs: seq<T>, ends: T -> bool)
    ensures Flatten(Chunks(xs, ends)) == xs
  {
    if xs != [] {
      var ys, x := xs[..|xs| - 1], xs[|xs| - 1];
      ChunksFlatten(ys, ends);
      var g := Chunks(ys, ends);
      if g != [] && !ends(g[|g| - 1][|g[|g| - 1]| - 1]) {
        assert g[..|g| - 1] + [g[|g| - 1]] == g;
        FlattenExtendLast(g[..|g| - 1], g[|g| - 1], x);
      } else {
        FlattenSnocOne(g, x);
      }
      assert xs == ys + [x];
    }
  }
}
