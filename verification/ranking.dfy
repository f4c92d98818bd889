/** `get_similar_tags`: pair every class with its probability, sort the
    pairs by probability from high to low (stably, so equal probabilities
    keep the class order), and keep the first `top_k`. */
module Ranking {
  import opened Outcomes
  import opened Corpus
  import opened TextClean
  import opened Classify

  /** One `(class, probability)` tuple */
  datatype Scored = Scored(tag: Label, prob: real)

  function Min(a: int, b: int): int {
    if a <= b then a else b
  }

  function Max(a: int, b: int): int {
    if a >= b then a else b
  }

  /** `list(zip(classes, probabilities))`: as long as the shorter input */
  function Zip(classes: seq<Label>, probs: seq<real>): (r: seq<Scored>)
    ensures |r| == Min(|classes|, |probs|)
    ensures forall i :: 0 <= i < |r| ==> r[i] == Scored(classes[i], probs[i])
  {
    seq(Min(|classes|, |probs|), i requires 0 <= i < Min(|classes|, |probs|) => Scored(classes[i], probs[i]))
  }

  /** The class of every pair, in order */
  function TagsOf(s: seq<Scored>): (r: seq<Label>)
    ensures |r| == |s| && forall i :: 0 <= i < |s| ==> r[i] == s[i].tag
  {
    seq(|s|, i requires 0 <= i < |s| => s[i].tag)
  }

  /** Probabilities never increase along `s` */
  ghost predicate Sorted(s: seq<Scored>) {
    forall i, j :: 0 <= i < j < |s| ==> s[i].prob >= s[j].prob
  }

  /** `[x]` when `x` has probability `p`, else nothing */
  function Keep(x: Scored, p: real): seq<Scored> {
    if x.prob == p then [x] else []
  }

  /** The pairs of `s` with probability `p`, in their order in `s` */
  function WithProb(s: seq<Scored>, p: real): seq<Scored>
  {
    if |s| == 0 then [] else Keep(s[0], p) + WithProb(s[1..], p)
  }

  /** Puts `x` in front of the first pair that is not more probable */
  function Insert(x: Scored, t: seq<Scored>): (r: seq<Scored>)
    ensures |r| == |t| + 1
    ensures multiset(r) == multiset(t) + multiset{x}
  {
    if |t| == 0 then [x]
    else if x.prob >= t[0].prob then [x] + t
    else
      assert t == [t[0]] + t[1..];
      [t[0]] + Insert(x, t[1..])
  }

  /** `list.sort(key=lambda x: x[1], reverse=True)` as a stable insertion sort */
  function SortDesc(s: seq<Scored>): (r: seq<Scored>)
    ensures |r| == |s|
    ensures multiset(r) == multiset(s)
    ensures Sorted(r)
  {
    if |s| == 0 then []
    else
      assert s == [s[0]] + s[1..];
      InsertSorted(s[0], SortDesc(s[1..]));
      Insert(s[0], SortDesc(s[1..]))
  }

  lemma {:induction false} InsertSorted(x: Scored, t: seq<Scored>)
    requires Sorted(t)
    ensures Sorted(Insert(x, t))
    decreases |t|
  {
    if |t| > 0 && x.prob < t[0].prob {
      InsertSorted(x, t[1..]);
      var r := Insert(x, t);
      assert r == [t[0]] + Insert(x, t[1..]);
      forall j | 1 <= j < |r|
        ensures r[0].prob >= r[j].prob
      {
        assert r[j] in multiset(Insert(x, t[1..]));
        assert r[j] == x || r[j] in t[1..];
      }
    }
  }

  /** `s[:k]` in Python: a negative `k` counts from the end */
  function Take<T>(s: seq<T>, k: int): (r: seq<T>)
    ensures k >= 0 ==> |r| == Min(k, |s|)
    ensures k < 0 ==> |r| == Max(0, |s| + k)
    ensures r == s[..|r|]
  {
    if k >= 0 then s[..Min(k, |s|)] else s[..Max(0, |s| + k)]
  }

  /** The answer when anything fails */
  const Fallback: seq<Scored> := [Scored(Other, 1.0)]

  /** `get_similar_tags` once the pipeline has been asked for probabilities */
  function SimilarTags(out: Outcome<Posterior>, topK: int): (r: seq<Scored>)
    ensures out.Raised? ==> r == Fallback
    ensures out.Returned? ==>
              var n := Min(|out.value.classes|, |out.value.probs|);
              |r| == if topK >= 0 then Min(topK, n) else Max(0, n + topK)
    ensures out.Returned? ==> multiset(r) <= multiset(Zip(out.value.classes, out.value.probs))
    ensures Sorted(r)
  {
    match out
    case Raised => Fallback
    case Returned(p) =>
      var t := SortDesc(Zip(p.classes, p.probs));
      var r := Take(t, topK);
      assert t == r + t[|r|..];
      r
  }

  /** `get_similar_tags`: the pipeline sees the cleaned text */
  function GetSimilarTags(u: CharClasses, pipeline: string -> Outcome<Posterior>,
                          text: string, topK: int): (r: seq<Scored>)
    ensures var out := pipeline(CleanText(u, text));
            out.Raised? ==> r == Fallback
    ensures var out := pipeline(CleanText(u, text));
            out.Returned? ==> multiset(r) <= multiset(Zip(out.value.classes, out.value.probs))
    ensures Sorted(r)
  {
    SimilarTags(pipeline(CleanText(u, text)), topK)
  }

  /** The default of the `top_k` parameter */
  const DefaultTopK: int := 3

  /** `get_similar_tags(text)` without `top_k`: at most three pairs, and
      exactly three when the pipeline answers with three classes or more */
  function GetSimilarTagsDefault(u: CharClasses, pipeline: string -> Outcome<Posterior>,
                                 text: string): (r: seq<Scored>)
    ensures |r| <= DefaultTopK
    ensures var out := pipeline(CleanText(u, text));
            out.Returned? && |out.value.classes| >= DefaultTopK && |out.value.probs| >= DefaultTopK ==>
              |r| == DefaultTopK
  {
    GetSimilarTags(u, pipeline, text, DefaultTopK)
  }

  // ---------------------------------------------------------------------------
  // Stability
  // ---------------------------------------------------------------------------

  lemma WithProbCons(s: seq<Scored>, p: real)
    requires |s| > 0
    ensures WithProb(s, p) == Keep(s[0], p) + WithProb(s[1..], p)
  {
  }

  lemma {:induction false} WithProbAppend(a: seq<Scored>, b: seq<Scored>, p: real)
    ensures WithProb(a + b, p) == WithProb(a, p) + WithProb(b, p)
    decreases |a|
  {
    if |a| == 0 {
      assert a + b == b;
    } else {
      assert (a + b)[0] == a[0] && (a + b)[1..] == a[1..] + b;
      WithProbAppend(a[1..], b, p);
      WithProbCons(a + b, p);
      WithProbCons(a, p);
    }
  }

  lemma {:induction false} WithProbMember(s: seq<Scored>, p: real, x: Scored)
    ensures x in WithProb(s, p) <==> x in s && x.prob == p
    decreases |s|
  {
    if |s| > 0 {
      WithProbMember(s[1..], p, x);
      WithProbCons(s, p);
      assert s == [s[0]] + s[1..];
    }
  }

  lemma SortedTail(t: seq<Scored>)
    requires Sorted(t) && |t| > 0
    ensures Sorted(t[1..])
  {
    forall i, j | 0 <= i < j < |t| - 1
      ensures t[1..][i].prob >= t[1..][j].prob
    {
      assert t[1..][i] == t[i + 1] && t[1..][j] == t[j + 1];
    }
  }

  /** Inserting into a sorted list puts `x` before every pair of the same
      probability */
  lemma {:induction false} InsertWithProb(x: Scored, t: seq<Scored>, p: real)
    requires Sorted(t)
    ensures WithProb(Insert(x, t), p) == Keep(x, p) + WithProb(t, p)
    decreases |t|
  {
    if |t| == 0 {
      WithProbCons(Insert(x, t), p);
      assert Insert(x, t)[1..] == [];
    } else if x.prob >= t[0].prob {
      WithProbCons(Insert(x, t), p);
      assert Insert(x, t)[1..] == t;
    } else {
      SortedTail(t);
      InsertWithProb(x, t[1..], p);
      InsertWithProbStep(x, t, p);
    }
  }

  /** One step of `InsertWithProb`: `x` goes past the head of `t` */
  lemma InsertWithProbStep(x: Scored, t: seq<Scored>, p: real)
    requires |t| > 0 && x.prob < t[0].prob
    requires WithProb(Insert(x, t[1..]), p) == Keep(x, p) + WithProb(t[1..], p)
    ensures WithProb(Insert(x, t), p) == Keep(x, p) + WithProb(t, p)
  {
    var r := Insert(x, t);
    assert r[0] == t[0] && r[1..] == Insert(x, t[1..]);
    WithProbCons(r, p);
    WithProbCons(t, p);
    KeepSwap(t[0], x, p, WithProb(t[1..], p));
  }

  /** Two pairs of different probability can be listed in either order */
  lemma KeepSwap(a: Scored, b: Scored, p: real, w: seq<Scored>)
    requires a.prob != b.prob
    ensures Keep(a, p) + (Keep(b, p) + w) == Keep(b, p) + (Keep(a, p) + w)
  {
    if a.prob == p {
      assert Keep(b, p) == [];
    } else {
      assert Keep(a, p) == [];
    }
  }

  /** The sort is stable: for every probability, the pairs that have it
      come out in the order they went in */
  lemma {:induction false} SortDescStable(s: seq<Scored>, p: real)
    ensures WithProb(SortDesc(s), p) == WithProb(s, p)
    decreases |s|
  {
    if |s| > 0 {
      SortDescStable(s[1..], p);
      InsertWithProb(s[0], SortDesc(s[1..]), p);
      WithProbCons(s, p);
    }
  }

  /** The first pair of a list is among its pairs of the first probability */
  lemma WithProbHead(s: seq<Scored>)
    requires |s| > 0
    ensures WithProb(s, s[0].prob) == [s[0]] + WithProb(s[1..], s[0].prob)
  {
    WithProbCons(s, s[0].prob);
  }

  /** Lists with the same pairs of each probability are both empty or both
      not */
  lemma SameWithProbEmpty(a: seq<Scored>, b: seq<Scored>)
    requires |a| == 0 || |b| == 0
    requires forall p :: WithProb(a, p) == WithProb(b, p)
    ensures |a| == 0 && |b| == 0
  {
    if |a| > 0 {
      WithProbHead(a);
      assert false;
    } else if |b| > 0 {
      WithProbHead(b);
      assert false;
    }
  }

  /** Sorted lists with the same pairs of each probability start alike */
  lemma SortedHeads(a: seq<Scored>, b: seq<Scored>)
    requires Sorted(a) && Sorted(b) && |a| > 0 && |b| > 0
    requires forall p :: WithProb(a, p) == WithProb(b, p)
    ensures a[0] == b[0]
  {
    var pa, pb := a[0].prob, b[0].prob;
    WithProbMember(a, pa, a[0]);
    WithProbMember(b, pa, a[0]);
    var i :| 0 <= i < |b| && b[i] == a[0];
    WithProbMember(b, pb, b[0]);
    WithProbMember(a, pb, b[0]);
    var j :| 0 <= j < |a| && a[j] == b[0];
    assert pa == pb;
    WithProbHead(a);
    WithProbHead(b);
    assert WithProb(a, pa)[0] == a[0] && WithProb(b, pa)[0] == b[0];
  }

  /** Lists that start alike and have the same pairs of each probability
      keep doing so past their first pair */
  lemma SameWithProbTails(a: seq<Scored>, b: seq<Scored>)
    requires |a| > 0 && |b| > 0 && a[0] == b[0]
    requires forall p :: WithProb(a, p) == WithProb(b, p)
    ensures forall p :: WithProb(a[1..], p) == WithProb(b[1..], p)
  {
    forall p
      ensures WithProb(a[1..], p) == WithProb(b[1..], p)
    {
      var xs := Keep(a[0], p);
      WithProbCons(a, p);
      WithProbCons(b, p);
      assert WithProb(a[1..], p) == WithProb(a, p)[|xs|..];
      assert WithProb(b[1..], p) == WithProb(b, p)[|xs|..];
    }
  }

  /** A sorted list is determined by its pairs of each probability: so any
      stable sort by decreasing probability, Python's included, gives
      `SortDesc` */
  lemma {:induction false} SortedUnique(a: seq<Scored>, b: seq<Scored>)
    requires Sorted(a) && Sorted(b)
    requires forall p :: WithProb(a, p) == WithProb(b, p)
    ensures a == b
    decreases |a|
  {
    if |a| == 0 || |b| == 0 {
      SameWithProbEmpty(a, b);
    } else {
      SortedHeads(a, b);
      SameWithProbTails(a, b);
      SortedTail(a);
      SortedTail(b);
      SortedUnique(a[1..], b[1..]);
      assert a == [a[0]] + a[1..] && b == [b[0]] + b[1..];
    }
  }

  lemma SortDescUnique(s: seq<Scored>, t: seq<Scored>)
    requires Sorted(t) && forall p :: WithProb(t, p) == WithProb(s, p)
    ensures t == SortDesc(s)
  {
    forall p
      ensures WithProb(t, p) == WithProb(SortDesc(s), p)
    {
      SortDescStable(s, p);
    }
    SortedUnique(t, SortDesc(s));
  }

  // ---------------------------------------------------------------------------
  // What the caller gets
  // ---------------------------------------------------------------------------

  /** In a sorted list, nothing after the first `n` pairs is more probable
      than any of them */
  lemma PrefixDominates(t: seq<Scored>, n: nat)
    requires Sorted(t) && n <= |t|
    ensures forall x: Scored, i :: x in multiset(t) - multiset(t[..n]) && 0 <= i < n ==> x.prob <= t[i].prob
  {
    var rest := t[n..];
    assert t == t[..n] + rest;
    assert multiset(t) - multiset(t[..n]) == multiset(rest);
    forall x: Scored, i | x in multiset(rest) && 0 <= i < n
      ensures x.prob <= t[i].prob
    {
      var j :| 0 <= j < |rest| && rest[j] == x;
      assert t[n + j] == x;
    }
  }

  /** The answer holds the most probable pairs: every pair left out is no
      more probable than any pair kept */
  lemma SimilarTagsTopK(p: Posterior, topK: int)
    ensures var z := Zip(p.classes, p.probs);
            var r := SimilarTags(Returned(p), topK);
            forall x: Scored, i :: x in multiset(z) - multiset(r) && 0 <= i < |r| ==> x.prob <= r[i].prob
  {
    var t := SortDesc(Zip(p.classes, p.probs));
    var r := SimilarTags(Returned(p), topK);
    assert r == t[..|r|];
    PrefixDominates(t, |r|);
  }

  /** The pairs of one probability in a prefix are a prefix of that
      probability's pairs in the whole list */
  lemma PrefixWithProb(t: seq<Scored>, n: nat, q: real)
    requires n <= |t|
    ensures |WithProb(t[..n], q)| <= |WithProb(t, q)|
    ensures WithProb(t[..n], q) == WithProb(t, q)[..|WithProb(t[..n], q)|]
  {
    assert t == t[..n] + t[n..];
    WithProbAppend(t[..n], t[n..], q);
  }

  /** Among pairs of equal probability, the ones kept are the first in
      class order */
  lemma SimilarTagsKeepOrder(p: Posterior, topK: int, q: real)
    ensures var z := Zip(p.classes, p.probs);
            var r := SimilarTags(Returned(p), topK);
            |WithProb(r, q)| <= |WithProb(z, q)| &&
            WithProb(r, q) == WithProb(z, q)[..|WithProb(r, q)|]
  {
    var z := Zip(p.classes, p.probs);
    var t := SortDesc(z);
    var r := SimilarTags(Returned(p), topK);
    assert r == t[..|r|];
    PrefixWithProb(t, |r|, q);
    SortDescStable(z, q);
  }

  /** Tags are distinct, so a pair occurs at most once */
  lemma {:induction false} DistinctCount(s: seq<Scored>, x: Scored)
    requires Distinct(TagsOf(s))
    ensures multiset(s)[x] <= 1
    decreases |s|
  {
    if |s| > 0 {
      assert TagsOf(s[1..]) == TagsOf(s)[1..];
      DistinctCount(s[1..], x);
      assert s == [s[0]] + s[1..];
      if x == s[0] {
        assert x !in s[1..];
      }
    }
  }

  lemma RepeatedCount(r: seq<Scored>, i: nat, j: nat)
    requires i < j < |r| && r[i] == r[j]
    ensures multiset(r)[r[j]] >= 2
  {
    assert r == r[..j] + [r[j]] + r[j + 1..];
    assert r[i] in r[..j];
  }

  /** Pairs drawn without repetition from a list with distinct tags have
      distinct tags */
  lemma SubDistinct(r: seq<Scored>, z: seq<Scored>, i: nat, j: nat)
    requires multiset(r) <= multiset(z)
    requires Distinct(TagsOf(z))
    requires i < j < |r|
    ensures r[i].tag != r[j].tag
  {
    if r[i].tag == r[j].tag {
      assert r[i] in multiset(z) && r[j] in multiset(z);
      var a :| 0 <= a < |z| && z[a] == r[i];
      var b :| 0 <= b < |z| && z[b] == r[j];
      assert TagsOf(z)[a] == TagsOf(z)[b];
      assert r[i] == r[j];
      RepeatedCount(r, i, j);
      DistinctCount(z, r[j]);
      assert false;
    }
  }

  /** When the classes are distinct (as `classes_` of a fitted pipeline
      are), no class appears twice in the answer */
  lemma SimilarTagsDistinct(p: Posterior, topK: int)
    requires Distinct(p.classes)
    ensures Distinct(TagsOf(SimilarTags(Returned(p), topK)))
  {
    var z := Zip(p.classes, p.probs);
    var r := SimilarTags(Returned(p), topK);
    assert TagsOf(z) == p.classes[..|z|];
    forall i, j | 0 <= i < j < |r|
      ensures TagsOf(r)[i] != TagsOf(r)[j]
    {
      SubDistinct(r, z, i, j);
    }
  }

  /** With a pipeline fitted on the training set, every tag in the answer
      is one of the seven topics or the overflow tag */
  lemma GetSimilarTagsTags(u: CharClasses, pipeline: string -> Outcome<Posterior>, text: string, topK: int)
    requires forall t :: FittedOnCorpus(pipeline(t))
    ensures forall x :: x in GetSimilarTags(u, pipeline, text, topK) ==> x.tag in Tags
  {
    TrainingLabels();
    var out := pipeline(CleanText(u, text));
    var r := GetSimilarTags(u, pipeline, text, topK);
    forall x | x in r
      ensures x.tag in Tags
    {
      if out.Returned? {
        var z := Zip(out.value.classes, out.value.probs);
        assert x in multiset(z);
        var i :| 0 <= i < |z| && z[i] == x;
        assert x.tag == out.value.classes[i];
      }
    }
  }
}
